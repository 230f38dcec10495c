/**
 * The title of a post: the `title` group of the first match of H1_PATTERN,
 *   ^#[^\S\r\n]+(?P<title>(\S+[^\S\r\n]*)+)\n   (MULTILINE)
 * With MULTILINE, `^` holds at the start of the text and after every '\n', so
 * the search is a scan over line starts; the first line on which the pattern
 * matches gives the title.
 */
module H1Title {
  import opened Options
  import opened PyChars

  /** `^` under MULTILINE: i is the start of the text or follows a '\n'. */
  predicate LineStart(s: string, i: nat)
  {
    i == 0 || (0 < i <= |s| && s[i - 1] == '\n')
  }

  /** The first '\n' at or after i, or |s| when the line is the last one. */
  function LineEnd(s: string, i: nat): (j: nat)
    requires i <= |s|
    ensures i <= j <= |s|
    ensures forall p :: i <= p < j ==> s[p] != '\n'
    ensures j < |s| ==> s[j] == '\n'
    decreases |s| - i
  {
    if i == |s| || s[i] == '\n' then i else LineEnd(s, i + 1)
  }

  /** The end of the run of `[^\S\r\n]` characters that starts at i. */
  function LineSpaceEnd(s: string, i: nat): (j: nat)
    requires i <= |s|
    ensures i <= j <= |s|
    ensures forall p :: i <= p < j ==> IsLineSpace(s[p])
    ensures j < |s| ==> !IsLineSpace(s[j])
    decreases |s| - i
  {
    if i < |s| && IsLineSpace(s[i]) then LineSpaceEnd(s, i + 1) else i
  }

  /** The end of the run of characters other than '\r' and '\n' that starts at i. */
  function TextEnd(s: string, i: nat): (j: nat)
    requires i <= |s|
    ensures i <= j <= |s|
    ensures forall p :: i <= p < j ==> s[p] != '\r' && s[p] != '\n'
    ensures j < |s| ==> s[j] == '\r' || s[j] == '\n'
    decreases |s| - i
  {
    if i < |s| && s[i] != '\r' && s[i] != '\n' then TextEnd(s, i + 1) else i
  }

  /** What a title captured by the pattern looks like. */
  ghost predicate TitleShape(t: string)
  {
    |t| > 0 && !IsSpace(t[0]) && forall p :: 0 <= p < |t| ==> t[p] != '\r' && t[p] != '\n'
  }

  /**
   * The pattern applied at position i: '#', one or more `[^\S\r\n]`, then a
   * title that starts with a non-space and holds no '\r', then '\n'. Greedy
   * matching makes the whitespace run maximal, so the title starts where the
   * run ends and stops at the end of the line.
   */
  function MatchAt(s: string, i: nat): (r: Option<string>)
    requires i <= |s|
    ensures r.Some? ==> TitleShape(r.value)
  {
    if i < |s| && s[i] == '#' then
      var k := LineSpaceEnd(s, i + 1);
      var e := TextEnd(s, k);
      if i + 1 < k < e < |s| && s[e] == '\n' then
        var t := s[k..e];
        assert t[0] == s[k];
        Some(t)
      else None
    else None
  }

  /** `re.search(H1_PATTERN, s[i..])` for a line start i: the lines are tried in order. */
  function FindTitleFrom(s: string, i: nat): (r: Option<string>)
    requires i <= |s|
    ensures r.Some? ==> TitleShape(r.value)
    decreases |s| - i
  {
    match MatchAt(s, i)
    case Some(t) => Some(t)
    case None =>
      var e := LineEnd(s, i);
      if e < |s| then FindTitleFrom(s, e + 1) else None
  }

  /** The title of a post body, `None` when no line matches. */
  function FindTitle(body: string): (r: Option<string>)
    ensures r.Some? ==> TitleShape(r.value)
  {
    FindTitleFrom(body, 0)
  }

  /**
   * The pattern, read as a definition: at line start i there is '#', then the
   * line-space characters s[i+1..i+k-1], then the title t, then a line feed.
   */
  ghost predicate IsH1At(s: string, i: nat, k: nat, t: string)
  {
    LineStart(s, i) && k >= 2 && i + k + |t| < |s| && s[i] == '#'
    && (forall p :: i + 1 <= p < i + k ==> IsLineSpace(s[p]))
    && TitleShape(t)
    && s[i + k .. i + k + |t|] == t
    && s[i + k + |t|] == '\n'
  }

  /** No line start from i onwards, before j, carries a match. */
  ghost predicate NoMatchBetween(s: string, i: nat, j: nat)
  {
    forall i', k, t :: i <= i' < j ==> !IsH1At(s, i', k, t)
  }

  lemma MatchAtSound(s: string, i: nat)
    requires i <= |s| && LineStart(s, i) && MatchAt(s, i).Some?
    ensures IsH1At(s, i, LineSpaceEnd(s, i + 1) - i, MatchAt(s, i).value)
  {
  }

  lemma MatchAtComplete(s: string, i: nat, k: nat, t: string)
    requires IsH1At(s, i, k, t)
    ensures MatchAt(s, i) == Some(t)
  {
    var k' := LineSpaceEnd(s, i + 1);
    assert s[i + k] == t[0];
    assert k' == i + k;
    var e := TextEnd(s, k');
    forall p | k' <= p < k' + |t| ensures s[p] != '\r' && s[p] != '\n' {
      assert s[p] == t[p - k'];
    }
    assert e == k' + |t|;
  }

  /** A line start that carries no match: no position on that line does. */
  lemma NoMatchOnLine(s: string, i: nat)
    requires i <= |s| && LineStart(s, i) && MatchAt(s, i).None?
    ensures NoMatchBetween(s, i, LineEnd(s, i) + 1)
  {
    var e := LineEnd(s, i);
    forall i', k, t | i <= i' < e + 1 ensures !IsH1At(s, i', k, t) {
      if IsH1At(s, i', k, t) && i' == i {
        MatchAtComplete(s, i', k, t);
      }
    }
  }

  lemma NoMatchJoin(s: string, i: nat, m: nat, j: nat)
    requires i <= m && NoMatchBetween(s, i, m) && NoMatchBetween(s, m, j)
    ensures NoMatchBetween(s, i, j)
  {
  }

  /**
   * The scan finds the first matching line: a result is a match at some line
   * start j with no match at any earlier position, and no result means no
   * match anywhere.
   */
  lemma {:induction false} FindTitleFromFirst(s: string, i: nat)
    requires i <= |s| && LineStart(s, i)
    ensures FindTitleFrom(s, i).Some? ==>
      exists j, k :: i <= j && IsH1At(s, j, k, FindTitleFrom(s, i).value) && NoMatchBetween(s, i, j)
    ensures FindTitleFrom(s, i).None? ==> NoMatchBetween(s, i, |s| + 1)
    decreases |s| - i
  {
    if MatchAt(s, i).Some? {
      MatchAtSound(s, i);
      assert IsH1At(s, i, LineSpaceEnd(s, i + 1) - i, MatchAt(s, i).value) && NoMatchBetween(s, i, i);
    } else {
      var e := LineEnd(s, i);
      NoMatchOnLine(s, i);
      if e < |s| {
        FindTitleFromFirst(s, e + 1);
        assert FindTitleFrom(s, i) == FindTitleFrom(s, e + 1);
        if FindTitleFrom(s, i).Some? {
          var j, k :| e + 1 <= j && IsH1At(s, j, k, FindTitleFrom(s, i).value) && NoMatchBetween(s, e + 1, j);
          NoMatchJoin(s, i, e + 1, j);
        } else {
          NoMatchJoin(s, i, e + 1, |s| + 1);
        }
      }
    }
  }

  /**
   * The title is the capture of the first line on which the pattern matches,
   * and there is none exactly when no line matches.
   */
  lemma FindTitleFirstMatch(body: string)
    ensures FindTitle(body).Some? ==>
      exists j, k :: IsH1At(body, j, k, FindTitle(body).value) && NoMatchBetween(body, 0, j)
    ensures FindTitle(body).None? <==> forall j, k, t :: !IsH1At(body, j, k, t)
  {
    FindTitleFromFirst(body, 0);
    if FindTitle(body).Some? {
      var j, k :| IsH1At(body, j, k, FindTitle(body).value) && NoMatchBetween(body, 0, j);
    }
  }

  /** A level-two heading is no title: the character after '#' must be whitespace. */
  lemma SecondLevelHeadingIsNoTitle()
    ensures FindTitle("## Section\n") == None
  {
    assert LineSpaceEnd("## Section\n", 1) == 1;
    assert LineEnd("## Section\n", 0) == 10;
  }

  /** '#' directly followed by the text is no title. */
  lemma HashWithoutSpaceIsNoTitle()
    ensures FindTitle("#Title\n") == None
  {
    assert LineSpaceEnd("#Title\n", 1) == 1;
    assert LineEnd("#Title\n", 0) == 6;
  }

  /** The title's line must end with '\n': a last line without one does not match. */
  lemma UnterminatedLineIsNoTitle()
    ensures FindTitle("# Title") == None
  {
    assert LineSpaceEnd("# Title", 1) == 2;
    assert TextEnd("# Title", 2) == 7;
    assert LineEnd("# Title", 0) == 7;
  }

  /**
   * A '\r' before the end of the line stops the title, so the line does not
   * match. This is a fact about the pattern alone: the script reads the file
   * with universal newlines, which turn "\r\n" and a lone "\r" into "\n", so
   * the bodies it searches never hold a '\r'.
   */
  lemma CarriageReturnIsNoTitle()
    ensures FindTitle("# Title\r\n") == None
  {
    assert LineSpaceEnd("# Title\r\n", 1) == 2;
    assert TextEnd("# Title\r\n", 2) == 7;
    assert LineEnd("# Title\r\n", 0) == 8;
  }

  /** The first matching line wins; blanks at its end stay part of the title. */
  lemma FirstMatchingLineIsTitle()
    ensures FindTitle("##\n# A b \n#  C\n") == Some("A b ")
  {
    assert LineSpaceEnd("##\n# A b \n#  C\n", 1) == 1;
    assert LineEnd("##\n# A b \n#  C\n", 0) == 2;
    assert LineSpaceEnd("##\n# A b \n#  C\n", 4) == 5;
    assert TextEnd("##\n# A b \n#  C\n", 5) == 9;
    assert "##\n# A b \n#  C\n"[5..9] == "A b ";
    assert MatchAt("##\n# A b \n#  C\n", 0) == None;
    assert MatchAt("##\n# A b \n#  C\n", 3) == Some("A b ");
  }
}
