/**
 * `slugify` of tools/build_blog_index.py: turns a tag's display name into the
 * identifier used as the tag's key and as the file name of its page.
 */
module Slug {
  import opened PyChars

  /** `SLUGIFY_PATTERN`, the class `[\\/\s\#\?&=%\+]`. */
  predicate IsSensitive(c: char)
    ensures IsSensitive(c) ==> c != '-' && !IsUpper(c)
  {
    c == '\\' || c == '/' || IsSpace(c) || c == '#' || c == '?' || c == '&'
    || c == '=' || c == '%' || c == '+'
  }

  /** `re.sub(SLUGIFY_PATTERN, "-", s)`: every sensitive character becomes a dash. */
  function ReplaceSensitive(s: string): (r: string)
    ensures |r| == |s|
    ensures forall i {:trigger r[i]} :: 0 <= i < |s| ==> r[i] == if IsSensitive(s[i]) then '-' else s[i]
  {
    seq(|s|, i requires 0 <= i < |s| => if IsSensitive(s[i]) then '-' else s[i])
  }

  /** The end of the run of dashes that starts at i. */
  function DashRunEnd(s: string, i: nat): (e: nat)
    requires i <= |s|
    ensures i <= e <= |s|
    ensures forall k :: i <= k < e ==> s[k] == '-'
    ensures e < |s| ==> s[e] != '-'
    decreases |s| - i
  {
    if i < |s| && s[i] == '-' then DashRunEnd(s, i + 1) else i
  }


  /** The start of the run of dashes that ends at j. */
  function DashRunStart(s: string, j: nat): (b: nat)
    requires j <= |s|
    ensures b <= j
    ensures forall k :: b <= k < j ==> s[k] == '-'
    ensures b > 0 ==> s[b - 1] != '-'
  {
    if j > 0 && s[j - 1] == '-' then DashRunStart(s, j - 1) else j
  }
  /** `s.lstrip("-")`: the longest suffix of s that does not start with a dash. */
  function StripLeading(s: string): (r: string)
    ensures |r| <= |s|
    ensures forall i :: 0 <= i < |r| ==> r[i] == s[|s| - |r| + i]
    ensures forall i :: 0 <= i < |s| - |r| ==> s[i] == '-'
    ensures r == [] || r[0] != '-'
  {
    s[DashRunEnd(s, 0)..]
  }

  /** `s.rstrip("-")`: the longest prefix of s that does not end with a dash. */
  function StripTrailing(s: string): (r: string)
    ensures |r| <= |s|
    ensures forall i :: 0 <= i < |r| ==> r[i] == s[i]
    ensures forall i :: |r| <= i < |s| ==> s[i] == '-'
    ensures r == [] || r[|r| - 1] != '-'
  {
    s[..DashRunStart(s, |s|)]
  }

  /** A character that has been lower-cased and replaced is neither upper-case nor sensitive. */
  lemma MappedChar(c: char)
    ensures var d := LowerChar(c); var e := if IsSensitive(d) then '-' else d;
      !IsUpper(e) && !IsSensitive(e)
  {
  }

  /** No character of s is upper-case or sensitive. */
  ghost predicate Clean(s: string)
  {
    forall i :: 0 <= i < |s| ==> !IsUpper(s[i]) && !IsSensitive(s[i])
  }

  lemma {:induction false} StripClean(m: string)
    requires forall i :: 0 <= i < |m| ==> m[i] == '-' || (!IsUpper(m[i]) && !IsSensitive(m[i]))
    ensures Clean(StripTrailing(StripLeading(m)))
  {
    var l := StripLeading(m);
    var r := StripTrailing(l);
    forall i | 0 <= i < |r| ensures !IsUpper(r[i]) && !IsSensitive(r[i]) {
      assert r[i] == l[i] == m[|m| - |l| + i];
      if r[i] == '-' {
        assert !IsSpace('-');
      }
    }
  }

  /** `slugify(s)`: lower-case, replace the sensitive characters, then `strip("-")`. */
  function Slugify(s: string): (r: string)
    ensures |r| <= |s|
  {
    StripTrailing(StripLeading(ReplaceSensitive(Lower(s))))
  }

  /**
   * A slug holds no upper-case letter and no sensitive character, and neither
   * starts nor ends with a dash.
   */
  lemma SlugifyClean(s: string)
    ensures Clean(Slugify(s))
    ensures Slugify(s) == [] || (Slugify(s)[0] != '-' && Slugify(s)[|Slugify(s)| - 1] != '-')
  {
    var m := ReplaceSensitive(Lower(s));
    forall k | 0 <= k < |m| ensures m[k] == '-' || (!IsUpper(m[k]) && !IsSensitive(m[k])) {
      MappedChar(s[k]);
    }
    StripClean(m);
  }

  /** A slug is already in normal form: slugifying it again changes nothing. */
  lemma SlugifyIdempotent(s: string)
    ensures Slugify(Slugify(s)) == Slugify(s)
  {
    SlugifyClean(s);
    CleanIsFixed(Slugify(s));
  }

  /** A clean string without edge dashes is its own slug. */
  lemma CleanIsFixed(t: string)
    requires Clean(t) && (t == [] || (t[0] != '-' && t[|t| - 1] != '-'))
    ensures Slugify(t) == t
  {
    assert Lower(t) == t;
    assert ReplaceSensitive(t) == t;
    assert DashRunEnd(t, 0) == 0;
    assert StripLeading(t) == t;
    assert DashRunStart(t, |t|) == |t|;
    assert StripTrailing(t) == t;
  }

  lemma StripDashesEmptyIff(m: string)
    ensures StripTrailing(StripLeading(m)) == [] <==> forall i :: 0 <= i < |m| ==> m[i] == '-'
  {
    var l := StripLeading(m);
    if l != [] {
      assert StripTrailing(l) != [] by {
        assert l[0] != '-';
      }
      assert m[|m| - |l|] != '-';
    }
  }

  /**
   * The slug is empty exactly when every character of the name is, after
   * lower-casing, a dash or a sensitive character.
   */
  lemma SlugifyEmptyIff(s: string)
    ensures Slugify(s) == [] <==>
      forall i :: 0 <= i < |s| ==> LowerChar(s[i]) == '-' || IsSensitive(LowerChar(s[i]))
  {
    var m := ReplaceSensitive(Lower(s));
    StripDashesEmptyIff(m);
    assert forall i :: 0 <= i < |s| ==>
      (m[i] == '-' <==> LowerChar(s[i]) == '-' || IsSensitive(LowerChar(s[i])));
  }

  /** The tag name "Go". */
  lemma SlugifyGo()
    ensures Slugify("Go") == "go"
  {
    assert Lower("Go") == "go";
    assert ReplaceSensitive("go") == "go";
    assert DashRunEnd("go", 0) == 0;
    assert StripLeading("go") == "go";
    assert DashRunStart("go", 2) == 2;
  }

  /** The tag name "go lang": the space becomes a dash. */
  lemma SlugifyGoLang()
    ensures Slugify("go lang") == "go-lang"
  {
    assert Lower("go lang") == "go lang";
    assert ReplaceSensitive("go lang") == "go-lang";
    assert DashRunEnd("go-lang", 0) == 0;
    assert StripLeading("go-lang") == "go-lang";
    assert DashRunStart("go-lang", 7) == 7;
  }

  /** Two different names can give the same slug; the later one then wins in a tag map. */
  lemma SlugifyCollision()
    ensures Slugify("C++") == "c" && Slugify("C +") == "c"
  {
    assert Lower("C++") == "c++";
    assert ReplaceSensitive("c++") == "c--";
    assert DashRunStart("c--", 3) == DashRunStart("c--", 2) == 1;
    assert StripTrailing("c--") == "c";
    assert Lower("C +") == "c +";
    assert ReplaceSensitive("c +") == "c--";
  }
}
