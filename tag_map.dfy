/**
 * The tags of one post, built from the `tags` entry of its front matter: a dict
 * from each tag's slug to the tag's display name.
 */
module TagMap {
  import opened Options
  import opened PyDict
  import opened Slug

  /**
   * A front-matter value, as far as the script looks at it: a string, a list,
   * or anything else (a number, a mapping, null, ...).
   */
  datatype Value = Str(s: string) | List(items: seq<Value>) | Other

  /** The two warnings the tag code can emit. */
  datatype TagWarning = InvalidTagValue | InvalidTagsType

  /** The first n items are strings. */
  predicate StringsBefore(items: seq<Value>, n: nat)
    requires n <= |items|
  {
    forall j :: 0 <= j < n ==> items[j].Str?
  }

  predicate AllStrings(items: seq<Value>)
  {
    StringsBefore(items, |items|)
  }

  /**
   * The assignments `tags[key(name)] = name` for the first n names, in list
   * order; the script's key is Slugify.
   */
  function SlugPairs(names: seq<Value>, n: nat, key: string -> string): (pairs: Dict<string, string>)
    requires n <= |names| && StringsBefore(names, n)
    ensures |pairs| == n
  {
    if n == 0 then []
    else SlugPairs(names, n - 1, key) + [(key(names[n - 1].s), names[n - 1].s)]
  }

  /** One more assignment extends the map built so far. */
  lemma AssignNext(items: seq<Value>, i: nat, key: string -> string)
    requires i < |items| && StringsBefore(items, i + 1)
    ensures FromPairs(SlugPairs(items, i + 1, key))
      == Put(FromPairs(SlugPairs(items, i, key)), key(items[i].s), items[i].s)
  {
    var p := SlugPairs(items, i + 1, key);
    assert p[..i] == SlugPairs(items, i, key);
  }

  /**
   * The tag map of a post whose metadata holds `tags` (None when the key is
   * absent): a list of strings gives its slug assignments; a list holding any
   * non-string, or a value that is not a list, gives the empty map.
   */
  function TagMapOf(tags: Option<Value>): (m: Dict<string, string>)
    ensures ValidDict(m)
    ensures TagWarningOf(tags).Some? ==> m == []
  {
    match tags
    case Some(List(items)) => if AllStrings(items) then FromPairs(SlugPairs(items, |items|, Slugify)) else []
    case _ => []
  }

  /** The warning emitted along the way, if any. */
  function TagWarningOf(tags: Option<Value>): (w: Option<TagWarning>)
    ensures w.None? <==> tags.None? || (tags.value.List? && AllStrings(tags.value.items))
  {
    match tags
    case None => None
    case Some(List(items)) => if AllStrings(items) then None else Some(InvalidTagValue)
    case Some(_) => Some(InvalidTagsType)
  }

  /**
   * The tag loop of collect_post_data: assign each string's slug; at the first
   * non-string, warn, reset the map and stop.
   */
  method BuildTagMap(tags: Option<Value>) returns (m: Dict<string, string>, warning: Option<TagWarning>)
    ensures m == TagMapOf(tags)
    ensures warning == TagWarningOf(tags)
  {
    m := [];
    warning := None;
    if tags.Some? {
      if tags.value.List? {
        var items := tags.value.items;
        var ok;
        m, ok := AssignTags(items);
        if !ok {
          warning := Some(InvalidTagValue);
        }
      } else {
        warning := Some(InvalidTagsType);
      }
    }
  }

  /** The loop itself: ok tells whether every item was a string. */
  method AssignTags(items: seq<Value>) returns (m: Dict<string, string>, ok: bool)
    ensures ok == AllStrings(items)
    ensures m == if ok then FromPairs(SlugPairs(items, |items|, Slugify)) else []
  {
    m := [];
    ok := true;
    var i := 0;
    while i < |items|
      invariant 0 <= i <= |items|
      invariant StringsBefore(items, i)
      invariant m == FromPairs(SlugPairs(items, i, Slugify))
    {
      if items[i].Str? {
        var name := items[i].s;
        AssignNext(items, i, Slugify);
        m := Put(m, Slugify(name), name);
        i := i + 1;
      } else {
        assert !AllStrings(items);
        return [], false;
      }
    }
  }

  /** The j-th assignment is that of the j-th name. */
  lemma {:induction false} SlugPairsAt(names: seq<Value>, n: nat, key: string -> string, j: nat)
    requires n <= |names| && StringsBefore(names, n) && j < n
    ensures SlugPairs(names, n, key)[j] == (key(names[j].s), names[j].s)
  {
    if j < n - 1 {
      SlugPairsAt(names, n - 1, key, j);
    }
  }

  /** The slugs of the names, in list order, repeats included. */
  function SlugsOf(items: seq<Value>): (slugs: seq<string>)
    requires AllStrings(items)
    ensures |slugs| == |items|
    ensures forall j :: 0 <= j < |items| ==> slugs[j] == Slugify(items[j].s)
  {
    seq(|items|, j requires 0 <= j < |items| => Slugify(items[j].s))
  }

  /**
   * Every entry of a tag map pairs a name of the list with that name's slug,
   * and no slug occurs twice.
   */
  lemma TagMapEntries(items: seq<Value>)
    requires AllStrings(items)
    ensures ValidDict(TagMapOf(Some(List(items))))
    ensures forall i :: 0 <= i < |TagMapOf(Some(List(items)))| ==>
      var e := TagMapOf(Some(List(items)))[i];
      e.0 == Slugify(e.1) && Str(e.1) in items
  {
    var pairs := SlugPairs(items, |items|, Slugify);
    var m := FromPairs(pairs);
    forall i | 0 <= i < |m|
      ensures m[i].0 == Slugify(m[i].1) && Str(m[i].1) in items
    {
      FromPairsFrom(pairs, i);
      var j :| 0 <= j < |pairs| && pairs[j] == m[i];
      SlugPairsAt(items, |items|, Slugify, j);
    }
  }

  /** The keys of a tag map are the slugs of the list, each at its first occurrence. */
  lemma TagMapKeys(items: seq<Value>)
    requires AllStrings(items)
    ensures Keys(TagMapOf(Some(List(items)))) == Dedup(SlugsOf(items))
  {
    var pairs := SlugPairs(items, |items|, Slugify);
    FromPairsKeys(pairs);
    forall j | 0 <= j < |items| ensures Keys(pairs)[j] == SlugsOf(items)[j] {
      SlugPairsAt(items, |items|, Slugify, j);
    }
    assert Keys(pairs) == SlugsOf(items);
  }

  /**
   * When two names share a slug the later one wins: the slug maps to the last
   * name of the list that has it.
   */
  lemma TagMapLastWins(items: seq<Value>, j: nat)
    requires AllStrings(items) && j < |items|
    requires forall k :: j < k < |items| ==> Slugify(items[k].s) != Slugify(items[j].s)
    ensures Get(TagMapOf(Some(List(items))), Slugify(items[j].s)) == Some(items[j].s)
  {
    var pairs := SlugPairs(items, |items|, Slugify);
    SlugPairsAt(items, |items|, Slugify, j);
    forall k | j < k < |pairs| ensures pairs[k].0 != pairs[j].0 {
      SlugPairsAt(items, |items|, Slugify, k);
    }
    FromPairsLastWins(pairs, j);
  }

  /** A list with a non-string, or a value that is not a list, gives no tags and a warning. */
  lemma TagMapMalformed(items: seq<Value>, v: Value)
    requires exists i :: 0 <= i < |items| && !items[i].Str?
    requires !v.List?
    ensures TagMapOf(Some(List(items))) == [] && TagWarningOf(Some(List(items))) == Some(InvalidTagValue)
    ensures TagMapOf(Some(v)) == [] && TagWarningOf(Some(v)) == Some(InvalidTagsType)
    ensures TagMapOf(None) == [] && TagWarningOf(None) == None
  {
  }

  /** The assignments for a list of two names. */
  lemma SlugPairsTwo(a: string, b: string, key: string -> string)
    ensures StringsBefore([Str(a), Str(b)], 2)
    ensures SlugPairs([Str(a), Str(b)], 2, key) == [(key(a), a), (key(b), b)]
  {
    var items := [Str(a), Str(b)];
    assert StringsBefore(items, 2) by {
      assert items[0].Str? && items[1].Str?;
    }
    SlugPairsAt(items, 2, key, 0);
    SlugPairsAt(items, 2, key, 1);
  }

  /** The assignments for the tag list ["Go", "go lang"]. */
  lemma SlugPairsExample()
    ensures SlugPairs([Str("Go"), Str("go lang")], 2, Slugify) == [("go", "Go"), ("go-lang", "go lang")]
  {
    SlugPairsTwo("Go", "go lang", Slugify);
    SlugifyGo();
    SlugifyGoLang();
  }

  /** Its tag map: both slugs, each with its display name, in list order. */
  lemma TagMapExample()
    ensures TagMapOf(Some(List([Str("Go"), Str("go lang")]))) == [("go", "Go"), ("go-lang", "go lang")]
  {
    var items := [Str("Go"), Str("go lang")];
    assert AllStrings(items) by {
      assert items[0].Str? && items[1].Str?;
    }
    var pairs: Dict<string, string> := [("go", "Go"), ("go-lang", "go lang")];
    assert FromPairs(pairs) == pairs by {
      assert Keys(pairs) == ["go", "go-lang"];
      FromDistinctPairs(pairs);
    }
    SlugPairsExample();
  }
}
