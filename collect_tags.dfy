/**
 * collect_tags: group the posts by tag slug, each slug keeping the display
 * name it was first seen with and the list of its posts, then rank the slugs
 * by how many posts they have, most first.
 */
module CollectTags {
  import opened Options
  import opened PyDict
  import opened StableSort
  import opened TagMap
  import opened CollectPosts

  /** A tag's display name and its posts. */
  type TagEntry = (string, seq<PostData>)

  /** The tag index: slug to display name and posts, in insertion order. */
  type TagIndex = Dict<string, TagEntry>

  /** Every post's tags are a dict: no slug occurs twice in one post. */
  predicate TagsAreDicts(posts: seq<PostData>)
  {
    forall i :: 0 <= i < |posts| ==> ValidDict(posts[i].tags)
  }

  /** The first n posts' tags are dicts; TagsAreDicts spelled out post by post. */
  predicate PrefixDicts(posts: seq<PostData>, n: nat)
    requires n <= |posts|
  {
    n == 0 || (PrefixDicts(posts, n - 1) && ValidDict(posts[n - 1].tags))
  }

  lemma {:induction false} TagsArePrefixDicts(posts: seq<PostData>, n: nat)
    requires n <= |posts| && TagsAreDicts(posts)
    ensures PrefixDicts(posts, n)
  {
    if n > 0 {
      TagsArePrefixDicts(posts, n - 1);
    }
  }

  /**
   * The entry of a slug after meeting it on one more post: a known slug gets
   * the post appended to its list, a new slug starts a list with the post
   * under this post's display name.
   */
  function Extend(entry: Option<TagEntry>, name: string, post: PostData): (e: TagEntry)
    ensures |e.1| > 0 && e.1[|e.1| - 1] == post
  {
    match entry
    case Some(known) => (known.0, known.1 + [post])
    case None => (name, [post])
  }

  /** One iteration of the inner loop: `tags[slug][1].append(data)` or `tags[slug] = (name, [data])`. */
  function AddTag(index: TagIndex, slug: string, name: string, post: PostData): (r: TagIndex)
    ensures Keys(r) == if slug in Keys(index) then Keys(index) else Keys(index) + [slug]
    ensures ValidDict(index) ==> ValidDict(r)
  {
    Put(index, slug, Extend(Get(index, slug), name, post))
  }

  /** The inner loop over the first m tags of one post. */
  function AddPostTags(index: TagIndex, post: PostData, m: nat): (r: TagIndex)
    requires m <= |post.tags|
    ensures ValidDict(index) ==> ValidDict(r)
  {
    if m == 0 then index
    else AddTag(AddPostTags(index, post, m - 1), post.tags[m - 1].0, post.tags[m - 1].1, post)
  }

  /** The grouping loop over the first n posts. */
  function GroupByTag(posts: seq<PostData>, n: nat): (r: TagIndex)
    requires n <= |posts|
    ensures ValidDict(r)
  {
    if n == 0 then [] else AddPostTags(GroupByTag(posts, n - 1), posts[n - 1], |posts[n - 1].tags|)
  }

  /** The first n posts whose tags hold slug, in order. */
  function PostsWithTag(posts: seq<PostData>, n: nat, slug: string): (r: seq<PostData>)
    requires n <= |posts|
    ensures forall i :: 0 <= i < |r| ==> slug in Keys(r[i].tags)
  {
    if n == 0 then []
    else PostsWithTag(posts, n - 1, slug) + (if slug in Keys(posts[n - 1].tags) then [posts[n - 1]] else [])
  }

  /**
   * The entry of slug given the posts that have it: none when there are none,
   * otherwise the display name of the first of them and all of them.
   */
  function EntryFor(withTag: seq<PostData>, slug: string): Option<TagEntry>
    requires forall i :: 0 <= i < |withTag| ==> slug in Keys(withTag[i].tags)
  {
    if withTag == [] then None
    else
      Some((Get(withTag[0].tags, slug).value, withTag))
  }

  /** What the index should hold for slug after n posts. */
  function Expected(posts: seq<PostData>, n: nat, slug: string): Option<TagEntry>
    requires n <= |posts|
  {
    EntryFor(PostsWithTag(posts, n, slug), slug)
  }

  /** In a dict, the key at position m - 1 is not among the keys before it, and gives its own value. */
  lemma FreshSlug(tags: Dict<string, string>, m: nat)
    requires ValidDict(tags) && 0 < m <= |tags|
    ensures tags[m - 1].0 !in Keys(tags)[..m - 1]
    ensures Get(tags, tags[m - 1].0) == Some(tags[m - 1].1)
  {
    GetAt(tags, m - 1);
    var ks := Keys(tags);
    forall j | 0 <= j < m - 1 ensures ks[j] != ks[m - 1] {
    }
  }

  /** The inner loop touches exactly the post's slugs, each once. */
  lemma {:induction false} GetAddPostTags(index: TagIndex, post: PostData, m: nat, s: string)
    requires ValidDict(post.tags) && m <= |post.tags|
    ensures Get(AddPostTags(index, post, m), s)
      == if s in Keys(post.tags)[..m] then Some(Extend(Get(index, s), Get(post.tags, s).value, post))
         else Get(index, s)
  {
    if m > 0 {
      var prev := AddPostTags(index, post, m - 1);
      var slug := post.tags[m - 1].0;
      var ks := Keys(post.tags);
      assert AddPostTags(index, post, m) == Put(prev, slug, Extend(Get(prev, slug), post.tags[m - 1].1, post));
      assert ks[..m] == ks[..m - 1] + [slug];
      assert (s in ks[..m]) == (s in ks[..m - 1] || s == slug);
      GetAddPostTags(index, post, m - 1, s);
      GetPut(prev, slug, Extend(Get(prev, slug), post.tags[m - 1].1, post), s);
      if s == slug {
        FreshSlug(post.tags, m);
        assert Get(prev, s) == Get(index, s);
      }
    }
  }

  /** The grouping loop's step: post n - 1 extends the entry of each of its slugs and no other. */
  lemma GroupStep(posts: seq<PostData>, n: nat, s: string)
    requires 0 < n <= |posts| && ValidDict(posts[n - 1].tags)
    ensures Get(GroupByTag(posts, n), s)
      == if s in Keys(posts[n - 1].tags)
         then Some(Extend(Get(GroupByTag(posts, n - 1), s), Get(posts[n - 1].tags, s).value, posts[n - 1]))
         else Get(GroupByTag(posts, n - 1), s)
  {
    var post := posts[n - 1];
    GetAddPostTags(GroupByTag(posts, n - 1), post, |post.tags|, s);
    assert Keys(post.tags)[..|post.tags|] == Keys(post.tags);
  }

  /** The posts having slug grow by post n - 1 exactly when it has the slug. */
  lemma PostsWithTagStep(posts: seq<PostData>, n: nat, s: string)
    requires 0 < n <= |posts|
    ensures Expected(posts, n, s)
      == if s in Keys(posts[n - 1].tags) then Some(Extend(Expected(posts, n - 1, s), Get(posts[n - 1].tags, s).value, posts[n - 1]))
         else Expected(posts, n - 1, s)
  {
    var before := PostsWithTag(posts, n - 1, s);
    var after := PostsWithTag(posts, n, s);
    if s in Keys(posts[n - 1].tags) {
      assert after == before + [posts[n - 1]];
      if before != [] {
        assert after[0] == before[0];
        assert Expected(posts, n - 1, s) == Some((Get(before[0].tags, s).value, before));
        assert Expected(posts, n, s) == Some((Get(before[0].tags, s).value, before + [posts[n - 1]]));
      } else {
        assert after == [posts[n - 1]];
      }
    } else {
      assert after == before;
    }
  }

  /** The grouping loop's step keeps the index equal to what is expected of it. */
  lemma GroupByTagStep(posts: seq<PostData>, n: nat, s: string)
    requires 0 < n <= |posts| && ValidDict(posts[n - 1].tags)
    requires Get(GroupByTag(posts, n - 1), s) == Expected(posts, n - 1, s)
    ensures Get(GroupByTag(posts, n), s) == Expected(posts, n, s)
  {
    GroupStep(posts, n, s);
    PostsWithTagStep(posts, n, s);
  }

  /** Before any post, no slug is in the index and none is expected. */
  lemma GroupByTagEmpty(posts: seq<PostData>, s: string)
    ensures Get(GroupByTag(posts, 0), s) == Expected(posts, 0, s)
  {
    assert Expected(posts, 0, s) == None;
    assert Keys(GroupByTag(posts, 0)) == [];
  }

  /**
   * After n posts, each slug maps to the display name of the first post that
   * has it and to every post that has it, in post order; a slug no post has
   * is absent.
   */
  lemma {:induction false} GetGroupByTag(posts: seq<PostData>, n: nat, s: string)
    requires n <= |posts| && PrefixDicts(posts, n)
    ensures Get(GroupByTag(posts, n), s) == Expected(posts, n, s)
  {
    if n == 0 {
      GroupByTagEmpty(posts, s);
    } else {
      GetGroupByTag(posts, n - 1, s);
      GroupByTagStep(posts, n, s);
    }
  }

  /** Every slug of the first n posts, post by post, each post's in its tag order. */
  function AllSlugs(posts: seq<PostData>, n: nat): seq<string>
    requires n <= |posts|
  {
    if n == 0 then [] else AllSlugs(posts, n - 1) + Keys(posts[n - 1].tags)
  }

  lemma KeysAddPostTagsStep(index: TagIndex, post: PostData, m: nat, seen: seq<string>)
    requires 0 < m <= |post.tags|
    requires Keys(AddPostTags(index, post, m - 1)) == Dedup(seen + Keys(post.tags)[..m - 1])
    ensures Keys(AddPostTags(index, post, m)) == Dedup(seen + Keys(post.tags)[..m])
  {
    var ks := Keys(post.tags);
    var prev := AddPostTags(index, post, m - 1);
    PrefixSnoc(seen, ks, m);
    PutKeysDedup(prev, ks[m - 1], Extend(Get(prev, ks[m - 1]), post.tags[m - 1].1, post), seen + ks[..m - 1]);
  }

  /** The inner loop appends the post's new slugs to the index's keys, in tag order. */
  lemma {:induction false} KeysAddPostTags(index: TagIndex, post: PostData, m: nat, seen: seq<string>)
    requires m <= |post.tags| && Keys(index) == Dedup(seen)
    ensures Keys(AddPostTags(index, post, m)) == Dedup(seen + Keys(post.tags)[..m])
  {
    PrefixEmpty(seen, Keys(post.tags));
    var i := 0;
    while i < m
      invariant i <= m
      invariant Keys(AddPostTags(index, post, i)) == Dedup(seen + Keys(post.tags)[..i])
    {
      i := i + 1;
      KeysAddPostTagsStep(index, post, i, seen);
    }
  }

  /**
   * The index lists the slugs in the order they are first met, scanning the
   * posts in order and each post's tags in order; so it is a dict.
   */
  lemma {:induction false} KeysGroupByTag(posts: seq<PostData>, n: nat)
    requires n <= |posts|
    ensures Keys(GroupByTag(posts, n)) == Dedup(AllSlugs(posts, n))
    ensures ValidDict(GroupByTag(posts, n))
  {
    if n > 0 {
      var post := posts[n - 1];
      KeysGroupByTag(posts, n - 1);
      KeysAddPostTags(GroupByTag(posts, n - 1), post, |post.tags|, AllSlugs(posts, n - 1));
      assert Keys(post.tags)[..|post.tags|] == Keys(post.tags);
    } else {
      assert Keys(GroupByTag(posts, 0)) == [];
    }
  }

  /** The ranking key: how many posts a tag has. */
  function TagCount(item: (string, TagEntry)): int
  {
    |item.1.1|
  }

  /**
   * The result of collect_tags: the grouped index re-built, by a dict
   * comprehension, in order of the stable sort by post count, most first.
   */
  function TagIndexOf(posts: seq<PostData>): (r: TagIndex)
    ensures ValidDict(r)
  {
    FromPairs(SortDescBy(GroupByTag(posts, |posts|), TagCount))
  }

  /** The comprehension re-builds the sorted pairs as they are: their slugs are distinct. */
  lemma TagIndexIsSorted(posts: seq<PostData>)
    ensures TagIndexOf(posts) == SortDescBy(GroupByTag(posts, |posts|), TagCount)
    ensures ValidDict(TagIndexOf(posts))
  {
    var grouped := GroupByTag(posts, |posts|);
    KeysGroupByTag(posts, |posts|);
    PermutedDict(grouped, SortDescBy(grouped, TagCount));
    FromDistinctPairs(SortDescBy(grouped, TagCount));
  }

  /**
   * The tag index is ranked by post count, most first; tags with equal
   * counts keep their grouping order, which is the order their slugs are
   * first met.
   */
  lemma CollectTagsOrder(posts: seq<PostData>)
    ensures ValidDict(TagIndexOf(posts))
    ensures forall i, j :: 0 <= i < j < |TagIndexOf(posts)| ==> |TagIndexOf(posts)[i].1.1| >= |TagIndexOf(posts)[j].1.1|
    ensures forall c :: WithKey(TagIndexOf(posts), TagCount, c) == WithKey(GroupByTag(posts, |posts|), TagCount, c)
    ensures Keys(GroupByTag(posts, |posts|)) == Dedup(AllSlugs(posts, |posts|))
  {
    TagIndexIsSorted(posts);
    KeysGroupByTag(posts, |posts|);
    var r := TagIndexOf(posts);
    forall i, j | 0 <= i < j < |r| ensures |r[i].1.1| >= |r[j].1.1| {
      assert TagCount(r[i]) >= TagCount(r[j]);
    }
  }

  /**
   * A slug's entry in the tag index: absent when no post has the slug,
   * otherwise every post having it, in order, under the display name the
   * first of them gives it.
   */
  lemma CollectTagsEntry(posts: seq<PostData>, s: string)
    requires TagsAreDicts(posts)
    ensures Get(TagIndexOf(posts), s) == Expected(posts, |posts|, s)
  {
    var grouped := GroupByTag(posts, |posts|);
    TagIndexIsSorted(posts);
    KeysGroupByTag(posts, |posts|);
    TagsArePrefixDicts(posts, |posts|);
    GetGroupByTag(posts, |posts|, s);
    GetPermuted(grouped, SortDescBy(grouped, TagCount), s);
  }

  /** Every tag in the index has at least one post, and each of its posts has the tag. */
  lemma TagEntriesNonEmpty(posts: seq<PostData>, i: nat)
    requires TagsAreDicts(posts) && i < |TagIndexOf(posts)|
    ensures |TagIndexOf(posts)[i].1.1| > 0
    ensures forall p :: p in TagIndexOf(posts)[i].1.1 ==> TagIndexOf(posts)[i].0 in Keys(p.tags)
  {
    var r := TagIndexOf(posts);
    TagIndexIsSorted(posts);
    GetAt(r, i);
    CollectTagsEntry(posts, r[i].0);
  }

  /** The inner loop of collect_tags over one post's tags. */
  method AddTags(index: TagIndex, post: PostData) returns (index': TagIndex)
    ensures index' == AddPostTags(index, post, |post.tags|)
  {
    index' := index;
    for j := 0 to |post.tags|
      invariant index' == AddPostTags(index, post, j)
    {
      var (slug, name) := post.tags[j];
      if slug in Keys(index') {
        var known := Get(index', slug).value;
        index' := Put(index', slug, (known.0, known.1 + [post]));
      } else {
        index' := Put(index', slug, (name, [post]));
      }
    }
  }

  /**
   * collect_tags: group the posts by slug, then rank the slugs by post count,
   * most first, keeping first-met order among equal counts.
   */
  method CollectTags(posts: seq<PostData>) returns (tags: TagIndex)
    ensures tags == TagIndexOf(posts)
  {
    tags := [];
    for i := 0 to |posts|
      invariant tags == GroupByTag(posts, i)
    {
      tags := AddTags(tags, posts[i]);
    }
    tags := FromPairs(SortDescBy(tags, TagCount));
  }

  /** The posts collect_post_data returns all carry dicts as tag maps. */
  lemma CollectedTagsAreDicts(entries: seq<Entry>)
    ensures TagsAreDicts(CollectedPosts(entries))
  {
    var posts := CollectedPosts(entries);
    forall i | 0 <= i < |posts| ensures ValidDict(posts[i].tags) {
      CollectedPostsSound(entries, posts[i]);
    }
  }
}
