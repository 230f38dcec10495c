/**
 * collect_post_data: turn the entries of the posts directory into post
 * records, skipping the folders the script refuses, then order the records
 * newest first. The directory walk and the file reads are replaced by a list
 * of entries that already carries what the script would read.
 */
module CollectPosts {
  import opened Options
  import opened PyDict
  import opened StableSort
  import opened PostDate
  import opened H1Title
  import opened TagMap

  /**
   * What `index.md` of a folder is: absent, something other than a file, or a
   * markdown file whose front matter has already been split into the `tags`
   * value (None when there is no `tags` key) and the body.
   */
  datatype IndexFile = Missing | NotAFile | Markdown(tags: Option<Value>, body: string)

  /** One entry of the posts directory, in listing order. */
  datatype Entry = NotADirectory(name: string) | Folder(name: string, index: IndexFile)

  /** A post: its folder name, its H1 title if one was found, its date and its tag map. */
  datatype PostData = PostData(name: string, title: Option<string>, date: Date, tags: Dict<string, string>)

  /** The warnings collect_post_data emits, each naming the folder concerned. */
  datatype Warning =
    | InvalidDate(folder: string)
    | NoIndex(folder: string)
    | IndexNotFile(folder: string)
    | TitleNotFound(folder: string)
    | TagsIgnored(folder: string, reason: TagWarning)

  /** What scanning one entry gives: a post or nothing, and the warnings emitted. */
  datatype Scan = Scan(post: Option<PostData>, warnings: seq<Warning>)

  /** The loop body of collect_post_data for one entry. */
  function ScanEntry(e: Entry): (s: Scan)
    ensures s.post.Some? ==> e.Folder? && s.post.value.name == e.name
  {
    match e
    case NotADirectory(_) => Scan(None, [])
    case Folder(name, index) =>
      match FolderDate(name)
      case None => Scan(None, [InvalidDate(name)])
      case Some(date) =>
        match index
        case Missing => Scan(None, [NoIndex(name)])
        case NotAFile => Scan(None, [IndexNotFile(name)])
        case Markdown(tags, body) =>
          var title := FindTitle(body);
          var tagWarning := TagWarningOf(tags);
          Scan(Some(PostData(name, title, date, TagMapOf(tags))),
               (if title.None? then [TitleNotFound(name)] else [])
               + (if tagWarning.Some? then [TagsIgnored(name, tagWarning.value)] else []))
  }

  /** The values f gives for the first n elements of xs, in order, skipping the Nones. */
  function Kept<E, P>(xs: seq<E>, n: nat, f: E -> Option<P>): (r: seq<P>)
    requires n <= |xs|
    ensures |r| <= n
  {
    if n == 0 then []
    else Kept(xs, n - 1, f) + (if f(xs[n - 1]).Some? then [f(xs[n - 1]).value] else [])
  }

  /** Each kept value comes from one of the first n elements. */
  lemma {:induction false} KeptSound<E, P>(xs: seq<E>, n: nat, f: E -> Option<P>, j: nat)
    requires n <= |xs| && j < |Kept(xs, n, f)|
    ensures exists i :: 0 <= i < n && f(xs[i]) == Some(Kept(xs, n, f)[j])
  {
    var init := Kept(xs, n - 1, f);
    if j < |init| {
      KeptSound(xs, n - 1, f, j);
      assert Kept(xs, n, f)[j] == init[j];
    } else {
      assert f(xs[n - 1]) == Some(Kept(xs, n, f)[j]);
    }
  }

  /** Every value f gives for one of the first n elements is kept. */
  lemma {:induction false} KeptComplete<E, P>(xs: seq<E>, n: nat, f: E -> Option<P>, i: nat)
    requires i < n <= |xs| && f(xs[i]).Some?
    ensures f(xs[i]).value in Kept(xs, n, f)
  {
    if i < n - 1 {
      KeptComplete(xs, n - 1, f, i);
    }
  }

  /** The post one entry gives, if any. */
  function PostOf(e: Entry): Option<PostData>
  {
    ScanEntry(e).post
  }

  /** The posts appended while scanning the first n entries, in scan order. */
  function ScannedPosts(entries: seq<Entry>, n: nat): (posts: seq<PostData>)
    requires n <= |entries|
  {
    Kept(entries, n, PostOf)
  }

  /** The warnings emitted while scanning the first n entries, in order. */
  function ScanWarnings(entries: seq<Entry>, n: nat): seq<Warning>
    requires n <= |entries|
  {
    if n == 0 then [] else ScanWarnings(entries, n - 1) + ScanEntry(entries[n - 1]).warnings
  }

  /** The sort key: the post's date. */
  function PostKey(p: PostData): int
  {
    DateKey(p.date)
  }

  /** The result of collect_post_data: the scanned posts, newest first. */
  function CollectedPosts(entries: seq<Entry>): (posts: seq<PostData>)
    ensures |posts| <= |entries|
  {
    var scanned := ScannedPosts(entries, |entries|);
    var sorted := SortDescBy(scanned, PostKey);
    assert |sorted| == |multiset(sorted)| == |multiset(scanned)| == |scanned|;
    sorted
  }

  /**
   * The loop body of collect_post_data for one entry; each early `return`
   * is one of the script's `continue`s.
   */
  method ScanOne(e: Entry) returns (post: Option<PostData>, warnings: seq<Warning>)
    ensures Scan(post, warnings) == ScanEntry(e)
  {
    post := None;
    warnings := [];
    if !e.Folder? {
      return;
    }
    var date := FolderDate(e.name);
    if date.None? {
      warnings := [InvalidDate(e.name)];
      return;
    }
    if e.index.Missing? {
      warnings := [NoIndex(e.name)];
      return;
    }
    if e.index.NotAFile? {
      warnings := [IndexNotFile(e.name)];
      return;
    }
    var title := FindTitle(e.index.body);
    if title.None? {
      warnings := warnings + [TitleNotFound(e.name)];
    }
    var tags, tagWarning := BuildTagMap(e.index.tags);
    if tagWarning.Some? {
      warnings := warnings + [TagsIgnored(e.name, tagWarning.value)];
    }
    post := Some(PostData(e.name, title, date.value, tags));
  }

  /** Scanning one more entry appends its post, if any, and its warnings. */
  lemma ScanNext(entries: seq<Entry>, i: nat, post: Option<PostData>, found: seq<Warning>)
    requires i < |entries| && Scan(post, found) == ScanEntry(entries[i])
    ensures ScannedPosts(entries, i + 1) == ScannedPosts(entries, i) + (if post.Some? then [post.value] else [])
    ensures ScanWarnings(entries, i + 1) == ScanWarnings(entries, i) + found
  {
    assert PostOf(entries[i]) == post;
  }

  /** The scanning loop of collect_post_data: every entry in listing order. */
  method ScanEntries(entries: seq<Entry>) returns (posts: seq<PostData>, warnings: seq<Warning>)
    ensures posts == ScannedPosts(entries, |entries|)
    ensures warnings == ScanWarnings(entries, |entries|)
  {
    posts := [];
    warnings := [];
    var i := 0;
    while i < |entries|
      invariant 0 <= i <= |entries|
      invariant posts == ScannedPosts(entries, i)
      invariant warnings == ScanWarnings(entries, i)
    {
      var post, found := ScanOne(entries[i]);
      ScanNext(entries, i, post, found);
      warnings := warnings + found;
      if post.Some? {
        posts := posts + [post.value];
      }
      i := i + 1;
    }
  }

  /**
   * collect_post_data: scan every entry, appending a post for each folder whose
   * name starts with a date and which holds an index.md file, then sort by
   * date, newest first, keeping the scan order of posts of the same day.
   */
  method CollectPostData(entries: seq<Entry>) returns (posts: seq<PostData>, warnings: seq<Warning>)
    ensures posts == CollectedPosts(entries)
    ensures warnings == ScanWarnings(entries, |entries|)
    ensures multiset(posts) == multiset(ScannedPosts(entries, |entries|))
    ensures forall i, j :: 0 <= i < j < |posts| ==> DateKey(posts[i].date) >= DateKey(posts[j].date)
    ensures forall k :: WithKey(posts, PostKey, k) == WithKey(ScannedPosts(entries, |entries|), PostKey, k)
  {
    posts, warnings := ScanEntries(entries);
    posts := SortDescBy(posts, PostKey);
  }

  /** p is the post the script builds from folder entry e. */
  predicate PostOfEntry(e: Entry, p: PostData)
  {
    e.Folder? && e.index.Markdown? && p.name == e.name
    && FolderDate(e.name) == Some(p.date)
    && p.title == FindTitle(e.index.body)
    && p.tags == TagMapOf(e.index.tags)
  }

  /** An entry gives a post exactly when it is a folder named by a date that holds an index.md file. */
  lemma ScanEntryKeeps(e: Entry)
    ensures ScanEntry(e).post.Some? <==> e.Folder? && FolderDate(e.name).Some? && e.index.Markdown?
    ensures ScanEntry(e).post.Some? ==> PostOfEntry(e, ScanEntry(e).post.value) && ValidDate(ScanEntry(e).post.value.date)
  {
  }

  /** Every scanned post comes from one of the entries scanned so far. */
  lemma ScannedPostsSound(entries: seq<Entry>, n: nat, j: nat)
    requires n <= |entries| && j < |ScannedPosts(entries, n)|
    ensures exists i :: 0 <= i < n && PostOfEntry(entries[i], ScannedPosts(entries, n)[j])
    ensures ValidDate(ScannedPosts(entries, n)[j].date)
  {
    KeptSound(entries, n, PostOf, j);
    var i :| 0 <= i < n && PostOf(entries[i]) == Some(ScannedPosts(entries, n)[j]);
    ScanEntryKeeps(entries[i]);
  }

  /** Every kept entry's post is among the scanned posts. */
  lemma ScannedPostsComplete(entries: seq<Entry>, n: nat, i: nat)
    requires i < n <= |entries|
    requires ScanEntry(entries[i]).post.Some?
    ensures ScanEntry(entries[i]).post.value in ScannedPosts(entries, n)
  {
    KeptComplete(entries, n, PostOf, i);
  }

  /**
   * The posts collect_post_data returns are exactly those of the kept folders:
   * each has a valid date read from its folder name, the title found in its
   * body and the tag map of its `tags` value.
   */
  lemma CollectedPostsSound(entries: seq<Entry>, p: PostData)
    requires p in CollectedPosts(entries)
    ensures exists i :: 0 <= i < |entries| && PostOfEntry(entries[i], p)
    ensures ValidDate(p.date)
  {
    var scanned := ScannedPosts(entries, |entries|);
    assert p in multiset(scanned);
    var j :| 0 <= j < |scanned| && scanned[j] == p;
    ScannedPostsSound(entries, |entries|, j);
  }

  /** A folder named by a valid date that holds an index.md file gives a returned post. */
  lemma CollectedPostsComplete(entries: seq<Entry>, i: nat)
    requires i < |entries| && entries[i].Folder? && entries[i].index.Markdown?
    requires FolderDate(entries[i].name).Some?
    ensures exists p :: p in CollectedPosts(entries) && PostOfEntry(entries[i], p)
  {
    ScanEntryKeeps(entries[i]);
    ScannedPostsComplete(entries, |entries|, i);
    var p := ScanEntry(entries[i]).post.value;
    assert p in multiset(CollectedPosts(entries));
  }

  /** A folder not named by a date is skipped with a warning, whatever it holds. */
  lemma UndatedFolderSkipped(name: string, index: IndexFile)
    requires FolderDate(name).None?
    ensures ScanEntry(Folder(name, index)) == Scan(None, [InvalidDate(name)])
  {
  }

  /** A folder named by a date but without index.md is skipped with a warning. */
  lemma MissingIndexSkipped(name: string)
    requires FolderDate(name).Some?
    ensures ScanEntry(Folder(name, Missing)) == Scan(None, [NoIndex(name)])
  {
  }

  /** Entries that give no post: none of the first n yields a post, and the sort leaves nothing. */
  lemma {:induction false} NoPostScans(entries: seq<Entry>, n: nat)
    requires n <= |entries|
    requires forall i :: 0 <= i < n ==> PostOf(entries[i]).None?
    ensures ScannedPosts(entries, n) == []
    ensures n == |entries| ==> CollectedPosts(entries) == []
  {
    if n > 0 {
      NoPostScans(entries, n - 1);
    }
  }

  /** "drafts" is not named by a date. */
  lemma DraftsUndated()
    ensures FolderDate("drafts").None?
  {
    assert FirstSegment("drafts") == "drafts";
  }

  /** "20240101" is named by a date. */
  lemma NewYearDated()
    ensures FolderDate("20240101").Some?
  {
    assert FirstSegment("20240101") == "20240101";
    EightDigits("20240101");
  }

  /**
   * A file, a folder not named by a date and a dated folder without index.md
   * give no post, only the two warnings, in listing order.
   */
  lemma SkippedEntries(file: string, undated: string, index: IndexFile, dated: string)
    requires FolderDate(undated).None? && FolderDate(dated).Some?
    ensures var entries := [NotADirectory(file), Folder(undated, index), Folder(dated, Missing)];
      CollectedPosts(entries) == [] && ScanWarnings(entries, 3) == [InvalidDate(undated), NoIndex(dated)]
  {
    var entries := [NotADirectory(file), Folder(undated, index), Folder(dated, Missing)];
    UndatedFolderSkipped(undated, index);
    MissingIndexSkipped(dated);
    assert PostOf(entries[0]).None? && PostOf(entries[1]).None? && PostOf(entries[2]).None?;
    NoPostScans(entries, 3);
    assert ScanWarnings(entries, 1) == [];
    assert ScanWarnings(entries, 2) == [InvalidDate(undated)];
  }

  /** The same for "notes.md", "drafts" and "20240101". */
  lemma SkippedEntriesExample()
    ensures var entries := [NotADirectory("notes.md"), Folder("drafts", Markdown(None, "# Draft\n")),
                            Folder("20240101", Missing)];
      CollectedPosts(entries) == [] && ScanWarnings(entries, 3) == [InvalidDate("drafts"), NoIndex("20240101")]
  {
    DraftsUndated();
    NewYearDated();
    SkippedEntries("notes.md", "drafts", Markdown(None, "# Draft\n"), "20240101");
  }
}
