/**
 * build_main_index, without the template: the posts grouped by year, and
 * within a year by month, through two nested `itertools.groupby` loops that
 * fill a dict of dicts. groupby only cuts the list into runs, so the result
 * is a true grouping when the posts are sorted by date, newest first; on
 * other input a year or month met again replaces its earlier group.
 */
module Timeline {
  import opened Options
  import opened PyDict
  import opened StableSort
  import opened GroupBy
  import opened PostDate
  import opened CollectPosts

  /** One year's posts by month. */
  type Months = Dict<int, seq<PostData>>

  /** The posts by year, then month. */
  type TimelineIndex = Dict<int, Months>

  function YearOf(p: PostData): int
  {
    p.date.year
  }

  function MonthOf(p: PostData): int
  {
    p.date.month
  }

  /** The inner loop: `year_dict[month] = list(group_m)` for each month run. */
  function MonthsOf(group: seq<PostData>): (r: Months)
    ensures ValidDict(r)
  {
    FromPairs(Runs(group, MonthOf))
  }

  /** The assignments of the outer loop: `grouped_by_timeline[year] = year_dict`. */
  function YearAssignments(years: seq<Run<PostData>>): seq<(int, Months)>
  {
    seq(|years|, i requires 0 <= i < |years| => (years[i].0, MonthsOf(years[i].1)))
  }

  /** The timeline build_main_index hands to the template. */
  function TimelineOf(posts: seq<PostData>): (r: TimelineIndex)
    ensures ValidDict(r)
  {
    FromPairs(YearAssignments(Runs(posts, YearOf)))
  }

  /** The posts of every group, year after year and month after month. */
  function FlattenTimeline(t: TimelineIndex): seq<PostData>
  {
    if t == [] then [] else FlattenTimeline(t[..|t| - 1]) + Flatten(t[|t| - 1].1)
  }

  /** The inner loop of build_main_index over one year's group. */
  method GroupMonths(group: seq<PostData>) returns (months: Months)
    ensures months == MonthsOf(group)
  {
    var runs := Runs(group, MonthOf);
    months := [];
    for j := 0 to |runs|
      invariant months == FromPairs(runs[..j])
    {
      FromPairsStep(runs, j);
      months := Put(months, runs[j].0, runs[j].1);
    }
    assert runs[..|runs|] == runs;
  }

  /** build_main_index's nested loops, filling `grouped_by_timeline`. */
  method BuildTimeline(posts: seq<PostData>) returns (timeline: TimelineIndex)
    ensures timeline == TimelineOf(posts)
  {
    var years := Runs(posts, YearOf);
    ghost var assignments := YearAssignments(years);
    timeline := [];
    for i := 0 to |years|
      invariant timeline == FromPairs(assignments[..i])
    {
      var (year, group) := years[i];
      var months := GroupMonths(group);
      FromPairsStep(assignments, i);
      timeline := Put(timeline, year, months);
    }
    assert assignments[..|years|] == assignments;
  }

  /** Every group is non-empty and holds posts of its year and month only, sorted input or not. */
  lemma TimelineGroup(posts: seq<PostData>, i: nat, j: nat)
    requires i < |TimelineOf(posts)| && j < |TimelineOf(posts)[i].1|
    ensures TimelineOf(posts)[i].1[j].1 != []
    ensures forall p :: p in TimelineOf(posts)[i].1[j].1 ==>
      p.date.year == TimelineOf(posts)[i].0 && p.date.month == TimelineOf(posts)[i].1[j].0
  {
    var t := TimelineOf(posts);
    var years := Runs(posts, YearOf);
    FromPairsFrom(YearAssignments(years), i);
    var k :| 0 <= k < |years| && t[i] == (years[k].0, MonthsOf(years[k].1));
    var group := years[k].1;
    var months := Runs(group, MonthOf);
    FromPairsFrom(months, j);
    var m :| 0 <= m < |months| && t[i].1[j] == months[m];
    RunsUniform(group, MonthOf);
    forall p | p in months[m].1 ensures p.date.year == years[k].0 && p.date.month == months[m].0 {
      InRun(group, MonthOf, m, p);
      InRun(posts, YearOf, k, p);
    }
  }

  /** Every post carries a real calendar date, as collect_post_data guarantees. */
  predicate Dated(posts: seq<PostData>)
  {
    forall i :: 0 <= i < |posts| ==> ValidDate(posts[i].date)
  }

  /** On real dates, a later-or-equal date key means a later-or-equal year, and month within the year. */
  lemma DateKeyYearMonth(a: Date, b: Date)
    requires ValidDate(a) && ValidDate(b) && DateKey(a) >= DateKey(b)
    ensures a.year >= b.year
    ensures a.year == b.year ==> a.month >= b.month
  {
    DateKeyOrder(a, b);
  }

  /** Posts sorted by date, newest first, are sorted by year. */
  lemma SortedYears(posts: seq<PostData>)
    requires Dated(posts) && SortedDesc(posts, PostKey)
    ensures SortedDesc(posts, YearOf)
  {
    forall i, j | 0 <= i < j < |posts| ensures YearOf(posts[i]) >= YearOf(posts[j]) {
      DateKeyYearMonth(posts[i].date, posts[j].date);
    }
  }

  /** Posts of one year sorted by date, newest first, are sorted by month. */
  lemma SortedMonths(group: seq<PostData>, year: int)
    requires Dated(group) && SortedDesc(group, PostKey)
    requires forall i :: 0 <= i < |group| ==> group[i].date.year == year
    ensures SortedDesc(group, MonthOf)
  {
    forall i, j | 0 <= i < j < |group| ensures MonthOf(group[i]) >= MonthOf(group[j]) {
      DateKeyYearMonth(group[i].date, group[j].date);
    }
  }

  /** Runs whose keys strictly decrease have distinct keys, so assigning them rebuilds them. */
  lemma DecreasingRunsDict<T>(runs: seq<Run<T>>)
    requires forall i, j :: 0 <= i < j < |runs| ==> runs[i].0 > runs[j].0
    ensures FromPairs(runs) == runs
  {
    assert ValidDict(runs) by {
      forall i, j | 0 <= i < j < |runs| ensures Keys(runs)[i] != Keys(runs)[j] {
      }
    }
    FromDistinctPairs(runs);
  }

  /**
   * One year's group of a date-sorted list: its months come out newest
   * first, each once, and together they hold the group as it was.
   */
  lemma MonthsOfSorted(group: seq<PostData>, year: int)
    requires Dated(group) && SortedDesc(group, PostKey)
    requires forall i :: 0 <= i < |group| ==> group[i].date.year == year
    ensures MonthsOf(group) == Runs(group, MonthOf)
    ensures forall j, k :: 0 <= j < k < |MonthsOf(group)| ==> MonthsOf(group)[j].0 > MonthsOf(group)[k].0
    ensures Flatten(MonthsOf(group)) == group
  {
    SortedMonths(group, year);
    SortedRunsDecrease(group, MonthOf);
    DecreasingRunsDict(Runs(group, MonthOf));
    RunsFlatten(group, MonthOf);
  }

  /** The year runs of a date-sorted list, each with its months as above. */
  lemma YearRunSorted(posts: seq<PostData>, k: nat)
    requires Dated(posts) && SortedDesc(posts, PostKey) && k < |Runs(posts, YearOf)|
    ensures var group := Runs(posts, YearOf)[k].1;
      Dated(group) && SortedDesc(group, PostKey)
      && forall i :: 0 <= i < |group| ==> group[i].date.year == Runs(posts, YearOf)[k].0
  {
    var group := Runs(posts, YearOf)[k].1;
    RunsSorted(posts, YearOf, PostKey, k);
    forall i | 0 <= i < |group| ensures ValidDate(group[i].date) && group[i].date.year == Runs(posts, YearOf)[k].0 {
      InRun(posts, YearOf, k, group[i]);
    }
  }

  lemma {:induction false} FlattenAssignments(years: seq<Run<PostData>>)
    requires forall i :: 0 <= i < |years| ==> Flatten(MonthsOf(years[i].1)) == years[i].1
    ensures FlattenTimeline(YearAssignments(years)) == Flatten(years)
  {
    if years != [] {
      var n := |years| - 1;
      FlattenAssignments(years[..n]);
      assert YearAssignments(years)[..n] == YearAssignments(years[..n]);
    }
  }

  /**
   * The timeline of a date-sorted list: years newest first and each once,
   * months newest first and each once within their year, and the groups,
   * read in order, give back the list.
   */
  lemma TimelineOfSorted(posts: seq<PostData>)
    requires Dated(posts) && SortedDesc(posts, PostKey)
    ensures forall i, j :: 0 <= i < j < |TimelineOf(posts)| ==> TimelineOf(posts)[i].0 > TimelineOf(posts)[j].0
    ensures forall i, j, k :: 0 <= i < |TimelineOf(posts)| && 0 <= j < k < |TimelineOf(posts)[i].1| ==>
      TimelineOf(posts)[i].1[j].0 > TimelineOf(posts)[i].1[k].0
    ensures FlattenTimeline(TimelineOf(posts)) == posts
  {
    var years := Runs(posts, YearOf);
    var assignments := YearAssignments(years);
    SortedYears(posts);
    SortedRunsDecrease(posts, YearOf);
    DecreasingRunsDict(assignments);
    forall k | 0 <= k < |years| ensures Flatten(MonthsOf(years[k].1)) == years[k].1
      && forall j, l :: 0 <= j < l < |MonthsOf(years[k].1)| ==> MonthsOf(years[k].1)[j].0 > MonthsOf(years[k].1)[l].0
    {
      YearRunSorted(posts, k);
      MonthsOfSorted(years[k].1, years[k].0);
    }
    FlattenAssignments(years);
    RunsFlatten(posts, YearOf);
  }

  /** The posts collect_post_data returns are dated and sorted, newest first. */
  lemma CollectedPostsDated(entries: seq<Entry>)
    ensures Dated(CollectedPosts(entries)) && SortedDesc(CollectedPosts(entries), PostKey)
  {
    var posts := CollectedPosts(entries);
    forall i | 0 <= i < |posts| ensures ValidDate(posts[i].date) {
      CollectedPostsSound(entries, posts[i]);
    }
  }

  /**
   * On input not sorted by year, a year met again after another year keeps
   * its first position in the timeline but only its last run's months.
   */
  lemma TimelineLastWins(posts: seq<PostData>, i: nat)
    requires i < |Runs(posts, YearOf)|
    requires forall j :: i < j < |Runs(posts, YearOf)| ==> Runs(posts, YearOf)[j].0 != Runs(posts, YearOf)[i].0
    ensures Get(TimelineOf(posts), Runs(posts, YearOf)[i].0) == Some(MonthsOf(Runs(posts, YearOf)[i].1))
  {
    FromPairsLastWins(YearAssignments(Runs(posts, YearOf)), i);
  }

  /** Likewise a month met again within one year's run: its last run replaces the earlier ones. */
  lemma MonthsLastWins(group: seq<PostData>, i: nat)
    requires i < |Runs(group, MonthOf)|
    requires forall j :: i < j < |Runs(group, MonthOf)| ==> Runs(group, MonthOf)[j].0 != Runs(group, MonthOf)[i].0
    ensures Get(MonthsOf(group), Runs(group, MonthOf)[i].0) == Some(Runs(group, MonthOf)[i].1)
  {
    FromPairsLastWins(Runs(group, MonthOf), i);
  }

  /** The year runs of three posts from 2024, 2023 and 2024: three runs. */
  lemma UnsortedYearRuns(a: PostData, b: PostData, c: PostData)
    requires a.date.year == 2024 && b.date.year == 2023 && c.date.year == 2024
    ensures Runs([a, b, c], YearOf) == [(2024, [a]), (2023, [b]), (2024, [c])]
  {
    assert [a, b, c][..2] == [a, b] && [a, b][..1] == [a];
    assert Runs([a], YearOf) == [(2024, [a])];
  }

  /** A single post's months: its own month only. */
  lemma SinglePostMonths(p: PostData)
    ensures MonthsOf([p]) == [(p.date.month, [p])]
  {
    var runs := [(p.date.month, [p])];
    assert Runs([p], MonthOf) == runs;
    assert runs[..0] == [] && Keys<int, seq<PostData>>([]) == [];
    assert FromPairs(runs) == Put(FromPairs(runs[..0]), p.date.month, [p]);
    PutNew([], p.date.month, [p]);
  }

  /**
   * The timeline's years are the years of the runs in the order they are
   * first met: a year met again keeps its first position.
   */
  lemma TimelineKeys(posts: seq<PostData>)
    ensures Keys(TimelineOf(posts)) == Dedup(Keys(Runs(posts, YearOf)))
  {
    var years := Runs(posts, YearOf);
    FromPairsKeys(YearAssignments(years));
    assert Keys(YearAssignments(years)) == Keys(years);
  }

  /**
   * Three posts out of date order, in 2024, 2023 and 2024 again: the 2024
   * entry ends up holding the last post only.
   */
  lemma UnsortedTimelineExample(a: PostData, b: PostData, c: PostData)
    requires a.date.year == 2024 && b.date.year == 2023 && c.date.year == 2024
    ensures Get(TimelineOf([a, b, c]), 2024) == Some([(c.date.month, [c])])
  {
    UnsortedYearRuns(a, b, c);
    TimelineLastWins([a, b, c], 2);
    SinglePostMonths(c);
  }
}
