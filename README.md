# blogs index builder, modelled in Dafny

`tools/build_blog_index.py` builds the index pages of a static blog. It reads
one folder per post (named `yyyymmdd[-suffix]`, holding an `index.md` with
YAML front matter). It turns each folder into a post record: the date from the
folder name, the title from the first level-one heading, and a tag map from
the `tags` list. Then it:

- sorts the posts newest first;
- groups them by tag, ranked by post count (`collect_tags`);
- groups them by year and month for the main index (`build_main_index`).

This project models that logic once the file system, the front-matter parser
and the templates are taken away. Each module follows one part of the script:

| module | part of the script |
|---|---|
| `PyChars` | `str.isspace` / `\s`, the `[^\S\r\n]` class, `str.lower` |
| `Slug` | `slugify` |
| `PostDate` | `name.split("-")[0]` and `strptime(..., "%Y%m%d")`, modelled as the regular expression strptime generates: ordered alternatives, backtracking, "unconverted data remains", calendar validity |
| `H1Title` | `re.search(H1_PATTERN, content)` as a scan over line starts, with an independent definition of a match (`IsH1At`) |
| `TagMap` | the `tags` loop of `collect_post_data`, with its `break` and its two warnings |
| `PyDict` | Python's insertion-ordered `dict`, as a sequence of pairs with distinct keys |
| `StableSort` | `sorted(..., reverse=True)`: a stable sort, largest key first |
| `CollectPosts` | `collect_post_data`, over a list of directory entries |
| `CollectTags` | `collect_tags` |
| `GroupBy` | `itertools.groupby` |
| `Timeline` | the nested grouping loops of `build_main_index` |

The loops of the script are methods:

- `TagMap.AssignTags` and `TagMap.BuildTagMap`;
- `CollectPosts.ScanOne`, `CollectPosts.ScanEntries` and `CollectPosts.CollectPostData`;
- `CollectTags.AddTags` and `CollectTags.CollectTags`;
- `Timeline.GroupMonths` and `Timeline.BuildTimeline`.

Each method is proved equal to a specification function. The properties are
lemmas about those functions. Warnings are returned as values, in the order
the script emits them.

## Model

| member | source | states |
|---|---|---|
| PyChars.IsSpace | tools/build_blog_index.py:24-28 | `\s` and `str.isspace()`: space, tab, newline and carriage return are whitespace; no whitespace character is `#`, `-` or a digit |
| PyChars.Lower | tools/build_blog_index.py:33 | `s.lower()` keeps the length and lower-cases each character on its own (ASCII letters only, see below) |
| Slug.IsSensitive | tools/build_blog_index.py:28 | `SLUGIFY_PATTERN`: no character of the class is `-` or an upper-case letter |
| Slug.ReplaceSensitive | tools/build_blog_index.py:36 | `re.sub(SLUGIFY_PATTERN, "-", s)`: same length, each sensitive character becomes `-`, every other character stays |
| Slug.Slugify | tools/build_blog_index.py:31-41 | a slug is never longer than the name it comes from (true of this model, whose `Lower` is ASCII-only; see below); `SlugifyClean`, `SlugifyIdempotent` and `SlugifyEmptyIff` state what a slug is |
| Slug.StripLeading | tools/build_blog_index.py:39 | `lstrip("-")`: the result is a suffix of s that does not start with '-', and everything cut off is '-' |
| Slug.StripTrailing | tools/build_blog_index.py:39 | `rstrip("-")`: the result is a prefix of s that does not end with '-', and everything cut off is '-' |
| Slug.SlugifyClean | tools/build_blog_index.py:28-41 | a slug holds no upper-case letter, no character of `[\\/\s\#\?&=%\+]`, and neither starts nor ends with '-' |
| Slug.SlugifyIdempotent | tools/build_blog_index.py:31-41 | slugifying a slug again changes nothing |
| Slug.CleanIsFixed | tools/build_blog_index.py:31-41 | a string with no upper-case letter, no sensitive character and no edge dash is its own slug |
| Slug.SlugifyEmptyIff | tools/build_blog_index.py:33-39 | the slug is empty exactly when every character, lower-cased, is '-' or sensitive |
| Slug.SlugifyGo | tools/build_blog_index.py:31-41 | "Go" becomes "go" |
| Slug.SlugifyGoLang | tools/build_blog_index.py:31-41 | "go lang" becomes "go-lang" |
| Slug.SlugifyCollision | tools/build_blog_index.py:31-41 | "C++" and "C +" both become "c", so two tag names can share one slug |
| PostDate.MonthAlternatives | tools/build_blog_index.py:63 | each of the month alternatives `1[0-2]`, `0[1-9]`, `[1-9]` that applies reads a month from 1 to 12 in one or two leading digits |
| PostDate.MonthAlternativesDigits | tools/build_blog_index.py:63 | the month an alternative reads is the value of the digits it consumed |
| PostDate.DayMatch | tools/build_blog_index.py:63 | the day group reads 1 to 31 from one digit, two digits or a space and a digit |
| PostDate.MatchMonthDay | tools/build_blog_index.py:63 | a month-and-day match never reads past the end of the text; `MatchMonthDayFirst` states which alternative it takes |
| PostDate.MatchMonthDayFirst | tools/build_blog_index.py:63 | the match uses the first month alternative that a day match follows, as `re.match` backtracks through the alternatives `1[0-2]`, `0[1-9]` and `[1-9]` in that order, and there is no match exactly when no alternative is followed by a day |
| PostDate.MatchMonthDaySound | tools/build_blog_index.py:63 | a match is one month alternative followed by a day match |
| PostDate.ParseYmd | tools/build_blog_index.py:63-64 | every date strptime accepts is a real date: year 1-9999, month 1-12, day within the month under Gregorian leap years |
| PostDate.ParseYmdLength | tools/build_blog_index.py:63 | only strings of 6 to 8 characters are accepted |
| PostDate.EightDigits | tools/build_blog_index.py:63-64 | on eight digits, strptime accepts exactly the strings that spell a real date, and reads that date |
| PostDate.FormatThenParse | tools/build_blog_index.py:60-63 | a real date written as `yyyymmdd` is read back as that date |
| PostDate.ParseSevenChars | tools/build_blog_index.py:63 | "2024111" is November 1st, 2024 |
| PostDate.ParseSixCharsBacktracks | tools/build_blog_index.py:63 | "202411" backtracks to a one-digit month: January 1st, 2024 |
| PostDate.ParseSpacePaddedDay | tools/build_blog_index.py:63 | "202401 5" is January 5th: the day alternative ` [1-9]` |
| PostDate.ParseUnconvertedData | tools/build_blog_index.py:63-64 | "20240132" is refused: the day reads "3" and the "2" is left over |
| PostDate.ParseNoMatch | tools/build_blog_index.py:63-64 | "2024" and "abcdefgh" are refused |
| PostDate.LeapDayAccepted | tools/build_blog_index.py:63 | February 29th, 2024 is accepted |
| PostDate.CenturyLeapDayRefused | tools/build_blog_index.py:63-64 | February 29th, 1900 is refused |
| PostDate.DayPastMonthEndRefused | tools/build_blog_index.py:63-64 | April 31st is refused |
| PostDate.DashIndex | tools/build_blog_index.py:62 | the position of the first '-' at or after i, or the length when there is none |
| PostDate.FirstSegment | tools/build_blog_index.py:62 | `name.split("-")[0]`: the dash-free prefix of the name, ending at the first '-' or at the end |
| PostDate.FolderDate | tools/build_blog_index.py:60-68 | the date of a folder is parsed from `name.split("-")[0]`; a date it gives is a real date; `FolderDateOfConvention` and `FolderDateExamples` say which names give one |
| PostDate.FolderDateOfConvention | tools/build_blog_index.py:60-63 | `yyyymmdd` and `yyyymmdd-suffix` both get the date they spell, whatever the suffix |
| PostDate.FolderDateExamples | tools/build_blog_index.py:62-68 | "2024-01-01" and "abcdefgh" give no date, so the folder is skipped |
| PostDate.DateKeyOrder | tools/build_blog_index.py:112 | the integer sort key orders real dates as `datetime` comparison does, and equal keys mean equal dates |
| H1Title.MatchAt | tools/build_blog_index.py:23-26 | a capture is non-empty, starts with a non-whitespace character and holds no '\r' or '\n' |
| H1Title.FindTitle | tools/build_blog_index.py:83-86 | a title found has that same shape |
| H1Title.MatchAtSound | tools/build_blog_index.py:23-26 | what the scanner matches at a line start satisfies the pattern's definition `IsH1At` |
| H1Title.MatchAtComplete | tools/build_blog_index.py:23-26 | every match of the definition at a line start is what the scanner returns there |
| H1Title.FindTitleFromFirst | tools/build_blog_index.py:83-86 | the scan returns a match with no match at any earlier position, and returns None only when nothing matches |
| H1Title.FindTitleFirstMatch | tools/build_blog_index.py:83-89 | the title is the capture of the first match in the body, and it is None exactly when no position matches |
| H1Title.SecondLevelHeadingIsNoTitle | tools/build_blog_index.py:23-26 | "## Section" is no title |
| H1Title.HashWithoutSpaceIsNoTitle | tools/build_blog_index.py:23-26 | "#Title" is no title |
| H1Title.UnterminatedLineIsNoTitle | tools/build_blog_index.py:23-26 | "# Title" without a final '\n' is no title |
| H1Title.CarriageReturnIsNoTitle | tools/build_blog_index.py:23-26 | "# Title\r\n" is no title: the '\r' ends the title before the '\n' (a property of the pattern; the bodies the script reads hold no '\r', see below) |
| H1Title.FirstMatchingLineIsTitle | tools/build_blog_index.py:83-86 | the first matching line wins, and trailing blanks stay in the title |
| TagMap.SlugPairs | tools/build_blog_index.py:94-97 | the loop makes one assignment per name |
| TagMap.AssignNext | tools/build_blog_index.py:96-97 | one more iteration is one more `tags[slug] = name` |
| TagMap.AssignTags | tools/build_blog_index.py:94-103 | the loop reports whether every item was a string; if so the map holds their assignments, and otherwise it is empty |
| TagMap.BuildTagMap | tools/build_blog_index.py:91-107 | the tag map and warning equal `TagMapOf` / `TagWarningOf`: a list of strings gives its assignments; a list with a non-string gives the empty map and the value warning; a non-list gives the empty map and the type warning; no key gives the empty map and no warning |
| TagMap.TagMapOf | tools/build_blog_index.py:91-107 | the tag map is always a dict, and it is empty whenever a warning is emitted; `TagMapEntries`, `TagMapKeys`, `TagMapLastWins` and `TagMapMalformed` state its contents |
| TagMap.TagWarningOf | tools/build_blog_index.py:91-107 | no warning exactly when `tags` is absent or a list of strings only |
| TagMap.SlugPairsAt | tools/build_blog_index.py:94-97 | the j-th assignment is (slugify of the j-th name, the j-th name) |
| TagMap.TagMapEntries | tools/build_blog_index.py:91-97 | the tag map is a dict; every key is the slug of its value, and every value is a name from the list |
| TagMap.TagMapKeys | tools/build_blog_index.py:91-97 | the keys are the list's slugs, each once, in order of first occurrence |
| TagMap.TagMapLastWins | tools/build_blog_index.py:96-97 | a slug maps to the last name in the list that has it |
| TagMap.TagMapMalformed | tools/build_blog_index.py:92-107 | a non-string item, a non-list value or a missing key gives the empty map, each with its own warning or none |
| TagMap.SlugPairsTwo | tools/build_blog_index.py:94-97 | two names give two assignments, in order |
| TagMap.SlugPairsExample | tools/build_blog_index.py:94-97 | ["Go", "go lang"] assigns "go" then "go-lang" |
| TagMap.TagMapExample | tools/build_blog_index.py:91-97 | ["Go", "go lang"] gives the map {"go": "Go", "go-lang": "go lang"} |
| PyDict.Get | tools/build_blog_index.py:126-127 | a lookup finds nothing exactly when the key is absent, and otherwise returns the value stored with the key |
| PyDict.GetAt | tools/build_blog_index.py:125 | in a dict, each stored pair is what a lookup of its key returns |
| PyDict.Put | tools/build_blog_index.py:97 | `d[k] = v` keeps the key order when k is present and appends k otherwise; a dict stays a dict |
| PyDict.GetPut | tools/build_blog_index.py:97 | after `d[k] = v`, k gives v and every other key gives what it gave before |
| PyDict.PutNew | tools/build_blog_index.py:129 | assigning a new key appends the pair |
| PyDict.FromPairs | tools/build_blog_index.py:94-97 | assigning pairs one by one always yields a dict |
| PyDict.FromPairsFrom | tools/build_blog_index.py:94-97 | every pair of the result is one of the pairs assigned |
| PyDict.FromPairsKeys | tools/build_blog_index.py:94-97 | the keys come out in order of first assignment |
| PyDict.FromPairsLastWins | tools/build_blog_index.py:96-97 | a key gives the value of its last assignment |
| PyDict.FromDistinctPairs | tools/build_blog_index.py:132-139 | assigning pairs whose keys are distinct rebuilds exactly those pairs (the comprehension of `collect_tags`) |
| PyDict.Dedup | tools/build_blog_index.py:125-129 | the result has no repeats |
| PyDict.DedupMembers | tools/build_blog_index.py:125-129 | the result holds the same elements as the input |
| PyDict.PermutedDict | tools/build_blog_index.py:132-139 | a reordering of a dict's pairs is again a dict |
| PyDict.GetPermuted | tools/build_blog_index.py:132-139 | a reordering of a dict's pairs answers every lookup as before |
| StableSort.SortDescBy | tools/build_blog_index.py:112 | the result is a permutation, its keys never increase, and the elements of each key keep their input order |
| StableSort.StableSortUnique | tools/build_blog_index.py:112 | a sorted and stable ordering of the same elements is unique, so any stable descending sort gives this result |
| CollectPosts.ScanEntry | tools/build_blog_index.py:56-109 | a post is only made from a folder and carries the folder's name; `ScanEntryKeeps` states exactly when a post is made and what it holds, `ScanOne` the warnings |
| CollectPosts.CollectedPosts | tools/build_blog_index.py:112 | at most one post per entry; `CollectedPostsSound`, `CollectedPostsComplete` and `CollectPostData` state which posts and in what order |
| CollectPosts.ScanOne | tools/build_blog_index.py:56-109 | one iteration equals `ScanEntry`: non-folders, undated folders, and folders whose index.md is missing or not a file give no post; the warnings come in the script's order |
| CollectPosts.ScanNext | tools/build_blog_index.py:55-109 | one more entry appends its post, if any, and its warnings |
| CollectPosts.ScanEntries | tools/build_blog_index.py:55-109 | the loop's posts and warnings are those of the entries in listing order |
| CollectPosts.CollectPostData | tools/build_blog_index.py:52-114 | the posts are the scanned posts, permuted, dates non-increasing, and same-day posts in scan order; the warnings come in listing order |
| CollectPosts.ScanEntryKeeps | tools/build_blog_index.py:57-109 | an entry gives a post exactly when it is a folder whose name gives a date and whose index.md is a file; the post carries that name, date, title and tag map |
| CollectPosts.ScannedPostsSound | tools/build_blog_index.py:55-109 | every scanned post is built from one of the entries and has a real date |
| CollectPosts.ScannedPostsComplete | tools/build_blog_index.py:55-109 | the post of every kept entry is scanned |
| CollectPosts.CollectedPostsSound | tools/build_blog_index.py:52-114 | every returned post comes from a kept folder and has a real date |
| CollectPosts.CollectedPostsComplete | tools/build_blog_index.py:52-114 | every dated folder with an index.md file gives a returned post |
| CollectPosts.UndatedFolderSkipped | tools/build_blog_index.py:62-68 | every folder whose name gives no date is skipped with the date warning, whatever its index.md is |
| CollectPosts.MissingIndexSkipped | tools/build_blog_index.py:70-73 | every folder whose name gives a date but that has no index.md is skipped with its warning |
| CollectPosts.NoPostScans | tools/build_blog_index.py:55-114 | when none of the entries gives a post, no post is scanned and collect_post_data returns the empty list |
| CollectPosts.DraftsUndated | tools/build_blog_index.py:62-68 | a folder named "drafts" gives no date |
| CollectPosts.NewYearDated | tools/build_blog_index.py:62-64 | a folder named "20240101" gives a date |
| CollectPosts.SkippedEntries | tools/build_blog_index.py:55-114 | a file, any undated folder and any dated folder without index.md give no post, and exactly the date warning then the index warning |
| CollectPosts.SkippedEntriesExample | tools/build_blog_index.py:55-114 | a file, an undated folder and a folder without index.md give no post and two warnings |
| CollectTags.AddTag | tools/build_blog_index.py:126-129 | one iteration of the inner loop adds the slug as a new key only when it is absent, and keeps a dict a dict; `GetAddPostTags` states the new entry |
| CollectTags.AddPostTags | tools/build_blog_index.py:125-129 | the inner loop over a post's tags keeps a dict a dict; `GetAddPostTags` and `KeysAddPostTags` state its entries and key order |
| CollectTags.GroupByTag | tools/build_blog_index.py:121-129 | the grouping loop yields a dict; `GetGroupByTag` and `KeysGroupByTag` state its entries and key order |
| CollectTags.Extend | tools/build_blog_index.py:126-129 | after the update, the slug's list ends with the post |
| CollectTags.PostsWithTag | tools/build_blog_index.py:124-129 | every post selected has the slug among its tags |
| CollectTags.FreshSlug | tools/build_blog_index.py:125 | a slug of a post's tag map does not occur earlier in the same map |
| CollectTags.GetAddPostTags | tools/build_blog_index.py:125-129 | after a post's inner loop, each slug of the post has the post appended (or starts a list under the post's display name); other slugs are unchanged |
| CollectTags.GroupStep | tools/build_blog_index.py:124-129 | one more post updates exactly the slugs it has |
| CollectTags.PostsWithTagStep | tools/build_blog_index.py:124-129 | the reference entry after one more post follows the same rule |
| CollectTags.GroupByTagStep | tools/build_blog_index.py:124-129 | the grouping agrees with the reference after one more post |
| CollectTags.GroupByTagEmpty | tools/build_blog_index.py:121 | the empty index agrees with the reference |
| CollectTags.GetGroupByTag | tools/build_blog_index.py:121-129 | after the grouping loop, each slug maps to the display name from the first post that has it, with every post that has it, in input order; other slugs are absent |
| CollectTags.KeysAddPostTags | tools/build_blog_index.py:125-129 | a post's inner loop appends its new slugs to the keys, in tag order |
| CollectTags.KeysGroupByTag | tools/build_blog_index.py:121-129 | the grouped index is a dict whose slugs are in order of first occurrence |
| CollectTags.TagsArePrefixDicts | tools/build_blog_index.py:124-125 | the tag maps of the posts are dicts post by post |
| CollectTags.TagIndexIsSorted | tools/build_blog_index.py:132-139 | the comprehension keeps the sorted pairs as they are, and the result is a dict |
| CollectTags.CollectTagsOrder | tools/build_blog_index.py:131-139 | the result is a dict; post counts never increase; slugs with equal counts keep their first-occurrence order |
| CollectTags.CollectTagsEntry | tools/build_blog_index.py:120-141 | each slug maps to the name from its first post and exactly the posts that have it, in order; other slugs are absent |
| CollectTags.TagEntriesNonEmpty | tools/build_blog_index.py:120-141 | every slug has at least one post, and each of its posts has the slug |
| CollectTags.AddTags | tools/build_blog_index.py:125-129 | the inner loop over one post's tags equals `AddPostTags` |
| CollectTags.TagIndexOf | tools/build_blog_index.py:120-141 | the result of collect_tags is a dict; `CollectTagsEntry`, `CollectTagsOrder` and `TagEntriesNonEmpty` state its contents and order |
| CollectTags.CollectTags | tools/build_blog_index.py:120-141 | the method's result equals `TagIndexOf`, whose properties are the lemmas above |
| CollectTags.CollectedTagsAreDicts | tools/build_blog_index.py:91-114 | every post collect_post_data returns has a tag map that is a dict, so the lemmas above apply to its output |
| GroupBy.Runs | tools/build_blog_index.py:146 | there are no runs exactly when the input is empty, and the last run has the key of the last element |
| GroupBy.FlattenSnoc | tools/build_blog_index.py:146 | flattening one more run appends its elements |
| GroupBy.RunsFlattenStep | tools/build_blog_index.py:146 | one more element keeps the runs flattening back to the input |
| GroupBy.RunsFlatten | tools/build_blog_index.py:146 | concatenating the runs gives back the input |
| GroupBy.RunsUniformStep | tools/build_blog_index.py:146 | one more element keeps the runs non-empty and single-keyed |
| GroupBy.RunsUniform | tools/build_blog_index.py:146 | every run is non-empty and all its elements have the run's key |
| GroupBy.RunsSeparated | tools/build_blog_index.py:146 | neighbouring runs have different keys |
| GroupBy.SortedRunsDecrease | tools/build_blog_index.py:146 | on input sorted by the key, largest first, run keys strictly decrease |
| GroupBy.RunsMembers | tools/build_blog_index.py:146 | runs hold input elements only |
| GroupBy.SortedSnoc | tools/build_blog_index.py:148 | appending an element no larger than all before it keeps a sequence sorted |
| GroupBy.RunsSorted | tools/build_blog_index.py:146-148 | each run of a sorted sequence is sorted |
| GroupBy.InRun | tools/build_blog_index.py:146 | an element of a run has the run's key and comes from the input |
| Timeline.MonthsOf | tools/build_blog_index.py:148-149 | one year's month dict is a dict; `MonthsOfSorted` and `MonthsLastWins` state its contents |
| Timeline.TimelineOf | tools/build_blog_index.py:145-150 | the timeline is a dict; `TimelineOfSorted`, `TimelineGroup`, `TimelineKeys` and `TimelineLastWins` state its contents |
| Timeline.GroupMonths | tools/build_blog_index.py:147-149 | the inner loop builds `MonthsOf(group)` |
| Timeline.BuildTimeline | tools/build_blog_index.py:145-150 | the nested loops build `TimelineOf(posts)` |
| Timeline.TimelineGroup | tools/build_blog_index.py:145-150 | for any input, every month group is non-empty and holds only posts of its year and month |
| Timeline.DateKeyYearMonth | tools/build_blog_index.py:112 | a later or equal date has a later or equal year, and in the same year a later or equal month |
| Timeline.SortedYears | tools/build_blog_index.py:146 | posts sorted by date are sorted by year |
| Timeline.SortedMonths | tools/build_blog_index.py:148 | one year's posts sorted by date are sorted by month |
| Timeline.DecreasingRunsDict | tools/build_blog_index.py:149-150 | assigning groups whose keys strictly decrease keeps them all, in order |
| Timeline.MonthsOfSorted | tools/build_blog_index.py:148-149 | for one year's sorted posts, the month dict is the month runs, months strictly decreasing, concatenating back to the group |
| Timeline.YearRunSorted | tools/build_blog_index.py:146 | each year run of sorted posts is sorted and holds that year only |
| Timeline.FlattenAssignments | tools/build_blog_index.py:145-150 | when every year's months flatten back to its group, the timeline flattens back to the year runs |
| Timeline.TimelineOfSorted | tools/build_blog_index.py:145-150 | for date-sorted input, years strictly decrease, months in each year strictly decrease, and concatenating every group in order gives back the input |
| Timeline.CollectedPostsDated | tools/build_blog_index.py:112 | collect_post_data's output has real dates and is sorted, so `TimelineOfSorted` applies to it |
| Timeline.TimelineLastWins | tools/build_blog_index.py:146-150 | a year maps to the months of its last run; on unsorted input a repeated year replaces the earlier group |
| Timeline.MonthsLastWins | tools/build_blog_index.py:148-149 | a month maps to its last run; a repeated month replaces the earlier group |
| Timeline.UnsortedYearRuns | tools/build_blog_index.py:146 | years 2024, 2023, 2024 make three runs, not two |
| Timeline.SinglePostMonths | tools/build_blog_index.py:148-149 | one post gives one month group |
| Timeline.TimelineKeys | tools/build_blog_index.py:146-150 | the years come out in order of first occurrence |
| Timeline.UnsortedTimelineExample | tools/build_blog_index.py:145-150 | with years 2024, 2023, 2024, year 2024 ends up with the last post's group only |

## Left out

- Directory listing, `isdir` / `exists` / `isfile`, and file reading (lines 55-58, 70-79). These are I/O. An `Entry` carries what the script would find: a plain file, or a folder with a missing `index.md`, a non-file `index.md`, or a markdown file. Entries come in the listing order `os.listdir` happens to give. Reading decodes UTF-8 and, with universal newlines (the default `newline=None` of `open` at line 78), turns "\r\n" and a lone "\r" into "\n"; the body is given after that, so it never holds a '\r'.
- An index.md that is not valid UTF-8: the read at line 79 is outside the `try` of lines 59-68, so `UnicodeDecodeError` ends the whole run. `IndexFile` has no case for such a file, and the model does not capture that abort.
- `frontmatter.parse` (line 81) is a foreign library. The body and the `tags` value are given already split. A front matter the library rejects (it raises) is not modelled. The library returns the body with surrounding whitespace stripped, so the body the search sees has no final '\n'. A level-one heading on the body's last line therefore never matches: an index.md holding only "# Title\n" gets no title, the case `H1Title.UnterminatedLineIsNoTitle` states.
- Every other metadata key is not modelled. The `tags` value is a string, a list, or anything else (`Value`).
- `warnings.warn` is a side effect. Warnings are returned as a list of values, one per call, in order.
- The templates and everything after the data is built are output only: the Jinja environment, `render` and the output writes (lines 152-158, 161-191, 194-205). `build_tag_index` renders the tag index into one file.
- `build_tag` (lines 171-191) has file-system effects that are not modelled. It creates the tag page directory when it is missing (172-173). When a file occupies that path, it warns and returns without writing (174-179). Otherwise it writes one page per slug, named `f"{tag_slug}.md"` (185), in the order of `CollectTags.CollectTags`' result.
- The script's `__main__` block (lines 194-205) is `CollectPosts.CollectPostData`, then `CollectTags.CollectTags`, then `build_main_index`, whose grouping is `Timeline.BuildTimeline`, then the two tag outputs above.
- PyChars.Lower: lower-cases ASCII letters only; Python's `str.lower` maps every Unicode cased letter, and may change the length. Because of this, `Slug.SlugifyClean` says "no ASCII upper-case letter", and `Lower` promises the input's length.
- Slug.Slugify: "a slug is never longer than the name" holds only because `PyChars.Lower` keeps the length. Python's `str.lower` can lengthen a string ("İ" lower-cases to two code points), so `slugify("İ")` is longer than its input.
- PostDate.ParseYmd: `\d` is taken to be an ASCII digit; Python's `re` also accepts other Unicode decimal digits.
- PostDate.ParseYmd: the `datetime` is a `Date` record; the time of day, always midnight here, is dropped.
- `IsSpace` is the exact set of code points for which `str.isspace()` holds in current Python; no other Unicode data is used.
- `sorted` uses the integer key `DateKey`; `PostDate.DateKeyOrder` shows it orders real dates as `datetime` comparison does. Python's sort algorithm (Timsort) is an insertion sort here; `StableSort.StableSortUnique` shows every stable descending sort gives the same list.
- `collect_tags` appends to the list inside a tuple held in the dict (line 127). The model builds the new tuple by value. Nothing else holds those lists, so no aliasing is lost.
- `itertools.groupby` is a lazy iterator; `GroupBy.Runs` computes all runs at once, and the loops of `Timeline.BuildTimeline` walk that list.
- content/js/inject_post_header.js, content/inject_blog_header/inject_post_header.js and content/js/config_mathjax.js run in the browser (DOM updates and library configuration) and are not part of the index builder.
