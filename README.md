# Running Images: the spreadsheet-to-site pipeline in Dafny

This project models the data pipeline behind the Running Images catalogue of running films.
A spreadsheet of video records is downloaded. It is then validated and normalised; in the
later pipeline this is `clean_gspread_data`, in the earlier script `clean_data`. From the
five comma-list columns (events, people, sponsors, production, direction) the pipeline builds
one keyword table per column. An item of a table is a *tag* once it occurs at least
`TAG_MIN_COUNT` (2) times. Each cleaned row becomes a video record (`create_videos`) or an
article (`create_articles`). The record gets a release-period category and its tags. Finally
`build_site_content` clears the content directory and writes one reStructuredText page per
video, under `<category>/<slug>.rst`.

Modules, leaves first:

- `Wrappers`: `Option`, `Result` and `Outcome`, so that a raised error is a value.
- `Text`: the string operations the code borrows from Python and numpy.
  - `str.strip`, `str.lower`, `str.split`, `str.join`, `str.replace` and `c * n`.
  - `np.unique` on strings, that is sorted distinct in code-point order.
  - Zero-padded decimals.
- `Strptime`: `datetime.strptime` for `%H:%M:%S` and `%Y/%m/%d`, directive by directive.
  - Each directive has its own regular expression: one-digit fields are allowed, a day may be
    padded with a space (`" 5"`), and the leap seconds 60 and 61 are admitted.
  - `datetime` then refuses what it cannot hold (second 60, 29 February of a common year,
    year 0).
  - Includes `strftime('%Y-%m-%d')`.
- `Table`: the sheet and the validators `validate_non_empty`, `validate_unique` and
  `validate_is_yesno`.
  - Raw rows, and trimmed rows whose blank cells are absent.
  - The per-cell conversions `build_web_slug`, `parse_created`, `parse_duration`,
    `parse_lang`, `country_name` and the list splitting with the alias table.
- `Keywords`: the keyword tables.
  - `item_table`, `find_similar` with a Levenshtein distance, and the `extract_keywords` loop.
  - The tag loop shared by `create_videos` and `create_articles`.
- `Process`: `clean_gspread_data` of `src/process.py`, as a staged specification function and
  as the method that reassigns the table column by column.
- `Videos`: `set_category` and `create_videos`.
- `Generate`: `to_video_page`, the page path, and the content directory as a class.
  - The class `ContentDir` holds a `files` map that `clean_content` and `build_site_content`
    update.
- `ProcessData`: the earlier script `process_data.py`.
  - Its constants `TAG_MIN_COUNT`, `NAME_MAPS` and `LANG_MAP`.
  - `clean_data`, with its three loops over column lists (yes/no flags, presence,
    uniqueness), then the conversions and the row records.
  - `create_articles`.

Two failures come from pandas rather than from the pipeline's own checks, and the model
includes both. A sheet without records has no columns, so the first yes/no check finds no
column to read. When no row is exported, the first row-wise `apply` has no row to run on and
returns the whole frame, which cannot be assigned to one column. That `apply` builds
`slug_web` in `src/process.py` and `duration` in `process_data.py`. In `process_data.py` the
int64 test comes before it, and on the empty frame it sees the type of the downloaded column, so a
sheet with a text release year raises that error instead.

The Python code raises and aborts at the first offending column or row. Each stage is
therefore a function returning `Result`; for example `CleanSheet` and `CleanTable` name the
first error raised. The loops the code runs are methods proved equal to those functions.

In a few places the code does something other than what its names and messages suggest. The
model follows the code.

- `validate_unique` and `validate_is_yesno` in `src/process.py` format their message with the
  undefined name `col`. A failing check therefore raises `NameError`, not the validation error
  that names the column. The model returns `NameNotDefined("col")`.
- Keyword counts are taken after `str.strip()` only. They are case-sensitive.
- `%H:%M:%S` and `%Y/%m/%d` are not strict. `1:2:3` is a duration and `2021/1/ 5` a date.
- The slug pattern `^[0-9a-z\_]+$` used with `re.match` also accepts one trailing newline.
  A trimmed cell cannot end in one, so this never changes the outcome (`Table.TrimmedSlugPattern`).
- In `process_data.py` both yes/no columns are checked on the raw sheet before anything is
  trimmed, so `" yes"` raises there.
- In `process_data.py` the slug is lower-cased before the presence and uniqueness checks.

## Model

| member | source | states |
|---|---|---|
| Text.Strip | src/process.py:49 | the stripped text is empty or begins and ends with a non-whitespace character |
| Text.StripShape | src/process.py:49 | what strip keeps is the slice of its input after the leading whitespace, with only whitespace after it |
| Text.StripEmpty | process_data.py:53-55 | strip returns the empty text exactly when the cell is all whitespace, which `replace('', nan)` then makes absent |
| Text.StripIdempotent | process_data.py:53 | stripping twice is stripping once |
| Text.Lower | src/process.py:74 | lower-casing keeps the length and folds each character on its own |
| Text.LowerCollapsesCase | src/process.py:74-75 | two slugs are equal after lower-casing exactly when they differ only in letter case |
| Text.FirstIndex | src/process.py:125 | the first separator position; no separator occurs before it |
| Text.Split | src/process.py:125 | `str.split(',')` yields at least one piece and no piece contains the separator |
| Text.JoinSplit | src/process.py:125 | joining the pieces of a split with the separator gives back the cell |
| Text.SplitAround | src/process.py:125 | splitting at one separator splits both sides independently |
| Text.SplitWithoutSeparator | src/process.py:125 | a cell without a comma is one item |
| Text.SplitJoin | src/generate.py:27 | splitting a `;`-joined list gives back the list when no item contains `;` |
| Text.ReplaceChar | src/process.py:79 | `slug.replace('_', '-')` keeps the length and changes exactly the underscores |
| Text.ReplaceCharInverse | src/process.py:79 | replacing back recovers the slug when the replacement character was absent |
| Text.Repeat | src/generate.py:23 | the title underline is `#` repeated exactly the title's length |
| Text.LexIrreflexive | src/process.py:125 | the code-point order `np.unique` sorts by is irreflexive |
| Text.LexTransitive | src/process.py:125 | the order is transitive |
| Text.LexTotal | src/process.py:125 | the order is total on distinct strings |
| Text.LexAsymmetric | src/process.py:125 | the order is asymmetric |
| Text.InsertSorted | src/process.py:125 | inserting into a strictly sorted list keeps it strictly sorted and adds exactly the new element |
| Text.SortedDistinct | src/process.py:125 | `np.unique` returns a strictly ascending list holding exactly the input's elements |
| Text.StrictlySortedCard | src/process.py:125 | a strictly sorted list has as many entries as distinct elements |
| Text.StrictlySortedUnique | src/process.py:125 | two strictly sorted lists with the same elements are equal, so `np.unique`'s order is the only one |
| Text.DigitChar | src/generate.py:26 | the digit character of n has value n |
| Text.Pad2 | src/generate.py:26 | `%m` and `%d` print two digits whose value is the number |
| Text.DigitsAppend2 | src/generate.py:26 | appending two digits multiplies the value by 100 and adds theirs |
| Text.Pad4 | src/generate.py:26 | `%Y` prints four digits whose value is the year |
| Strptime.HourWidth | src/process.py:96 | the `%H` match is at most two digits with value at most 23 |
| Strptime.MinuteWidth | src/process.py:96 | the `%M` match is at most two digits with value at most 59 |
| Strptime.SecondWidth | src/process.py:96 | the `%S` match is at most two digits with value at most 61 |
| Strptime.YearWidth | src/process.py:86 | the `%Y` match is exactly four digits or nothing |
| Strptime.MonthWidth | src/process.py:86 | the `%m` match has a value from 1 to 12 |
| Strptime.DayWidth | src/process.py:86 | the `%d` match, space-padded or not, has a value from 1 to 31 |
| Strptime.ParseDuration | src/process.py:95-97 | a parsed duration is shorter than one day |
| Strptime.DurationRoundTrip | src/process.py:95-97 | the zero-padded text of hours, minutes and seconds parses to their total in seconds |
| Strptime.DurationOnto | src/process.py:95-97 | every duration below one day is the parse of its zero-padded text |
| Strptime.PaddedDurationExample | src/process.py:96 | `01:02:03` is 3723 seconds |
| Strptime.UnpaddedDurationExample | src/process.py:96 | `1:2:3` is also accepted, as 3723 seconds |
| Strptime.HourOutOfRangeExample | src/process.py:96 | hour 24 is refused |
| Strptime.LeapSecondExample | src/process.py:96-97 | second 60 passes `%S` but is refused by datetime |
| Strptime.TrailingTextExample | src/process.py:96 | trailing text after the seconds is refused |
| Strptime.CreatedRoundTrip | src/process.py:86 | a date printed as `%Y-%m-%d` with its dashes turned into slashes parses back to the same date |
| Strptime.SlashedFormat | src/generate.py:26 | the printed date with slashes for dashes is the four padded fields separated by `/` |
| Strptime.ParseSlashed | src/process.py:86 | the zero-padded `%Y/%m/%d` text of a date parses to it |
| Strptime.ParseMonthDaySlashed | src/process.py:86 | the `%m/%d` tail of that text parses to the date |
| Strptime.FormatDateInjective | src/generate.py:26 | distinct dates print differently |
| Strptime.LeapDayExample | src/process.py:86 | `2020/02/29` is a date |
| Strptime.NotALeapYearExample | src/process.py:86-88 | `2021/02/29` is refused |
| Strptime.SpacePaddedDayExample | src/process.py:86 | `2021/1/ 5` is accepted as 5 January 2021 |
| Strptime.YearZeroExample | src/process.py:86-88 | year 0 is refused |
| Strptime.DashedDateExample | src/process.py:86-88 | a dashed date is refused |
| Table.ColumnValues | src/process.py:21 | the column as the validators read it, row by row |
| Table.TrimText | src/process.py:49-50 | a text cell becomes absent exactly when it is blank, otherwise its stripped non-empty text |
| Table.TrimCell | src/process.py:49 | integers pass through the strip unchanged; text cells are trimmed |
| Table.TrimTable | src/process.py:49-50 | every row is trimmed, in order |
| Table.LowerSlugs | src/process.py:74 | every row has its slug lower-cased, in order |
| Table.Filter | src/process.py:54 | a row filter keeps exactly the rows that satisfy the predicate |
| Table.FilterAppend | src/process.py:54 | filtering keeps the order of the rows |
| Table.FilterSingle | src/process.py:54 | one row is kept exactly when it satisfies the predicate |
| Table.Indices | src/process.py:21 | the positions a mask selects, in increasing order |
| Table.AbsentRows | src/process.py:21 | `df[col].isna()` selects exactly the rows whose cell is absent |
| Table.DuplicatedRows | src/process.py:29 | `duplicated(keep=False)` selects exactly the rows whose value another row repeats, both of every equal pair |
| Table.NoDuplicatedRows | src/process.py:29-30 | no row is selected exactly when the column's values are distinct |
| Table.NotYesNoRows | src/process.py:37 | `~isin(['yes', 'no'])` selects exactly the rows holding neither, an absent cell included |
| Table.ValidateNonEmpty | src/process.py:20-25 | passes exactly when every row has the column, otherwise fails with the empty-values error naming the column |
| Table.ValidateUnique | src/process.py:28-33 | passes exactly when the column's values are distinct; on failure the message raises NameError |
| Table.ValidateIsYesNo | src/process.py:36-41 | passes exactly when every cell is `yes` or `no`; on failure the message raises NameError |
| Table.SlugPrefix | src/process.py:77 | the longest prefix of slug characters |
| Table.SlugPatternWithoutNewline | src/process.py:77 | unless the text ends in a newline, the pattern matches exactly the non-empty texts of `[0-9a-z_]` |
| Table.TrimmedSlugPattern | src/process.py:49-77 | on a trimmed, lower-cased slug the pattern means exactly "non-empty text of `[0-9a-z_]`" |
| Table.TrimmedText | src/process.py:49 | a trimmed, lower-cased cell never ends in a newline |
| Table.SlugPatternTrailingNewline | src/process.py:77 | the pattern accepts `ab` with one trailing newline and refuses `a-b` |
| Table.BuildWebSlug | src/process.py:76-79 | succeeds exactly when the slug matches the pattern, then returns it with `_` turned into `-`; otherwise fails naming the id and the slug |
| Table.WebSlugInjective | src/process.py:76-79 | distinct valid slugs give distinct web slugs |
| Table.SlugPatternChars | src/process.py:77 | what the pattern accepts is slug characters and at most a newline |
| Table.NoHyphen | src/process.py:77-79 | an accepted slug has no hyphen, so the web slug's hyphens are exactly its underscores |
| Table.GetName | src/process.py:123 | a label is replaced only when the alias table has a `name` for it in that column |
| Table.Names | src/process.py:125 | each token is stripped and looked up, in order |
| Table.SplitItems | src/process.py:125 | an absent cell stays absent; a present cell gives one name per distinct raw token, each item comes from a token and every token's name is present |
| Table.NamesOfDistinctTokens | src/process.py:125 | the names are those of the sorted distinct tokens, one per distinct token |
| Table.DistinctTokensCount | src/process.py:125 | `np.unique` keeps one token per distinct value |
| Table.DedupBeforeStrip | src/process.py:125 | tokens are made distinct before stripping, so `a, a` yields `a` twice |
| Table.DurationField | src/process.py:92-99 | an absent duration stays absent, a parseable one becomes its seconds, anything else fails naming the id and the text |
| Table.CreatedField | src/process.py:84-88 | succeeds exactly when the date parses, with that date; otherwise fails naming the id and the text |
| Table.LanguageField | src/process.py:103-108 | fails exactly on a present code missing from the language map, otherwise maps the code or stays absent |
| Table.CountryField | src/process.py:112-118 | fails exactly on a present code the country database lacks, otherwise gives its name or stays absent |
| Table.Lists.Set | src/process.py:124-125 | replacing one list column leaves the other four unchanged |
| Table.RowLists | src/process.py:124-125 | each of the five list columns of a row is its split cell |
| Keywords.StripAll | src/process.py:141 | `.str.strip()` strips each item, in order |
| Keywords.ItemsOfCell | src/process.py:141 | every item of every present list is counted, stripped |
| Keywords.CountPositive | src/process.py:141 | an item is counted at least once exactly when it occurs |
| Keywords.Tally | src/process.py:141 | `value_counts` has exactly the occurring items, each with its number of occurrences |
| Keywords.BuildTable | src/process.py:140-144 | the item table holds exactly the column's items, with their counts, and `is_tag` exactly when the count reaches the minimum |
| Keywords.CountsSumToItems | src/process.py:141 | the counts of a table add up to the number of items |
| Keywords.SumOfCounts | src/process.py:141 | summing occurrences over the distinct keys counts every item once |
| Keywords.CountDistinct | src/process.py:141 | a key occurs once in a list of distinct keys |
| Keywords.ColumnCells | src/process.py:141 | the cells of one list column, row by row |
| Keywords.KeywordTables | src/process.py:151-157 | one item table per list column, in the order events, people, sponsors, production, direction |
| Keywords.ExtractKeywords | src/process.py:167-169 | the loop collecting the tables yields exactly those tables |
| Keywords.DistanceZero | src/process.py:148 | the edit distance is zero exactly between equal strings |
| Keywords.DistanceSymmetric | src/process.py:148 | the edit distance is symmetric |
| Keywords.DistanceBounds | src/process.py:148 | the edit distance lies between the difference of the lengths and the longer length |
| Keywords.ScoresOf | src/process.py:148 | the scores of item i against every later item, in index order |
| Keywords.ScoresFromMembership | src/process.py:148 | the scores hold exactly one entry per index pair i < j |
| Keywords.WithinThreshold | src/process.py:149 | exactly the scores within the threshold are kept |
| Keywords.InsertByDistance | src/process.py:149 | stable insertion keeps the list ordered by distance and is a permutation |
| Keywords.SortByDistance | src/process.py:149 | `sorted` by distance yields a permutation ordered by distance that keeps the order of equal distances |
| Keywords.FindSimilarMembership | src/process.py:146-149 | the report holds exactly the pairs i < j whose distance is within the threshold |
| Keywords.FindSimilarOrder | src/process.py:146-149 | the report is ordered by distance, and entries at one distance keep their (i, j) order |
| Keywords.AtDistanceWithin | src/process.py:149 | the filter keeps each distance's entries in order, or drops them all |
| Keywords.AtDistanceAppend | src/process.py:148 | the entries at one distance of two concatenated lists are concatenated |
| Keywords.FindSimilarNoSelfPairs | src/process.py:146-149 | among distinct items no entry pairs an item with itself and every distance is positive |
| Keywords.TagsIn | src/process.py:226 | keeps exactly the row's items that the table marks as tags |
| Keywords.SourceTagsMembership | src/process.py:223-226 | an absent column contributes nothing; a present one contributes its tag items |
| Keywords.TagsMembership | src/process.py:221-226 | x is a tag of the row exactly when some source marks an item of the row's column x as a tag |
| Keywords.TagsSound | src/process.py:221-226 | every tag comes from some source |
| Keywords.TagsComplete | src/process.py:221-226 | every tag item of every source is kept |
| Keywords.BuildTags | src/process.py:221-226 | the tag loop yields exactly the row's tags, source by source |
| Keywords.TagMeaning | src/process.py:139-174 | with tables built from the rows, x is a tag of a row exactly when the row lists x in a column where x occurs at least the minimum number of times |
| Keywords.ListIndex | src/process.py:124 | every list column has its place in the visiting order |
| Process.WebSlugColumn | src/process.py:76-80 | succeeds exactly when every slug matches, giving each web slug; otherwise fails with the first offending row |
| Process.CreatedColumn | src/process.py:83-89 | succeeds exactly when every creation date parses, giving each date; otherwise fails with the first offending row |
| Process.DurationColumn | src/process.py:91-100 | succeeds exactly when every present duration parses; absent ones stay absent; otherwise fails with the first offending row |
| Process.LanguageColumn | src/process.py:102-109 | succeeds exactly when every present code is known, mapping each; otherwise fails with the first offending row |
| Process.CountryColumn | src/process.py:111-119 | succeeds exactly when every present code is a known country, naming each; otherwise fails with the first offending row |
| Process.ListsColumn | src/process.py:121-125 | every row's five list columns are split |
| Process.Assemble | src/process.py:44-136 | the cleaned table has one row per input row, built from its converted cells |
| Process.CleanGspreadData | src/process.py:44-136 | the column-by-column method returns exactly the staged cleaning, error or table |
| Process.ConvertColumns | src/process.py:73-125 | the conversions from the slug check on return exactly the staged result |
| Process.SplitLists | src/process.py:124-125 | the loop over the five list columns splits each, leaving the others as copied |
| Process.CopyAll | src/process.py:124 | copying all five columns gives back the lists |
| Process.KeyedRows | src/process.py:57-75 | past the id, title and slug checks, every row has its keys and a whole-number release year |
| Process.DatedRows | src/process.py:83 | past the creation check, every row has a creation date |
| Process.CompleteRows | src/process.py:128-133 | past the description and free_access checks, every row is complete |
| Process.CleanSheetSucceeds | src/process.py:44-136 | cleaning succeeds exactly on the sheets with valid export flags and at least one exported row, whose exported rows have present, distinct keys, an integral release year column, valid slugs and convertible cells |
| Process.EmptySheetFails | src/process.py:36-37 | a sheet without records fails for lack of an export column |
| Process.NothingExportedFails | src/process.py:80 | when no row is exported and the earlier checks pass, building slug_web fails |
| Process.CleanExportedSucceeds | src/process.py:57-136 | the stages after the export filter succeed exactly under those conditions, a non-empty export included |
| Process.CleanKeyedSucceeds | src/process.py:73-136 | once the keys are present, success depends only on the slug checks, the conversions and the export not being empty |
| Process.KeyedLoweredSucceeds | src/process.py:74-136 | the stages after lower-casing succeed exactly when the lower-cased slugs are distinct, the slugs are valid, every row converts and some row is exported |
| Process.CleanKeyedForm | src/process.py:73-136 | past the key checks, cleaning is the cleaning of the lower-cased rows |
| Process.LoweredRowsAgree | src/process.py:74-136 | a successful cleaning's lower-cased rows match the slug pattern and convert |
| Process.LoweredConverts | src/process.py:74 | lower-casing changes only the slug, so the rows convert as before |
| Process.LoweredSlugPattern | src/process.py:74-80 | on lower-cased trimmed slugs the pattern means valid slug characters |
| Process.LoweredRowPattern | src/process.py:74-80 | the same, row by row |
| Process.KeyedByColumn | src/process.py:60-73 | rows with their keys pass the key presence checks |
| Process.CleanLoweredSucceeds | src/process.py:75-136 | after lower-casing, success needs distinct slugs, at least one row, matching slugs and convertible rows |
| Process.LoweredAreDated | src/process.py:80-136 | past the slug checks on at least one row, success means every row converts |
| Process.CleanDatedSucceeds | src/process.py:83-136 | the per-row conversions succeed exactly when every row converts |
| Process.ConvertsByColumn | src/process.py:83-133 | every row converting is every column conversion succeeding |
| Process.ColumnsFromRows | src/process.py:83-133 | rows that convert make every column conversion succeed |
| Process.RowsFromColumns | src/process.py:83-133 | successful column conversions mean every row converts |
| Process.DescribedRows | src/process.py:128-133 | past the last two presence checks every row has a description and a free_access flag |
| Process.RowsConvert | src/process.py:83-133 | the per-row conditions make every row convert |
| Process.CleanSheetRows | src/process.py:44-136 | a successful cleaning keeps every exported row, in order, each cell carried over or converted from its trimmed, lower-cased form |
| Process.SheetStages | src/process.py:44-75 | a successful cleaning is the cleaning of its lower-cased exported rows |
| Process.ExportedStages | src/process.py:57-75 | past the key checks the cleaning is that of the lower-cased rows |
| Process.LoweredDerived | src/process.py:75-136 | each cleaned row derives from its lower-cased row |
| Process.DatedDerived | src/process.py:83-136 | the same after the conversions |
| Process.DescribedDerived | src/process.py:128-136 | the same for the assembled rows |
| Process.CleanSheetKeysDistinct | src/process.py:60-80 | no two cleaned rows share an id, a title, a slug or a web slug |
| Process.DistinctPair | src/process.py:60-80 | two rows with distinct keys give cleaned rows with distinct keys |
| Process.SlugsDistinctIgnoringCase | src/process.py:74-75 | no two exported slugs of a successful cleaning differ only in letter case |
| Process.CleanedSlugsDistinct | src/process.py:74-75 | the lower-cased exported slugs are distinct |
| Videos.Period | src/process.py:177-187 | the period is the first exactly before 2000 and the last exactly from 2015 |
| Videos.SetCategory | src/process.py:177-187 | the category is the label of the year's period |
| Videos.PeriodMonotone | src/process.py:177-187 | a later year never gets an earlier period |
| Videos.CategoriesDistinct | src/process.py:177-187 | the five labels are distinct |
| Videos.CategorySpan | src/process.py:180-185 | from 2000 to 2014 the label names, in four-digit years, the five-year span holding the year |
| Videos.SpanText | src/process.py:180-185 | the three middle labels are their spans written out |
| Videos.VideosOf | src/process.py:190-230 | one video per row, in row order |
| Videos.CreateVideos | src/process.py:190-230 | the loop over the rows yields exactly those videos |
| Videos.VideoCategoryAndAuthors | src/process.py:201-219 | a video's category is its period's label, `x-1999` exactly before 2000, and its authors are its direction credits |
| Videos.VideoTags | src/process.py:221-236 | with the tables built from the rows, x is a video tag exactly when the row lists x in a column where x occurs at least the minimum number of times |
| Videos.VideoSlugsDistinct | src/process.py:190-230 | the videos of a successful cleaning have distinct web slugs and distinct file slugs |
| Generate.HeaderLines | src/generate.py:22-34 | the page head has at least the seven fixed lines |
| Generate.PageLayout | src/generate.py:21-41 | the page is its header lines joined by newlines, a blank line, the description and a final newline |
| Generate.OptionalLines | src/generate.py:30-34 | each present optional field adds one more line |
| Generate.HeadLayout | src/generate.py:22-28 | the fixed lines joined are the head of the page |
| Generate.JoinCons | src/generate.py:22-34 | a line in front goes before a newline |
| Generate.JoinSnoc | src/generate.py:30-34 | one more line goes after a newline |
| Generate.PageHeaderRoundTrip | src/generate.py:21-41 | fields without newlines can be read back line by line from the page: title, underline, blank, slug, date, tags and summary lines, then category and authors when present |
| Generate.HeaderLineWithoutNewline | src/generate.py:22-34 | no header line holds a newline when the fields hold none |
| Generate.DigitsWithoutNewline | src/generate.py:26 | a printed date holds no newline |
| Generate.JoinWithoutNewline | src/generate.py:27 | a joined list holds no newline when its parts hold none |
| Generate.PagePathInjective | src/generate.py:49-52 | categories and slugs without `/` give each (category, slug) pair its own path |
| Generate.SlashSplit | src/generate.py:50 | the first `/` separates the two parts of a path |
| Generate.CategoryWithoutSlash | src/process.py:177-187 | no category holds a `/` |
| Generate.CleanSlugWithoutSlash | src/process.py:76-79 | a slug that passed the check holds no `/` |
| Generate.TopEntry | src/generate.py:12 | a directory entry name holds no `/` |
| Generate.SiteFilesPaths | src/generate.py:47-55 | after writing, the directory holds exactly the videos' paths |
| Generate.SiteFilesLastWriter | src/generate.py:47-55 | a video's file holds its own page unless a later video writes the same path |
| Generate.CleanSheetPages | src/generate.py:44-58 | each video of a successful cleaning has its own file, holding its own page |
| Generate.CleanRowPathApart | src/generate.py:49-52 | videos with distinct file slugs get distinct paths |
| Generate.ContentDir.CleanContent | src/generate.py:10-18 | after removing every entry, file or sub-directory, the directory is empty |
| Generate.ContentDir.BuildSiteContent | src/generate.py:44-58 | the directory ends holding exactly the pages of the videos, whatever it held before, so no stale file survives |
| ProcessData.AliasesOnlyForEvents | process_data.py:10-26 | only event labels have aliases; other columns keep their labels |
| ProcessData.KnownLanguages | process_data.py:28-32 | the language map knows exactly fr, en and gr; fr is French and de is refused |
| ProcessData.FirstFailurePass | process_data.py:42-47 | a loop over column checks passes exactly when every check passes |
| ProcessData.FirstFailureAt | process_data.py:58-64 | the loop raises the error of the first failing check |
| ProcessData.NotFlagRows | process_data.py:43 | selects exactly the rows whose raw flag is neither `yes` nor `no` |
| ProcessData.ValidateFlag | process_data.py:42-47 | passes exactly when every raw flag is `yes` or `no`, otherwise fails naming the column |
| ProcessData.FlagChecks | process_data.py:41-48 | the checks of free_access, then export |
| ProcessData.PrepareRow | process_data.py:48-55 | a kept row keeps its free_access flag, loses its export column and has its slug stripped and lower-cased, or absent when blank |
| ProcessData.PrepareAll | process_data.py:53-55 | every kept row is prepared, in order |
| ProcessData.PreparedAppend | process_data.py:50 | the export filter keeps the order of the rows |
| ProcessData.PreparedSingle | process_data.py:50 | one row is kept exactly when its export flag is `yes` |
| ProcessData.FreeAccessPresent | process_data.py:48-63 | the free_access presence check never fails, since the column holds booleans by then |
| ProcessData.PresenceChecks | process_data.py:58-64 | one presence check per column of the list, in order |
| ProcessData.ValidateDistinct | process_data.py:66-72 | passes exactly when the column's values are distinct, otherwise fails naming the column |
| ProcessData.UniqueChecks | process_data.py:66-72 | one uniqueness check per column of the list, in order |
| ProcessData.Records | process_data.py:78-122 | one record per row, built from its converted cells |
| ProcessData.CompleteIds | process_data.py:58-64 | complete rows have ids and creation dates |
| ProcessData.PresentRows | process_data.py:58-76 | past the presence loop and the int64 check every row is complete |
| ProcessData.CleanData | process_data.py:39-122 | the three loops, the int64 test and the conversions return exactly the staged cleaning, error or table; with nothing exported the int64 test reads the type of the downloaded column |
| ProcessData.FindBadFlags | process_data.py:43 | the rows with a bad flag; none exactly when the column's check passes |
| ProcessData.CheckFlags | process_data.py:41-48 | the yes/no loop raises exactly what the first failing flag check raises |
| ProcessData.FindAbsent | process_data.py:60 | the rows missing the column; none exactly when its presence check passes |
| ProcessData.CheckPresence | process_data.py:58-64 | the presence loop raises exactly what the first failing check raises |
| ProcessData.FindDuplicated | process_data.py:68 | the rows whose value another row repeats; none exactly when the uniqueness check passes |
| ProcessData.CheckUnique | process_data.py:66-72 | the uniqueness loop raises exactly what the first failing check raises |
| ProcessData.ConvertTyped | process_data.py:78-122 | the conversions return exactly the staged result |
| ProcessData.CleanTableSucceeds | process_data.py:39-122 | cleaning succeeds exactly when both flags are valid on every row and at least one row is exported, and every exported row is complete, with distinct keys and convertible cells |
| ProcessData.NoRecordsFails | process_data.py:42-43 | a sheet without records fails for lack of a free_access column |
| ProcessData.NothingKeptFails | process_data.py:50-88 | with valid flags and no exported row, the int64 test fails when some downloaded release year is not an integer; otherwise parsing the durations fails |
| ProcessData.NoRowsFail | process_data.py:57-88 | on no rows the presence and uniqueness checks pass; the int64 test then depends only on the downloaded column's type, and past it the duration column fails |
| ProcessData.TextYearNothingKeptExample | process_data.py:50-76 | a sheet of one unexported record whose release year is text, a blank one included, raises the int64 error |
| ProcessData.FlagsPass | process_data.py:41-48 | the yes/no loop passes exactly when every flag is valid |
| ProcessData.PreparedSucceeds | process_data.py:57-122 | the stages after the filter succeed exactly on at least one complete row, with distinct keys, that convert |
| ProcessData.UniquePass | process_data.py:66-72 | the uniqueness loop passes exactly when the keys are distinct |
| ProcessData.TypedSucceeds | process_data.py:78-122 | the conversions succeed exactly when there is a row and every row converts |
| ProcessData.TypedColumns | process_data.py:78-122 | the conversions succeed exactly when there is a row and each column conversion succeeds |
| ProcessData.FreeAccessErrorFirst | process_data.py:41-47 | a bad free_access value anywhere raises the bad-bool error for free_access, before anything else |
| ProcessData.ExportErrorNext | process_data.py:41-47 | with free_access valid, a bad export value raises the bad-bool error for export |
| ProcessData.FlagsStage | process_data.py:41-50 | once the flags of a sheet with records pass, cleaning is the cleaning of the prepared rows |
| ProcessData.EmptyColumnFirst | process_data.py:58-64 | the first column of the presence list with an absent cell is the one the error names |
| ProcessData.DuplicateColumnFirst | process_data.py:66-72 | with all cells present, the first column of the uniqueness list with a duplicate is the one the error names |
| ProcessData.CleanTableRows | process_data.py:39-122 | a successful cleaning keeps every exported row, in order, each cell carried over or converted from its prepared form |
| ProcessData.PreparedStages | process_data.py:57-76 | a successful cleaning of prepared rows is their conversion |
| ProcessData.TypedDerived | process_data.py:78-122 | each converted record derives from its row |
| ProcessData.CleanTableKeysDistinct | process_data.py:58-72 | no two cleaned records share an id, a slug or a title |
| ProcessData.DistinctRecords | process_data.py:66-72 | rows with distinct keys give records with distinct keys |
| ProcessData.ListsOf | process_data.py:125-126 | the keyword columns of each record |
| ProcessData.ItemTableOf | process_data.py:125-129 | the item table of a column holds exactly its items with their counts, a tag exactly when the count is at least 2 |
| ProcessData.ArticlesOf | process_data.py:175-210 | one article per record, in row order |
| ProcessData.CreateArticles | process_data.py:175-210 | the loop over the rows yields exactly those articles |
| ProcessData.ArticleFields | process_data.py:185-206 | an article's category is its period's label, its author its direction credits, and its tags exactly the items some source marks |
| ProcessData.ArticleTags | process_data.py:125-129 | with the script's own tables, x is an article tag exactly when the row lists x in a column where x occurs at least twice |

## Left out

- Downloading the sheet (`download_gspread`, `download_data`) needs the network and a
  credential file. The sheet is a parameter, a sequence of raw rows.
- Printing, logging and the `saw` column, which is only dropped, are not modelled.
- The similarity report loop of `extract_keywords` (src/process.py:159-165) only prints, so it
  is not modelled. `find_similar`, which it calls, is modelled.
- The file system is a map from paths under `content/videos` to file texts. Directory
  creation (`os.makedirs`) and the directories themselves are implicit in the paths.
- The country database (`pycountry`) is a parameter `countries`, a map from code to name.
- `textwrap.shorten` is a parameter `summarize` of `Videos.ToVideo`.
- `leven.levenshtein` is replaced by a Levenshtein distance defined in `Keywords.Distance`.
- `NAME_MAPS`, `LANG_MAP` and `TAG_MIN_COUNT` for `src/process.py` come from its package, which
  is not part of this model, so they are a `Config` parameter. The values of
  `process_data.py` are constants in `ProcessData`.
- `extract_keywords` and `generate_site_data` of `process_data.py` are not modelled. They
  refer to the undefined names `EVENTS_NAME_MAP` and `tag_sources`, so neither can run. Its
  `item_table` and `find_similar` are the shared `Keywords` definitions, and the tag tables
  `create_articles` reads are a parameter.
- `build_site_data` only sequences download, cleaning and extraction, so it is not modelled.
- `create_content.py` and `pelicanconf.py` are not part of this model.
- The `medias`, `keywords` and `images` parameters of `to_video_page` and
  `build_site_content` are never used (the media lines are commented out), so they are left
  out.
- Text.Lower: folds ASCII letters only. `str.lower` also folds other alphabets.
- Strptime.ParseDuration and Strptime.ParseCreated: accept ASCII digits only. `strptime`
  matches `\d` against any Unicode decimal digit and `int()` converts them, so `١:٠٢:٠٣` is a
  duration there but not here.
- Process.DurationColumn, Process.LanguageColumn, Process.CountryColumn and Process.ListsColumn
  read the `is np.NaN` tests (src/process.py:93, 104, 113; process_data.py:80, 106, 115) as
  "the cell is absent". This does not hold for a column blank in every row (of the whole sheet in
  `src/process.py`, of the exported rows in `process_data.py`). `replace('', np.nan)` then gives
  the column the float type, the row-wise `apply` hands out fresh float NaNs, and the test is
  false. The program then raises on the first row, and `.str.split` raises on a float list
  column (src/process.py:125, process_data.py:102). The model treats every cell of such a column
  as absent and succeeds. Column types are not modelled.
- Table.RawRow: every raw cell except `release_year` is text. `get_all_records()` turns
  number-like cells into numbers in every column, so a numeric slug raises at `lower()`
  (src/process.py:74, process_data.py:54), and ids `07` and `7` become equal. The model keeps
  the text and treats such a slug and such ids as text.
- Strptime.FormatDate: always writes four year digits. `strftime('%Y')` on some platforms
  writes years below 1000 with fewer digits.
- Process.AllInts: the int64 dtype test is modelled as "every cell of the column is an
  integer". In `src/process.py` this covers the whole trimmed sheet, since filtering keeps the
  dtype. In `process_data.py` it covers the exported rows, whose dtype `applymap` re-infers;
  when no row is exported, `applymap` returns a copy of the empty frame and the test reads the
  type of the downloaded column (`ProcessData.ReleaseYearInt64`).
  Integer width is not modelled.
- Video and article records hold the list columns as one `Lists` value rather than five
  fields. The `free_access` flag of `process_data.py` keeps its raw text until the record is
  built, where it is compared to `yes`.
- Generate.ContentDir.CleanContent: removes entries one by one, each with everything below it;
  the order `os.listdir` returns is not modelled.
