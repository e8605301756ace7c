/** The earlier cleaning pipeline of process_data.py: clean_data and create_articles, with the
    script's own constants. The per-cell conversions are the ones shared with the later
    pipeline; the order of the stages and the checks differ. */
module ProcessData {
  import opened Wrappers
  import opened Text
  import opened Strptime
  import opened Table
  import opened Keywords
  import opened Process
  import opened Videos

  // ----- the script's constants -----

  const TagMinCount: nat := 2

  /** NAME_MAPS: aliases are defined for the events column only. */
  const NameMapsTable: NameMaps := map["events" := map[
    "diag" := map["name" := "La Diagonale des Fous"],
    "barkley" := map["name" := "The Barkley Marathons"],
    "ws100" := map["name" := "Western States 100"],
    "templiers" := map["name" := "Festival des Templiers"],
    "hardrock" := map["name" := "Hardrock 100"],
    "pct" := map["name" := "Pacific Crest Trail"],
    "bgr" := map["name" := "Bob Graham Round"],
    "at" := map["name" := "Appalachian Trail"],
    "mds" := map["name" := "Marathon des Sables"],
    "badwater" := map["name" := "Badwater 135"],
    "transcon" := map["name" := "US Transcontinental"],
    "leadville" := map["name" := "Leadville 100"],
    "gr20" := map["name" := "GR 20"]]]

  const LangMap: map<string, string> := map["fr" := "French", "en" := "English", "gr" := "Greek"]

  /** The constants in the shape the shared conversions take them. */
  const Constants := Config(NameMapsTable, LangMap, TagMinCount)

  /** Only event labels have aliases; every other column keeps its labels. */
  lemma AliasesOnlyForEvents(col: string, alias: string)
    requires col != "events"
    ensures GetName(NameMapsTable, col, alias) == alias
  {
  }

  lemma KnownLanguages()
    ensures LangMap.Keys == {"fr", "en", "gr"}
    ensures LanguageField(LangMap, "", Some("fr")) == Success(Some("French"))
    ensures LanguageField(LangMap, "", Some("de")) == Failure(UnknownLanguage("", "de"))
  {
  }

  // ----- checks that stop at the first failing column -----

  /** The outcome of a loop over columns that raises on the first failing check. */
  function FirstFailure(checks: seq<Outcome<Error>>): (r: Outcome<Error>)
    decreases |checks|
  {
    if checks == [] then Pass
    else if checks[0].Fail? then checks[0]
    else FirstFailure(checks[1..])
  }

  /** The loop passes exactly when every check passes. */
  lemma {:induction false} FirstFailurePass(checks: seq<Outcome<Error>>)
    ensures FirstFailure(checks).Pass? <==> forall k :: 0 <= k < |checks| ==> checks[k].Pass?
    decreases |checks|
  {
    if checks != [] {
      FirstFailurePass(checks[1..]);
      assert forall k :: 1 <= k < |checks| ==> checks[k] == checks[1..][k - 1];
    }
  }

  /** The loop raises the error of the first check that fails. */
  lemma {:induction false} FirstFailureAt(checks: seq<Outcome<Error>>, k: nat)
    requires k < |checks| && checks[k].Fail?
    requires forall j :: 0 <= j < k ==> checks[j].Pass?
    ensures FirstFailure(checks) == checks[k]
    decreases k
  {
    if k > 0 {
      assert checks[0].Pass?;
      FirstFailureAt(checks[1..], k - 1);
    }
  }

  // ----- the yes/no columns -----

  /** The yes/no columns, in the order clean_data checks them. */
  const BoolCols: seq<Column> := [FreeAccess, Export]

  function RawFlag(r: RawRow, c: Column): string
    requires c in BoolCols
  {
    if c == FreeAccess then r.freeAccess else r.forExport
  }

  predicate IsFlag(s: string)
  {
    s == "yes" || s == "no"
  }

  /** The rows `~data[col].isin(['yes', 'no'])` selects on the sheet as downloaded: nothing is
      trimmed yet, so a padded "yes" is a bad value. */
  function NotFlagRows(orig: seq<RawRow>, c: Column): (r: seq<nat>)
    requires c in BoolCols
    ensures forall i: nat :: i in r <==> i < |orig| && !IsFlag(RawFlag(orig[i], c))
  {
    Indices(|orig|, (i: nat) => i < |orig| && !IsFlag(RawFlag(orig[i], c)))
  }

  /** One pass of the yes/no loop. */
  function ValidateFlag(orig: seq<RawRow>, c: Column): (r: Outcome<Error>)
    requires c in BoolCols
    ensures r.Pass? <==> forall i :: 0 <= i < |orig| ==> IsFlag(RawFlag(orig[i], c))
    ensures r.Fail? ==> r.error == BadBool(ColumnName(c))
  {
    var errs := NotFlagRows(orig, c);
    assert errs != [] ==> errs[0] in errs;
    if errs == [] then Pass else Fail(BadBool(ColumnName(c)))
  }

  function FlagChecks(orig: seq<RawRow>): (cs: seq<Outcome<Error>>)
    ensures |cs| == |BoolCols| && forall k :: 0 <= k < |BoolCols| ==> cs[k] == ValidateFlag(orig, BoolCols[k])
  {
    seq(|BoolCols|, k requires 0 <= k < |BoolCols| => ValidateFlag(orig, BoolCols[k]))
  }

  // ----- the exported rows -----

  predicate IsExportedRaw(r: RawRow)
  {
    r.forExport == "yes"
  }

  /** A kept row after `strip`, the slug lower-casing and `replace('', nan)`. The free_access
      flag was converted before trimming, so it keeps its raw yes/no text and is never absent;
      the export column is dropped. */
  function PrepareRow(r: RawRow): (p: Row)
    ensures p.freeAccess == Some(r.freeAccess) && p.forExport.None?
    ensures p.slug == if AllSpace(r.slug) then None else Some(Lower(Strip(r.slug)))
  {
    LowerSlug(TrimRow(r)).(freeAccess := Some(r.freeAccess), forExport := None)
  }

  /** `data[data.export]`, then the per-row preparation. */
  function Prepared(orig: seq<RawRow>): (d: seq<Row>)
  {
    PrepareAll(Filter(orig, IsExportedRaw))
  }

  function PrepareAll(kept: seq<RawRow>): (d: seq<Row>)
    ensures |d| == |kept| && forall i :: 0 <= i < |kept| ==> d[i] == PrepareRow(kept[i])
  {
    seq(|kept|, i requires 0 <= i < |kept| => PrepareRow(kept[i]))
  }

  /** The export filter keeps the order of the rows: preparing two parts of the sheet one after
      the other gives the prepared whole. */
  lemma PreparedAppend(a: seq<RawRow>, b: seq<RawRow>)
    ensures Prepared(a + b) == Prepared(a) + Prepared(b)
  {
    FilterAppend(a, b, IsExportedRaw);
    PrepareAllAppend(Filter(a, IsExportedRaw), Filter(b, IsExportedRaw));
  }

  lemma PrepareAllAppend(xs: seq<RawRow>, ys: seq<RawRow>)
    ensures PrepareAll(xs + ys) == PrepareAll(xs) + PrepareAll(ys)
  {
    var zs := xs + ys;
    var l, r := PrepareAll(zs), PrepareAll(xs) + PrepareAll(ys);
    assert |l| == |r|;
    forall i | 0 <= i < |l| ensures l[i] == r[i] {
      var x := zs[i];
      assert l[i] == PrepareRow(x);
      if i < |xs| {
        assert x == xs[i];
        assert r[i] == PrepareAll(xs)[i];
      } else {
        assert x == ys[i - |xs|];
        assert r[i] == PrepareAll(ys)[i - |xs|];
      }
    }
  }

  /** A single row is kept exactly when its export flag is "yes". */
  lemma PreparedSingle(r: RawRow)
    ensures Prepared([r]) == if r.forExport == "yes" then [PrepareRow(r)] else []
  {
    FilterSingle(r, IsExportedRaw);
  }

  /** The free_access presence check can never fail: the column holds booleans by then. */
  lemma FreeAccessPresent(orig: seq<RawRow>)
    ensures ValidateNonEmpty(Prepared(orig), FreeAccess).Pass?
  {
    PreparedFlagsPresent(Filter(orig, IsExportedRaw));
  }

  lemma PreparedFlagsPresent(kept: seq<RawRow>)
    ensures ValidateNonEmpty(PrepareAll(kept), FreeAccess).Pass?
  {
    var d := PrepareAll(kept);
    forall i | 0 <= i < |d| ensures Field(d[i], FreeAccess).Some? {
      assert d[i].freeAccess == Some(kept[i].freeAccess);
    }
  }

  // ----- the presence and uniqueness loops -----

  /** The columns that may not be absent, in the order clean_data checks them. */
  const NonEmptyCols: seq<Column> := [Id, Slug, Title, ReleaseYear, Created, Description, FreeAccess]

  function PresenceChecks(d: seq<Row>): (cs: seq<Outcome<Error>>)
    ensures |cs| == |NonEmptyCols| && forall k :: 0 <= k < |NonEmptyCols| ==> cs[k] == ValidateNonEmpty(d, NonEmptyCols[k])
  {
    seq(|NonEmptyCols|, k requires 0 <= k < |NonEmptyCols| => ValidateNonEmpty(d, NonEmptyCols[k]))
  }

  /** The columns that must be unique; the slug is compared after lower-casing. */
  const UniqueCols: seq<Column> := [Id, Slug, Title]

  /** `data[col].duplicated(keep=False)` raising on any duplicated row. */
  function ValidateDistinct(d: seq<Row>, c: Column): (r: Outcome<Error>)
    ensures r.Pass? <==> Distinct(ColumnValues(d, c))
    ensures r.Fail? ==> r.error == DuplicateValues(ColumnName(c))
  {
    NoDuplicatedRows(ColumnValues(d, c));
    if DuplicatedRows(ColumnValues(d, c)) == [] then Pass else Fail(DuplicateValues(ColumnName(c)))
  }

  function UniqueChecks(d: seq<Row>): (cs: seq<Outcome<Error>>)
    ensures |cs| == |UniqueCols| && forall k :: 0 <= k < |UniqueCols| ==> cs[k] == ValidateDistinct(d, UniqueCols[k])
  {
    seq(|UniqueCols|, k requires 0 <= k < |UniqueCols| => ValidateDistinct(d, UniqueCols[k]))
  }

  // ----- the cleaned table -----

  /** A row of the table clean_data returns. */
  datatype Record = Record(
    id: string, slug: string, title: string, releaseYear: int, created: DateTime,
    duration: Option<nat>, lists: Lists, description: string, freeAccess: bool,
    language: Option<string>, country: Option<string>,
    linkTrailer: Option<string>, linkStream: Option<string>, linkOfficial: Option<string>)

  function RecordOf(e: Row, duration: Option<nat>, created: DateTime, lists: Lists,
                    country: Option<string>, language: Option<string>): Record
    requires Complete(e)
  {
    Record(e.id.value, e.slug.value, e.title.value, e.releaseYear.value.number, created, duration, lists,
           e.description.value, e.freeAccess.value == "yes", language, country,
           e.linkTrailer, e.linkStream, e.linkOfficial)
  }

  function Records(d: seq<Row>, durations: seq<Option<nat>>, created: seq<DateTime>, lists: seq<Lists>,
                   countryNames: seq<Option<string>>, languages: seq<Option<string>>): (r: seq<Record>)
    requires forall i :: 0 <= i < |d| ==> Complete(d[i])
    requires |durations| == |created| == |lists| == |countryNames| == |languages| == |d|
    ensures |r| == |d|
    ensures forall i :: 0 <= i < |d| ==>
      r[i] == RecordOf(d[i], durations[i], created[i], lists[i], countryNames[i], languages[i])
  {
    seq(|d|, i requires 0 <= i < |d| && Complete(d[i]) =>
      RecordOf(d[i], durations[i], created[i], lists[i], countryNames[i], languages[i]))
  }

  predicate AllComplete(d: seq<Row>)
  {
    forall i :: 0 <= i < |d| ==> Complete(d[i])
  }

  /** clean_data, stage by stage. */
  function CleanTable(orig: seq<RawRow>, countries: map<string, string>): Result<seq<Record>, Error>
  {
    if |orig| == 0 then Failure(MissingColumn(ColumnName(FreeAccess)))
    else
    var flags := FlagChecks(orig);
    :- FirstFailure(flags);
    CleanPrepared(Prepared(orig), RawInts(orig), countries)
  }

  /** The downloaded release_year column has the int64 type when every one of its cells is an integer. */
  predicate RawInts(orig: seq<RawRow>)
  {
    forall r :: r in orig ==> r.releaseYear.IntCell?
  }

  /** The int64 test on the exported rows. `applymap` infers the column's type again from the rows
      it maps, but a frame without rows comes back as a copy, with the type of the whole sheet. */
  predicate ReleaseYearInt64(d: seq<Row>, sheetInts: bool)
  {
    if |d| == 0 then sheetInts else AllInts(d)
  }

  /** The stages on the exported rows: the presence loop, the uniqueness loop, the int64 check.
      sheetInts says whether the downloaded sheet's release_year column had the int64 type. */
  function CleanPrepared(d: seq<Row>, sheetInts: bool, countries: map<string, string>): Result<seq<Record>, Error>
  {
    var presence := PresenceChecks(d);
    :- FirstFailure(presence);
    :- FirstFailure(UniqueChecks(d));
    if !ReleaseYearInt64(d, sheetInts) then Failure(NotInt64)
    else
      PresentRows(d);
      CleanTyped(d, countries)
  }

  /** The conversions, in clean_data's order: duration, created, the lists, country, language. */
  function CleanTyped(d: seq<Row>, countries: map<string, string>): Result<seq<Record>, Error>
    requires AllComplete(d)
  {
    if |d| == 0 then Failure(FrameIntoColumn(ColumnName(Duration)))
    else
    CompleteIds(d);
    var durations :- DurationColumn(d);
    var created :- CreatedColumn(d);
    var lists := ListsColumn(NameMapsTable, d);
    var countryNames :- CountryColumn(countries, d);
    var languages :- LanguageColumn(LangMap, d);
    Success(Records(d, durations, created, lists, countryNames, languages))
  }

  lemma CompleteIds(d: seq<Row>)
    requires AllComplete(d)
    ensures HasIds(d) && Dated(d)
  {
  }

  /** Past the presence loop and the int64 check, every row is complete. */
  lemma PresentRows(d: seq<Row>)
    requires FirstFailure(PresenceChecks(d)).Pass? && AllInts(d)
    ensures AllComplete(d)
  {
    var cs := PresenceChecks(d);
    FirstFailurePass(cs);
    assert cs[0].Pass? && cs[1].Pass? && cs[2].Pass? && cs[4].Pass? && cs[5].Pass? && cs[6].Pass?;
    forall i | 0 <= i < |d| ensures Complete(d[i]) {
      assert d[i] in d;
      RowComplete(d[i]);
    }
  }

  lemma RowComplete(r: Row)
    requires Field(r, Id).Some? && Field(r, Slug).Some? && Field(r, Title).Some?
    requires Field(r, Created).Some? && Field(r, Description).Some? && Field(r, FreeAccess).Some?
    requires r.releaseYear.Some? && r.releaseYear.value.IntCell?
    ensures Complete(r)
  {
  }

  /** clean_data as the script runs it: the three loops over column lists, then the
      column-by-column conversions. */
  method CleanData(orig: seq<RawRow>, countries: map<string, string>) returns (r: Result<seq<Record>, Error>)
    ensures r == CleanTable(orig, countries)
  {
    if |orig| == 0 {
      return Failure(MissingColumn(ColumnName(FreeAccess)));
    }
    var flags := CheckFlags(orig);
    :- flags;
    var data := Prepared(orig);
    :- CheckPresence(data);
    :- CheckUnique(data);
    if !ReleaseYearInt64(data, RawInts(orig)) {
      return Failure(NotInt64);
    }
    PresentRows(data);
    r := ConvertTyped(data, countries);
  }

  /** `data[~data[col].isin(['yes', 'no'])]` for the k-th yes/no column: the rows holding anything else. */
  method FindBadFlags(orig: seq<RawRow>, k: nat) returns (errs: seq<nat>)
    requires k < |BoolCols|
    ensures forall i: nat :: i in errs <==> i < |orig| && !IsFlag(RawFlag(orig[i], BoolCols[k]))
    ensures errs == [] <==> FlagChecks(orig)[k].Pass?
  {
    errs := NotFlagRows(orig, BoolCols[k]);
    assert errs != [] ==> errs[0] in errs;
  }

  /** The loop over the yes/no columns. */
  method CheckFlags(orig: seq<RawRow>) returns (o: Outcome<Error>)
    ensures o == FirstFailure(FlagChecks(orig))
  {
    var flags := FlagChecks(orig);
    for k := 0 to |BoolCols|
      invariant forall j :: 0 <= j < k ==> flags[j].Pass?
    {
      var col := BoolCols[k];
      var errs := FindBadFlags(orig, k);
      if errs != [] {
        FirstFailureAt(flags, k);
        return Fail(BadBool(ColumnName(col)));
      }
    }
    FirstFailurePass(flags);
    return Pass;
  }

  /** `data[data[col].isna()]` for the k-th column of the presence list: the rows where it is absent. */
  method FindAbsent(data: seq<Row>, k: nat) returns (errs: seq<nat>)
    requires k < |NonEmptyCols|
    ensures forall i: nat :: i in errs <==> i < |data| && Field(data[i], NonEmptyCols[k]).None?
    ensures errs == [] <==> PresenceChecks(data)[k].Pass?
  {
    errs := AbsentRows(ColumnValues(data, NonEmptyCols[k]));
  }

  /** The loop over the columns that may not be absent. */
  method CheckPresence(data: seq<Row>) returns (o: Outcome<Error>)
    ensures o == FirstFailure(PresenceChecks(data))
  {
    var presence := PresenceChecks(data);
    for k := 0 to |NonEmptyCols|
      invariant forall j :: 0 <= j < k ==> presence[j].Pass?
    {
      var col := NonEmptyCols[k];
      var errs := FindAbsent(data, k);
      if errs != [] {
        FirstFailureAt(presence, k);
        return Fail(EmptyValues(ColumnName(col)));
      }
    }
    FirstFailurePass(presence);
    return Pass;
  }

  /** `data[data[col].duplicated(keep=False)]` for the k-th column of the uniqueness list: every
      row whose value some other row repeats. */
  method FindDuplicated(data: seq<Row>, k: nat) returns (errs: seq<nat>)
    requires k < |UniqueCols|
    ensures forall i: nat :: i in errs <==> i < |data| && HasDuplicate(ColumnValues(data, UniqueCols[k]), i)
    ensures errs == [] <==> UniqueChecks(data)[k].Pass?
  {
    errs := DuplicatedRows(ColumnValues(data, UniqueCols[k]));
    NoDuplicatedRows(ColumnValues(data, UniqueCols[k]));
  }

  /** The loop over the columns that must be unique. */
  method CheckUnique(data: seq<Row>) returns (o: Outcome<Error>)
    ensures o == FirstFailure(UniqueChecks(data))
  {
    var unique := UniqueChecks(data);
    for k := 0 to |UniqueCols|
      invariant forall j :: 0 <= j < k ==> unique[j].Pass?
    {
      var col := UniqueCols[k];
      var errs := FindDuplicated(data, k);
      if errs != [] {
        FirstFailureAt(unique, k);
        return Fail(DuplicateValues(ColumnName(col)));
      }
    }
    FirstFailurePass(unique);
    return Pass;
  }

  /** The conversions of clean_data, each column replaced in turn. */
  method ConvertTyped(data: seq<Row>, countries: map<string, string>) returns (r: Result<seq<Record>, Error>)
    requires AllComplete(data)
    ensures r == CleanTyped(data, countries)
  {
    if |data| == 0 {
      return Failure(FrameIntoColumn(ColumnName(Duration)));
    }
    CompleteIds(data);
    var durations :- DurationColumn(data);
    var created :- CreatedColumn(data);
    var lists := SplitLists(NameMapsTable, data);
    var countryNames :- CountryColumn(countries, data);
    var languages :- LanguageColumn(LangMap, data);
    r := Success(Records(data, durations, created, lists, countryNames, languages));
  }

  // ----- what clean_data promises -----

  /** Both yes/no columns hold exactly "yes" or "no" on every row of the sheet. */
  predicate FlagsValid(orig: seq<RawRow>)
  {
    forall i :: 0 <= i < |orig| ==> IsFlag(orig[i].freeAccess) && IsFlag(orig[i].forExport)
  }

  /** The ids, the lower-cased slugs and the titles are each distinct. */
  predicate KeysDistinct(d: seq<Row>)
  {
    Distinct(ColumnValues(d, Id)) && Distinct(ColumnValues(d, Slug)) && Distinct(ColumnValues(d, Title))
  }

  /** The sheets clean_data accepts, stated column by column. */
  predicate CleanableData(orig: seq<RawRow>, countries: map<string, string>)
  {
    var d := Prepared(orig);
    FlagsValid(orig) && AllComplete(d) && KeysDistinct(d) && AllConvert(d, Constants, countries) && |d| > 0
  }

  /** A sheet without records has no columns, so the first yes/no check finds no free_access column. */
  lemma NoRecordsFails(countries: map<string, string>)
    ensures CleanTable([], countries) == Failure(MissingColumn("free_access"))
  {
  }

  /** When the flags are valid but no row is exported, the empty frame keeps the downloaded
      release_year type: a sheet with a text year fails the int64 test. Otherwise parsing the
      durations row by row has no row to run on, and assigning what comes back to the column raises. */
  lemma NothingKeptFails(orig: seq<RawRow>, countries: map<string, string>)
    requires |orig| > 0 && FlagsValid(orig) && Prepared(orig) == []
    ensures CleanTable(orig, countries) ==
      if RawInts(orig) then Failure(FrameIntoColumn("duration")) else Failure(NotInt64)
  {
    FlagsStage(orig, countries);
    NoRowsFail(Prepared(orig), RawInts(orig), countries);
  }

  /** A sheet of one unexported record whose release year is text: the empty frame keeps the
      text type, so the int64 test fails (a blank year, `""`, is such a cell). */
  lemma TextYearNothingKeptExample(row: RawRow, countries: map<string, string>)
    requires IsFlag(row.freeAccess) && row.forExport == "no" && row.releaseYear.TextCell?
    ensures CleanTable([row], countries) == Failure(NotInt64)
  {
    assert [row][1..] == [];
    assert Filter([row], IsExportedRaw) == [];
    assert FlagsValid([row]);
    assert !RawInts([row]) by { assert row in [row]; }
    NothingKeptFails([row], countries);
  }

  lemma NoRowsFail(d: seq<Row>, sheetInts: bool, countries: map<string, string>)
    requires |d| == 0
    ensures CleanPrepared(d, sheetInts, countries) ==
      if sheetInts then Failure(FrameIntoColumn("duration")) else Failure(NotInt64)
  {
    CompletePresent(d);
    UniquePass(d);
  }

  /** clean_data succeeds exactly on the sheets described by CleanableData. */
  lemma CleanTableSucceeds(orig: seq<RawRow>, countries: map<string, string>)
    ensures CleanTable(orig, countries).Success? <==> CleanableData(orig, countries)
  {
    FlagsPass(orig);
    PreparedSucceeds(Prepared(orig), RawInts(orig), countries);
  }

  lemma FlagsPass(orig: seq<RawRow>)
    ensures FirstFailure(FlagChecks(orig)).Pass? <==> FlagsValid(orig)
  {
    var cs := FlagChecks(orig);
    FirstFailurePass(cs);
    assert cs[0] == ValidateFlag(orig, FreeAccess) && cs[1] == ValidateFlag(orig, Export);
    assert forall i :: 0 <= i < |orig| ==> RawFlag(orig[i], FreeAccess) == orig[i].freeAccess;
    assert forall i :: 0 <= i < |orig| ==> RawFlag(orig[i], Export) == orig[i].forExport;
  }

  lemma PreparedSucceeds(d: seq<Row>, sheetInts: bool, countries: map<string, string>)
    ensures CleanPrepared(d, sheetInts, countries).Success? <==>
      AllComplete(d) && KeysDistinct(d) && AllConvert(d, Constants, countries) && |d| > 0
  {
    UniquePass(d);
    if AllComplete(d) {
      CompletePresent(d);
      TypedSucceeds(d, countries);
    } else if FirstFailure(PresenceChecks(d)).Pass? && ReleaseYearInt64(d, sheetInts) {
      PresentRows(d);
    }
  }

  /** Complete rows pass the presence loop and the int64 check. */
  lemma CompletePresent(d: seq<Row>)
    requires AllComplete(d)
    ensures FirstFailure(PresenceChecks(d)).Pass? && AllInts(d)
  {
    var cs := PresenceChecks(d);
    forall k | 0 <= k < |cs| ensures cs[k].Pass? {
      forall i | 0 <= i < |d| ensures Field(d[i], NonEmptyCols[k]).Some? {
        assert Complete(d[i]);
      }
    }
    FirstFailurePass(cs);
  }

  lemma UniquePass(d: seq<Row>)
    ensures FirstFailure(UniqueChecks(d)).Pass? <==> KeysDistinct(d)
  {
    var cs := UniqueChecks(d);
    ThreePass(cs);
    assert cs[0] == ValidateDistinct(d, Id) && cs[1] == ValidateDistinct(d, Slug) && cs[2] == ValidateDistinct(d, Title);
  }

  lemma ThreePass(cs: seq<Outcome<Error>>)
    requires |cs| == 3
    ensures FirstFailure(cs).Pass? <==> cs[0].Pass? && cs[1].Pass? && cs[2].Pass?
  {
    FirstFailurePass(cs);
  }

  lemma TypedSucceeds(d: seq<Row>, countries: map<string, string>)
    requires AllComplete(d)
    ensures CleanTyped(d, countries).Success? <==> AllConvert(d, Constants, countries) && |d| > 0
  {
    CompleteIds(d);
    CompleteDescribed(d);
    TypedColumns(d, countries);
    assert Constants.langMap == LangMap;
    ConvertsByColumn(d, Constants, countries);
  }

  lemma TypedColumns(d: seq<Row>, countries: map<string, string>)
    requires AllComplete(d) && HasIds(d) && Dated(d)
    ensures CleanTyped(d, countries).Success? <==>
      && |d| > 0
      && DurationColumn(d).Success? && CreatedColumn(d).Success?
      && CountryColumn(countries, d).Success? && LanguageColumn(LangMap, d).Success?
  {
  }

  lemma CompleteDescribed(d: seq<Row>)
    requires AllComplete(d)
    ensures ValidateNonEmpty(d, Description).Pass? && ValidateNonEmpty(d, FreeAccess).Pass?
  {
    forall i | 0 <= i < |d| ensures Field(d[i], Description).Some? && Field(d[i], FreeAccess).Some? {
      assert Complete(d[i]);
    }
  }

  /** A bad free_access value raises before anything else. */
  lemma FreeAccessErrorFirst(orig: seq<RawRow>, countries: map<string, string>, i: nat)
    requires i < |orig| && !IsFlag(orig[i].freeAccess)
    ensures CleanTable(orig, countries) == Failure(BadBool(ColumnName(FreeAccess)))
  {
    FreeAccessCheckFails(orig, i);
    FlagsStageFail(orig, countries);
  }

  lemma FreeAccessCheckFails(orig: seq<RawRow>, i: nat)
    requires i < |orig| && !IsFlag(orig[i].freeAccess)
    ensures FirstFailure(FlagChecks(orig)) == Fail(BadBool(ColumnName(FreeAccess)))
  {
    var cs := FlagChecks(orig);
    FlagColumnFail(orig, FreeAccess, i);
    FirstFailureAt(cs, 0);
  }

  /** With free_access valid throughout, a bad export value raises next. */
  lemma ExportErrorNext(orig: seq<RawRow>, countries: map<string, string>, i: nat)
    requires forall j :: 0 <= j < |orig| ==> IsFlag(orig[j].freeAccess)
    requires i < |orig| && !IsFlag(orig[i].forExport)
    ensures CleanTable(orig, countries) == Failure(BadBool(ColumnName(Export)))
  {
    ExportCheckFails(orig, i);
    FlagsStageFail(orig, countries);
  }

  lemma ExportCheckFails(orig: seq<RawRow>, i: nat)
    requires forall j :: 0 <= j < |orig| ==> IsFlag(orig[j].freeAccess)
    requires i < |orig| && !IsFlag(orig[i].forExport)
    ensures FirstFailure(FlagChecks(orig)) == Fail(BadBool(ColumnName(Export)))
  {
    var cs := FlagChecks(orig);
    FlagColumnPass(orig, FreeAccess);
    FlagColumnFail(orig, Export, i);
    FirstOfTwo(cs);
  }

  lemma FirstOfTwo(cs: seq<Outcome<Error>>)
    requires |cs| == 2 && cs[0].Pass? && cs[1].Fail?
    ensures FirstFailure(cs) == cs[1]
  {
    assert cs[1..] == [cs[1]];
  }

  lemma FlagColumnPass(orig: seq<RawRow>, c: Column)
    requires c in BoolCols
    requires forall j :: 0 <= j < |orig| ==> IsFlag(if c == FreeAccess then orig[j].freeAccess else orig[j].forExport)
    ensures ValidateFlag(orig, c).Pass?
  {
    forall j | 0 <= j < |orig| ensures IsFlag(RawFlag(orig[j], c)) {
      assert IsFlag(if c == FreeAccess then orig[j].freeAccess else orig[j].forExport);
    }
  }

  lemma FlagColumnFail(orig: seq<RawRow>, c: Column, i: nat)
    requires c in BoolCols && i < |orig|
    requires !IsFlag(if c == FreeAccess then orig[i].freeAccess else orig[i].forExport)
    ensures ValidateFlag(orig, c) == Fail(BadBool(ColumnName(c)))
  {
    assert !IsFlag(RawFlag(orig[i], c));
  }

  lemma FlagsStageFail(orig: seq<RawRow>, countries: map<string, string>)
    requires FirstFailure(FlagChecks(orig)).Fail?
    ensures CleanTable(orig, countries) == Failure(FirstFailure(FlagChecks(orig)).error)
  {
    FlagsPass(orig);
  }

  /** Once the flags of a sheet with records are valid, cleaning is the cleaning of the prepared rows. */
  lemma FlagsStage(orig: seq<RawRow>, countries: map<string, string>)
    requires |orig| > 0 && FlagsValid(orig)
    ensures CleanTable(orig, countries) == CleanPrepared(Prepared(orig), RawInts(orig), countries)
  {
    FlagsPass(orig);
  }

  lemma PresenceStage(d: seq<Row>, sheetInts: bool, countries: map<string, string>)
    requires FirstFailure(PresenceChecks(d)).Fail?
    ensures CleanPrepared(d, sheetInts, countries) == Failure(FirstFailure(PresenceChecks(d)).error)
  {
  }

  lemma UniqueStage(d: seq<Row>, sheetInts: bool, countries: map<string, string>)
    requires FirstFailure(PresenceChecks(d)).Pass? && FirstFailure(UniqueChecks(d)).Fail?
    ensures CleanPrepared(d, sheetInts, countries) == Failure(FirstFailure(UniqueChecks(d)).error)
  {
  }

  /** The first column of the presence list with an absent cell names the error. */
  lemma EmptyColumnFirst(orig: seq<RawRow>, countries: map<string, string>, k: nat, i: nat)
    requires FlagsValid(orig)
    requires var d := Prepared(orig); k < |NonEmptyCols| && i < |d| && Field(d[i], NonEmptyCols[k]).None?
    requires var d := Prepared(orig);
      forall j, m :: 0 <= j < k && 0 <= m < |d| ==> Field(d[m], NonEmptyCols[j]).Some?
    ensures CleanTable(orig, countries) == Failure(EmptyValues(ColumnName(NonEmptyCols[k])))
  {
    var d := Prepared(orig);
    FlagsStage(orig, countries);
    var cs := PresenceChecks(d);
    forall j | 0 <= j < k ensures cs[j].Pass? {
      assert forall m :: 0 <= m < |d| ==> Field(d[m], NonEmptyCols[j]).Some?;
    }
    FirstFailureAt(cs, k);
    PresenceStage(d, RawInts(orig), countries);
  }

  /** With every listed cell present, the first column of the uniqueness list with a duplicate
      names the error. */
  lemma DuplicateColumnFirst(orig: seq<RawRow>, countries: map<string, string>, k: nat)
    requires FlagsValid(orig) && AllComplete(Prepared(orig))
    requires k < |UniqueCols| && !Distinct(ColumnValues(Prepared(orig), UniqueCols[k]))
    requires forall j :: 0 <= j < k ==> Distinct(ColumnValues(Prepared(orig), UniqueCols[j]))
    ensures CleanTable(orig, countries) == Failure(DuplicateValues(ColumnName(UniqueCols[k])))
  {
    var d := Prepared(orig);
    FlagsStage(orig, countries);
    CompletePresent(d);
    DuplicateAt(d, k);
    UniqueStage(d, RawInts(orig), countries);
  }

  lemma DuplicateAt(d: seq<Row>, k: nat)
    requires k < |UniqueCols| && !Distinct(ColumnValues(d, UniqueCols[k]))
    requires forall j :: 0 <= j < k ==> Distinct(ColumnValues(d, UniqueCols[j]))
    ensures FirstFailure(UniqueChecks(d)) == Fail(DuplicateValues(ColumnName(UniqueCols[k])))
  {
    FirstFailureAt(UniqueChecks(d), k);
  }

  // ----- what the cleaned rows hold -----

  /** c is the cleaned form of the prepared row e. */
  predicate DerivedRecord(e: Row, c: Record, countries: map<string, string>)
  {
    && e.id == Some(c.id) && e.slug == Some(c.slug) && e.title == Some(c.title)
    && e.releaseYear == Some(IntCell(c.releaseYear))
    && e.created.Some? && ParseCreated(e.created.value) == Some(c.created)
    && c.duration == (if e.duration.Some? then ParseDuration(e.duration.value) else None)
    && c.lists == RowLists(NameMapsTable, e)
    && c.country == Lookup(countries, e.country)
    && c.language == Lookup(LangMap, e.language)
    && e.description == Some(c.description)
    && c.freeAccess == (e.freeAccess == Some("yes"))
    && c.linkTrailer == e.linkTrailer && c.linkStream == e.linkStream && c.linkOfficial == e.linkOfficial
  }

  /** A successful cleaning keeps every exported row, in order, each cleaned from its prepared form. */
  lemma CleanTableRows(orig: seq<RawRow>, countries: map<string, string>)
    requires CleanTable(orig, countries).Success?
    ensures var d, r := Prepared(orig), CleanTable(orig, countries).value;
      |r| == |d| && forall i :: 0 <= i < |d| ==> DerivedRecord(d[i], r[i], countries)
  {
    var d := Prepared(orig);
    assert CleanTable(orig, countries) == CleanPrepared(d, RawInts(orig), countries);
    PreparedStages(d, RawInts(orig), countries);
    TypedDerived(d, countries);
  }

  lemma PreparedStages(d: seq<Row>, sheetInts: bool, countries: map<string, string>)
    requires CleanPrepared(d, sheetInts, countries).Success?
    ensures AllComplete(d) && KeysDistinct(d) && CleanPrepared(d, sheetInts, countries) == CleanTyped(d, countries)
  {
    PresentRows(d);
    UniquePass(d);
  }

  lemma TypedDerived(d: seq<Row>, countries: map<string, string>)
    requires AllComplete(d) && CleanTyped(d, countries).Success?
    ensures var r := CleanTyped(d, countries).value;
      |r| == |d| && forall i :: 0 <= i < |d| ==> DerivedRecord(d[i], r[i], countries)
  {
    CompleteIds(d);
    var durations := DurationColumn(d).value;
    var created := CreatedColumn(d).value;
    var lists := ListsColumn(NameMapsTable, d);
    var countryNames := CountryColumn(countries, d).value;
    var languages := LanguageColumn(LangMap, d).value;
    var r := Records(d, durations, created, lists, countryNames, languages);
    assert CleanTyped(d, countries).value == r;
    forall i | 0 <= i < |d| ensures DerivedRecord(d[i], r[i], countries) {
      assert r[i] == RecordOf(d[i], durations[i], created[i], lists[i], countryNames[i], languages[i]);
    }
  }

  /** In a successful cleaning no two rows share an id, a slug or a title. */
  lemma CleanTableKeysDistinct(orig: seq<RawRow>, countries: map<string, string>)
    requires CleanTable(orig, countries).Success?
    ensures var r := CleanTable(orig, countries).value;
      forall i, j :: 0 <= i < j < |r| ==> r[i].id != r[j].id && r[i].slug != r[j].slug && r[i].title != r[j].title
  {
    var d, r := Prepared(orig), CleanTable(orig, countries).value;
    CleanTableRows(orig, countries);
    assert CleanTable(orig, countries) == CleanPrepared(d, RawInts(orig), countries);
    PreparedStages(d, RawInts(orig), countries);
    forall i, j | 0 <= i < j < |r| ensures r[i].id != r[j].id && r[i].slug != r[j].slug && r[i].title != r[j].title {
      DistinctRecords(d, r, countries, i, j);
    }
  }

  lemma DistinctRecords(d: seq<Row>, r: seq<Record>, countries: map<string, string>, i: nat, j: nat)
    requires i < j < |d| == |r| && KeysDistinct(d)
    requires DerivedRecord(d[i], r[i], countries) && DerivedRecord(d[j], r[j], countries)
    ensures r[i].id != r[j].id && r[i].slug != r[j].slug && r[i].title != r[j].title
  {
    assert ColumnValues(d, Id)[i] != ColumnValues(d, Id)[j];
    assert ColumnValues(d, Slug)[i] != ColumnValues(d, Slug)[j];
    assert ColumnValues(d, Title)[i] != ColumnValues(d, Title)[j];
  }

  // ----- item_table and create_articles -----

  function ListsOf(data: seq<Record>): (rows: seq<Lists>)
    ensures |rows| == |data| && forall i :: 0 <= i < |data| ==> rows[i] == data[i].lists
  {
    seq(|data|, i requires 0 <= i < |data| => data[i].lists)
  }

  /** item_table with the script's TAG_MIN_COUNT: an item is a tag once it occurs twice. */
  function ItemTableOf(data: seq<Record>, c: ListCol): (t: ItemTable)
    ensures forall y :: y in t <==> y in Keywords.Items(ColumnCells(ListsOf(data), c))
    ensures forall y :: y in t ==> t[y].count == Count(Keywords.Items(ColumnCells(ListsOf(data), c)), y)
    ensures forall y :: y in t ==> (t[y].isTag <==> t[y].count >= 2)
  {
    BuildTable(ColumnCells(ListsOf(data), c), TagMinCount)
  }

  /** The record create_articles builds for one cleaned row. */
  datatype Article = Article(
    id: string, title: string, slug: string, created: DateTime, releaseYear: int, category: string,
    duration: Option<nat>, lists: Lists, description: string, freeAccess: bool,
    language: Option<string>, country: Option<string>, author: Option<seq<string>>, tags: seq<string>)

  function ToArticle(c: Record, sources: TagSources): Article
  {
    Article(c.id, c.title, c.slug, c.created, c.releaseYear, SetCategory(c.releaseYear), c.duration, c.lists,
            c.description, c.freeAccess, c.language, c.country, c.lists.direction, Tags(c.lists, sources))
  }

  /** create_articles as a function: one article per row, in row order. */
  function ArticlesOf(data: seq<Record>, sources: TagSources): (items: seq<Article>)
    ensures |items| == |data| && forall i :: 0 <= i < |data| ==> items[i] == ToArticle(data[i], sources)
  {
    seq(|data|, i requires 0 <= i < |data| => ToArticle(data[i], sources))
  }

  /** create_articles: the loop over the rows, the tags of each built by the loop over the sources. */
  method CreateArticles(data: seq<Record>, sources: TagSources) returns (items: seq<Article>)
    ensures items == ArticlesOf(data, sources)
  {
    items := [];
    for k := 0 to |data|
      invariant |items| == k
      invariant forall i :: 0 <= i < k ==> items[i] == ToArticle(data[i], sources)
    {
      var row := data[k];
      var tags := BuildTags(row.lists, sources);
      var item := Article(row.id, row.title, row.slug, row.created, row.releaseYear, SetCategory(row.releaseYear),
                          row.duration, row.lists, row.description, row.freeAccess, row.language, row.country,
                          row.lists.direction, tags);
      items := items + [item];
    }
  }

  /** An article's category is the period of its release year, its author is its direction
      credits, and its tags are the items some source marks as tags. */
  lemma ArticleFields(c: Record, sources: TagSources, x: string)
    ensures var a := ToArticle(c, sources);
      && a.category == Categories[Period(c.releaseYear)]
      && a.author == c.lists.Get(Direction)
      && (x in a.tags <==> exists k :: 0 <= k < |sources| && TagFrom(c.lists, sources[k], x))
  {
    TagsMembership(c.lists, sources, x);
  }

  /** With the tables of the script's own rows, x is a tag of a row's article exactly when the row
      lists x in some keyword column and x occurs at least twice in that column over all rows. */
  lemma ArticleTags(data: seq<Record>, c: Record, x: string)
    ensures var all := ListsOf(data);
      x in ToArticle(c, KeywordTables(all, TagMinCount)).tags <==>
      exists col :: c.lists.Get(col).Some? && x in c.lists.Get(col).value
             && x in Keywords.Items(ColumnCells(all, col)) && Count(Keywords.Items(ColumnCells(all, col)), x) >= 2
  {
    TagMeaning(ListsOf(data), TagMinCount, c.lists, x);
  }
}
