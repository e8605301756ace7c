/** The later cleaning pipeline: clean_gspread_data, set_category and create_videos.
    The package constants NAME_MAPS, LANG_MAP and TAG_MIN_COUNT are the fields of a
    `Config`; the country-code database is a `countries` map and text shortening is a
    `summarize` function, both given by the caller. */
module Process {
  import opened Wrappers
  import opened Text
  import opened Strptime
  import opened Table
  import opened Keywords

  datatype Config = Config(nameMaps: NameMaps, langMap: map<string, string>, tagMinCount: nat)

  /** A row of the cleaned table. */
  datatype CleanRow = CleanRow(
    id: string, title: string, releaseYear: int, slug: string, slugWeb: string,
    created: DateTime, duration: Option<nat>, language: Option<string>, country: Option<string>,
    lists: Lists, description: string, freeAccess: bool,
    linkTrailer: Option<string>, linkStream: Option<string>, linkOfficial: Option<string>)

  // ----- column conversions -----

  /** The release_year column has the int64 type only when every one of its cells,
      over the whole sheet, is an integer; filtering rows does not change a column's type. */
  predicate AllInts(rows: seq<Row>)
  {
    forall r :: r in rows ==> r.releaseYear.Some? && r.releaseYear.value.IntCell?
  }

  predicate HasIds(d: seq<Row>)
  {
    forall i :: 0 <= i < |d| ==> d[i].id.Some?
  }

  /** build_web_slug applied row by row; the first row whose slug does not match raises. */
  function WebSlugColumn(d: seq<Row>): (r: Result<seq<string>, Error>)
    requires HasIds(d) && forall i :: 0 <= i < |d| ==> d[i].slug.Some?
    ensures r.Success? <==> forall i :: 0 <= i < |d| ==> MatchesSlugPattern(d[i].slug.value)
    ensures r.Success? ==> |r.value| == |d| && forall i :: 0 <= i < |d| ==> r.value[i] == ReplaceChar(d[i].slug.value, '_', '-')
    ensures r.Failure? ==>
      exists k :: 0 <= k < |d| && !MatchesSlugPattern(d[k].slug.value) && r.error == BadSlug(d[k].id.value, d[k].slug.value)
        && forall j :: 0 <= j < k ==> MatchesSlugPattern(d[j].slug.value)
    decreases |d|
  {
    if d == [] then Success([])
    else
      var w :- BuildWebSlug(d[0].id.value, d[0].slug.value);
      var rest :- WebSlugColumn(d[1..]);
      Success([w] + rest)
  }

  /** parse_created applied row by row. */
  function CreatedColumn(d: seq<Row>): (r: Result<seq<DateTime>, Error>)
    requires HasIds(d) && Dated(d)
    ensures r.Success? <==> forall i :: 0 <= i < |d| ==> ParseCreated(d[i].created.value).Some?
    ensures r.Success? ==> |r.value| == |d| && forall i :: 0 <= i < |d| ==> Some(r.value[i]) == ParseCreated(d[i].created.value)
    ensures r.Failure? ==>
      exists k :: 0 <= k < |d| && ParseCreated(d[k].created.value).None? && r.error == BadCreated(d[k].id.value, d[k].created.value)
        && forall j :: 0 <= j < k ==> ParseCreated(d[j].created.value).Some?
    decreases |d|
  {
    if d == [] then Success([])
    else
      var c :- CreatedField(d[0].id.value, d[0].created.value);
      var rest :- CreatedColumn(d[1..]);
      Success([c] + rest)
  }

  /** parse_duration applied row by row; an absent duration stays absent. */
  function DurationColumn(d: seq<Row>): (r: Result<seq<Option<nat>>, Error>)
    requires HasIds(d)
    ensures r.Success? <==> forall i :: 0 <= i < |d| ==> d[i].duration.Some? ==> ParseDuration(d[i].duration.value).Some?
    ensures r.Success? ==> |r.value| == |d| && forall i :: 0 <= i < |d| ==>
      r.value[i] == if d[i].duration.Some? then ParseDuration(d[i].duration.value) else None
    ensures r.Failure? ==>
      exists k :: 0 <= k < |d| && d[k].duration.Some? && ParseDuration(d[k].duration.value).None? && r.error == BadDuration(d[k].id.value, d[k].duration.value)
        && forall j :: 0 <= j < k ==> d[j].duration.Some? ==> ParseDuration(d[j].duration.value).Some?
    decreases |d|
  {
    if d == [] then Success([])
    else
      var t :- DurationField(d[0].id.value, d[0].duration);
      var rest :- DurationColumn(d[1..]);
      Success([t] + rest)
  }

  /** The looked-up value of an optional key; absent when the key is absent or unknown. */
  function Lookup(m: map<string, string>, k: Option<string>): Option<string>
  {
    if k.Some? && k.value in m then Some(m[k.value]) else None
  }

  /** parse_lang applied row by row. */
  function LanguageColumn(langMap: map<string, string>, d: seq<Row>): (r: Result<seq<Option<string>>, Error>)
    requires HasIds(d)
    ensures r.Success? <==> forall i :: 0 <= i < |d| ==> d[i].language.Some? ==> d[i].language.value in langMap
    ensures r.Success? ==> |r.value| == |d| && forall i :: 0 <= i < |d| ==> r.value[i] == Lookup(langMap, d[i].language)
    ensures r.Failure? ==>
      exists k :: 0 <= k < |d| && d[k].language.Some? && d[k].language.value !in langMap && r.error == UnknownLanguage(d[k].id.value, d[k].language.value)
        && forall j :: 0 <= j < k ==> d[j].language.Some? ==> d[j].language.value in langMap
    decreases |d|
  {
    if d == [] then Success([])
    else
      var l :- LanguageField(langMap, d[0].id.value, d[0].language);
      var rest :- LanguageColumn(langMap, d[1..]);
      Success([l] + rest)
  }

  /** country_name applied row by row, with the country database as a map from code to name. */
  function CountryColumn(countries: map<string, string>, d: seq<Row>): (r: Result<seq<Option<string>>, Error>)
    requires HasIds(d)
    ensures r.Success? <==> forall i :: 0 <= i < |d| ==> d[i].country.Some? ==> d[i].country.value in countries
    ensures r.Success? ==> |r.value| == |d| && forall i :: 0 <= i < |d| ==> r.value[i] == Lookup(countries, d[i].country)
    ensures r.Failure? ==>
      exists k :: 0 <= k < |d| && d[k].country.Some? && d[k].country.value !in countries && r.error == UnknownCountry(d[k].id.value, d[k].country.value)
        && forall j :: 0 <= j < k ==> d[j].country.Some? ==> d[j].country.value in countries
    decreases |d|
  {
    if d == [] then Success([])
    else
      var c :- CountryField(countries, d[0].id.value, d[0].country);
      var rest :- CountryColumn(countries, d[1..]);
      Success([c] + rest)
  }

  function ListsColumn(nameMaps: NameMaps, d: seq<Row>): (r: seq<Lists>)
    ensures |r| == |d| && forall i :: 0 <= i < |d| ==> r[i] == RowLists(nameMaps, d[i])
  {
    seq(|d|, i requires 0 <= i < |d| => RowLists(nameMaps, d[i]))
  }

  /** The cells every cleaned row must have. */
  predicate Complete(r: Row)
  {
    && r.id.Some? && r.title.Some? && r.releaseYear.Some? && r.releaseYear.value.IntCell?
    && r.slug.Some? && r.created.Some? && r.description.Some? && r.freeAccess.Some?
  }

  /** The cleaned row made of a complete row and its converted cells. */
  function CleanRowOf(e: Row, slugWeb: string, created: DateTime, duration: Option<nat>,
                      language: Option<string>, country: Option<string>, lists: Lists): CleanRow
    requires Complete(e)
  {
    CleanRow(e.id.value, e.title.value, e.releaseYear.value.number, e.slug.value, slugWeb,
             created, duration, language, country, lists, e.description.value,
             e.freeAccess.value == "yes", e.linkTrailer, e.linkStream, e.linkOfficial)
  }

  function Assemble(d: seq<Row>, webSlugs: seq<string>, created: seq<DateTime>, durations: seq<Option<nat>>,
                    languages: seq<Option<string>>, countryNames: seq<Option<string>>, lists: seq<Lists>): (r: seq<CleanRow>)
    requires forall i :: 0 <= i < |d| ==> Complete(d[i])
    requires |webSlugs| == |created| == |durations| == |languages| == |countryNames| == |lists| == |d|
    ensures |r| == |d|
    ensures forall i :: 0 <= i < |d| ==>
      r[i] == CleanRowOf(d[i], webSlugs[i], created[i], durations[i], languages[i], countryNames[i], lists[i])
  {
    seq(|d|, i requires 0 <= i < |d| && Complete(d[i]) =>
      CleanRowOf(d[i], webSlugs[i], created[i], durations[i], languages[i], countryNames[i], lists[i]))
  }

  // ----- clean_gspread_data -----

  /** clean_gspread_data, stage by stage, each stage raising on the first offending row. */
  function CleanSheet(orig: seq<RawRow>, cfg: Config, countries: map<string, string>): Result<seq<CleanRow>, Error>
  {
    if |orig| == 0 then Failure(MissingColumn(ColumnName(Export)))
    else
    var all := TrimTable(orig);
    :- ValidateIsYesNo(all, Export);
    CleanExported(all, Exported(all), cfg, countries)
  }

  /** The stages from the id checks to the slug case folding. */
  function CleanExported(all: seq<Row>, d: seq<Row>, cfg: Config, countries: map<string, string>): Result<seq<CleanRow>, Error>
    requires forall r :: r in d ==> r in all
  {
    var idsPresent := ValidateNonEmpty(d, Id);
    :- idsPresent;
    :- ValidateUnique(d, Id);
    :- ValidateNonEmpty(d, Title);
    :- ValidateUnique(d, Title);
    :- ValidateNonEmpty(d, ReleaseYear);
    if !AllInts(all) then Failure(NotInt64)
    else
      :- ValidateNonEmpty(d, Slug);
      KeyedRows(all, d);
      CleanLowered(LowerSlugs(d), cfg, countries)
  }

  /** The rows whose id, title, release year and slug are present. */
  predicate Keyed(d: seq<Row>)
  {
    forall i :: 0 <= i < |d| ==>
      d[i].id.Some? && d[i].title.Some? && d[i].releaseYear.Some? && d[i].releaseYear.value.IntCell? && d[i].slug.Some?
  }

  predicate Dated(d: seq<Row>)
  {
    forall i :: 0 <= i < |d| ==> d[i].created.Some?
  }

  /** The stages after the slugs are lower-cased, up to the creation dates being present. */
  function CleanLowered(d: seq<Row>, cfg: Config, countries: map<string, string>): Result<seq<CleanRow>, Error>
    requires Keyed(d)
  {
    var slugsDistinct := ValidateUnique(d, Slug);
    :- slugsDistinct;
    if |d| == 0 then Failure(FrameIntoColumn("slug_web"))
    else
    var webSlugs :- WebSlugColumn(d);
    :- ValidateNonEmpty(d, Created);
    DatedRows(d);
    CleanDated(d, webSlugs, cfg, countries)
  }

  /** The per-row conversions of the later columns. */
  function CleanDated(d: seq<Row>, webSlugs: seq<string>, cfg: Config, countries: map<string, string>): Result<seq<CleanRow>, Error>
    requires Keyed(d) && Dated(d) && |webSlugs| == |d|
  {
    var created :- CreatedColumn(d);
    var durations :- DurationColumn(d);
    var languages :- LanguageColumn(cfg.langMap, d);
    var countryNames :- CountryColumn(countries, d);
    CleanDescribed(d, webSlugs, created, durations, languages, countryNames, ListsColumn(cfg.nameMaps, d))
  }

  /** The last two presence checks, then the cleaned rows. */
  function CleanDescribed(d: seq<Row>, webSlugs: seq<string>, created: seq<DateTime>, durations: seq<Option<nat>>,
                          languages: seq<Option<string>>, countryNames: seq<Option<string>>, lists: seq<Lists>)
    : Result<seq<CleanRow>, Error>
    requires Keyed(d) && Dated(d)
    requires |webSlugs| == |created| == |durations| == |languages| == |countryNames| == |lists| == |d|
  {
    var described := ValidateNonEmpty(d, Description);
    :- described;
    :- ValidateNonEmpty(d, FreeAccess);
    CompleteRows(d);
    Success(Assemble(d, webSlugs, created, durations, languages, countryNames, lists))
  }

  lemma KeyedRows(all: seq<Row>, d: seq<Row>)
    requires (forall r :: r in d ==> r in all) && AllInts(all)
    requires ValidateNonEmpty(d, Id).Pass? && ValidateNonEmpty(d, Title).Pass? && ValidateNonEmpty(d, Slug).Pass?
    ensures Keyed(d) && Keyed(LowerSlugs(d))
  {
    forall i | 0 <= i < |d| ensures d[i].id.Some? && d[i].title.Some? && d[i].slug.Some? && d[i].releaseYear.Some? && d[i].releaseYear.value.IntCell? {
      assert d[i] in all;
      assert Field(d[i], Id).Some? && Field(d[i], Title).Some? && Field(d[i], Slug).Some?;
    }
  }

  lemma DatedRows(d: seq<Row>)
    requires ValidateNonEmpty(d, Created).Pass?
    ensures Dated(d)
  {
    forall i | 0 <= i < |d| ensures d[i].created.Some? {
      assert Field(d[i], Created).Some?;
    }
  }

  lemma CompleteRows(d: seq<Row>)
    requires Keyed(d) && Dated(d)
    requires ValidateNonEmpty(d, Description).Pass? && ValidateNonEmpty(d, FreeAccess).Pass?
    ensures forall i :: 0 <= i < |d| ==> Complete(d[i])
  {
    DescribedRows(d);
  }

  /** clean_gspread_data as the program runs it: the table is reassigned column by column. */
  method CleanGspreadData(orig: seq<RawRow>, cfg: Config, countries: map<string, string>)
    returns (r: Result<seq<CleanRow>, Error>)
    ensures r == CleanSheet(orig, cfg, countries)
  {
    if |orig| == 0 {
      return Failure(MissingColumn(ColumnName(Export)));
    }
    var data := TrimTable(orig);
    var all := data;
    :- ValidateIsYesNo(data, Export);
    data := Exported(data);
    :- ValidateNonEmpty(data, Id);
    :- ValidateUnique(data, Id);
    :- ValidateNonEmpty(data, Title);
    :- ValidateUnique(data, Title);
    :- ValidateNonEmpty(data, ReleaseYear);
    if !AllInts(all) {
      return Failure(NotInt64);
    }
    :- ValidateNonEmpty(data, Slug);
    KeyedRows(all, data);
    data := LowerSlugs(data);
    r := ConvertColumns(data, cfg, countries);
  }

  /** The column conversions of clean_gspread_data, from the slug check on. */
  method ConvertColumns(data: seq<Row>, cfg: Config, countries: map<string, string>)
    returns (r: Result<seq<CleanRow>, Error>)
    requires Keyed(data)
    ensures r == CleanLowered(data, cfg, countries)
  {
    var slugsDistinct := ValidateUnique(data, Slug);
    :- slugsDistinct;
    if |data| == 0 {
      return Failure(FrameIntoColumn("slug_web"));
    }
    var webSlugs :- WebSlugColumn(data);
    :- ValidateNonEmpty(data, Created);
    DatedRows(data);
    var created :- CreatedColumn(data);
    var durations :- DurationColumn(data);
    var languages :- LanguageColumn(cfg.langMap, data);
    var countryNames :- CountryColumn(countries, data);
    var lists := SplitLists(cfg.nameMaps, data);
    :- ValidateNonEmpty(data, Description);
    :- ValidateNonEmpty(data, FreeAccess);
    CompleteRows(data);
    r := Success(Assemble(data, webSlugs, created, durations, languages, countryNames, lists));
  }

  /** The loop over the five keyword columns, each split into its items. */
  method SplitLists(nameMaps: NameMaps, data: seq<Row>) returns (lists: seq<Lists>)
    ensures lists == ListsColumn(nameMaps, data)
  {
    lists := seq(|data|, _ => NoLists);
    for k := 0 to |ListCols|
      invariant |lists| == |data|
      invariant forall i :: 0 <= i < |data| ==> lists[i] == CopyUpTo(RowLists(nameMaps, data[i]), k)
    {
      var c := ListCols[k];
      lists := seq(|data|, i requires 0 <= i < |data| && i < |lists| =>
        lists[i].Set(c, SplitItems(nameMaps, ListColName(c), ListCell(data[i], c))));
    }
    forall i | 0 <= i < |data| ensures lists[i] == RowLists(nameMaps, data[i]) {
      CopyAll(RowLists(nameMaps, data[i]));
    }
  }

  /** The lists l has once its first k columns are copied into NoLists. */
  function CopyUpTo(l: Lists, k: nat): Lists
    requires k <= |ListCols|
  {
    if k == 0 then NoLists
    else
      var c := ListCols[k - 1];
      CopyUpTo(l, k - 1).Set(c, l.Get(c))
  }

  lemma CopyAll(l: Lists)
    ensures CopyUpTo(l, |ListCols|) == l
  {
    assert CopyUpTo(l, 1) == NoLists.(events := l.events);
    assert CopyUpTo(l, 2) == NoLists.(events := l.events, people := l.people);
    assert CopyUpTo(l, 3) == NoLists.(events := l.events, people := l.people, sponsors := l.sponsors);
    assert CopyUpTo(l, 4) == l.(direction := None);
  }

  // ----- what cleaning promises -----

  /** What a row must satisfy for the conversions after the slug check to succeed. */
  predicate Converts(r: Row, cfg: Config, countries: map<string, string>)
  {
    && r.created.Some? && ParseCreated(r.created.value).Some?
    && (r.duration.Some? ==> ParseDuration(r.duration.value).Some?)
    && (r.language.Some? ==> r.language.value in cfg.langMap)
    && (r.country.Some? ==> r.country.value in countries)
    && r.description.Some? && r.freeAccess.Some?
  }

  /** Every row converts. */
  predicate AllConvert(d: seq<Row>, cfg: Config, countries: map<string, string>)
  {
    forall i :: 0 <= i < |d| ==> Converts(d[i], cfg, countries)
  }

  /** Every slug is present and, lower-cased, is a valid slug. */
  predicate SlugsLowerValid(d: seq<Row>)
  {
    forall i :: 0 <= i < |d| ==> d[i].slug.Some? && IsSlug(Lower(d[i].slug.value))
  }

  /** Every slug is present and matches the slug pattern as it stands. */
  predicate SlugsMatch(d: seq<Row>)
  {
    forall i :: 0 <= i < |d| ==> d[i].slug.Some? && MatchesSlugPattern(d[i].slug.value)
  }

  /** The sheets clean_gspread_data accepts, stated column by column. */
  predicate Cleanable(orig: seq<RawRow>, cfg: Config, countries: map<string, string>)
  {
    var all := TrimTable(orig);
    var d := Exported(all);
    && (forall i :: 0 <= i < |all| ==> IsYesNo(Field(all[i], Export)))
    && AllInts(all)
    && Keyed(d)
    && Distinct(ColumnValues(d, Id))
    && Distinct(ColumnValues(d, Title))
    && Distinct(ColumnValues(LowerSlugs(d), Slug))
    && SlugsLowerValid(d) && AllConvert(d, cfg, countries)
    && |d| > 0
  }

  /** A sheet without records has no columns, so the export check finds no export column. */
  lemma EmptySheetFails(cfg: Config, countries: map<string, string>)
    ensures CleanSheet([], cfg, countries) == Failure(MissingColumn("export"))
  {
  }

  /** When the checks before it pass but no row is exported, building slug_web row by row has
      no row to run on, and assigning what comes back to the column raises. */
  lemma NothingExportedFails(orig: seq<RawRow>, cfg: Config, countries: map<string, string>)
    requires |orig| > 0 && ValidateIsYesNo(TrimTable(orig), Export).Pass?
    requires AllInts(TrimTable(orig)) && Exported(TrimTable(orig)) == []
    ensures CleanSheet(orig, cfg, countries) == Failure(FrameIntoColumn("slug_web"))
  {
    var d := Exported(TrimTable(orig));
    assert ValidateNonEmpty(d, Id).Pass? && ValidateUnique(d, Id).Pass?;
    assert ValidateNonEmpty(d, Title).Pass? && ValidateUnique(d, Title).Pass?;
    assert ValidateNonEmpty(d, ReleaseYear).Pass? && ValidateNonEmpty(d, Slug).Pass?;
    assert ValidateUnique(LowerSlugs(d), Slug).Pass?;
  }

  /** Cleaning succeeds exactly on the sheets described by Cleanable. */
  lemma CleanSheetSucceeds(orig: seq<RawRow>, cfg: Config, countries: map<string, string>)
    ensures CleanSheet(orig, cfg, countries).Success? <==> Cleanable(orig, cfg, countries)
  {
    var all := TrimTable(orig);
    if ValidateIsYesNo(all, Export).Pass? {
      CleanExportedSucceeds(orig, all, Exported(all), cfg, countries);
    }
  }

  lemma CleanExportedSucceeds(orig: seq<RawRow>, all: seq<Row>, d: seq<Row>, cfg: Config, countries: map<string, string>)
    requires all == TrimTable(orig) && d == Exported(all)
    ensures CleanExported(all, d, cfg, countries).Success? <==>
      && AllInts(all)
      && Keyed(d)
      && Distinct(ColumnValues(d, Id))
      && Distinct(ColumnValues(d, Title))
      && Distinct(ColumnValues(LowerSlugs(d), Slug))
      && SlugsLowerValid(d) && AllConvert(d, cfg, countries)
      && |d| > 0
  {
    if KeyColumnsPresent(d) && AllInts(all) {
      KeyedRows(all, d);
      CleanKeyedSucceeds(orig, all, d, cfg, countries);
    } else {
      assert !CleanExported(all, d, cfg, countries).Success?;
      if Keyed(d) {
        KeyedByColumn(d);
      }
    }
  }

  predicate KeyColumnsPresent(d: seq<Row>)
  {
    && ValidateNonEmpty(d, Id).Pass? && ValidateNonEmpty(d, Title).Pass?
    && ValidateNonEmpty(d, ReleaseYear).Pass? && ValidateNonEmpty(d, Slug).Pass?
  }

  /** With every key column present and the whole sheet integral, only the checks on the keyed rows remain. */
  lemma CleanKeyedSucceeds(orig: seq<RawRow>, all: seq<Row>, d: seq<Row>, cfg: Config, countries: map<string, string>)
    requires all == TrimTable(orig) && d == Exported(all)
    requires KeyColumnsPresent(d) && AllInts(all) && Keyed(d)
    ensures CleanExported(all, d, cfg, countries).Success? <==>
      && Distinct(ColumnValues(d, Id))
      && Distinct(ColumnValues(d, Title))
      && Distinct(ColumnValues(LowerSlugs(d), Slug))
      && SlugsLowerValid(d) && AllConvert(d, cfg, countries)
      && |d| > 0
  {
    KeyedRows(all, d);
    CleanKeyedForm(all, d, cfg, countries);
    KeyedLoweredSucceeds(orig, d, cfg, countries);
  }

  /** The stages after lower-casing, stated on the rows before it. */
  lemma KeyedLoweredSucceeds(orig: seq<RawRow>, d: seq<Row>, cfg: Config, countries: map<string, string>)
    requires d == Exported(TrimTable(orig)) && Keyed(d) && Keyed(LowerSlugs(d))
    ensures CleanLowered(LowerSlugs(d), cfg, countries).Success? <==>
      && Distinct(ColumnValues(LowerSlugs(d), Slug))
      && SlugsLowerValid(d) && AllConvert(d, cfg, countries)
      && |d| > 0
  {
    CleanLoweredSucceeds(LowerSlugs(d), cfg, countries);
    LoweredRowsAgree(orig, d, cfg, countries);
  }

  lemma CleanKeyedForm(all: seq<Row>, d: seq<Row>, cfg: Config, countries: map<string, string>)
    requires forall r :: r in d ==> r in all
    requires KeyColumnsPresent(d) && AllInts(all) && Keyed(d)
    ensures CleanExported(all, d, cfg, countries) ==
      if Distinct(ColumnValues(d, Id)) && Distinct(ColumnValues(d, Title)) then CleanLowered(LowerSlugs(d), cfg, countries)
      else Failure(NameNotDefined("col"))
  {
  }

  lemma LoweredRowsAgree(orig: seq<RawRow>, d: seq<Row>, cfg: Config, countries: map<string, string>)
    requires d == Exported(TrimTable(orig)) && Keyed(d)
    ensures SlugsMatch(LowerSlugs(d)) && AllConvert(LowerSlugs(d), cfg, countries)
      <==> SlugsLowerValid(d) && AllConvert(d, cfg, countries)
  {
    LoweredConverts(d, cfg, countries);
    LoweredSlugPattern(orig, d);
  }

  /** Lower-casing changes only the slug, so the rows convert as before. */
  lemma LoweredConverts(d: seq<Row>, cfg: Config, countries: map<string, string>)
    ensures AllConvert(LowerSlugs(d), cfg, countries) <==> AllConvert(d, cfg, countries)
  {
    var dl := LowerSlugs(d);
    forall i | 0 <= i < |d| ensures Converts(dl[i], cfg, countries) <==> Converts(d[i], cfg, countries) {
      assert dl[i] == LowerSlug(d[i]);
    }
  }

  /** On lower-cased trimmed slugs the slug pattern reads as IsSlug. */
  lemma LoweredSlugPattern(orig: seq<RawRow>, d: seq<Row>)
    requires d == Exported(TrimTable(orig)) && Keyed(d)
    ensures SlugsMatch(LowerSlugs(d)) <==> SlugsLowerValid(d)
  {
    var dl := LowerSlugs(d);
    if SlugsLowerValid(d) {
      forall i | 0 <= i < |dl| ensures dl[i].slug.Some? && MatchesSlugPattern(dl[i].slug.value) {
        LoweredRowPattern(orig, d[i]);
      }
    }
    if SlugsMatch(dl) {
      forall i | 0 <= i < |d| ensures d[i].slug.Some? && IsSlug(Lower(d[i].slug.value)) {
        LoweredRowPattern(orig, d[i]);
      }
    }
  }

  lemma LoweredRowPattern(orig: seq<RawRow>, r: Row)
    requires r in Exported(TrimTable(orig)) && r.slug.Some?
    ensures MatchesSlugPattern(LowerSlug(r).slug.value) <==> IsSlug(Lower(r.slug.value))
  {
    TrimmedSlugPattern(orig, r);
  }

  lemma KeyedByColumn(d: seq<Row>)
    requires Keyed(d)
    ensures ValidateNonEmpty(d, Id).Pass? && ValidateNonEmpty(d, Title).Pass?
    ensures ValidateNonEmpty(d, ReleaseYear).Pass? && ValidateNonEmpty(d, Slug).Pass?
  {
    assert forall i :: 0 <= i < |d| ==>
      && Field(d[i], Id) == AsCell(d[i].id) && Field(d[i], Title) == AsCell(d[i].title)
      && Field(d[i], ReleaseYear) == d[i].releaseYear && Field(d[i], Slug) == AsCell(d[i].slug);
  }

  lemma CleanLoweredSucceeds(d: seq<Row>, cfg: Config, countries: map<string, string>)
    requires Keyed(d)
    ensures CleanLowered(d, cfg, countries).Success? <==>
      && Distinct(ColumnValues(d, Slug))
      && SlugsMatch(d)
      && AllConvert(d, cfg, countries)
      && |d| > 0
  {
    if ValidateUnique(d, Slug).Pass? && d != [] && WebSlugColumn(d).Success? {
      LoweredAreDated(d, cfg, countries);
    }
  }

  /** Past the slug checks, cleaning succeeds when every row converts. */
  lemma LoweredAreDated(d: seq<Row>, cfg: Config, countries: map<string, string>)
    requires Keyed(d) && ValidateUnique(d, Slug).Pass? && d != [] && WebSlugColumn(d).Success?
    ensures CleanLowered(d, cfg, countries).Success? <==> AllConvert(d, cfg, countries)
  {
    if ValidateNonEmpty(d, Created).Pass? {
      DatedRows(d);
      CleanDatedSucceeds(d, WebSlugColumn(d).value, cfg, countries);
    }
  }

  lemma CleanDatedSucceeds(d: seq<Row>, webSlugs: seq<string>, cfg: Config, countries: map<string, string>)
    requires Keyed(d) && Dated(d) && |webSlugs| == |d|
    ensures CleanDated(d, webSlugs, cfg, countries).Success? <==> AllConvert(d, cfg, countries)
  {
    var columns := CreatedColumn(d).Success? && DurationColumn(d).Success? && LanguageColumn(cfg.langMap, d).Success?
       && CountryColumn(countries, d).Success?;
    var described := ValidateNonEmpty(d, Description).Pass? && ValidateNonEmpty(d, FreeAccess).Pass?;
    assert CleanDated(d, webSlugs, cfg, countries).Success? <==> columns && described;
    ConvertsByColumn(d, cfg, countries);
  }

  lemma ConvertsByColumn(d: seq<Row>, cfg: Config, countries: map<string, string>)
    requires Dated(d) && HasIds(d)
    ensures AllConvert(d, cfg, countries) <==>
      && CreatedColumn(d).Success? && DurationColumn(d).Success? && LanguageColumn(cfg.langMap, d).Success?
      && CountryColumn(countries, d).Success?
      && ValidateNonEmpty(d, Description).Pass? && ValidateNonEmpty(d, FreeAccess).Pass?
  {
    if AllConvert(d, cfg, countries) {
      ColumnsFromRows(d, cfg, countries);
    }
    if && CreatedColumn(d).Success? && DurationColumn(d).Success? && LanguageColumn(cfg.langMap, d).Success?
       && CountryColumn(countries, d).Success?
       && ValidateNonEmpty(d, Description).Pass? && ValidateNonEmpty(d, FreeAccess).Pass? {
      RowsFromColumns(d, cfg, countries);
    }
  }

  lemma ColumnsFromRows(d: seq<Row>, cfg: Config, countries: map<string, string>)
    requires Dated(d) && HasIds(d) && AllConvert(d, cfg, countries)
    ensures CreatedColumn(d).Success? && DurationColumn(d).Success?
    ensures LanguageColumn(cfg.langMap, d).Success? && CountryColumn(countries, d).Success?
    ensures ValidateNonEmpty(d, Description).Pass? && ValidateNonEmpty(d, FreeAccess).Pass?
  {
    forall i | 0 <= i < |d| ensures Field(d[i], Description).Some? && Field(d[i], FreeAccess).Some?
    {
      assert Converts(d[i], cfg, countries);
    }
  }

  lemma RowsFromColumns(d: seq<Row>, cfg: Config, countries: map<string, string>)
    requires Dated(d) && HasIds(d)
    requires CreatedColumn(d).Success? && DurationColumn(d).Success?
    requires LanguageColumn(cfg.langMap, d).Success? && CountryColumn(countries, d).Success?
    requires ValidateNonEmpty(d, Description).Pass? && ValidateNonEmpty(d, FreeAccess).Pass?
    ensures AllConvert(d, cfg, countries)
  {
    DescribedRows(d);
    RowsConvert(d, cfg, countries);
  }

  lemma DescribedRows(d: seq<Row>)
    requires ValidateNonEmpty(d, Description).Pass? && ValidateNonEmpty(d, FreeAccess).Pass?
    ensures forall i :: 0 <= i < |d| ==> d[i].description.Some? && d[i].freeAccess.Some?
  {
    forall i | 0 <= i < |d| ensures d[i].description.Some? && d[i].freeAccess.Some? {
      assert Field(d[i], Description).Some? && Field(d[i], FreeAccess).Some?;
    }
  }

  lemma RowsConvert(d: seq<Row>, cfg: Config, countries: map<string, string>)
    requires Dated(d)
    requires forall i :: 0 <= i < |d| ==> ParseCreated(d[i].created.value).Some?
    requires forall i :: 0 <= i < |d| ==> d[i].duration.Some? ==> ParseDuration(d[i].duration.value).Some?
    requires forall i :: 0 <= i < |d| ==> d[i].language.Some? ==> d[i].language.value in cfg.langMap
    requires forall i :: 0 <= i < |d| ==> d[i].country.Some? ==> d[i].country.value in countries
    requires forall i :: 0 <= i < |d| ==> d[i].description.Some? && d[i].freeAccess.Some?
    ensures AllConvert(d, cfg, countries)
  {
  }

  // ----- what the cleaned rows hold -----

  /** c is the cleaned form of the trimmed, slug-lowered row e: every cell is carried over or
      converted as clean_gspread_data converts it. */
  predicate Derived(e: Row, c: CleanRow, cfg: Config, countries: map<string, string>)
  {
    && e.id == Some(c.id) && e.title == Some(c.title) && e.releaseYear == Some(IntCell(c.releaseYear))
    && e.slug == Some(c.slug) && BuildWebSlug(c.id, c.slug) == Success(c.slugWeb)
    && e.created.Some? && ParseCreated(e.created.value) == Some(c.created)
    && c.duration == (if e.duration.Some? then ParseDuration(e.duration.value) else None)
    && c.language == Lookup(cfg.langMap, e.language)
    && c.country == Lookup(countries, e.country)
    && c.lists == RowLists(cfg.nameMaps, e)
    && e.description == Some(c.description)
    && c.freeAccess == (e.freeAccess == Some("yes"))
    && c.linkTrailer == e.linkTrailer && c.linkStream == e.linkStream && c.linkOfficial == e.linkOfficial
  }

  /** A successful cleaning keeps every exported row, in order, each cleaned from its trimmed
      and slug-lowered original. */
  lemma CleanSheetRows(orig: seq<RawRow>, cfg: Config, countries: map<string, string>)
    requires CleanSheet(orig, cfg, countries).Success?
    ensures var d, r := Exported(TrimTable(orig)), CleanSheet(orig, cfg, countries).value;
      |r| == |d| && forall i :: 0 <= i < |d| ==> Derived(LowerSlug(d[i]), r[i], cfg, countries)
  {
    var d := Exported(TrimTable(orig));
    SheetStages(orig, cfg, countries);
    LoweredDerived(LowerSlugs(d), cfg, countries);
  }

  /** A successful cleaning is the one of its lower-cased exported rows. */
  lemma SheetStages(orig: seq<RawRow>, cfg: Config, countries: map<string, string>)
    requires CleanSheet(orig, cfg, countries).Success?
    ensures var d := Exported(TrimTable(orig));
      Keyed(LowerSlugs(d)) && CleanSheet(orig, cfg, countries) == CleanLowered(LowerSlugs(d), cfg, countries)
  {
    var all := TrimTable(orig);
    var d := Exported(all);
    assert CleanSheet(orig, cfg, countries) == CleanExported(all, d, cfg, countries);
    ExportedStages(all, d, cfg, countries);
  }

  lemma ExportedStages(all: seq<Row>, d: seq<Row>, cfg: Config, countries: map<string, string>)
    requires forall r :: r in d ==> r in all
    requires CleanExported(all, d, cfg, countries).Success?
    ensures Keyed(LowerSlugs(d)) && CleanExported(all, d, cfg, countries) == CleanLowered(LowerSlugs(d), cfg, countries)
  {
    assert KeyColumnsPresent(d) && AllInts(all);
    KeyedRows(all, d);
    CleanKeyedForm(all, d, cfg, countries);
  }

  lemma LoweredDerived(d: seq<Row>, cfg: Config, countries: map<string, string>)
    requires Keyed(d) && CleanLowered(d, cfg, countries).Success?
    ensures var r := CleanLowered(d, cfg, countries).value;
      |r| == |d| && forall i :: 0 <= i < |d| ==> Derived(d[i], r[i], cfg, countries)
  {
    var webSlugs := WebSlugColumn(d).value;
    DatedRows(d);
    forall i | 0 <= i < |d| ensures BuildWebSlug(d[i].id.value, d[i].slug.value) == Success(webSlugs[i]) {
    }
    DatedDerived(d, webSlugs, cfg, countries);
  }

  lemma DatedDerived(d: seq<Row>, webSlugs: seq<string>, cfg: Config, countries: map<string, string>)
    requires Keyed(d) && Dated(d) && |webSlugs| == |d|
    requires forall i :: 0 <= i < |d| ==> BuildWebSlug(d[i].id.value, d[i].slug.value) == Success(webSlugs[i])
    requires CleanDated(d, webSlugs, cfg, countries).Success?
    ensures var r := CleanDated(d, webSlugs, cfg, countries).value;
      |r| == |d| && forall i :: 0 <= i < |d| ==> Derived(d[i], r[i], cfg, countries)
  {
    var created := CreatedColumn(d).value;
    var durations := DurationColumn(d).value;
    var languages := LanguageColumn(cfg.langMap, d).value;
    var countryNames := CountryColumn(countries, d).value;
    DescribedDerived(d, webSlugs, created, durations, languages, countryNames, cfg, countries);
  }

  lemma DescribedDerived(d: seq<Row>, webSlugs: seq<string>, created: seq<DateTime>, durations: seq<Option<nat>>,
                         languages: seq<Option<string>>, countryNames: seq<Option<string>>, cfg: Config, countries: map<string, string>)
    requires Keyed(d) && Dated(d)
    requires |webSlugs| == |created| == |durations| == |languages| == |countryNames| == |d|
    requires forall i :: 0 <= i < |d| ==> BuildWebSlug(d[i].id.value, d[i].slug.value) == Success(webSlugs[i])
    requires forall i :: 0 <= i < |d| ==> Some(created[i]) == ParseCreated(d[i].created.value)
    requires forall i :: 0 <= i < |d| ==> durations[i] == if d[i].duration.Some? then ParseDuration(d[i].duration.value) else None
    requires forall i :: 0 <= i < |d| ==> languages[i] == Lookup(cfg.langMap, d[i].language)
    requires forall i :: 0 <= i < |d| ==> countryNames[i] == Lookup(countries, d[i].country)
    requires CleanDescribed(d, webSlugs, created, durations, languages, countryNames, ListsColumn(cfg.nameMaps, d)).Success?
    ensures var r := CleanDescribed(d, webSlugs, created, durations, languages, countryNames, ListsColumn(cfg.nameMaps, d)).value;
      |r| == |d| && forall i :: 0 <= i < |d| ==> Derived(d[i], r[i], cfg, countries)
  {
    var lists := ListsColumn(cfg.nameMaps, d);
    CompleteRows(d);
    var r := Assemble(d, webSlugs, created, durations, languages, countryNames, lists);
    forall i | 0 <= i < |d| ensures Derived(d[i], r[i], cfg, countries) {
      assert r[i] == CleanRowOf(d[i], webSlugs[i], created[i], durations[i], languages[i], countryNames[i], lists[i]);
    }
  }

  /** In a successful cleaning no two rows share an id, a title, a slug or a web slug. */
  lemma CleanSheetKeysDistinct(orig: seq<RawRow>, cfg: Config, countries: map<string, string>)
    requires CleanSheet(orig, cfg, countries).Success?
    ensures var r := CleanSheet(orig, cfg, countries).value;
      forall i, j :: 0 <= i < j < |r| ==>
        r[i].id != r[j].id && r[i].title != r[j].title && r[i].slug != r[j].slug && r[i].slugWeb != r[j].slugWeb
  {
    var d, r := Exported(TrimTable(orig)), CleanSheet(orig, cfg, countries).value;
    CleanSheetRows(orig, cfg, countries);
    CleanSheetSucceeds(orig, cfg, countries);
    forall i, j | 0 <= i < j < |r|
      ensures r[i].id != r[j].id && r[i].title != r[j].title && r[i].slug != r[j].slug && r[i].slugWeb != r[j].slugWeb
    {
      DistinctPair(d, r, cfg, countries, i, j);
    }
  }

  lemma DistinctPair(d: seq<Row>, r: seq<CleanRow>, cfg: Config, countries: map<string, string>, i: nat, j: nat)
    requires i < j < |d| == |r|
    requires Derived(LowerSlug(d[i]), r[i], cfg, countries) && Derived(LowerSlug(d[j]), r[j], cfg, countries)
    requires Distinct(ColumnValues(d, Id)) && Distinct(ColumnValues(d, Title)) && Distinct(ColumnValues(LowerSlugs(d), Slug))
    ensures r[i].id != r[j].id && r[i].title != r[j].title && r[i].slug != r[j].slug && r[i].slugWeb != r[j].slugWeb
  {
    assert ColumnValues(d, Id)[i] != ColumnValues(d, Id)[j];
    assert ColumnValues(d, Title)[i] != ColumnValues(d, Title)[j];
    assert ColumnValues(LowerSlugs(d), Slug)[i] != ColumnValues(LowerSlugs(d), Slug)[j];
    if r[i].slugWeb == r[j].slugWeb {
      WebSlugInjective(r[i].id, r[i].slug, r[j].id, r[j].slug);
    }
  }

  /** Slugs are compared after lower-casing: in a successful cleaning no two exported slugs
      differ only in case. */
  lemma SlugsDistinctIgnoringCase(orig: seq<RawRow>, cfg: Config, countries: map<string, string>, i: nat, j: nat)
    requires CleanSheet(orig, cfg, countries).Success?
    requires var d := Exported(TrimTable(orig)); i < j < |d| && d[i].slug.Some? && d[j].slug.Some?
    ensures var d := Exported(TrimTable(orig)); Lower(d[i].slug.value) != Lower(d[j].slug.value)
  {
    var d := Exported(TrimTable(orig));
    CleanedSlugsDistinct(orig, cfg, countries);
    var vs := ColumnValues(LowerSlugs(d), Slug);
    assert vs[i] != vs[j];
  }

  lemma CleanedSlugsDistinct(orig: seq<RawRow>, cfg: Config, countries: map<string, string>)
    requires CleanSheet(orig, cfg, countries).Success?
    ensures Distinct(ColumnValues(LowerSlugs(Exported(TrimTable(orig))), Slug))
  {
    CleanSheetSucceeds(orig, cfg, countries);
  }
}
