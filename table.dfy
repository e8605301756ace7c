/** The spreadsheet as the cleaning stages see it: raw rows, trimmed rows with
    absent ("NaN") cells, the column validators, and the per-cell conversions
    shared by both cleaning variants. */
module Table {
  import opened Wrappers
  import opened Text
  import opened Strptime

  /** A raw sheet cell of the release_year column: the sheet reader turns
      numeric cells into integers and leaves everything else as text. */
  datatype Cell = TextCell(text: string) | IntCell(number: int)

  /** The five comma-separated keyword columns, in the order the pipeline visits them. */
  datatype ListCol = Events | People | Sponsors | Production | Direction

  const ListCols: seq<ListCol> := [Events, People, Sponsors, Production, Direction]

  function ListColName(c: ListCol): string
  {
    match c
    case Events => "events"
    case People => "people"
    case Sponsors => "sponsors"
    case Production => "production"
    case Direction => "direction"
  }

  datatype Column =
    | Id | Slug | Title | ReleaseYear | Created | Duration | Language | Country
    | Items(list: ListCol)
    | Description | FreeAccess | Export | LinkTrailer | LinkStream | LinkOfficial

  function ColumnName(c: Column): string
  {
    match c
    case Id => "id"
    case Slug => "slug"
    case Title => "title"
    case ReleaseYear => "release_year"
    case Created => "created"
    case Duration => "duration"
    case Language => "language"
    case Country => "country"
    case Items(l) => ListColName(l)
    case Description => "description"
    case FreeAccess => "free_access"
    case Export => "export"
    case LinkTrailer => "link_trailer"
    case LinkStream => "link_stream"
    case LinkOfficial => "link_official"
  }

  /** One record of the downloaded sheet. */
  datatype RawRow = RawRow(
    id: string, slug: string, title: string, releaseYear: Cell, created: string,
    duration: string, language: string, country: string,
    events: string, people: string, sponsors: string, production: string, direction: string,
    description: string, freeAccess: string, forExport: string, saw: string,
    linkTrailer: string, linkStream: string, linkOfficial: string)

  /** A record after trimming: a cell that was blank is absent. The `saw` column is never read and is left out. */
  datatype Row = Row(
    id: Option<string>, slug: Option<string>, title: Option<string>, releaseYear: Option<Cell>,
    created: Option<string>, duration: Option<string>, language: Option<string>, country: Option<string>,
    events: Option<string>, people: Option<string>, sponsors: Option<string>,
    production: Option<string>, direction: Option<string>,
    description: Option<string>, freeAccess: Option<string>, forExport: Option<string>,
    linkTrailer: Option<string>, linkStream: Option<string>, linkOfficial: Option<string>)

  function ListCell(r: Row, c: ListCol): Option<string>
  {
    match c
    case Events => r.events
    case People => r.people
    case Sponsors => r.sponsors
    case Production => r.production
    case Direction => r.direction
  }

  function AsCell(v: Option<string>): Option<Cell>
  {
    if v.Some? then Some(TextCell(v.value)) else None
  }

  /** The value of one column of a row, as the validators compare it. */
  function Field(r: Row, c: Column): Option<Cell>
  {
    match c
    case Id => AsCell(r.id)
    case Slug => AsCell(r.slug)
    case Title => AsCell(r.title)
    case ReleaseYear => r.releaseYear
    case Created => AsCell(r.created)
    case Duration => AsCell(r.duration)
    case Language => AsCell(r.language)
    case Country => AsCell(r.country)
    case Items(l) => AsCell(ListCell(r, l))
    case Description => AsCell(r.description)
    case FreeAccess => AsCell(r.freeAccess)
    case Export => AsCell(r.forExport)
    case LinkTrailer => AsCell(r.linkTrailer)
    case LinkStream => AsCell(r.linkStream)
    case LinkOfficial => AsCell(r.linkOfficial)
  }

  function ColumnValues(rows: seq<Row>, c: Column): (vs: seq<Option<Cell>>)
    ensures |vs| == |rows| && forall i :: 0 <= i < |rows| ==> vs[i] == Field(rows[i], c)
  {
    seq(|rows|, i requires 0 <= i < |rows| => Field(rows[i], c))
  }

  // ----- trimming -----

  /** Strip a text cell, then treat the empty text as absent. */
  function TrimText(s: string): (r: Option<string>)
    ensures r.None? <==> AllSpace(s)
    ensures r.Some? ==> r.value == Strip(s) && r.value != []
  {
    StripShape(s);
    StripEmpty(s);
    var t := Strip(s);
    if t == [] then None else Some(t)
  }

  /** Integers are not strings, so trimming passes them through. */
  function TrimCell(c: Cell): (r: Option<Cell>)
    ensures c.IntCell? ==> r == Some(c)
    ensures c.TextCell? ==> r == AsCell(TrimText(c.text))
  {
    match c
    case IntCell(_) => Some(c)
    case TextCell(s) => AsCell(TrimText(s))
  }

  function TrimRow(r: RawRow): Row
  {
    Row(TrimText(r.id), TrimText(r.slug), TrimText(r.title), TrimCell(r.releaseYear),
        TrimText(r.created), TrimText(r.duration), TrimText(r.language), TrimText(r.country),
        TrimText(r.events), TrimText(r.people), TrimText(r.sponsors),
        TrimText(r.production), TrimText(r.direction),
        TrimText(r.description), TrimText(r.freeAccess), TrimText(r.forExport),
        TrimText(r.linkTrailer), TrimText(r.linkStream), TrimText(r.linkOfficial))
  }

  function TrimTable(rows: seq<RawRow>): (r: seq<Row>)
    ensures |r| == |rows| && forall i :: 0 <= i < |rows| ==> r[i] == TrimRow(rows[i])
  {
    seq(|rows|, i requires 0 <= i < |rows| => TrimRow(rows[i]))
  }

  /** The slug column after lower-casing. */
  function LowerSlug(r: Row): Row
  {
    r.(slug := if r.slug.Some? then Some(Lower(r.slug.value)) else None)
  }

  function LowerSlugs(rows: seq<Row>): (r: seq<Row>)
    ensures |r| == |rows| && forall i :: 0 <= i < |rows| ==> r[i] == LowerSlug(rows[i])
  {
    seq(|rows|, i requires 0 <= i < |rows| => LowerSlug(rows[i]))
  }

  // ----- row selection -----

  /** The rows that satisfy p, in their original order. */
  function Filter<T(!new)>(xs: seq<T>, p: T -> bool): (r: seq<T>)
    ensures |r| <= |xs|
    ensures forall x :: x in r <==> x in xs && p(x)
    decreases |xs|
  {
    if xs == [] then []
    else (if p(xs[0]) then [xs[0]] else []) + Filter(xs[1..], p)
  }

  /** Filtering keeps the order: filtering a concatenation concatenates the filtered parts. */
  lemma {:induction false} FilterAppend<T(!new)>(a: seq<T>, b: seq<T>, p: T -> bool)
    ensures Filter(a + b, p) == Filter(a, p) + Filter(b, p)
    decreases |a|
  {
    if a == [] {
      assert a + b == b;
    } else {
      assert (a + b)[1..] == a[1..] + b;
      FilterAppend(a[1..], b, p);
    }
  }

  lemma FilterSingle<T(!new)>(x: T, p: T -> bool)
    ensures Filter([x], p) == if p(x) then [x] else []
  {
    assert [x][1..] == [];
  }

  function IsExported(r: Row): bool
  {
    r.forExport == Some("yes")
  }

  function Exported(rows: seq<Row>): seq<Row>
  {
    Filter(rows, IsExported)
  }

  /** The positions below n that satisfy p, in increasing order. */
  function Indices(n: nat, p: nat -> bool): (r: seq<nat>)
    ensures forall k :: 0 <= k < |r| ==> r[k] < n && p(r[k])
    ensures forall i :: 0 <= i < n && p(i) ==> i in r
    ensures forall k, l :: 0 <= k < l < |r| ==> r[k] < r[l]
  {
    if n == 0 then [] else Indices(n - 1, p) + (if p(n - 1) then [n - 1] else [])
  }

  // ----- validators -----

  /** The rows `df[col].isna()` selects. */
  function AbsentRows(vs: seq<Option<Cell>>): (r: seq<nat>)
    ensures forall i: nat :: i in r <==> i < |vs| && vs[i].None?
  {
    Indices(|vs|, (i: nat) => i < |vs| && vs[i].None?)
  }

  predicate HasDuplicate<V(==)>(vs: seq<V>, i: nat)
    requires i < |vs|
  {
    exists j :: 0 <= j < |vs| && j != i && vs[j] == vs[i]
  }

  predicate Distinct<V(==)>(vs: seq<V>)
  {
    forall i, j :: 0 <= i < |vs| && 0 <= j < |vs| && i != j ==> vs[i] != vs[j]
  }

  /** The rows `df[col].duplicated(keep=False)` selects: every row of every group of equal values. */
  function DuplicatedRows<V(==)>(vs: seq<V>): (r: seq<nat>)
    ensures forall i: nat :: i in r <==> i < |vs| && HasDuplicate(vs, i)
    ensures forall i, j :: 0 <= i < |vs| && 0 <= j < |vs| && i != j && vs[i] == vs[j] ==> i in r && j in r
  {
    Indices(|vs|, (i: nat) => i < |vs| && HasDuplicate(vs, i))
  }

  /** No row is duplicated exactly when the values are distinct. */
  lemma NoDuplicatedRows<V>(vs: seq<V>)
    ensures DuplicatedRows(vs) == [] <==> Distinct(vs)
  {
    var r := DuplicatedRows(vs);
    if !Distinct(vs) {
      var i, j :| 0 <= i < |vs| && 0 <= j < |vs| && i != j && vs[i] == vs[j];
      assert i in r;
    }
    if r != [] {
      assert r[0] in r;
      var i := r[0];
      var j :| 0 <= j < |vs| && j != i && vs[j] == vs[i];
    }
  }

  function IsYesNo(v: Option<Cell>): bool
  {
    v == Some(TextCell("yes")) || v == Some(TextCell("no"))
  }

  /** The rows `~df[col].isin(['yes', 'no'])` selects; an absent cell is neither. */
  function NotYesNoRows(vs: seq<Option<Cell>>): (r: seq<nat>)
    ensures forall i: nat :: i in r <==> i < |vs| && !IsYesNo(vs[i])
  {
    Indices(|vs|, (i: nat) => i < |vs| && !IsYesNo(vs[i]))
  }

  /** Every failure a cleaning stage can raise. */
  datatype Error =
    | NameNotDefined(name: string)         // the failure path names a variable that does not exist
    | BadBool(column: string)
    | EmptyValues(column: string)
    | DuplicateValues(column: string)
    | NotInt64
    | BadSlug(id: string, slug: string)
    | BadCreated(id: string, created: string)
    | BadDuration(id: string, duration: string)
    | UnknownLanguage(id: string, language: string)
    | UnknownCountry(id: string, code: string)
    | MissingColumn(column: string)        // a sheet without records has no columns at all
    | FrameIntoColumn(column: string)      // a row-wise apply over no rows yields the whole frame, not one column

  /** validate_non_empty. */
  function ValidateNonEmpty(rows: seq<Row>, c: Column): (r: Outcome<Error>)
    ensures r.Pass? <==> forall i :: 0 <= i < |rows| ==> Field(rows[i], c).Some?
    ensures r.Fail? ==> r.error == EmptyValues(ColumnName(c))
  {
    var errs := AbsentRows(ColumnValues(rows, c));
    assert errs != [] ==> errs[0] in errs;
    if errs == [] then Pass else Fail(EmptyValues(ColumnName(c)))
  }

  /** validate_unique. Its error message refers to an undefined name, so the failure is a NameError. */
  function ValidateUnique(rows: seq<Row>, c: Column): (r: Outcome<Error>)
    ensures r.Pass? <==> Distinct(ColumnValues(rows, c))
    ensures r.Fail? ==> r.error == NameNotDefined("col")
  {
    NoDuplicatedRows(ColumnValues(rows, c));
    if DuplicatedRows(ColumnValues(rows, c)) == [] then Pass else Fail(NameNotDefined("col"))
  }

  /** validate_is_yesno, with the same NameError on its failure path. */
  function ValidateIsYesNo(rows: seq<Row>, c: Column): (r: Outcome<Error>)
    ensures r.Pass? <==> forall i :: 0 <= i < |rows| ==> IsYesNo(Field(rows[i], c))
    ensures r.Fail? ==> r.error == NameNotDefined("col")
  {
    var errs := NotYesNoRows(ColumnValues(rows, c));
    assert errs != [] ==> errs[0] in errs;
    if errs == [] then Pass else Fail(NameNotDefined("col"))
  }

  // ----- per-cell conversions -----

  predicate SlugChar(c: char)
  {
    '0' <= c <= '9' || 'a' <= c <= 'z' || c == '_'
  }

  /** The length of the longest prefix of s made of slug characters. */
  function SlugPrefix(s: string): (n: nat)
    ensures n <= |s|
    ensures forall i :: 0 <= i < n ==> SlugChar(s[i])
    ensures n < |s| ==> !SlugChar(s[n])
  {
    if s == [] || !SlugChar(s[0]) then 0 else 1 + SlugPrefix(s[1..])
  }

  /** `re.match(r'^[0-9a-z\_]+$', s)`: the greedy `+` must be followed by the end of the text
      or by a newline that ends it, which is what `$` accepts. */
  predicate MatchesSlugPattern(s: string)
  {
    var n := SlugPrefix(s);
    n >= 1 && (n == |s| || (n == |s| - 1 && s[n] == '\n'))
  }

  predicate IsSlug(s: string)
  {
    |s| >= 1 && forall i :: 0 <= i < |s| ==> SlugChar(s[i])
  }

  /** Unless the text ends in a newline, the pattern matches exactly the non-empty texts of slug characters. */
  lemma SlugPatternWithoutNewline(s: string)
    requires s == [] || s[|s| - 1] != '\n'
    ensures MatchesSlugPattern(s) <==> IsSlug(s)
  {
  }

  /** A trimmed cell never ends in white space, so its lower-cased text does not end in a newline. */
  lemma TrimmedSlugPattern(orig: seq<RawRow>, r: Row)
    requires r in TrimTable(orig) && r.slug.Some?
    ensures MatchesSlugPattern(Lower(r.slug.value)) <==> IsSlug(Lower(r.slug.value))
  {
    var k :| 0 <= k < |orig| && TrimTable(orig)[k] == r;
    assert r.slug == TrimText(orig[k].slug);
    TrimmedText(orig[k].slug);
    SlugPatternWithoutNewline(Lower(r.slug.value));
  }

  lemma TrimmedText(s: string)
    requires TrimText(s).Some?
    ensures var t := Lower(TrimText(s).value); t[|t| - 1] != '\n'
  {
    var t := TrimText(s).value;
    assert t == Strip(s) && t != [];
    assert !IsSpace(t[|t| - 1]);
    assert Lower(t)[|t| - 1] == LowerChar(t[|t| - 1]);
  }

  /** The pattern also lets through one trailing newline. */
  lemma SlugPatternTrailingNewline()
    ensures MatchesSlugPattern("ab\n") && !MatchesSlugPattern("\n") && !MatchesSlugPattern("a-b")
  {
    assert SlugPrefix("ab\n") == 2 by {
      assert "ab\n"[1..] == "b\n" && "b\n"[1..] == "\n";
    }
    assert SlugPrefix("a-b") == 1 by {
      assert "a-b"[1..] == "-b";
    }
  }

  /** build_web_slug: validate the slug and turn its underscores into hyphens. */
  function BuildWebSlug(id: string, slug: string): (r: Result<string, Error>)
    ensures r.Success? <==> MatchesSlugPattern(slug)
    ensures r.Failure? ==> r.error == BadSlug(id, slug)
    ensures r.Success? ==> r.value == ReplaceChar(slug, '_', '-')
    ensures r.Success? ==> |r.value| == |slug| && '_' !in r.value
  {
    if !MatchesSlugPattern(slug) then Failure(BadSlug(id, slug))
    else
      var w := ReplaceChar(slug, '_', '-');
      assert '_' !in w by {
        forall i | 0 <= i < |w| ensures w[i] != '_' { }
      }
      Success(w)
  }

  /** Distinct slugs that pass the check give distinct web slugs. */
  lemma WebSlugInjective(id1: string, s1: string, id2: string, s2: string)
    requires BuildWebSlug(id1, s1).Success? && BuildWebSlug(id2, s2).Success?
    requires BuildWebSlug(id1, s1).value == BuildWebSlug(id2, s2).value
    ensures s1 == s2
  {
    NoHyphen(s1);
    NoHyphen(s2);
    ReplaceCharInverse(s1, '_', '-');
    ReplaceCharInverse(s2, '_', '-');
  }

  /** Whatever the slug pattern accepts is made of slug characters and perhaps one newline. */
  lemma SlugPatternChars(s: string)
    requires MatchesSlugPattern(s)
    ensures forall i :: 0 <= i < |s| ==> SlugChar(s[i]) || s[i] == '\n'
  {
    var n := SlugPrefix(s);
    forall i | 0 <= i < |s| ensures SlugChar(s[i]) || s[i] == '\n' {
      if i < n { assert SlugChar(s[i]); }
    }
  }

  lemma NoHyphen(s: string)
    requires MatchesSlugPattern(s)
    ensures '-' !in s
  {
    SlugPatternChars(s);
  }

  /** The alias table: column name, then raw label, then attribute ("name") to value. */
  type NameMaps = map<string, map<string, Attributes>>
  type Attributes = map<string, string>

  /** `NAME_MAPS.get(col, {}).get(alias, {}).get('name', alias)`. */
  function GetName(nameMaps: NameMaps, col: string, alias: string): (r: string)
    ensures r != alias ==> col in nameMaps && alias in nameMaps[col] && "name" in nameMaps[col][alias]
  {
    var byLabel := if col in nameMaps then nameMaps[col] else map[];
    var attrs := if alias in byLabel then byLabel[alias] else map[];
    if "name" in attrs then attrs["name"] else alias
  }

  /** Each token stripped and looked up in the alias table. */
  function Names(nameMaps: NameMaps, col: string, tokens: seq<string>): (r: seq<string>)
    ensures |r| == |tokens| && forall k :: 0 <= k < |tokens| ==> r[k] == GetName(nameMaps, col, Strip(tokens[k]))
  {
    seq(|tokens|, k requires 0 <= k < |tokens| => GetName(nameMaps, col, Strip(tokens[k])))
  }

  /** A comma-list cell: split on commas, take the distinct raw tokens in ascending order,
      then strip each token and map it through the alias table. */
  function SplitItems(nameMaps: NameMaps, col: string, cell: Option<string>): (r: Option<seq<string>>)
    ensures r.None? <==> cell.None?
    ensures r.Some? ==> |r.value| == |set t | t in Split(cell.value, ',')|
    ensures r.Some? ==> forall t :: t in Split(cell.value, ',') ==> GetName(nameMaps, col, Strip(t)) in r.value
    ensures r.Some? ==> forall e :: e in r.value ==> exists t :: t in Split(cell.value, ',') && e == GetName(nameMaps, col, Strip(t))
  {
    if cell.None? then None
    else
      NamesOfDistinctTokens(nameMaps, col, Split(cell.value, ','));
      Some(Names(nameMaps, col, SortedDistinct(Split(cell.value, ','))))
  }

  lemma NamesOfDistinctTokens(nameMaps: NameMaps, col: string, raw: seq<string>)
    ensures var items := Names(nameMaps, col, SortedDistinct(raw));
      && |items| == |set t | t in raw|
      && (forall t :: t in raw ==> GetName(nameMaps, col, Strip(t)) in items)
      && (forall e :: e in items ==> exists t :: t in raw && e == GetName(nameMaps, col, Strip(t)))
  {
    DistinctTokensCount(raw);
    var tokens := SortedDistinct(raw);
    var items := Names(nameMaps, col, tokens);
    forall t | t in raw ensures GetName(nameMaps, col, Strip(t)) in items {
      var k :| 0 <= k < |tokens| && tokens[k] == t;
      assert items[k] == GetName(nameMaps, col, Strip(t));
    }
    forall e | e in items ensures exists t :: t in raw && e == GetName(nameMaps, col, Strip(t)) {
      var k :| 0 <= k < |items| && items[k] == e;
      assert tokens[k] in tokens;
    }
  }

  lemma DistinctTokensCount(raw: seq<string>)
    ensures |SortedDistinct(raw)| == |set t | t in raw|
  {
    var tokens := SortedDistinct(raw);
    StrictlySortedCard(tokens);
    assert (set t | t in tokens) == (set t | t in raw);
  }

  /** Tokens are made distinct before they are stripped, so one alias with and without a
      leading space yields two equal items. */
  lemma DedupBeforeStrip(nameMaps: NameMaps, col: string)
    requires col !in nameMaps
    ensures SplitItems(nameMaps, col, Some("a, a")) == Some(["a", "a"])
  {
    SplitExample();
    SortedExample();
    StripExample();
    assert Names(nameMaps, col, [" a", "a"]) == ["a", "a"];
  }

  lemma SplitExample()
    ensures Split("a, a", ',') == ["a", " a"]
  {
    assert FirstIndex("a, a", ',') == 1;
    assert "a, a"[..1] == "a" && "a, a"[2..] == " a";
    assert FirstIndex(" a", ',') == 2;
  }

  lemma SortedExample()
    ensures SortedDistinct(["a", " a"]) == [" a", "a"]
  {
    var sorted := [" a", "a"];
    assert LexLess(" a", "a");
    assert StrictlySorted(sorted);
    StrictlySortedUnique(SortedDistinct(["a", " a"]), sorted);
  }

  lemma StripExample()
    ensures Strip(" a") == "a" && Strip("a") == "a"
  {
    assert LeadingSpaces(" a") == 1 && TrailingSpaces(" a") == 0;
    assert LeadingSpaces("a") == 0 && TrailingSpaces("a") == 0;
  }

  /** parse_duration: an absent duration stays absent; any other text must parse. */
  function DurationField(id: string, d: Option<string>): (r: Result<Option<nat>, Error>)
    ensures d.None? ==> r == Success(None)
    ensures d.Some? && ParseDuration(d.value).Some? ==> r == Success(Some(ParseDuration(d.value).value))
    ensures d.Some? && ParseDuration(d.value).None? ==> r == Failure(BadDuration(id, d.value))
    ensures r.Success? && r.value.Some? ==> r.value.value < 86400
  {
    if d.None? then Success(None)
    else
      var p := ParseDuration(d.value);
      if p.None? then Failure(BadDuration(id, d.value)) else Success(Some(p.value))
  }

  /** parse_created. */
  function CreatedField(id: string, created: string): (r: Result<DateTime, Error>)
    ensures r.Success? <==> ParseCreated(created).Some?
    ensures r.Success? ==> r.value == ParseCreated(created).value
    ensures r.Failure? ==> r.error == BadCreated(id, created)
  {
    var p := ParseCreated(created);
    if p.None? then Failure(BadCreated(id, created)) else Success(p.value)
  }

  /** parse_lang: codes are looked up exactly; an absent code stays absent. */
  function LanguageField(langMap: map<string, string>, id: string, lang: Option<string>): (r: Result<Option<string>, Error>)
    ensures r.Failure? <==> lang.Some? && lang.value !in langMap
    ensures r.Failure? ==> r.error == UnknownLanguage(id, lang.value)
    ensures r.Success? ==> r.value == if lang.Some? then Some(langMap[lang.value]) else None
  {
    if lang.None? then Success(None)
    else if lang.value !in langMap then Failure(UnknownLanguage(id, lang.value))
    else Success(Some(langMap[lang.value]))
  }

  /** country_name: `countries` stands for the country-code database lookup. */
  function CountryField(countries: map<string, string>, id: string, code: Option<string>): (r: Result<Option<string>, Error>)
    ensures r.Failure? <==> code.Some? && code.value !in countries
    ensures r.Failure? ==> r.error == UnknownCountry(id, code.value)
    ensures r.Success? ==> r.value == if code.Some? then Some(countries[code.value]) else None
  {
    if code.None? then Success(None)
    else if code.value in countries then Success(Some(countries[code.value]))
    else Failure(UnknownCountry(id, code.value))
  }

  /** The five keyword columns of a cleaned row. */
  datatype Lists = Lists(
    events: Option<seq<string>>, people: Option<seq<string>>, sponsors: Option<seq<string>>,
    production: Option<seq<string>>, direction: Option<seq<string>>)
  {
    function Get(c: ListCol): Option<seq<string>>
    {
      match c
      case Events => events
      case People => people
      case Sponsors => sponsors
      case Production => production
      case Direction => direction
    }

    function Set(c: ListCol, v: Option<seq<string>>): (r: Lists)
      ensures r.Get(c) == v && forall d :: d != c ==> r.Get(d) == Get(d)
    {
      match c
      case Events => this.(events := v)
      case People => this.(people := v)
      case Sponsors => this.(sponsors := v)
      case Production => this.(production := v)
      case Direction => this.(direction := v)
    }
  }

  const NoLists := Lists(None, None, None, None, None)

  /** The keyword columns of one trimmed row after splitting. */
  function RowLists(nameMaps: NameMaps, r: Row): (l: Lists)
    ensures forall c :: l.Get(c) == SplitItems(nameMaps, ListColName(c), ListCell(r, c))
  {
    Lists(SplitItems(nameMaps, "events", r.events), SplitItems(nameMaps, "people", r.people),
          SplitItems(nameMaps, "sponsors", r.sponsors), SplitItems(nameMaps, "production", r.production),
          SplitItems(nameMaps, "direction", r.direction))
  }
}
