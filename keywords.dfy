/** Keyword extraction: the per-column item tables with their tag flags, the
    edit-distance report of near-duplicate items, and the tags a row draws
    from the tables. */
module Keywords {
  import opened Wrappers
  import opened Text
  import opened Table

  // ----- item tables -----

  /** `data[col].dropna().explode().str.strip()`: the items of every present list, stripped, in row order. */
  function Items(cells: seq<Option<seq<string>>>): (r: seq<string>)
    decreases |cells|
  {
    if cells == [] then []
    else
      var last := cells[|cells| - 1];
      Items(cells[..|cells| - 1]) + (if last.Some? then StripAll(last.value) else [])
  }

  function StripAll(xs: seq<string>): (r: seq<string>)
    ensures |r| == |xs| && forall k :: 0 <= k < |xs| ==> r[k] == Strip(xs[k])
  {
    seq(|xs|, k requires 0 <= k < |xs| => Strip(xs[k]))
  }

  /** A present list contributes each of its items, stripped. */
  lemma {:induction false} ItemsOfCell(cells: seq<Option<seq<string>>>, i: nat, x: string)
    requires i < |cells| && cells[i].Some? && x in cells[i].value
    ensures Strip(x) in Items(cells)
    decreases |cells|
  {
    var last := cells[|cells| - 1];
    if i == |cells| - 1 {
      var k :| 0 <= k < |last.value| && last.value[k] == x;
      assert StripAll(last.value)[k] == Strip(x);
    } else {
      assert cells[..|cells| - 1][i] == cells[i];
      ItemsOfCell(cells[..|cells| - 1], i, x);
    }
  }

  /** How often x occurs in xs. */
  function Count(xs: seq<string>, x: string): nat
    decreases |xs|
  {
    if xs == [] then 0 else Count(xs[..|xs| - 1], x) + (if xs[|xs| - 1] == x then 1 else 0)
  }

  lemma {:induction false} CountPositive(xs: seq<string>, x: string)
    ensures Count(xs, x) > 0 <==> x in xs
    decreases |xs|
  {
    if xs != [] {
      CountPositive(xs[..|xs| - 1], x);
      assert xs == xs[..|xs| - 1] + [xs[|xs| - 1]];
    }
  }

  /** value_counts: the number of occurrences of each distinct item. */
  function Tally(xs: seq<string>): (t: map<string, nat>)
    ensures forall y :: y in t <==> y in xs
    ensures forall y :: y in t ==> t[y] == Count(xs, y) && t[y] >= 1
    decreases |xs|
  {
    if xs == [] then map[]
    else
      var init, x := xs[..|xs| - 1], xs[|xs| - 1];
      var t := Tally(init);
      var r := t[x := (if x in t then t[x] else 0) + 1];
      assert xs == init + [x];
      assert forall y :: y in r ==> r[y] == Count(xs, y) by {
        forall y | y in r ensures r[y] == Count(xs, y) {
          if y !in t { CountPositive(init, y); }
        }
      }
      r
  }

  /** One row of the item table. */
  datatype Info = Info(count: nat, isTag: bool)

  type ItemTable = map<string, Info>

  /** item_table: the distinct items of one column, their counts, and whether an item occurs
      often enough to be a tag. */
  function BuildTable(cells: seq<Option<seq<string>>>, minCount: nat): (t: ItemTable)
    ensures forall y :: y in t <==> y in Items(cells)
    ensures forall y :: y in t ==> t[y].count == Count(Items(cells), y) && t[y].count >= 1
    ensures forall y :: y in t ==> (t[y].isTag <==> t[y].count >= minCount)
  {
    var counts := Tally(Items(cells));
    map y | y in counts :: Info(counts[y], counts[y] >= minCount)
  }

  /** The sum of the counts of the given keys. */
  function SumCounts(t: ItemTable, keys: seq<string>): nat
    requires forall k :: k in keys ==> k in t
    decreases |keys|
  {
    if keys == [] then 0 else SumCounts(t, keys[..|keys| - 1]) + t[keys[|keys| - 1]].count
  }

  /** Summing the counts of an item table over its keys, in any order, gives the number of items. */
  lemma CountsSumToItems(cells: seq<Option<seq<string>>>, minCount: nat, keys: seq<string>)
    requires Distinct(keys)
    requires forall k :: k in keys <==> k in BuildTable(cells, minCount)
    ensures SumCounts(BuildTable(cells, minCount), keys) == |Items(cells)|
  {
    var t := BuildTable(cells, minCount);
    var xs := Items(cells);
    SumOfCounts(xs, keys);
    SumCountsIsSumOfCounts(t, xs, keys);
  }

  /** The sum over keys of the occurrences of each key in xs. */
  function Occurrences(xs: seq<string>, keys: seq<string>): nat
    decreases |keys|
  {
    if keys == [] then 0 else Occurrences(xs, keys[..|keys| - 1]) + Count(xs, keys[|keys| - 1])
  }

  lemma {:induction false} SumCountsIsSumOfCounts(t: ItemTable, xs: seq<string>, keys: seq<string>)
    requires forall k :: k in keys ==> k in t && t[k].count == Count(xs, k)
    ensures SumCounts(t, keys) == Occurrences(xs, keys)
    decreases |keys|
  {
    if keys != [] {
      SumCountsIsSumOfCounts(t, xs, keys[..|keys| - 1]);
    }
  }

  lemma {:induction false} SumOfCounts(xs: seq<string>, keys: seq<string>)
    requires Distinct(keys)
    requires forall x :: x in xs ==> x in keys
    ensures Occurrences(xs, keys) == |xs|
    decreases |xs|
  {
    if xs != [] {
      var init, x := xs[..|xs| - 1], xs[|xs| - 1];
      assert forall y :: y in init ==> y in xs;
      SumOfCounts(init, keys);
      OccurrencesAppend(init, x, keys);
      assert xs == init + [x];
      assert x in xs;
      CountDistinct(keys, x);
    } else {
      NoOccurrences(keys);
    }
  }

  lemma {:induction false} NoOccurrences(keys: seq<string>)
    ensures Occurrences([], keys) == 0
    decreases |keys|
  {
    if keys != [] { NoOccurrences(keys[..|keys| - 1]); }
  }

  lemma {:induction false} OccurrencesAppend(xs: seq<string>, x: string, keys: seq<string>)
    ensures Occurrences(xs + [x], keys) == Occurrences(xs, keys) + Count(keys, x)
    decreases |keys|
  {
    if keys != [] {
      OccurrencesAppend(xs, x, keys[..|keys| - 1]);
      assert (xs + [x])[..|xs + [x]| - 1] == xs;
    }
  }

  lemma {:induction false} CountDistinct(keys: seq<string>, x: string)
    requires Distinct(keys) && x in keys
    ensures Count(keys, x) == 1
    decreases |keys|
  {
    var init := keys[..|keys| - 1];
    assert Distinct(init);
    if keys[|keys| - 1] == x {
      assert x !in init;
      CountPositive(init, x);
    } else {
      assert x in init by {
        var k :| 0 <= k < |keys| && keys[k] == x;
        assert init[k] == x;
      }
      CountDistinct(init, x);
    }
  }

  /** The item tables of all five list columns, in the pipeline's column order. */
  type TagSources = seq<(ListCol, ItemTable)>

  function ColumnCells(rows: seq<Lists>, c: ListCol): (cells: seq<Option<seq<string>>>)
    ensures |cells| == |rows| && forall i :: 0 <= i < |rows| ==> cells[i] == rows[i].Get(c)
  {
    seq(|rows|, i requires 0 <= i < |rows| => rows[i].Get(c))
  }

  function KeywordTables(rows: seq<Lists>, minCount: nat): (s: TagSources)
    ensures |s| == |ListCols|
    ensures forall k :: 0 <= k < |ListCols| ==> s[k] == (ListCols[k], BuildTable(ColumnCells(rows, ListCols[k]), minCount))
  {
    seq(|ListCols|, k requires 0 <= k < |ListCols| => (ListCols[k], BuildTable(ColumnCells(rows, ListCols[k]), minCount)))
  }

  /** extract_keywords: one item table per list column, collected in column order. */
  method ExtractKeywords(rows: seq<Lists>, minCount: nat) returns (out: TagSources)
    ensures out == KeywordTables(rows, minCount)
  {
    out := [];
    for k := 0 to |ListCols|
      invariant out == KeywordTables(rows, minCount)[..k]
    {
      var c := ListCols[k];
      out := out + [(c, BuildTable(ColumnCells(rows, c), minCount))];
    }
  }

  // ----- edit distance -----

  function Min3(a: nat, b: nat, c: nat): (m: nat)
    ensures m <= a && m <= b && m <= c && (m == a || m == b || m == c)
  {
    if a <= b && a <= c then a else if b <= c then b else c
  }

  /** The Levenshtein distance: the fewest single-character insertions, deletions and
      substitutions that turn a into b. */
  function Distance(a: string, b: string): nat
    decreases |a| + |b|
  {
    if a == [] then |b|
    else if b == [] then |a|
    else Min3(Distance(a[1..], b) + 1, Distance(a, b[1..]) + 1,
              Distance(a[1..], b[1..]) + (if a[0] == b[0] then 0 else 1))
  }

  lemma {:induction false} DistanceZero(a: string, b: string)
    ensures Distance(a, b) == 0 <==> a == b
    decreases |a| + |b|
  {
    if a != [] && b != [] {
      DistanceZero(a[1..], b[1..]);
      assert a == [a[0]] + a[1..] && b == [b[0]] + b[1..];
    }
  }

  lemma {:induction false} DistanceSymmetric(a: string, b: string)
    ensures Distance(a, b) == Distance(b, a)
    decreases |a| + |b|
  {
    if a != [] && b != [] {
      DistanceSymmetric(a[1..], b);
      DistanceSymmetric(a, b[1..]);
      DistanceSymmetric(a[1..], b[1..]);
    }
  }

  /** The distance lies between the difference of the lengths and the longer length. */
  lemma {:induction false} DistanceBounds(a: string, b: string)
    ensures Distance(a, b) <= if |a| >= |b| then |a| else |b|
    ensures Distance(a, b) >= if |a| >= |b| then |a| - |b| else |b| - |a|
    decreases |a| + |b|
  {
    if a != [] && b != [] {
      DistanceBounds(a[1..], b);
      DistanceBounds(a, b[1..]);
      DistanceBounds(a[1..], b[1..]);
    }
  }

  // ----- similar items -----

  /** One line of the similarity report: two items and their distance. */
  datatype Similar = Similar(first: string, second: string, distance: nat)

  function Score(items: seq<string>, i: nat, j: nat): Similar
    requires i < |items| && j < |items|
  {
    Similar(items[i], items[j], Distance(items[i], items[j]))
  }

  /** The scores of item i against every later item, in index order. */
  function ScoresOf(items: seq<string>, i: nat): (r: seq<Similar>)
    requires i < |items|
    ensures |r| == |items| - i - 1 && forall k :: 0 <= k < |r| ==> r[k] == Score(items, i, i + 1 + k)
  {
    seq(|items| - i - 1, k requires 0 <= k < |items| - i - 1 => Score(items, i, i + 1 + k))
  }

  /** The scores of every pair i < j with i from the given index on, ordered by i and then j. */
  function ScoresFrom(items: seq<string>, i: nat): (r: seq<Similar>)
    decreases |items| - i
  {
    if i >= |items| then [] else ScoresOf(items, i) + ScoresFrom(items, i + 1)
  }

  lemma {:induction false} ScoresFromMembership(items: seq<string>, i: nat, s: Similar)
    ensures s in ScoresFrom(items, i) <==> exists a, b :: i <= a < b < |items| && s == Score(items, a, b)
    decreases |items| - i
  {
    if i < |items| {
      var here := ScoresOf(items, i);
      var later := ScoresFrom(items, i + 1);
      assert ScoresFrom(items, i) == here + later;
      ScoresFromMembership(items, i + 1, s);
      if s in here {
        var k :| 0 <= k < |here| && here[k] == s;
        assert i <= i < i + 1 + k < |items| && s == Score(items, i, i + 1 + k);
      } else if s in later {
        var a, b :| i + 1 <= a < b < |items| && s == Score(items, a, b);
        assert i <= a < b < |items| && s == Score(items, a, b);
      }
      if exists a, b :: i <= a < b < |items| && s == Score(items, a, b) {
        var a, b :| i <= a < b < |items| && s == Score(items, a, b);
        if a == i {
          assert here[b - i - 1] == s;
        } else {
          assert i + 1 <= a < b < |items| && s == Score(items, a, b);
        }
      }
    }
  }

  function Scores(items: seq<string>): seq<Similar>
  {
    ScoresFrom(items, 0)
  }

  function WithinThreshold(xs: seq<Similar>, threshold: nat): (r: seq<Similar>)
    ensures forall s :: s in r <==> s in xs && s.distance <= threshold
    decreases |xs|
  {
    if xs == [] then []
    else (if xs[0].distance <= threshold then [xs[0]] else []) + WithinThreshold(xs[1..], threshold)
  }

  /** The entries of xs at distance d, in their order in xs. */
  function AtDistance(xs: seq<Similar>, d: nat): seq<Similar>
    decreases |xs|
  {
    if xs == [] then [] else (if xs[0].distance == d then [xs[0]] else []) + AtDistance(xs[1..], d)
  }

  predicate SortedByDistance(xs: seq<Similar>)
  {
    forall k, l :: 0 <= k < l < |xs| ==> xs[k].distance <= xs[l].distance
  }

  /** Puts x in front of the first entry that is not closer than x. */
  function InsertByDistance(x: Similar, s: seq<Similar>): (r: seq<Similar>)
    requires SortedByDistance(s)
    ensures SortedByDistance(r)
    ensures multiset(r) == multiset(s) + multiset{x}
    ensures forall d :: AtDistance(r, d) == (if x.distance == d then [x] else []) + AtDistance(s, d)
    decreases |s|
  {
    if s == [] || x.distance <= s[0].distance then
      var r := [x] + s;
      assert r[1..] == s;
      r
    else
      var t := InsertByDistance(x, s[1..]);
      InsertBehind(x, s, t);
      [s[0]] + t
  }

  lemma InsertBehind(x: Similar, s: seq<Similar>, t: seq<Similar>)
    requires SortedByDistance(s) && s != [] && x.distance > s[0].distance
    requires SortedByDistance(t)
    requires multiset(t) == multiset(s[1..]) + multiset{x}
    requires forall d :: AtDistance(t, d) == (if x.distance == d then [x] else []) + AtDistance(s[1..], d)
    ensures SortedByDistance([s[0]] + t)
    ensures multiset([s[0]] + t) == multiset(s) + multiset{x}
    ensures forall d :: AtDistance([s[0]] + t, d) == (if x.distance == d then [x] else []) + AtDistance(s, d)
  {
    InsertBehindSorted(x, s, t);
    assert s == [s[0]] + s[1..];
    forall d ensures AtDistance([s[0]] + t, d) == (if x.distance == d then [x] else []) + AtDistance(s, d) {
      InsertBehindAt(x, s, t, d);
    }
  }

  lemma InsertBehindSorted(x: Similar, s: seq<Similar>, t: seq<Similar>)
    requires SortedByDistance(s) && s != [] && x.distance > s[0].distance
    requires SortedByDistance(t)
    requires multiset(t) == multiset(s[1..]) + multiset{x}
    ensures SortedByDistance([s[0]] + t)
  {
    var r := [s[0]] + t;
    forall k | 0 < k < |r| ensures s[0].distance <= r[k].distance {
      assert r[k] == t[k - 1];
      assert r[k] in multiset(t);
      if r[k] != x {
        var j :| 0 <= j < |s[1..]| && s[1..][j] == r[k];
        assert s[j + 1] == r[k];
      }
    }
    forall k, l | 0 <= k < l < |r| ensures r[k].distance <= r[l].distance {
      if k > 0 {
        assert r[k] == t[k - 1] && r[l] == t[l - 1];
      }
    }
  }

  lemma InsertBehindAt(x: Similar, s: seq<Similar>, t: seq<Similar>, d: nat)
    requires s != [] && x.distance > s[0].distance
    requires AtDistance(t, d) == (if x.distance == d then [x] else []) + AtDistance(s[1..], d)
    ensures AtDistance([s[0]] + t, d) == (if x.distance == d then [x] else []) + AtDistance(s, d)
  {
    var r := [s[0]] + t;
    assert r[0] == s[0] && r[1..] == t;
    var front := if s[0].distance == d then [s[0]] else [];
    assert AtDistance(r, d) == front + AtDistance(t, d);
    assert AtDistance(s, d) == front + AtDistance(s[1..], d);
    if x.distance == d {
      assert front == [];
    } else {
      assert AtDistance(t, d) == AtDistance(s[1..], d);
    }
  }

  /** Python's sorted with a distance key: ordered by distance, and stable. */
  function SortByDistance(xs: seq<Similar>): (r: seq<Similar>)
    ensures SortedByDistance(r)
    ensures multiset(r) == multiset(xs)
    ensures forall d :: AtDistance(r, d) == AtDistance(xs, d)
    decreases |xs|
  {
    if xs == [] then []
    else
      assert xs == [xs[0]] + xs[1..];
      InsertByDistance(xs[0], SortByDistance(xs[1..]))
  }

  /** find_similar. */
  function FindSimilar(items: seq<string>, threshold: nat): seq<Similar>
  {
    SortByDistance(WithinThreshold(Scores(items), threshold))
  }

  /** The report holds exactly the pairs i < j within the threshold. */
  lemma FindSimilarMembership(items: seq<string>, threshold: nat, s: Similar)
    ensures s in FindSimilar(items, threshold) <==>
      s.distance <= threshold && exists i, j :: 0 <= i < j < |items| && s == Score(items, i, j)
  {
    var r := FindSimilar(items, threshold);
    assert s in r <==> s in multiset(r);
    ScoresFromMembership(items, 0, s);
  }

  /** The report is ordered by distance; entries at the same distance keep their (i, j) order. */
  lemma FindSimilarOrder(items: seq<string>, threshold: nat, d: nat)
    ensures SortedByDistance(FindSimilar(items, threshold))
    ensures AtDistance(FindSimilar(items, threshold), d) == if d <= threshold then AtDistance(Scores(items), d) else []
  {
    AtDistanceWithin(Scores(items), threshold, d);
  }

  lemma {:induction false} AtDistanceWithin(xs: seq<Similar>, threshold: nat, d: nat)
    ensures AtDistance(WithinThreshold(xs, threshold), d) == if d <= threshold then AtDistance(xs, d) else []
    decreases |xs|
  {
    if xs != [] {
      AtDistanceWithin(xs[1..], threshold, d);
      var head := if xs[0].distance <= threshold then [xs[0]] else [];
      AtDistanceAppend(head, WithinThreshold(xs[1..], threshold), d);
      if head != [] { assert head[1..] == []; }
    }
  }

  lemma {:induction false} AtDistanceAppend(a: seq<Similar>, b: seq<Similar>, d: nat)
    ensures AtDistance(a + b, d) == AtDistance(a, d) + AtDistance(b, d)
    decreases |a|
  {
    if a == [] {
      assert a + b == b;
    } else {
      assert (a + b)[1..] == a[1..] + b;
      AtDistanceAppend(a[1..], b, d);
    }
  }

  /** Among distinct items no entry pairs an item with itself, and every distance is positive. */
  lemma FindSimilarNoSelfPairs(items: seq<string>, threshold: nat, s: Similar)
    requires Distinct(items)
    requires s in FindSimilar(items, threshold)
    ensures s.first != s.second && s.distance >= 1
  {
    FindSimilarMembership(items, threshold, s);
    var i, j :| 0 <= i < j < |items| && s == Score(items, i, j);
    DistanceZero(items[i], items[j]);
  }

  // ----- tags -----

  /** `[elem for elem in items if info.get(elem, {}).get('is_tag', False)]`. */
  function TagsIn(elems: seq<string>, t: ItemTable): (r: seq<string>)
    ensures forall x :: x in r <==> x in elems && x in t && t[x].isTag
    decreases |elems|
  {
    if elems == [] then []
    else (if elems[0] in t && t[elems[0]].isTag then [elems[0]] else []) + TagsIn(elems[1..], t)
  }

  /** The tags one source contributes: nothing when the row's column is absent. */
  function SourceTags(lists: Lists, source: (ListCol, ItemTable)): seq<string>
  {
    var cell := lists.Get(source.0);
    if cell.None? then [] else TagsIn(cell.value, source.1)
  }

  /** The tags of a row: the tag items of each source's column, source by source. */
  function Tags(lists: Lists, sources: TagSources): seq<string>
    decreases |sources|
  {
    if sources == [] then []
    else Tags(lists, sources[..|sources| - 1]) + SourceTags(lists, sources[|sources| - 1])
  }

  predicate TagFrom(lists: Lists, source: (ListCol, ItemTable), x: string)
  {
    lists.Get(source.0).Some? && x in lists.Get(source.0).value && x in source.1 && source.1[x].isTag
  }

  lemma SourceTagsMembership(lists: Lists, source: (ListCol, ItemTable), x: string)
    ensures x in SourceTags(lists, source) <==> TagFrom(lists, source, x)
  {
  }

  lemma TagsMembership(lists: Lists, sources: TagSources, x: string)
    ensures x in Tags(lists, sources) <==> exists k :: 0 <= k < |sources| && TagFrom(lists, sources[k], x)
  {
    if x in Tags(lists, sources) {
      TagsSound(lists, sources, x);
    }
    if exists k :: 0 <= k < |sources| && TagFrom(lists, sources[k], x) {
      var k :| 0 <= k < |sources| && TagFrom(lists, sources[k], x);
      TagsComplete(lists, sources, k, x);
    }
  }

  lemma {:induction false} TagsSound(lists: Lists, sources: TagSources, x: string)
    requires x in Tags(lists, sources)
    ensures exists k :: 0 <= k < |sources| && TagFrom(lists, sources[k], x)
    decreases |sources|
  {
    var init, last := sources[..|sources| - 1], sources[|sources| - 1];
    if x in Tags(lists, init) {
      TagsSound(lists, init, x);
      var k :| 0 <= k < |init| && TagFrom(lists, init[k], x);
      assert init[k] == sources[k];
    } else {
      SourceTagsMembership(lists, last, x);
      assert TagFrom(lists, sources[|init|], x);
    }
  }

  lemma {:induction false} TagsComplete(lists: Lists, sources: TagSources, k: nat, x: string)
    requires k < |sources| && TagFrom(lists, sources[k], x)
    ensures x in Tags(lists, sources)
    decreases |sources|
  {
    var init, last := sources[..|sources| - 1], sources[|sources| - 1];
    if k < |init| {
      assert init[k] == sources[k];
      TagsComplete(lists, init, k, x);
    } else {
      SourceTagsMembership(lists, last, x);
    }
  }

  /** The tag loop of create_videos and create_articles. */
  method BuildTags(lists: Lists, sources: TagSources) returns (tags: seq<string>)
    ensures tags == Tags(lists, sources)
  {
    tags := [];
    for k := 0 to |sources|
      invariant tags == Tags(lists, sources[..k])
    {
      assert sources[..k + 1][..k] == sources[..k];
      var (c, info) := sources[k];
      if lists.Get(c).None? {
        continue;
      }
      tags := tags + TagsIn(lists.Get(c).value, info);
    }
    assert sources[..|sources|] == sources;
  }

  /** With the tables built from the rows themselves, x is a tag of a row exactly when the row
      lists x in some column and x occurs at least minCount times among that column's items. */
  lemma TagMeaning(rows: seq<Lists>, minCount: nat, row: Lists, x: string)
    ensures x in Tags(row, KeywordTables(rows, minCount)) <==>
      exists c :: row.Get(c).Some? && x in row.Get(c).value
             && x in Items(ColumnCells(rows, c)) && Count(Items(ColumnCells(rows, c)), x) >= minCount
  {
    var sources := KeywordTables(rows, minCount);
    TagsMembership(row, sources, x);
    forall c | row.Get(c).Some? && x in row.Get(c).value
               && x in Items(ColumnCells(rows, c)) && Count(Items(ColumnCells(rows, c)), x) >= minCount
      ensures exists k :: 0 <= k < |sources| && TagFrom(row, sources[k], x)
    {
      var k := ListIndex(c);
      assert TagFrom(row, sources[k], x);
    }
  }

  function ListIndex(c: ListCol): (k: nat)
    ensures k < |ListCols| && ListCols[k] == c
  {
    match c
    case Events => 0
    case People => 1
    case Sponsors => 2
    case Production => 3
    case Direction => 4
  }
}
