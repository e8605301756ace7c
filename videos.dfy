/** set_category and create_videos: the cleaned rows become the site's video records. */
module Videos {
  import opened Wrappers
  import opened Text
  import opened Strptime
  import opened Table
  import opened Keywords
  import opened Process

  // ----- set_category -----

  /** The five release periods, oldest first. */
  const Categories: seq<string> := ["x-1999", "2000-2004", "2005-2009", "2010-2014", "2015-x"]

  /** The position in Categories of the period a release year falls in: before 2000, one of the
      three five-year spans from 2000, or from 2015 on. */
  function Period(year: int): (k: nat)
    ensures k < |Categories|
    ensures k == 0 <==> year < 2000
    ensures k == |Categories| - 1 <==> year >= 2015
  {
    if year < 2000 then 0 else if year >= 2015 then 4 else (year - 2000) / 5 + 1
  }

  /** set_category. */
  function SetCategory(year: int): (name: string)
    ensures name == Categories[Period(year)]
  {
    if year < 2000 then "x-1999"
    else if year < 2005 then "2000-2004"
    else if year < 2010 then "2005-2009"
    else if year < 2015 then "2010-2014"
    else "2015-x"
  }

  /** A later release year never falls in an earlier period. */
  lemma PeriodMonotone(y1: int, y2: int)
    requires y1 <= y2
    ensures Period(y1) <= Period(y2)
  {
  }

  /** The period labels are distinct, so a label names one period. */
  lemma CategoriesDistinct()
    ensures Distinct(Categories)
  {
  }

  /** Between 2000 and 2014 the label spells out, with four-digit years, the five-year span
      that contains the year. */
  lemma CategorySpan(year: int)
    requires 2000 <= year < 2015
    ensures var lo := 2000 + (year - 2000) / 5 * 5;
      lo <= year <= lo + 4 && SetCategory(year) == Pad4(lo) + "-" + Pad4(lo + 4)
  {
    var lo := 2000 + (year - 2000) / 5 * 5;
    SpanText(lo);
  }

  lemma SpanText(lo: nat)
    requires lo in {2000, 2005, 2010}
    ensures Pad4(lo) + "-" + Pad4(lo + 4) == Categories[(lo - 2000) / 5 + 1]
  {
    var hi := lo + 4;
    assert Pad4(lo) == Pad2(20) + Pad2(lo % 100);
    assert Pad4(hi) == Pad2(20) + Pad2(hi % 100);
    assert Pad2(20) == "20";
    if lo == 2000 {
      assert Pad2(0) == "00" && Pad2(4) == "04";
    } else if lo == 2005 {
      assert Pad2(5) == "05" && Pad2(9) == "09";
    } else {
      assert Pad2(10) == "10" && Pad2(14) == "14";
    }
  }

  // ----- create_videos -----

  /** The record create_videos builds for one cleaned row. The five keyword columns stay
      together as a `Lists` value. */
  datatype Video = Video(
    id: string, title: string, slugWeb: string, slugFs: string, created: DateTime, releaseYear: int,
    category: Option<string>, duration: Option<nat>, lists: Lists, description: string, summary: string,
    freeAccess: bool, language: Option<string>, country: Option<string>,
    linkTrailer: Option<string>, linkStream: Option<string>, linkOfficial: Option<string>,
    authors: Option<seq<string>>, tags: seq<string>)

  /** The video record of one row; `summarize` stands for textwrap.shorten with the summary width. */
  function ToVideo(c: CleanRow, keywords: TagSources, summarize: string -> string): Video
  {
    Video(c.id, c.title, c.slugWeb, c.slug, c.created, c.releaseYear,
          Some(SetCategory(c.releaseYear)), c.duration, c.lists, c.description, summarize(c.description),
          c.freeAccess, c.language, c.country, c.linkTrailer, c.linkStream, c.linkOfficial,
          c.lists.direction, Tags(c.lists, keywords))
  }

  /** create_videos as a function: one record per row, in row order. */
  function VideosOf(data: seq<CleanRow>, keywords: TagSources, summarize: string -> string): (vs: seq<Video>)
    ensures |vs| == |data| && forall i :: 0 <= i < |data| ==> vs[i] == ToVideo(data[i], keywords, summarize)
  {
    seq(|data|, i requires 0 <= i < |data| => ToVideo(data[i], keywords, summarize))
  }

  /** create_videos: the loop over the rows, the tags of each built by the loop over the keyword tables. */
  method CreateVideos(data: seq<CleanRow>, keywords: TagSources, summarize: string -> string)
    returns (items: seq<Video>)
    ensures items == VideosOf(data, keywords, summarize)
  {
    items := [];
    for k := 0 to |data|
      invariant |items| == k
      invariant forall i :: 0 <= i < k ==> items[i] == ToVideo(data[i], keywords, summarize)
    {
      var row := data[k];
      var tags := BuildTags(row.lists, keywords);
      var item := Video(row.id, row.title, row.slugWeb, row.slug, row.created, row.releaseYear,
                        Some(SetCategory(row.releaseYear)), row.duration, row.lists, row.description,
                        summarize(row.description), row.freeAccess, row.language, row.country,
                        row.linkTrailer, row.linkStream, row.linkOfficial, row.lists.direction, tags);
      items := items + [item];
    }
  }

  /** A video's category is the period of its release year, and its authors are its direction credits. */
  lemma VideoCategoryAndAuthors(c: CleanRow, keywords: TagSources, summarize: string -> string)
    ensures var v := ToVideo(c, keywords, summarize);
      && v.category.Some? && v.category.value in Categories
      && (v.category.value == Categories[0] <==> c.releaseYear < 2000)
      && v.authors == c.lists.Get(Direction)
  {
  }

  /** With the keyword tables extract_keywords builds from the rows, x is a tag of a row's video
      exactly when the row lists x in some keyword column and x occurs at least minCount times
      in that column over all rows. */
  lemma VideoTags(rows: seq<CleanRow>, minCount: nat, c: CleanRow, summarize: string -> string, x: string)
    ensures var all := seq(|rows|, i requires 0 <= i < |rows| => rows[i].lists);
      x in ToVideo(c, KeywordTables(all, minCount), summarize).tags <==>
      exists col :: c.lists.Get(col).Some? && x in c.lists.Get(col).value
             && Count(Keywords.Items(ColumnCells(all, col)), x) >= minCount && x in Keywords.Items(ColumnCells(all, col))
  {
    var all := seq(|rows|, i requires 0 <= i < |rows| => rows[i].lists);
    TagMeaning(all, minCount, c.lists, x);
  }

  /** The videos of a successful cleaning keep its keys apart: no two share a web slug or a file slug. */
  lemma VideoSlugsDistinct(orig: seq<RawRow>, cfg: Config, countries: map<string, string>,
                           keywords: TagSources, summarize: string -> string)
    requires CleanSheet(orig, cfg, countries).Success?
    ensures var vs := VideosOf(CleanSheet(orig, cfg, countries).value, keywords, summarize);
      forall i, j :: 0 <= i < j < |vs| ==> vs[i].slugWeb != vs[j].slugWeb && vs[i].slugFs != vs[j].slugFs
  {
    CleanSheetKeysDistinct(orig, cfg, countries);
  }
}
