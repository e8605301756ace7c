/** The site generator: each video becomes a reStructuredText page, written under the
    content directory at a path chosen from its category and file slug. */
module Generate {
  import opened Wrappers
  import opened Text
  import opened Strptime
  import opened Table
  import opened Keywords
  import opened Process
  import opened Videos

  // ----- to_video_page -----

  /** The page text to_video_page renders: a title underlined with '#', the metadata fields,
      a blank line, then the description and a final newline. */
  function ToVideoPage(v: Video): string
  {
    var out := v.title + "\n" + Repeat('#', |v.title|) + "\n" + "\n" + ":slug: " + v.slugWeb
      + "\n" + ":date: " + FormatDate(v.created)
      + "\n" + ":tags: " + Join(";", v.tags)
      + "\n" + ":summary: " + v.summary;
    var out := if v.category.Some? then out + "\n" + ":category: " + v.category.value else out;
    var out := if v.authors.Some? then out + "\n" + ":authors: " + Join(";", v.authors.value) else out;
    out + "\n" + "\n" + v.description + "\n"
  }

  /** The lines before the description, one per heading line and metadata field. */
  function HeaderLines(v: Video): (lines: seq<string>)
    ensures |lines| >= 7
  {
    [v.title, Repeat('#', |v.title|), "", ":slug: " + v.slugWeb, ":date: " + FormatDate(v.created),
     ":tags: " + Join(";", v.tags), ":summary: " + v.summary]
    + (if v.category.Some? then [":category: " + v.category.value] else [])
    + (if v.authors.Some? then [":authors: " + Join(";", v.authors.value)] else [])
  }

  /** The page is its header lines joined by newlines, a blank line, and the description. */
  lemma PageLayout(v: Video)
    ensures ToVideoPage(v) == Join("\n", HeaderLines(v)) + "\n" + "\n" + v.description + "\n"
  {
    var base := [v.title, Repeat('#', |v.title|), "", ":slug: " + v.slugWeb, ":date: " + FormatDate(v.created),
                 ":tags: " + Join(";", v.tags), ":summary: " + v.summary];
    var head := v.title + "\n" + Repeat('#', |v.title|) + "\n" + "\n" + ":slug: " + v.slugWeb
      + "\n" + ":date: " + FormatDate(v.created)
      + "\n" + ":tags: " + Join(";", v.tags)
      + "\n" + ":summary: " + v.summary;
    HeadLayout(v.title, Repeat('#', |v.title|), v.slugWeb, FormatDate(v.created), Join(";", v.tags), v.summary);
    var category := if v.category.Some? then Some(":category: " + v.category.value) else None;
    var authors := if v.authors.Some? then Some(":authors: " + Join(";", v.authors.value)) else None;
    OptionalLines(base, head, category, authors);
    var lines := base + (if category.Some? then [category.value] else [])
                      + (if authors.Some? then [authors.value] else []);
    assert HeaderLines(v) == lines;
    var out := if category.Some? then head + "\n" + category.value else head;
    var out' := if authors.Some? then out + "\n" + authors.value else out;
    assert Join("\n", lines) == out';
    if v.category.Some? {
      assert out == head + "\n" + ":category: " + v.category.value;
    }
    if v.authors.Some? {
      assert out' == out + "\n" + ":authors: " + Join(";", v.authors.value);
    }
  }

  /** Optional lines after the fixed ones each go after one more separator. */
  lemma OptionalLines(base: seq<string>, head: string, category: Option<string>, authors: Option<string>)
    requires |base| >= 1 && Join("\n", base) == head
    ensures var lines := base + (if category.Some? then [category.value] else [])
                              + (if authors.Some? then [authors.value] else []);
      var out := if category.Some? then head + "\n" + category.value else head;
      Join("\n", lines) == if authors.Some? then out + "\n" + authors.value else out
  {
    var withCategory := base + (if category.Some? then [category.value] else []);
    if category.Some? {
      JoinSnoc(base, category.value);
    } else {
      assert withCategory == base;
    }
    if authors.Some? {
      JoinSnoc(withCategory, authors.value);
    } else {
      assert withCategory + [] == withCategory;
    }
  }

  /** The seven fixed header lines, joined, are the head of the page. */
  lemma HeadLayout(title: string, rule: string, slug: string, date: string, tags: string, summary: string)
    ensures Join("\n", [title, rule, "", ":slug: " + slug, ":date: " + date, ":tags: " + tags, ":summary: " + summary])
      == title + "\n" + rule + "\n" + "\n" + ":slug: " + slug + "\n" + ":date: " + date + "\n" + ":tags: " + tags
         + "\n" + ":summary: " + summary
  {
    var h2 := title + "\n" + rule;
    var h3 := h2 + "\n" + "\n" + ":slug: " + slug;
    var h4 := h3 + "\n" + ":date: " + date;
    var h5 := h4 + "\n" + ":tags: " + tags;
    JoinCons(title, [rule]);
    assert [title] + [rule] == [title, rule];
    JoinSnoc([title, rule], "");
    assert [title, rule] + [""] == [title, rule, ""];
    JoinSnoc([title, rule, ""], ":slug: " + slug);
    assert [title, rule, ""] + [":slug: " + slug] == [title, rule, "", ":slug: " + slug];
    assert Join("\n", [title, rule, "", ":slug: " + slug]) == h3;
    JoinSnoc([title, rule, "", ":slug: " + slug], ":date: " + date);
    assert [title, rule, "", ":slug: " + slug] + [":date: " + date]
      == [title, rule, "", ":slug: " + slug, ":date: " + date];
    assert Join("\n", [title, rule, "", ":slug: " + slug, ":date: " + date]) == h4;
    JoinSnoc([title, rule, "", ":slug: " + slug, ":date: " + date], ":tags: " + tags);
    assert [title, rule, "", ":slug: " + slug, ":date: " + date] + [":tags: " + tags]
      == [title, rule, "", ":slug: " + slug, ":date: " + date, ":tags: " + tags];
    assert Join("\n", [title, rule, "", ":slug: " + slug, ":date: " + date, ":tags: " + tags]) == h5;
    JoinSnoc([title, rule, "", ":slug: " + slug, ":date: " + date, ":tags: " + tags], ":summary: " + summary);
    assert [title, rule, "", ":slug: " + slug, ":date: " + date, ":tags: " + tags] + [":summary: " + summary]
      == [title, rule, "", ":slug: " + slug, ":date: " + date, ":tags: " + tags, ":summary: " + summary];
  }

  /** A line in front goes before a separator. */
  lemma JoinCons(x: string, xs: seq<string>)
    requires |xs| >= 1
    ensures Join("\n", [x] + xs) == x + "\n" + Join("\n", xs)
  {
    assert ([x] + xs)[1..] == xs;
  }

  /** One more line goes after a separator. */
  lemma {:induction false} JoinSnoc(xs: seq<string>, x: string)
    requires |xs| >= 1
    ensures Join("\n", xs + [x]) == Join("\n", xs) + "\n" + x
    decreases |xs|
  {
    if |xs| == 1 {
      assert (xs + [x])[1..] == [x];
    } else {
      assert (xs + [x])[1..] == xs[1..] + [x];
      JoinSnoc(xs[1..], x);
    }
  }

  /** Fields without newlines can be read back from the page line by line: its first lines are
      exactly the header lines. */
  lemma PageHeaderRoundTrip(v: Video)
    requires '\n' !in v.title && '\n' !in v.slugWeb && '\n' !in v.summary
    requires forall k :: 0 <= k < |v.tags| ==> '\n' !in v.tags[k]
    requires v.category.Some? ==> '\n' !in v.category.value
    requires v.authors.Some? ==> forall k :: 0 <= k < |v.authors.value| ==> '\n' !in v.authors.value[k]
    ensures var lines := Split(ToVideoPage(v), '\n');
      |lines| > |HeaderLines(v)| && lines[..|HeaderLines(v)|] == HeaderLines(v)
  {
    var h := HeaderLines(v);
    PageLayout(v);
    forall k | 0 <= k < |h| ensures '\n' !in h[k] {
      HeaderLineWithoutNewline(v, k);
    }
    SplitJoin(h, '\n');
    var rest := "\n" + v.description + "\n";
    assert ToVideoPage(v) == Join("\n", h) + ['\n'] + rest;
    SplitAround(Join("\n", h), rest, '\n');
    assert Split(ToVideoPage(v), '\n') == h + Split(rest, '\n');
  }

  lemma HeaderLineWithoutNewline(v: Video, k: nat)
    requires '\n' !in v.title && '\n' !in v.slugWeb && '\n' !in v.summary
    requires forall k :: 0 <= k < |v.tags| ==> '\n' !in v.tags[k]
    requires v.category.Some? ==> '\n' !in v.category.value
    requires v.authors.Some? ==> forall k :: 0 <= k < |v.authors.value| ==> '\n' !in v.authors.value[k]
    requires k < |HeaderLines(v)|
    ensures '\n' !in HeaderLines(v)[k]
  {
    var h := HeaderLines(v);
    if k == 1 {
      assert forall i :: 0 <= i < |h[1]| ==> h[1][i] == '#';
    } else if k == 4 {
      DigitsWithoutNewline(Pad4(v.created.year));
      DigitsWithoutNewline(Pad2(v.created.month));
      DigitsWithoutNewline(Pad2(v.created.day));
    } else if k == 5 {
      JoinWithoutNewline(";", v.tags);
    } else if k >= 7 && v.authors.Some? && (v.category.None? || k == 8) {
      JoinWithoutNewline(";", v.authors.value);
    }
  }

  lemma DigitsWithoutNewline(s: string)
    requires AllDigits(s)
    ensures '\n' !in s
  {
  }

  lemma {:induction false} JoinWithoutNewline(sep: string, xs: seq<string>)
    requires '\n' !in sep && forall k :: 0 <= k < |xs| ==> '\n' !in xs[k]
    ensures '\n' !in Join(sep, xs)
    decreases |xs|
  {
    if |xs| > 1 {
      JoinWithoutNewline(sep, xs[1..]);
      assert '\n' !in xs[0];
    }
  }

  // ----- the page path -----

  /** The file a video's page is written to, relative to the content/videos directory. */
  function PagePath(v: Video): string
  {
    if v.category.Some? then v.category.value + "/" + v.slugFs + ".rst" else v.slugFs + ".rst"
  }

  /** Categories and file slugs without '/' give every (category, slug) pair its own path. */
  lemma PagePathInjective(v1: Video, v2: Video)
    requires v1.category.Some? ==> '/' !in v1.category.value
    requires v2.category.Some? ==> '/' !in v2.category.value
    requires '/' !in v1.slugFs && '/' !in v2.slugFs
    requires PagePath(v1) == PagePath(v2)
    ensures v1.category == v2.category && v1.slugFs == v2.slugFs
  {
    var p := PagePath(v1);
    var n := |p| - 4;
    assert p[n..] == ".rst";
    if v1.category.Some? && v2.category.Some? {
      assert p == v1.category.value + "/" + (v1.slugFs + ".rst");
      assert p == v2.category.value + "/" + (v2.slugFs + ".rst");
      SlashSplit(v1.category.value, v1.slugFs + ".rst", v2.category.value, v2.slugFs + ".rst");
      assert v1.slugFs == (v1.slugFs + ".rst")[..|v1.slugFs|];
      assert v2.slugFs == (v2.slugFs + ".rst")[..|v2.slugFs|];
    } else if v1.category.None? && v2.category.None? {
      assert v1.slugFs == p[..n] == v2.slugFs;
    }
  }

  /** The first '/' separates the two parts of a path. */
  lemma SlashSplit(a1: string, b1: string, a2: string, b2: string)
    requires '/' !in a1 && '/' !in a2
    requires a1 + "/" + b1 == a2 + "/" + b2
    ensures a1 == a2 && b1 == b2
  {
    var p := a1 + "/" + b1;
    assert p[|a1|] == '/' && (a2 + "/" + b2)[|a2|] == '/';
    assert a1 == p[..|a1|] == a2;
    assert b1 == p[|a1| + 1..] == b2;
  }

  /** The categories set_category gives contain no '/'. */
  lemma CategoryWithoutSlash(year: int)
    ensures '/' !in SetCategory(year)
  {
  }

  /** The file slug of a cleaned row: its lower-cased slug, which passed the slug check. */
  lemma CleanSlugWithoutSlash(c: CleanRow)
    requires BuildWebSlug(c.id, c.slug).Success?
    ensures '/' !in c.slug
  {
    SlugPatternChars(c.slug);
  }

  // ----- the content directory -----

  /** The first component of a path: the entry os.listdir shows for it. */
  function TopEntry(p: string): (e: string)
    ensures '/' !in e
  {
    p[..FirstIndex(p, '/')]
  }

  /** The files the pages of `videos` leave behind, written one after the other: a later page
      written to the same path replaces an earlier one. */
  function SiteFiles(videos: seq<Video>): map<string, string>
    decreases |videos|
  {
    if videos == [] then map[]
    else
      var last := videos[|videos| - 1];
      SiteFiles(videos[..|videos| - 1])[PagePath(last) := ToVideoPage(last)]
  }

  /** The directory holds a file for exactly the paths of the videos. */
  lemma {:induction false} SiteFilesPaths(videos: seq<Video>)
    ensures SiteFiles(videos).Keys == set v | v in videos :: PagePath(v)
    decreases |videos|
  {
    if videos != [] {
      var init, last := videos[..|videos| - 1], videos[|videos| - 1];
      SiteFilesPaths(init);
      assert videos == init + [last];
      assert (set v | v in videos :: PagePath(v)) == (set v | v in init :: PagePath(v)) + {PagePath(last)};
    }
  }

  /** A video's file holds its own page unless a later video is written to the same path. */
  lemma {:induction false} SiteFilesLastWriter(videos: seq<Video>, i: nat)
    requires i < |videos|
    requires forall j :: i < j < |videos| ==> PagePath(videos[j]) != PagePath(videos[i])
    ensures PagePath(videos[i]) in SiteFiles(videos)
    ensures SiteFiles(videos)[PagePath(videos[i])] == ToVideoPage(videos[i])
    decreases |videos|
  {
    var init := videos[..|videos| - 1];
    if i < |videos| - 1 {
      assert init[i] == videos[i];
      SiteFilesLastWriter(init, i);
    }
  }

  /** The videos of a successful cleaning each land in their own file, holding their own page. */
  lemma CleanSheetPages(orig: seq<RawRow>, cfg: Config, countries: map<string, string>,
                        keywords: TagSources, summarize: string -> string, i: nat)
    requires CleanSheet(orig, cfg, countries).Success?
    requires i < |CleanSheet(orig, cfg, countries).value|
    ensures var vs := VideosOf(CleanSheet(orig, cfg, countries).value, keywords, summarize);
      PagePath(vs[i]) in SiteFiles(vs) && SiteFiles(vs)[PagePath(vs[i])] == ToVideoPage(vs[i])
  {
    var rows := CleanSheet(orig, cfg, countries).value;
    var vs := VideosOf(rows, keywords, summarize);
    CleanSheetRows(orig, cfg, countries);
    VideoSlugsDistinct(orig, cfg, countries, keywords, summarize);
    forall j | i < j < |vs| ensures PagePath(vs[j]) != PagePath(vs[i]) {
      CleanRowPathApart(orig, cfg, countries, rows, vs, i, j);
    }
    SiteFilesLastWriter(vs, i);
  }

  lemma CleanRowPathApart(orig: seq<RawRow>, cfg: Config, countries: map<string, string>,
                          rows: seq<CleanRow>, vs: seq<Video>, i: nat, j: nat)
    requires i < j < |rows| == |vs|
    requires BuildWebSlug(rows[i].id, rows[i].slug).Success? && BuildWebSlug(rows[j].id, rows[j].slug).Success?
    requires vs[i].slugFs == rows[i].slug && vs[j].slugFs == rows[j].slug
    requires vs[i].category == Some(SetCategory(rows[i].releaseYear)) && vs[j].category == Some(SetCategory(rows[j].releaseYear))
    requires vs[i].slugFs != vs[j].slugFs
    ensures PagePath(vs[j]) != PagePath(vs[i])
  {
    CleanSlugWithoutSlash(rows[i]);
    CleanSlugWithoutSlash(rows[j]);
    CategoryWithoutSlash(rows[i].releaseYear);
    CategoryWithoutSlash(rows[j].releaseYear);
    if PagePath(vs[j]) == PagePath(vs[i]) {
      PagePathInjective(vs[i], vs[j]);
    }
  }

  /** The content/videos directory, as a map from the path of each file under it to its text. */
  class ContentDir {
    var files: map<string, string>

    constructor (initial: map<string, string>)
      ensures files == initial
    {
      files := initial;
    }

    /** clean_content: every entry of the directory is removed, a sub-directory with all it holds. */
    method CleanContent()
      modifies this
      ensures files == map[]
    {
      while files != map[]
        decreases files.Keys
      {
        var p :| p in files;
        var entry := TopEntry(p);
        var rest := map q | q in files && TopEntry(q) != entry :: files[q];
        assert p !in rest && rest.Keys <= files.Keys;
        files := rest;
      }
    }

    /** build_site_content: the directory is emptied, then each video's page is written in turn. */
    method BuildSiteContent(videos: seq<Video>)
      modifies this
      ensures files == SiteFiles(videos)
    {
      CleanContent();
      for k := 0 to |videos|
        invariant files == SiteFiles(videos[..k])
      {
        var v := videos[k];
        var content := ToVideoPage(v);
        var path := PagePath(v);
        assert videos[..k + 1][..k] == videos[..k];
        files := files[path := content];
      }
      assert videos[..|videos|] == videos;
    }
  }
}
