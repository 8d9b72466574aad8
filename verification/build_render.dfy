/**
  Rendering in pkg/cmds/build/build.go: the neighbour choice and page data
  of `BuildFile`, the render loop of `BuildAllFiles`, and the sitemap text
  and error reporting of `Build`. Creating an output file and executing the
  page template are foreign steps, given as predicates over the output
  path and over the page data.
 */
module BuildRender {
  import opened GoStrings
  import opened Nav
  import opened BuildWalk

  /**
    The `prev` and `next` of `files[idx]`: the first file is its own
    `prev`, the last is its own `next`, and a single file is both.
   */
  function Neighbours<T>(files: seq<T>, idx: nat): (r: (T, T))
    requires idx < |files|
    ensures r.0 == files[if idx == 0 then 0 else idx - 1]
    ensures r.1 == files[if idx + 1 < |files| then idx + 1 else idx]
  {
    if idx == 0 then (files[idx], if |files| > 1 then files[idx + 1] else files[idx])
    else if idx == |files| - 1 then (files[idx - 1], files[idx])
    else (files[idx - 1], files[idx + 1])
  }

  /** Consecutive files point at each other: the `next` of one is the file whose `prev` it is. */
  lemma NeighboursChain<T>(files: seq<T>, i: nat)
    requires 0 < i < |files|
    ensures Neighbours(files, i - 1).1 == files[i]
    ensures Neighbours(files, i).0 == files[i - 1]
  {
  }

  /** Only the ends point at themselves, and a lone file is its own `prev` and `next`. */
  lemma NeighboursSelf<T>(files: seq<T>, idx: nat)
    requires idx < |files|
    ensures Neighbours(files, idx).0 == files[idx] <== idx == 0
    ensures Neighbours(files, idx).1 == files[idx] <== idx == |files| - 1
    ensures |files| == 1 ==> Neighbours(files, idx) == (files[0], files[0])
  {
  }

  /** The fields of `PageTemplateData` that `BuildFile` fills in. */
  datatype PageData = PageData(
    markdown: string,
    name: string,
    title: string,
    description: string,
    url: string,
    path: string,
    twitter: string,
    navSections: seq<NavSection>,
    updatedAt: int,
    prev: NavPage,
    next: NavPage,
    basePath: string)

  function NavOf(f: DocFile): NavPage {
    NavPage(f.matter.title, f.path)
  }

  /**
    The page data of `files[idx]`: its own converted Markdown, title,
    route and modification time; the site's name, description, URL and
    Twitter handle; all sections; its neighbours; and the parsed URL's path
    as `basePath` (empty when the URL does not parse).
   */
  function PageFor(conf: Config, files: seq<DocFile>, navSections: seq<NavSection>, idx: nat): (p: PageData)
    requires idx < |files|
    ensures p.markdown == files[idx].contents && p.title == files[idx].matter.title && p.path == files[idx].path
    ensures p.prev == NavOf(files[if idx == 0 then 0 else idx - 1])
    ensures p.next == NavOf(files[if idx + 1 < |files| then idx + 1 else idx])
    ensures p.basePath == (if conf.urlPath.Some? then conf.urlPath.value else "")
  {
    var (prev, next) := Neighbours(files, idx);
    PageData(
      files[idx].contents, conf.name, files[idx].matter.title, conf.description, conf.url,
      files[idx].path, conf.twitter, navSections, files[idx].modTime,
      NavOf(prev), NavOf(next),
      match conf.urlPath case Some(p) => p case None => "")
  }

  /** Either the page data written to the output path, or the error `BuildFile` returns. */
  datatype FileOutcome = Written(page: PageData) | FileFailed(err: BuildError)

  /**
    `BuildFile`: creating the output file can fail, naming the path; then
    executing the template over the page data can fail.
   */
  function BuildFile(conf: Config, files: seq<DocFile>, navSections: seq<NavSection>, idx: nat,
                     canCreate: string -> bool, execute: PageData -> bool): (r: FileOutcome)
    requires idx < |files|
    ensures r.Written? <==> canCreate(files[idx].outPath) && execute(PageFor(conf, files, navSections, idx))
    ensures r.Written? ==> r.page == PageFor(conf, files, navSections, idx)
    ensures !canCreate(files[idx].outPath) ==> r == FileFailed(CreateFailed(files[idx].outPath))
  {
    if !canCreate(files[idx].outPath) then FileFailed(CreateFailed(files[idx].outPath))
    else
      var page := PageFor(conf, files, navSections, idx);
      if execute(page) then Written(page) else FileFailed(TemplateFailed)
  }

  /** `BuildFile`'s outcome for every index of `files`. */
  function Outcomes(conf: Config, files: seq<DocFile>, navSections: seq<NavSection>,
                    canCreate: string -> bool, execute: PageData -> bool): (r: seq<FileOutcome>)
    ensures |r| == |files|
    ensures forall i :: 0 <= i < |files| ==> r[i] == BuildFile(conf, files, navSections, i, canCreate, execute)
  {
    seq(|files|, i requires 0 <= i < |files| => BuildFile(conf, files, navSections, i, canCreate, execute))
  }

  /** The errors among `outs`, in index order. */
  function Errors(outs: seq<FileOutcome>): seq<BuildError> {
    if outs == [] then []
    else
      Errors(outs[..|outs| - 1]) +
      match outs[|outs| - 1]
      case FileFailed(err) => [err]
      case Written(_) => []
  }

  /** The output files after the outcomes `outs` of the first `|outs|` files: output path to the page data written there. */
  function Writes(files: seq<DocFile>, outs: seq<FileOutcome>): map<string, PageData>
    requires |outs| <= |files|
  {
    if outs == [] then map[]
    else
      var n := |outs| - 1;
      var m := Writes(files, outs[..n]);
      match outs[n]
      case Written(page) => m[files[n].outPath := page]
      case FileFailed(_) => m
  }

  /** No error is reported exactly when every file is written. */
  lemma {:induction false} ErrorsEmpty(outs: seq<FileOutcome>)
    ensures Errors(outs) == [] <==> forall i :: 0 <= i < |outs| ==> outs[i].Written?
  {
    if outs != [] {
      var n := |outs| - 1;
      ErrorsEmpty(outs[..n]);
      assert forall i :: 0 <= i < n ==> outs[..n][i] == outs[i];
    }
  }

  /** One error per failed file. */
  lemma {:induction false} ErrorsCount(outs: seq<FileOutcome>)
    ensures |Errors(outs)| == |set i | 0 <= i < |outs| && outs[i].FileFailed?|
  {
    if outs != [] {
      var n := |outs| - 1;
      ErrorsCount(outs[..n]);
      var before := set i | 0 <= i < n && outs[..n][i].FileFailed?;
      var all := set i | 0 <= i < |outs| && outs[i].FileFailed?;
      assert before == set i | 0 <= i < n && outs[i].FileFailed?;
      if outs[n].FileFailed? {
        assert all == before + {n};
      } else {
        assert all == before;
      }
    }
  }

  /** The output paths written are exactly those of the files whose `BuildFile` succeeds. */
  lemma {:induction false} WritesPaths(files: seq<DocFile>, outs: seq<FileOutcome>)
    requires |outs| <= |files|
    ensures Writes(files, outs).Keys == set i | 0 <= i < |outs| && outs[i].Written? :: files[i].outPath
  {
    if outs != [] {
      var n := |outs| - 1;
      WritesPaths(files, outs[..n]);
      assert forall i :: 0 <= i < n ==> outs[..n][i] == outs[i];
    }
  }

  /**
    A file written last to its output path, with no later file sharing
    that path, leaves its own page data there.
   */
  lemma {:induction false} WritesPage(files: seq<DocFile>, outs: seq<FileOutcome>, i: nat)
    requires i < |outs| <= |files| && outs[i].Written?
    requires forall j :: i < j < |outs| ==> files[j].outPath != files[i].outPath
    ensures files[i].outPath in Writes(files, outs) && Writes(files, outs)[files[i].outPath] == outs[i].page
  {
    var n := |outs| - 1;
    if i < n {
      assert outs[..n][i] == outs[i];
      WritesPage(files, outs[..n], i);
    }
  }

  /** One more outcome adds at most one error and at most one write. */
  lemma OutcomeStep(files: seq<DocFile>, outs: seq<FileOutcome>, idx: nat)
    requires idx < |outs| <= |files|
    ensures outs[idx].Written? ==> Errors(outs[..idx + 1]) == Errors(outs[..idx])
    ensures outs[idx].Written? ==> Writes(files, outs[..idx + 1]) == Writes(files, outs[..idx])[files[idx].outPath := outs[idx].page]
    ensures outs[idx].FileFailed? ==> Errors(outs[..idx + 1]) == Errors(outs[..idx]) + [outs[idx].err]
    ensures outs[idx].FileFailed? ==> Writes(files, outs[..idx + 1]) == Writes(files, outs[..idx])
  {
    assert outs[..idx + 1][..idx] == outs[..idx];
  }

  /**
    The render loop over `files`, one `BuildFile` per index (the source
    starts one goroutine each); failures are collected, not fatal.
   */
  method RenderAll(conf: Config, files: seq<DocFile>, navSections: seq<NavSection>,
                   canCreate: string -> bool, execute: PageData -> bool)
    returns (errs: seq<BuildError>, written: map<string, PageData>)
    ensures errs == Errors(Outcomes(conf, files, navSections, canCreate, execute))
    ensures written == Writes(files, Outcomes(conf, files, navSections, canCreate, execute))
  {
    ghost var outs := Outcomes(conf, files, navSections, canCreate, execute);
    errs := [];
    written := map[];
    var idx := 0;
    while idx < |files|
      invariant 0 <= idx <= |files|
      invariant errs == Errors(outs[..idx])
      invariant written == Writes(files, outs[..idx])
    {
      var o := BuildFile(conf, files, navSections, idx, canCreate, execute);
      OutcomeStep(files, outs, idx);
      match o {
        case Written(page) =>
          written := written[files[idx].outPath := page];
        case FileFailed(err) =>
          errs := errs + [err];
      }
      idx := idx + 1;
    }
    assert outs[..idx] == outs;
  }

  /** The outcome of `BuildAllFiles`: an error before any rendering, or the walk's results and the render errors. */
  datatype AllFiles =
    | BuildFailed(err: BuildError)
    | AllBuilt(files: seq<DocFile>, navSections: seq<NavSection>, errs: seq<BuildError>, written: map<string, PageData>)

  /**
    `BuildAllFiles`: copying the bundled assets can fail, and a stopped walk
    fails the whole call with no files and no sections; otherwise every
    collected file is rendered with all sections.
   */
  method BuildAllFiles(conf: Config, srcDir: string, outDir: string, assetsOk: bool, entries: seq<WalkEntry>,
                       canCreate: string -> bool, execute: PageData -> bool)
    returns (r: AllFiles)
    ensures !assetsOk ==> r == BuildFailed(AssetsCopyFailed)
    ensures assetsOk && Walk(conf, srcDir, outDir, entries).Aborted? ==>
      r == BuildFailed(Walk(conf, srcDir, outDir, entries).err)
    ensures assetsOk && Walk(conf, srcDir, outDir, entries).Walked? ==>
      var files := Walk(conf, srcDir, outDir, entries).files;
      var sections := GroupAll(Placements(files));
      r == AllBuilt(files, sections,
        Errors(Outcomes(conf, files, sections, canCreate, execute)),
        Writes(files, Outcomes(conf, files, sections, canCreate, execute)))
  {
    if !assetsOk {
      return BuildFailed(AssetsCopyFailed);
    }
    var walked, navSections := CollectFiles(conf, srcDir, outDir, entries);
    if walked.Aborted? {
      return BuildFailed(walked.err);
    }
    var errs, written := RenderAll(conf, walked.files, navSections, canCreate, execute);
    r := AllBuilt(walked.files, navSections, errs, written);
  }

  const SitemapStart: string :=
    "<?xml version=\"1.0\" encoding=\"UTF-8\"?>\n<urlset xmlns=\"http://www.sitemaps.org/schemas/sitemap/0.9\">"

  const SitemapEnd: string := "\n</urlset>"

  /** One `<url>` entry: the site URL followed by the page route, and the date. */
  function UrlBlock(url: string, href: string, date: string): string {
    "\n  <url>\n    <loc>" + url + href + "</loc>\n    <lastmod>" + date + "</lastmod>\n  </url>"
  }

  /** One `<url>` entry per page, in page order. */
  function Blocks(url: string, pages: seq<NavPage>, date: string): (r: seq<string>)
    ensures |r| == |pages|
    ensures forall k :: 0 <= k < |pages| ==> r[k] == UrlBlock(url, pages[k].href, date)
  {
    seq(|pages|, k requires 0 <= k < |pages| => UrlBlock(url, pages[k].href, date))
  }

  function Concat(parts: seq<string>): string {
    if parts == [] then "" else Concat(parts[..|parts| - 1]) + parts[|parts| - 1]
  }

  lemma BlocksSnoc(url: string, pages: seq<NavPage>, p: NavPage, date: string)
    ensures Concat(Blocks(url, pages + [p], date)) == Concat(Blocks(url, pages, date)) + UrlBlock(url, p.href, date)
  {
    var b := Blocks(url, pages + [p], date);
    assert b[..|pages|] == Blocks(url, pages, date);
  }

  lemma BlocksStep(url: string, before: seq<NavPage>, pages: seq<NavPage>, j: nat, date: string)
    requires j < |pages|
    ensures Concat(Blocks(url, before + pages[..j + 1], date))
      == Concat(Blocks(url, before + pages[..j], date)) + UrlBlock(url, pages[j].href, date)
  {
    assert before + pages[..j + 1] == before + pages[..j] + [pages[j]];
    BlocksSnoc(url, before + pages[..j], pages[j], date);
  }

  lemma FlattenStep(sections: seq<NavSection>, i: nat)
    requires i < |sections|
    ensures Flatten(sections[..i + 1]) == Flatten(sections[..i]) + sections[i].pages
  {
    assert sections[..i + 1][..i] == sections[..i];
  }

  /**
    The sitemap text of `Build`: the XML header, one `<url>` entry per page
    in section order and page order, then the closing tag. `date` stands
    for the formatted current day.
   */
  method Sitemap(url: string, navSections: seq<NavSection>, date: string) returns (sitemap: string)
    ensures sitemap == SitemapStart + Concat(Blocks(url, Flatten(navSections), date)) + SitemapEnd
  {
    sitemap := SitemapStart;
    ghost var body := "";
    var i := 0;
    while i < |navSections|
      invariant 0 <= i <= |navSections|
      invariant body == Concat(Blocks(url, Flatten(navSections[..i]), date))
      invariant sitemap == SitemapStart + body
    {
      var pages := navSections[i].pages;
      ghost var before := Flatten(navSections[..i]);
      var j := 0;
      assert before + pages[..j] == before;
      while j < |pages|
        invariant 0 <= j <= |pages|
        invariant body == Concat(Blocks(url, before + pages[..j], date))
        invariant sitemap == SitemapStart + body
      {
        BlocksStep(url, before, pages, j, date);
        ConcatAssoc(SitemapStart, body, UrlBlock(url, pages[j].href, date));
        sitemap := sitemap + UrlBlock(url, pages[j].href, date);
        body := body + UrlBlock(url, pages[j].href, date);
        j := j + 1;
      }
      FlattenStep(navSections, i);
      assert pages[..j] == pages;
      i := i + 1;
    }
    assert navSections[..i] == navSections;
    sitemap := sitemap + SitemapEnd;
  }

  /** The sitemap has one entry per page of the sections. */
  lemma SitemapCount(url: string, navSections: seq<NavSection>, date: string)
    ensures |Blocks(url, Flatten(navSections), date)| == TotalPages(navSections)
  {
    FlattenLength(navSections);
  }

  /**
    After a complete walk, the sitemap has one entry per collected file,
    and each file's route appears in an entry, behind the site URL.
   */
  lemma SitemapCoversFiles(conf: Config, srcDir: string, outDir: string, entries: seq<WalkEntry>, date: string)
    requires Walk(conf, srcDir, outDir, entries).Walked?
    ensures var files := Walk(conf, srcDir, outDir, entries).files;
      var blocks := Blocks(conf.url, Flatten(GroupAll(Placements(files))), date);
      && |blocks| == |files|
      && (forall k :: 0 <= k < |files| ==> UrlBlock(conf.url, files[k].path, date) in blocks)
      && (forall j :: 0 <= j < |blocks| ==>
            exists k :: 0 <= k < |files| && blocks[j] == UrlBlock(conf.url, files[k].path, date))
  {
    var files := Walk(conf, srcDir, outDir, entries).files;
    var sections := GroupAll(Placements(files));
    WalkSections(conf, srcDir, outDir, entries);
    FlattenLength(sections);
    BlocksOfFiles(conf.url, files, Flatten(sections), date);
  }

  /** Pages that are the files' pages, in any order, give one block per file's route and no other block. */
  lemma BlocksOfFiles(url: string, files: seq<DocFile>, pages: seq<NavPage>, date: string)
    requires multiset(pages) == multiset(PagesOf(Placements(files)))
    ensures var blocks := Blocks(url, pages, date);
      && (forall k :: 0 <= k < |files| ==> UrlBlock(url, files[k].path, date) in blocks)
      && (forall j :: 0 <= j < |blocks| ==>
            exists k :: 0 <= k < |files| && blocks[j] == UrlBlock(url, files[k].path, date))
  {
    forall k | 0 <= k < |files| ensures UrlBlock(url, files[k].path, date) in Blocks(url, pages, date) {
      FileHasBlock(url, files, pages, date, k);
    }
    forall j | 0 <= j < |pages|
      ensures exists k :: 0 <= k < |files| && Blocks(url, pages, date)[j] == UrlBlock(url, files[k].path, date)
    {
      BlockHasFile(url, files, pages, date, j);
    }
  }

  lemma FileHasBlock(url: string, files: seq<DocFile>, pages: seq<NavPage>, date: string, k: nat)
    requires multiset(pages) == multiset(PagesOf(Placements(files)))
    requires k < |files|
    ensures UrlBlock(url, files[k].path, date) in Blocks(url, pages, date)
  {
    var page := NavPage(files[k].matter.title, files[k].path);
    assert PagesOf(Placements(files))[k] == page;
    assert page in multiset(PagesOf(Placements(files)));
    var j :| 0 <= j < |pages| && pages[j] == page;
    assert Blocks(url, pages, date)[j] == UrlBlock(url, files[k].path, date);
  }

  lemma BlockHasFile(url: string, files: seq<DocFile>, pages: seq<NavPage>, date: string, j: nat)
    requires multiset(pages) == multiset(PagesOf(Placements(files)))
    requires j < |pages|
    ensures exists k :: 0 <= k < |files| && Blocks(url, pages, date)[j] == UrlBlock(url, files[k].path, date)
  {
    var placed := Placements(files);
    assert pages[j] in multiset(pages);
    var k :| 0 <= k < |placed| && PagesOf(placed)[k] == pages[j];
    assert PagesOf(placed)[k] == NavPage(files[k].matter.title, files[k].path);
  }

  /**
    `Build`, given that `BuildAllFiles` got past the asset copy and the walk
    (otherwise the source dereferences the nil section list it returns):
    the sitemap lists the sections' pages and is written even when pages
    failed; a failed sitemap write is the error returned, then the render
    errors, if any.
   */
  method Build(conf: Config, srcDir: string, outDir: string, assetsOk: bool, entries: seq<WalkEntry>,
               canCreate: string -> bool, execute: PageData -> bool, date: string, sitemapWritable: bool)
    returns (sitemap: string, err: Option<BuildError>)
    requires assetsOk && Walk(conf, srcDir, outDir, entries).Walked?
    ensures var files := Walk(conf, srcDir, outDir, entries).files;
      var sections := GroupAll(Placements(files));
      var errs := Errors(Outcomes(conf, files, sections, canCreate, execute));
      && sitemap == SitemapStart + Concat(Blocks(conf.url, Flatten(sections), date)) + SitemapEnd
      && err == (if !sitemapWritable then Some(SitemapWriteFailed)
                 else if errs == [] then None
                 else Some(Several(errs)))
  {
    var r := BuildAllFiles(conf, srcDir, outDir, assetsOk, entries, canCreate, execute);
    sitemap := Sitemap(conf.url, r.navSections, date);
    if !sitemapWritable {
      return sitemap, Some(SitemapWriteFailed);
    }
    err := if r.errs == [] then None else Some(Several(r.errs));
  }

  /** `Build` reports no error exactly when the sitemap is written and every page renders. */
  lemma BuildSucceeds(conf: Config, srcDir: string, outDir: string, entries: seq<WalkEntry>,
                      canCreate: string -> bool, execute: PageData -> bool, sitemapWritable: bool)
    requires Walk(conf, srcDir, outDir, entries).Walked?
    ensures var files := Walk(conf, srcDir, outDir, entries).files;
      var sections := GroupAll(Placements(files));
      var errs := Errors(Outcomes(conf, files, sections, canCreate, execute));
      (sitemapWritable && errs == []) <==>
        sitemapWritable && forall i :: 0 <= i < |files| ==> BuildFile(conf, files, sections, i, canCreate, execute).Written?
  {
    var files := Walk(conf, srcDir, outDir, entries).files;
    ErrorsEmpty(Outcomes(conf, files, GroupAll(Placements(files)), canCreate, execute));
  }
}
