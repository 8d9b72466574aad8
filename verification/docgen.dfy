/**
  The `build` action of the older single-file generator, cmd/docgen/main.go.
  It shares the page filter, the path computation without the ordering
  rewrite, and the section grouping with pkg/cmds/build/build.go, but a
  walk error stops the walk instead of being passed over, a stopped walk
  is only reported while the pages collected before it are still
  rendered, and rendering goes file by file and returns at the first
  failure.
 */
module Docgen {
  import opened GoStrings
  import opened Nav
  import opened BuildPaths
  import BuildWalk

  /** The configuration fields the action reads. */
  datatype Config = Config(name: string, description: string, url: string, twitter: string)

  /** One call of the walk callback: the path, `info.Name()`, `info.IsDir()`, whether the walk handed in an error, and what reading the file as a page yields. */
  datatype Entry = Entry(path: string, name: string, isDir: bool, walkErr: bool, source: BuildWalk.Source)

  /** `File` without its open file handle. */
  datatype File = File(path: string, outPath: string, inPath: string, matter: DocMatter, contents: string)

  datatype DocgenError =
    | TemplateUnavailable
    | AssetsCopyFailed
    | WalkFailed
    | OpenFailed
    | ParseFailed
    | InvalidFrontmatter(field: string)
    | ConvertFailed
    | CreateFailed(outPath: string)
    | TemplateFailed

  /** `dstPath`: an explicit frontmatter path under the output directory, else the mirrored source path. */
  function DstPath(srcDir: string, outDir: string, path: string, matter: DocMatter): string {
    if matter.path != "" then Join(outDir, matter.path)
    else ReplaceFirst(ReplaceFirst(path, srcDir, outDir), ".md", ".html")
  }

  /**
    The older variant computes the newer one's output path with the
    ordering option off; with an explicit frontmatter path the two agree
    whatever the option says. The route is the newer one's as well.
   */
  lemma DstPathUnordered(ordering: bool, srcDir: string, outDir: string, path: string, matter: DocMatter)
    ensures DstPath(srcDir, outDir, path, matter) == OutPath(false, srcDir, outDir, path, matter)
    ensures matter.path != "" ==> DstPath(srcDir, outDir, path, matter) == OutPath(ordering, srcDir, outDir, path, matter)
    ensures ReplaceFirst(DstPath(srcDir, outDir, path, matter), outDir, "") == Route(OutPath(false, srcDir, outDir, path, matter), outDir)
  {
  }

  /** Numbered file names keep their numbers here: nothing rewrites `/<digits>-`. */
  lemma NumbersKept(srcDir: string, outDir: string, rel: string, matter: DocMatter)
    requires matter.path == ""
    requires forall i: nat :: i < |outDir| ==> !OccursAt(outDir + rel, ".md", i)
    ensures DstPath(srcDir, outDir, srcDir + rel, matter) == outDir + ReplaceFirst(rel, ".md", ".html")
    ensures ReplaceFirst(DstPath(srcDir, outDir, srcDir + rel, matter), outDir, "") == ReplaceFirst(rel, ".md", ".html")
  {
    MirroredPath(srcDir, outDir, rel, matter);
  }

  datatype Step = Skip | Abort(err: DocgenError) | Add(file: File)

  /**
    The walk callback: an error handed in by the walk is returned and stops
    the walk; directories and names that `^.+\.(md)$` rejects are passed
    over; then opening, frontmatter parsing, the title check and conversion
    each stop the walk when they fail.
   */
  function Visit(srcDir: string, outDir: string, e: Entry): (r: Step)
    ensures e.walkErr ==> r == Abort(WalkFailed)
    ensures !e.walkErr && (e.isDir || !IsMarkdownName(e.name)) ==> r.Skip?
    ensures r.Add? ==> && e.source.Parsed? && r.file.matter == e.source.matter
                       && r.file.matter.title != "" && r.file.inPath == e.path
                       && r.file.path == ReplaceFirst(r.file.outPath, outDir, "")
    ensures !e.walkErr && !e.isDir && IsMarkdownName(e.name) ==>
      && (e.source.OpenFails? ==> r == Abort(OpenFailed))
      && (e.source.ParseFails? ==> r == Abort(ParseFailed))
      && (e.source.Parsed? && e.source.matter.title == "" ==> r == Abort(InvalidFrontmatter(BuildWalk.TitleField)))
      && (e.source.Parsed? && e.source.matter.title != "" && e.source.html.None? ==> r == Abort(ConvertFailed))
    ensures !e.walkErr && !e.isDir && IsMarkdownName(e.name) && e.source.Parsed? &&
            e.source.matter.title != "" && e.source.html.Some? ==>
      var dst := DstPath(srcDir, outDir, e.path, e.source.matter);
      r == Add(File(ReplaceFirst(dst, outDir, ""), dst, e.path, e.source.matter, e.source.html.value))
  {
    if e.walkErr then Abort(WalkFailed)
    else if e.isDir || !IsMarkdownName(e.name) then Skip
    else match e.source
      case OpenFails => Abort(OpenFailed)
      case ParseFails => Abort(ParseFailed)
      case Parsed(matter, html) =>
        if matter.title == "" then Abort(InvalidFrontmatter(BuildWalk.TitleField))
        else if html.None? then Abort(ConvertFailed)
        else
          var dstPath := DstPath(srcDir, outDir, e.path, matter);
          Add(File(ReplaceFirst(dstPath, outDir, ""), dstPath, e.path, matter, html.value))
  }

  /** What the walk leaves behind: the files collected so far, and the error that stopped it, if any. */
  datatype Collected = Collected(files: seq<File>, err: Option<DocgenError>)

  /** The walk over `entries`, in order; after the first error nothing more is collected. */
  function Walk(srcDir: string, outDir: string, entries: seq<Entry>): Collected
    decreases |entries|
  {
    if entries == [] then Collected([], None)
    else
      var c := Walk(srcDir, outDir, entries[..|entries| - 1]);
      if c.err.Some? then c
      else match Visit(srcDir, outDir, entries[|entries| - 1])
        case Skip => c
        case Abort(err) => Collected(c.files, Some(err))
        case Add(file) => Collected(c.files + [file], None)
  }

  /**
    The walk stops at the first entry whose callback fails, and the files
    it keeps are exactly the pages before that entry.
   */
  lemma WalkStopsAtFirstError(srcDir: string, outDir: string, entries: seq<Entry>, i: nat)
    requires i < |entries| && Visit(srcDir, outDir, entries[i]).Abort?
    requires forall j :: 0 <= j < i ==> !Visit(srcDir, outDir, entries[j]).Abort?
    ensures Walk(srcDir, outDir, entries) ==
      Collected(Walk(srcDir, outDir, entries[..i]).files, Some(Visit(srcDir, outDir, entries[i]).err))
  {
    var upTo := entries[..i + 1];
    assert upTo[..i] == entries[..i];
    assert upTo[i] == entries[i];
    NoErrorBefore(srcDir, outDir, entries[..i]);
    AbortStep(srcDir, outDir, upTo);
    ErrorSticks(srcDir, outDir, entries, i + 1);
  }

  /**
    A Markdown page with an empty title stops the walk with the
    frontmatter error when every earlier entry went through; the pages
    before it are kept.
   */
  lemma EmptyTitleStopsWalk(srcDir: string, outDir: string, entries: seq<Entry>, i: nat)
    requires i < |entries|
    requires Walk(srcDir, outDir, entries[..i]).err.None?
    requires var e := entries[i];
      !e.walkErr && !e.isDir && IsMarkdownName(e.name) && e.source.Parsed? && e.source.matter.title == ""
    ensures Walk(srcDir, outDir, entries) ==
      Collected(Walk(srcDir, outDir, entries[..i]).files, Some(InvalidFrontmatter(BuildWalk.TitleField)))
  {
    var upTo := entries[..i + 1];
    assert upTo[..i] == entries[..i];
    assert upTo[i] == entries[i];
    AbortStep(srcDir, outDir, upTo);
    ErrorSticks(srcDir, outDir, entries, i + 1);
  }

  lemma AbortStep(srcDir: string, outDir: string, entries: seq<Entry>)
    requires entries != [] && Walk(srcDir, outDir, entries[..|entries| - 1]).err.None?
    requires Visit(srcDir, outDir, entries[|entries| - 1]).Abort?
    ensures Walk(srcDir, outDir, entries) ==
      Collected(Walk(srcDir, outDir, entries[..|entries| - 1]).files, Some(Visit(srcDir, outDir, entries[|entries| - 1]).err))
  {
  }

  /** Without a failing callback the walk reports no error. */
  lemma {:induction false} NoErrorBefore(srcDir: string, outDir: string, entries: seq<Entry>)
    requires forall j :: 0 <= j < |entries| ==> !Visit(srcDir, outDir, entries[j]).Abort?
    ensures Walk(srcDir, outDir, entries).err.None?
    decreases |entries|
  {
    if entries != [] {
      var n := |entries| - 1;
      forall j | 0 <= j < n ensures !Visit(srcDir, outDir, entries[..n][j]).Abort? {
        assert entries[..n][j] == entries[j];
      }
      NoErrorBefore(srcDir, outDir, entries[..n]);
    }
  }

  function Placements(files: seq<File>): (r: seq<Placement>)
    ensures |r| == |files|
    ensures forall k :: 0 <= k < |files| ==>
      r[k] == Placement(files[k].matter.section, NavPage(files[k].matter.title, files[k].path))
  {
    seq(|files|, k requires 0 <= k < |files| =>
      Placement(files[k].matter.section, NavPage(files[k].matter.title, files[k].path)))
  }

  lemma PlacementsAppend(files: seq<File>, f: File)
    ensures Placements(files + [f]) == Placements(files) + [Placement(f.matter.section, NavPage(f.matter.title, f.path))]
  {
    var a := Placements(files + [f]);
    var b := Placements(files) + [Placement(f.matter.section, NavPage(f.matter.title, f.path))];
    forall k | 0 <= k < |a| ensures a[k] == b[k] {
      if k < |files| {
        assert (files + [f])[k] == files[k];
      }
    }
  }

  /**
    The walk closure: `files` and `navSections` grow as in the newer
    variant; the first error ends the walk but keeps what was collected.
   */
  method CollectFiles(srcDir: string, outDir: string, entries: seq<Entry>)
    returns (c: Collected, navSections: seq<NavSection>)
    ensures c == Walk(srcDir, outDir, entries)
    ensures navSections == GroupAll(Placements(c.files))
  {
    var files: seq<File> := [];
    navSections := Seed();
    var i := 0;
    while i < |entries|
      invariant 0 <= i <= |entries|
      invariant Walk(srcDir, outDir, entries[..i]) == Collected(files, None)
      invariant navSections == GroupAll(Placements(files))
    {
      assert entries[..i + 1][..i] == entries[..i];
      match Visit(srcDir, outDir, entries[i]) {
        case Skip =>
        case Abort(err) =>
          ErrorSticks(srcDir, outDir, entries, i + 1);
          c := Collected(files, Some(err));
          return;
        case Add(file) =>
          var page := NavPage(file.matter.title, file.path);
          navSections := AddToSection(navSections, file.matter.section, page);
          PlacementsAppend(files, file);
          assert (Placements(files) + [Placement(file.matter.section, page)])[..|files|] == Placements(files);
          files := files + [file];
      }
      i := i + 1;
    }
    assert entries[..i] == entries;
    c := Collected(files, None);
  }

  /** Once the walk has an error, later entries change nothing. */
  lemma {:induction false} ErrorSticks(srcDir: string, outDir: string, entries: seq<Entry>, n: nat)
    requires n <= |entries|
    requires Walk(srcDir, outDir, entries[..n]).err.Some?
    ensures Walk(srcDir, outDir, entries) == Walk(srcDir, outDir, entries[..n])
    decreases |entries|
  {
    if n == |entries| {
      assert entries[..n] == entries;
    } else {
      var init := entries[..|entries| - 1];
      assert init[..n] == entries[..n];
      ErrorSticks(srcDir, outDir, init, n);
      ErrorStep(srcDir, outDir, entries);
    }
  }

  lemma ErrorStep(srcDir: string, outDir: string, entries: seq<Entry>)
    requires entries != [] && Walk(srcDir, outDir, entries[..|entries| - 1]).err.Some?
    ensures Walk(srcDir, outDir, entries) == Walk(srcDir, outDir, entries[..|entries| - 1])
  {
  }

  /** The sections after the walk hold every collected page once, grouped as in the newer variant. */
  lemma CollectedSections(srcDir: string, outDir: string, entries: seq<Entry>)
    ensures var files := Walk(srcDir, outDir, entries).files;
      WellGrouped(Placements(files), GroupAll(Placements(files))) &&
      TotalPages(GroupAll(Placements(files))) == |files|
  {
    GroupAllShape(Placements(Walk(srcDir, outDir, entries).files));
  }

  /** The fields of the older `PageTemplateData`. */
  datatype PageData = PageData(
    markdown: string,
    name: string,
    title: string,
    description: string,
    url: string,
    path: string,
    twitter: string,
    navSections: seq<NavSection>)

  function PageOf(conf: Config, f: File, navSections: seq<NavSection>): (p: PageData)
    ensures p.markdown == f.contents && p.title == f.matter.title && p.path == f.path && p.navSections == navSections
  {
    PageData(f.contents, conf.name, f.matter.title, conf.description, conf.url, f.path, conf.twitter, navSections)
  }

  /** Rendering one file: creating the output file, then executing the template; `None` when both succeed. */
  function RenderError(conf: Config, f: File, navSections: seq<NavSection>,
                       canCreate: string -> bool, execute: PageData -> bool): (r: Option<DocgenError>)
    ensures r.None? <==> canCreate(f.outPath) && execute(PageOf(conf, f, navSections))
  {
    if !canCreate(f.outPath) then Some(CreateFailed(f.outPath))
    else if !execute(PageOf(conf, f, navSections)) then Some(TemplateFailed)
    else None
  }

  /** The first file, at or after `from`, whose rendering fails. */
  function FirstFailure(conf: Config, files: seq<File>, navSections: seq<NavSection>,
                        canCreate: string -> bool, execute: PageData -> bool, from: nat): (r: Option<nat>)
    requires from <= |files|
    decreases |files| - from
    ensures r.Some? ==> from <= r.value < |files| && RenderError(conf, files[r.value], navSections, canCreate, execute).Some?
    ensures r.Some? ==> forall j :: from <= j < r.value ==> RenderError(conf, files[j], navSections, canCreate, execute).None?
    ensures r.None? ==> forall j :: from <= j < |files| ==> RenderError(conf, files[j], navSections, canCreate, execute).None?
  {
    if from == |files| then None
    else if RenderError(conf, files[from], navSections, canCreate, execute).Some? then Some(from)
    else FirstFailure(conf, files, navSections, canCreate, execute, from + 1)
  }

  /** The output files after rendering the first `n` files: output path to page data. */
  function WrittenUpTo(conf: Config, files: seq<File>, navSections: seq<NavSection>, n: nat): map<string, PageData>
    requires n <= |files|
  {
    if n == 0 then map[]
    else WrittenUpTo(conf, files, navSections, n - 1)[files[n - 1].outPath := PageOf(conf, files[n - 1], navSections)]
  }

  /** Exactly the output paths of the first `n` files are written. */
  lemma {:induction false} WrittenPaths(conf: Config, files: seq<File>, navSections: seq<NavSection>, n: nat)
    requires n <= |files|
    ensures WrittenUpTo(conf, files, navSections, n).Keys == set i | 0 <= i < n :: files[i].outPath
  {
    if n > 0 {
      WrittenPaths(conf, files, navSections, n - 1);
    }
  }

  /**
    The render loop: files in order, returning at the first one whose
    output file cannot be created or whose template execution fails;
    later files are not written.
   */
  method RenderSequential(conf: Config, files: seq<File>, navSections: seq<NavSection>,
                          canCreate: string -> bool, execute: PageData -> bool)
    returns (written: map<string, PageData>, err: Option<DocgenError>)
    ensures var stop := FirstFailure(conf, files, navSections, canCreate, execute, 0);
      && written == WrittenUpTo(conf, files, navSections, if stop.Some? then stop.value else |files|)
      && err == (if stop.Some? then RenderError(conf, files[stop.value], navSections, canCreate, execute) else None)
  {
    written := map[];
    var i := 0;
    while i < |files|
      invariant 0 <= i <= |files|
      invariant FirstFailure(conf, files, navSections, canCreate, execute, 0) ==
        FirstFailure(conf, files, navSections, canCreate, execute, i)
      invariant written == WrittenUpTo(conf, files, navSections, i)
    {
      var page := PageOf(conf, files[i], navSections);
      if !canCreate(files[i].outPath) {
        return written, Some(CreateFailed(files[i].outPath));
      }
      if !execute(page) {
        return written, Some(TemplateFailed);
      }
      written := written[files[i].outPath := page];
      i := i + 1;
    }
    err := None;
  }

  /**
    The `build` action: reading and parsing the page template and copying
    the assets can each end it before the walk; a walk error is only
    reported, and the files collected before it are rendered with the
    sections built so far. The action's error is the render loop's.
   */
  method BuildAction(conf: Config, srcDir: string, outDir: string, templateOk: bool, assetsOk: bool,
                     entries: seq<Entry>, canCreate: string -> bool, execute: PageData -> bool)
    returns (written: map<string, PageData>, err: Option<DocgenError>)
    ensures !templateOk ==> written == map[] && err == Some(TemplateUnavailable)
    ensures templateOk && !assetsOk ==> written == map[] && err == Some(AssetsCopyFailed)
    ensures templateOk && assetsOk ==>
      var files := Walk(srcDir, outDir, entries).files;
      var sections := GroupAll(Placements(files));
      var stop := FirstFailure(conf, files, sections, canCreate, execute, 0);
      && written == WrittenUpTo(conf, files, sections, if stop.Some? then stop.value else |files|)
      && err == (if stop.Some? then RenderError(conf, files[stop.value], sections, canCreate, execute) else None)
  {
    if !templateOk {
      return map[], Some(TemplateUnavailable);
    }
    if !assetsOk {
      return map[], Some(AssetsCopyFailed);
    }
    var c, navSections := CollectFiles(srcDir, outDir, entries);
    written, err := RenderSequential(conf, c.files, navSections, canCreate, execute);
  }

  /**
    A walk stopped by a failing entry still has every page found before
    that entry rendered, when all of them render.
   */
  lemma PagesBeforeWalkErrorRendered(conf: Config, srcDir: string, outDir: string, entries: seq<Entry>, i: nat,
                                     canCreate: string -> bool, execute: PageData -> bool)
    requires i < |entries| && Visit(srcDir, outDir, entries[i]).Abort?
    requires forall j :: 0 <= j < i ==> !Visit(srcDir, outDir, entries[j]).Abort?
    requires var files := Walk(srcDir, outDir, entries).files;
      FirstFailure(conf, files, GroupAll(Placements(files)), canCreate, execute, 0).None?
    ensures var files := Walk(srcDir, outDir, entries).files;
      && files == Walk(srcDir, outDir, entries[..i]).files
      && WrittenUpTo(conf, files, GroupAll(Placements(files)), |files|).Keys == set k | 0 <= k < |files| :: files[k].outPath
  {
    WalkStopsAtFirstError(srcDir, outDir, entries, i);
    var files := Walk(srcDir, outDir, entries).files;
    WrittenPaths(conf, files, GroupAll(Placements(files)), |files|);
  }
}
