/**
  The walk over the source directory in `BuildAllFiles` and the per-file
  `CreateDocFile` of pkg/cmds/build/build.go. The directory walk is a
  sequence of callback arguments; opening a source, parsing its
  frontmatter, converting its Markdown and copying a non-Markdown file are
  foreign steps whose outcomes each entry carries.
 */
module BuildWalk {
  import opened GoStrings
  import opened Nav
  import opened BuildPaths

  /**
    The configuration fields the build reads. `urlPath` is what
    `url.Parse(url)` yields: the URL's path, or `None` when parsing fails.
   */
  datatype Config = Config(
    name: string,
    description: string,
    url: string,
    urlPath: Option<string>,
    twitter: string,
    ordering: bool)

  /** Opening the file, parsing its frontmatter, then converting its Markdown (`None`: conversion fails). */
  datatype Source =
    | OpenFails
    | ParseFails
    | Parsed(matter: DocMatter, html: Option<string>)

  /**
    One call of the walk callback: the path, `info.Name()`, `info.IsDir()`,
    whether the walk handed in an error, whether copying the file into the
    output tree succeeds, what reading it as a page yields, and
    `info.ModTime()`.
   */
  datatype WalkEntry = WalkEntry(
    path: string,
    name: string,
    isDir: bool,
    walkErr: bool,
    copyOk: bool,
    source: Source,
    modTime: int)

  /** `DocFile` without its open file handle. */
  datatype DocFile = DocFile(
    path: string,
    outPath: string,
    inPath: string,
    matter: DocMatter,
    contents: string,
    modTime: int)

  /**
    The validator's error for a frontmatter without a title names the
    failing struct field; the file name only appears in the printed message.
   */
  const TitleField := "Title"

  datatype BuildError =
    | AssetsCopyFailed
    | CopyFailed(name: string)
    | OpenFailed
    | ParseFailed
    | InvalidFrontmatter(field: string)
    | ConvertFailed
    | CreateFailed(outPath: string)
    | TemplateFailed
    | SitemapWriteFailed
    | Several(errs: seq<BuildError>)

  /** `CreateDocFile`'s `(*DocFile, error)`: `nil, nil`, an error, or a file. */
  datatype Created = NotADoc | Failed(err: BuildError) | Doc(file: DocFile)

  /**
    Directories and names that `^.+\.(md)$` rejects are no page; a page
    needs a readable file, parseable frontmatter, a non-empty title (the
    `required` tag) and a successful conversion, in that order.
   */
  function CreateDocFile(conf: Config, srcDir: string, outDir: string, e: WalkEntry): (r: Created)
    ensures r.NotADoc? <==> e.isDir || !IsMarkdownName(e.name)
    ensures r.Doc? ==> e.source.Parsed? && r.file.matter == e.source.matter && r.file.matter.title != ""
    ensures r.Doc? ==> r.file.inPath == e.path && r.file.path == Route(r.file.outPath, outDir)
    ensures r.Doc? ==> && r.file.outPath == OutPath(conf.ordering, srcDir, outDir, e.path, e.source.matter)
                       && e.source.html.Some? && r.file.contents == e.source.html.value
                       && r.file.modTime == e.modTime
    ensures IsPage(e) ==> r.Doc?
    ensures !e.isDir && IsMarkdownName(e.name) ==>
      && (e.source.OpenFails? ==> r == Failed(OpenFailed))
      && (e.source.ParseFails? ==> r == Failed(ParseFailed))
      && (e.source.Parsed? && e.source.matter.title == "" ==> r == Failed(InvalidFrontmatter(TitleField)))
      && (e.source.Parsed? && e.source.matter.title != "" && e.source.html.None? ==> r == Failed(ConvertFailed))
  {
    if e.isDir || !IsMarkdownName(e.name) then NotADoc
    else match e.source
      case OpenFails => Failed(OpenFailed)
      case ParseFails => Failed(ParseFailed)
      case Parsed(matter, html) =>
        if matter.title == "" then Failed(InvalidFrontmatter(TitleField))
        else if html.None? then Failed(ConvertFailed)
        else
          var outPath := OutPath(conf.ordering, srcDir, outDir, e.path, matter);
          Doc(DocFile(Route(outPath, outDir), outPath, e.path, matter, html.value, e.modTime))
  }

  /** A Markdown file that opens, parses, has a title and converts. */
  predicate IsPage(e: WalkEntry) {
    && !e.isDir && IsMarkdownName(e.name)
    && e.source.Parsed? && e.source.matter.title != "" && e.source.html.Some?
  }

  /** An empty frontmatter title is rejected with the validator's error on the `Title` field. */
  lemma EmptyTitleRejected(conf: Config, srcDir: string, outDir: string, e: WalkEntry)
    requires !e.isDir && IsMarkdownName(e.name)
    requires e.source.Parsed? && e.source.matter.title == ""
    ensures CreateDocFile(conf, srcDir, outDir, e) == Failed(InvalidFrontmatter(TitleField))
  {
  }

  /** A page with an explicit frontmatter path is published under the output directory at that path. */
  lemma ExplicitPathDoc(conf: Config, srcDir: string, outDir: string, e: WalkEntry)
    requires IsPage(e) && e.source.matter.path != ""
    ensures CreateDocFile(conf, srcDir, outDir, e).Doc?
    ensures var f := CreateDocFile(conf, srcDir, outDir, e).file;
      f.outPath == outDir + "/" + e.source.matter.path && f.path == "/" + e.source.matter.path
  {
    ExplicitPathWins(conf.ordering, srcDir, outDir, e.path, e.source.matter);
  }

  /**
    Without ordering or an explicit path, a page `srcDir + rel` is written
    to `outDir + rel'` and routed to `rel'`, `rel'` being `rel` with its
    first `.md` turned into `.html`.
   */
  lemma MirroredDoc(conf: Config, srcDir: string, outDir: string, rel: string, e: WalkEntry)
    requires IsPage(e)
    requires !conf.ordering && e.source.matter.path == "" && e.path == srcDir + rel
    requires forall i: nat :: i < |outDir| ==> !OccursAt(outDir + rel, ".md", i)
    ensures CreateDocFile(conf, srcDir, outDir, e).Doc?
    ensures var f := CreateDocFile(conf, srcDir, outDir, e).file;
      f.outPath == outDir + ReplaceFirst(rel, ".md", ".html") && f.path == ReplaceFirst(rel, ".md", ".html")
  {
    MirroredPath(srcDir, outDir, rel, e.source.matter);
  }

  /**
    With ordering on and no explicit path, a page's output path is the
    unordered one with every `/<digits>-` rewritten: no longer, and the
    same exactly when no such prefix occurs in it.
   */
  lemma OrderedDoc(conf: Config, srcDir: string, outDir: string, e: WalkEntry)
    requires IsPage(e) && conf.ordering && e.source.matter.path == ""
    ensures CreateDocFile(conf, srcDir, outDir, e).Doc?
    ensures var f := CreateDocFile(conf, srcDir, outDir, e).file;
      var plain := OutPath(false, srcDir, outDir, e.path, e.source.matter);
      && f.outPath == StripOrdering(plain)
      && |f.outPath| <= |plain|
      && (f.outPath == plain <==> NoOrderPrefix(plain))
  {
    OrderedPath(srcDir, outDir, e.path, e.source.matter);
  }

  /** What one callback does: go on, stop the walk with an error, or record a page. */
  datatype Step = Skip | Abort(err: BuildError) | Add(file: DocFile)

  /**
    The walk callback: an entry the walk reports an error for, and a
    directory, are passed over; a non-Markdown file is copied, and a
    failed copy stops the walk; then `CreateDocFile` decides.
   */
  function Visit(conf: Config, srcDir: string, outDir: string, e: WalkEntry): (r: Step)
    ensures e.walkErr || e.isDir ==> r.Skip?
    ensures r.Add? <==> !e.walkErr && CreateDocFile(conf, srcDir, outDir, e).Doc?
    ensures r.Add? ==> r.file == CreateDocFile(conf, srcDir, outDir, e).file
    ensures r.Abort? && !IsMarkdownName(e.name) ==> r.err == CopyFailed(e.name)
    ensures !e.walkErr && !e.isDir && !IsMarkdownName(e.name) && !e.copyOk ==> r == Abort(CopyFailed(e.name))
    ensures r.Abort? && IsMarkdownName(e.name) ==> r.err == CreateDocFile(conf, srcDir, outDir, e).err
    ensures r.Abort? <==> !e.walkErr && !e.isDir && ((!IsMarkdownName(e.name) && !e.copyOk) || CreateDocFile(conf, srcDir, outDir, e).Failed?)
    ensures !e.walkErr && !e.isDir && !IsMarkdownName(e.name) && e.copyOk ==> r.Skip?
  {
    if e.walkErr || e.isDir then Skip
    else if !IsMarkdownName(e.name) && !e.copyOk then Abort(CopyFailed(e.name))
    else match CreateDocFile(conf, srcDir, outDir, e)
      case NotADoc => Skip
      case Failed(err) => Abort(err)
      case Doc(file) => Add(file)
  }

  /** The result of `filepath.Walk` with that callback: the collected files, or the error that stopped it. */
  datatype WalkResult = Walked(files: seq<DocFile>) | Aborted(err: BuildError)

  /** The walk over `entries`, in order: the first `Abort` stops it. */
  function Walk(conf: Config, srcDir: string, outDir: string, entries: seq<WalkEntry>): WalkResult
    decreases |entries|
  {
    if entries == [] then Walked([])
    else match Walk(conf, srcDir, outDir, entries[..|entries| - 1])
      case Aborted(err) => Aborted(err)
      case Walked(files) =>
        match Visit(conf, srcDir, outDir, entries[|entries| - 1])
        case Skip => Walked(files)
        case Abort(err) => Aborted(err)
        case Add(file) => Walked(files + [file])
  }

  /** The pages the callback records, in discovery order, ignoring whether the walk stops. */
  function Added(conf: Config, srcDir: string, outDir: string, entries: seq<WalkEntry>): seq<DocFile>
    decreases |entries|
  {
    if entries == [] then []
    else
      var last := Visit(conf, srcDir, outDir, entries[|entries| - 1]);
      Added(conf, srcDir, outDir, entries[..|entries| - 1]) + (if last.Add? then [last.file] else [])
  }

  /** The navigation placement of each file: its section, title and route, in file order. */
  function Placements(files: seq<DocFile>): (r: seq<Placement>)
    ensures |r| == |files|
    ensures forall k :: 0 <= k < |files| ==>
      r[k] == Placement(files[k].matter.section, NavPage(files[k].matter.title, files[k].path))
  {
    seq(|files|, k requires 0 <= k < |files| =>
      Placement(files[k].matter.section, NavPage(files[k].matter.title, files[k].path)))
  }

  lemma PlacementsAppend(files: seq<DocFile>, f: DocFile)
    ensures Placements(files + [f]) == Placements(files) + [Placement(f.matter.section, NavPage(f.matter.title, f.path))]
  {
    var a := Placements(files + [f]);
    var b := Placements(files) + [Placement(f.matter.section, NavPage(f.matter.title, f.path))];
    forall k | 0 <= k < |a| ensures a[k] == b[k] {
      if k < |files| {
        assert (files + [f])[k] == files[k];
      }
    }
  }

  /**
    The walk stops exactly when some entry's callback fails, and then with
    the error of the first such entry.
   */
  lemma {:induction false} WalkAborts(conf: Config, srcDir: string, outDir: string, entries: seq<WalkEntry>)
    ensures Walk(conf, srcDir, outDir, entries).Aborted? <==>
      exists i :: 0 <= i < |entries| && Visit(conf, srcDir, outDir, entries[i]).Abort?
    ensures Walk(conf, srcDir, outDir, entries).Aborted? ==>
      exists i :: 0 <= i < |entries| && Visit(conf, srcDir, outDir, entries[i]) == Abort(Walk(conf, srcDir, outDir, entries).err) &&
        forall j :: 0 <= j < i ==> !Visit(conf, srcDir, outDir, entries[j]).Abort?
    decreases |entries|
  {
    if entries != [] {
      var n := |entries| - 1;
      var init := entries[..n];
      WalkAborts(conf, srcDir, outDir, init);
      assert forall j :: 0 <= j < n ==> init[j] == entries[j];
      if Walk(conf, srcDir, outDir, init).Aborted? {
        AbortedStep(conf, srcDir, outDir, entries);
        var i :| 0 <= i < n && Visit(conf, srcDir, outDir, init[i]) == Abort(Walk(conf, srcDir, outDir, init).err) &&
          forall j :: 0 <= j < i ==> !Visit(conf, srcDir, outDir, init[j]).Abort?;
        assert Visit(conf, srcDir, outDir, entries[i]) == Abort(Walk(conf, srcDir, outDir, entries).err);
      } else {
        WalkedStep(conf, srcDir, outDir, entries);
        if Visit(conf, srcDir, outDir, entries[n]).Abort? {
          assert forall j :: 0 <= j < n ==> !Visit(conf, srcDir, outDir, entries[j]).Abort?;
        } else {
          forall i | 0 <= i < |entries| ensures !Visit(conf, srcDir, outDir, entries[i]).Abort? {
            if i < n {
              assert init[i] == entries[i];
            }
          }
        }
      }
    }
  }

  /** After a walk that went through, one more entry stops it exactly when its callback fails. */
  lemma WalkedStep(conf: Config, srcDir: string, outDir: string, entries: seq<WalkEntry>)
    requires entries != [] && Walk(conf, srcDir, outDir, entries[..|entries| - 1]).Walked?
    ensures var v := Visit(conf, srcDir, outDir, entries[|entries| - 1]);
      && (Walk(conf, srcDir, outDir, entries).Aborted? <==> v.Abort?)
      && (v.Abort? ==> Walk(conf, srcDir, outDir, entries) == Aborted(v.err))
  {
  }

  /** A walk that runs to the end has collected exactly the recorded pages, in discovery order. */
  lemma {:induction false} WalkFiles(conf: Config, srcDir: string, outDir: string, entries: seq<WalkEntry>)
    ensures Walk(conf, srcDir, outDir, entries).Walked? ==>
      Walk(conf, srcDir, outDir, entries).files == Added(conf, srcDir, outDir, entries)
    decreases |entries|
  {
    if entries != [] {
      WalkFiles(conf, srcDir, outDir, entries[..|entries| - 1]);
    }
  }

  /** A stopped walk stays stopped whatever entries follow. */
  lemma {:induction false} AbortSticks(conf: Config, srcDir: string, outDir: string, entries: seq<WalkEntry>, n: nat)
    requires n <= |entries|
    requires Walk(conf, srcDir, outDir, entries[..n]).Aborted?
    ensures Walk(conf, srcDir, outDir, entries) == Walk(conf, srcDir, outDir, entries[..n])
    decreases |entries|
  {
    if n == |entries| {
      assert entries[..n] == entries;
    } else {
      var init := entries[..|entries| - 1];
      assert init[..n] == entries[..n];
      AbortSticks(conf, srcDir, outDir, init, n);
      AbortedStep(conf, srcDir, outDir, entries);
    }
  }

  lemma AbortedStep(conf: Config, srcDir: string, outDir: string, entries: seq<WalkEntry>)
    requires entries != [] && Walk(conf, srcDir, outDir, entries[..|entries| - 1]).Aborted?
    ensures Walk(conf, srcDir, outDir, entries) == Walk(conf, srcDir, outDir, entries[..|entries| - 1])
  {
  }

  /**
    A Markdown page with an empty title stops the walk with the
    frontmatter error when every earlier entry went through.
   */
  lemma EmptyTitleStopsWalk(conf: Config, srcDir: string, outDir: string, entries: seq<WalkEntry>, i: nat)
    requires i < |entries|
    requires Walk(conf, srcDir, outDir, entries[..i]).Walked?
    requires var e := entries[i];
      !e.walkErr && !e.isDir && IsMarkdownName(e.name) && e.source.Parsed? && e.source.matter.title == ""
    ensures Walk(conf, srcDir, outDir, entries) == Aborted(InvalidFrontmatter(TitleField))
  {
    assert entries[..i + 1][..i] == entries[..i];
    assert Walk(conf, srcDir, outDir, entries[..i + 1]) == Aborted(InvalidFrontmatter(TitleField));
    AbortSticks(conf, srcDir, outDir, entries, i + 1);
  }

  /**
    The callback loop: `files` and `navSections` are the closure's
    variables; each recorded page goes into the first section with its
    title (`AddToSection`) and is appended to `files`.
   */
  method CollectFiles(conf: Config, srcDir: string, outDir: string, entries: seq<WalkEntry>)
    returns (r: WalkResult, navSections: seq<NavSection>)
    ensures r == Walk(conf, srcDir, outDir, entries)
    ensures r.Walked? ==> navSections == GroupAll(Placements(r.files))
  {
    var files: seq<DocFile> := [];
    navSections := Seed();
    var i := 0;
    while i < |entries|
      invariant 0 <= i <= |entries|
      invariant Walk(conf, srcDir, outDir, entries[..i]) == Walked(files)
      invariant navSections == GroupAll(Placements(files))
    {
      assert entries[..i + 1][..i] == entries[..i];
      match Visit(conf, srcDir, outDir, entries[i]) {
        case Skip =>
        case Abort(err) =>
          AbortSticks(conf, srcDir, outDir, entries, i + 1);
          r := Aborted(err);
          return;
        case Add(file) =>
          var page := NavPage(file.matter.title, file.path);
          navSections := AddToSection(navSections, file.matter.section, page);
          PlacementsAppend(files, file);
          assert (Placements(files) + [Placement(file.matter.section, page)])[..|files|] == Placements(files);
          files := files + [file];
      }
      i := i + 1;
    }
    assert entries[..i] == entries;
    r := Walked(files);
  }

  /**
    After a complete walk the sections hold every collected page exactly
    once, grouped by section title in discovery order, under distinct
    titles, behind the seeded untitled section.
   */
  lemma WalkSections(conf: Config, srcDir: string, outDir: string, entries: seq<WalkEntry>)
    requires Walk(conf, srcDir, outDir, entries).Walked?
    ensures var files := Walk(conf, srcDir, outDir, entries).files;
      && files == Added(conf, srcDir, outDir, entries)
      && WellGrouped(Placements(files), GroupAll(Placements(files)))
      && TotalPages(GroupAll(Placements(files))) == |files|
  {
    WalkFiles(conf, srcDir, outDir, entries);
    GroupAllShape(Placements(Walk(conf, srcDir, outDir, entries).files));
  }
}
