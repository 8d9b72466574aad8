# gocden / docgen build and serve core, in Dafny

This project models the deterministic core of the gocden static
documentation generator and of its older single-file predecessor, docgen:

- **GoStrings**: the Go string functions the core relies on.
  - `strings.Index` and `strings.Replace(s, old, new, 1)`: the leftmost occurrence is replaced, and an empty `old` matches at index 0.
  - `strings.Contains` and `strings.HasSuffix`.
- **Nav**: the navigation tree built during the directory walk.
  - It starts as one section titled `""` with no pages.
  - Each page is appended to the first section whose title equals the page's frontmatter `section`.
  - Failing that, a new section holding only the page is appended at the end.
  - `AddToSection` is the loop with its `found` flag.
  - `GroupAll` is the tree after a sequence of placements.
- **BuildPaths**: the output path and public route of a Markdown page in `CreateDocFile`.
  - `mdRegExp` (`^.+\.(md)$`) and `fileNameOrderRegExp` (`/(\d+)-`).
  - The explicit frontmatter path.
  - The mirrored path: the first source directory becomes the output directory, then the first `.md` becomes `.html`.
  - The optional ordering rewrite: every `/<digits>-` becomes `/`.
  - The route: the output path with its first occurrence of the output directory removed.
- **BuildWalk**: `CreateDocFile` and the walk callback of `BuildAllFiles`.
  - The walk is a sequence of entries. Each entry carries what the walk, the non-Markdown copy, opening, frontmatter parsing and Markdown conversion yield for it.
  - The first failing callback stops the walk with that error.
  - `CollectFiles` is the callback's loop over entries, accumulating `files` and `navSections`.
- **BuildRender**: the render and sitemap stages.
  - Prev/next neighbour selection and the page data of `BuildFile`.
  - The render of every file, collecting errors.
  - `BuildAllFiles`.
  - Sitemap assembly and `Build`.
- **Serve**: the static server.
  - The base path taken from the site URL, and the resolution of a request path to a file.
  - `RegexpHandler`, a class whose `routes` field `Handler`/`HandleFunc` extend and whose `ServeHTTP` hands a request to the first matching route.
- **Docgen**: the `build` action of `cmd/docgen/main.go`, the predecessor.
  - There is no ordering rewrite.
  - An error handed in by the walk is returned and stops the walk.
  - A stopped walk is only reported, and the pages collected before it are still rendered.
  - The render loop is sequential and returns at the first file that cannot be created or rendered.

Everything outside the program is a parameter of the model. This covers file contents, the outcome of every foreign step, regular-expression matching of a route pattern, and the current date:

- Frontmatter parsing and Markdown conversion are `Source` values.
- File creation is `canCreate: string -> bool`.
- Template execution is `execute: PageData -> bool`.
- `url.Parse(conf.Url)` is `Config.urlPath: Option<string>`.
- Route matching is `matches(pattern, path)`.
- The sitemap date is a `date` string.

`filepath.Join(a, b)` is taken to be `a + "/" + b`, without path cleaning.

`Build` formats `*navSections` after `BuildAllFiles` returns. On a stopped walk or a failed asset copy, `navSections` is nil. `BuildRender.Build` therefore requires a walk that ran to the end and an asset copy that succeeded.

The two base paths differ, and the model keeps both:

- The page data's `BasePath` is the URL path exactly as parsed.
- The server's `basePath` has one trailing `/` removed.

Some behaviour of the code that a reader might not expect, each proved as a lemma:

- **The ordering rewrite is not idempotent.** `/1-2-a` becomes `/2-a`, and rewriting again gives `/a` (`BuildPaths.StripOrderingNotIdempotent`).
- **The rewrite is not limited to the segments below the output root.**
  - It runs over the whole output path, including the output directory.
  - A numbered output directory such as `/1-out` is therefore rewritten as well.
  - The route then no longer loses its prefix (`BuildPaths.OrderingRewritesOutDir`, `BuildPaths.OutDirLost`).
- **The `.html` test looks at the whole request path, not its last segment.** `.html` is added only when no `.` occurs anywhere in the path, so a dot in a directory name keeps `.html` off an extension-less page (`Serve.DotInDirectory`).
- **Only the first `.md` is replaced, not the file's extension.** `.md` inside a directory name is rewritten instead. The replace runs over the whole joined path, so a `.md` in the output directory is the one rewritten: with output directory `a.md`, the source file `x.md` is written to `a.html/x.md` (`BuildPaths.MdInOutDir`). `BuildPaths.MdToHtml` states the first-occurrence behaviour. The mirroring lemmas assume that no `.md` starts inside the output directory.

## Model

| member | source | states |
|---|---|---|
| GoStrings.IndexFrom | pkg/cmds/build/build.go:313 | the result is an occurrence of the pattern at or after the start, with none between the start and it; no result means no occurrence at all |
| GoStrings.ReplaceFirst | pkg/cmds/build/build.go:313 | `strings.Replace(s, old, new, 1)`: without an occurrence the string is returned unchanged; with one, exactly one occurrence is exchanged, so the length changes by `|new| - |old|`; `ReplaceFirstLeftmost` states that it is the leftmost one |
| GoStrings.ReplaceFirstLeftmost | pkg/cmds/build/build.go:313 | a single replacement leaves a string without an occurrence unchanged, and otherwise replaces exactly the leftmost occurrence |
| GoStrings.ReplaceFirstAfter | pkg/cmds/build/build.go:313 | when no occurrence starts inside a prefix, replacing in `prefix + rest` keeps the prefix and replaces in `rest` |
| GoStrings.ReplaceFirstAtFront | pkg/cmds/build/build.go:320 | replacing a string's own prefix removes exactly that prefix |
| GoStrings.ReplaceFirstEmpty | pkg/cmds/serve/serve.go:65 | removing an empty pattern leaves the string unchanged |
| GoStrings.ContainsChar | pkg/cmds/serve/serve.go:71 | `strings.Contains(s, ".")` holds exactly when `.` is a character of `s` |
| GoStrings.ContainsIff | pkg/cmds/serve/serve.go:71 | `Contains` holds exactly when the pattern occurs at some index |
| Nav.FindSection | pkg/cmds/build/build.go:150-162 | the index found holds the title and no earlier section does; no index means no section holds the title |
| Nav.AddToSection | pkg/cmds/build/build.go:148-176 | the loop with the `found` flag computes exactly one grouping step |
| Nav.GroupedTitles | pkg/cmds/build/build.go:148-176 | a grouping step keeps titles distinct and in place, and appends the page's section title exactly when it was missing |
| Nav.GroupedPlacesPage | pkg/cmds/build/build.go:148-176 | the page is appended to the first section with its title and no other section changes; otherwise a single new section holding only the page is added at the end |
| Nav.GroupedTotal | pkg/cmds/build/build.go:148-176 | each step adds exactly one page to the total |
| Nav.GroupedFlatten | pkg/cmds/build/build.go:148-176 | each step adds exactly that page, once, to the multiset of all pages |
| Nav.FlattenLength | pkg/cmds/build/build.go:78-82 | the pages listed section by section number exactly the total page count |
| Nav.SectionOrder | pkg/cmds/build/build.go:148-176 | the section titles as first seen: `""` first, every placed section present, and no other title |
| Nav.StepOrder | pkg/cmds/build/build.go:148-176 | a grouping step extends the section titles exactly as the first-seen order does |
| Nav.StepWellGrouped | pkg/cmds/build/build.go:148-178 | one more placement keeps the tree well grouped, its titles still in first-seen order |
| Nav.GroupAllShape | pkg/cmds/build/build.go:121-178 | after any sequence of placements: the section titles are exactly `SectionOrder`, so the `""` section is first, then each placed section in the order it was first seen, with no other section; titles are distinct, every placed section is present, each section holds exactly its pages in placement order, the total is the number of placements, and every placed page appears exactly once |
| BuildPaths.DigitRunEnd | pkg/cmds/build/build.go:50 | the run of `\d` starting at a position ends at the first non-digit |
| BuildPaths.IsMarkdownName | pkg/cmds/build/build.go:49 | `mdRegExp` on a file name; specified by `MarkdownNameIff` |
| BuildPaths.MarkdownNameIff | pkg/cmds/build/build.go:49 | the names `^.+\.(md)$` accepts are exactly a non-empty stem without a newline followed by `.md` |
| BuildPaths.HeadMatchIff | pkg/cmds/build/build.go:50 | `/(\d+)-` matches at the head with length `n` exactly when those `n` characters are slash, one or more digits, dash |
| BuildPaths.StripOrdering | pkg/cmds/build/build.go:316 | `fileNameOrderRegExp.ReplaceAllString(dstPath, "/")`: never longer than its input, and empty only for an empty input; `StripOrderingShrinks`, `StripAfterPrefix`, `StripSlashFree` and `StripOrderingNotIdempotent` specify it |
| BuildPaths.StripOrderingShrinks | pkg/cmds/build/build.go:315-317 | the ordering rewrite never lengthens a path, and leaves it unchanged exactly when no `/<digits>-` occurs in it |
| BuildPaths.StripOrderingNotIdempotent | pkg/cmds/build/build.go:316 | `/1-2-a` rewrites to `/2-a`, and rewriting that again gives `/a` |
| BuildPaths.StripAfterPrefix | pkg/cmds/build/build.go:316 | a leading `/<digits>-` becomes `/` and the scan resumes right after the match |
| BuildPaths.StripSlashFree | pkg/cmds/build/build.go:316 | text without `/` is copied unchanged |
| BuildPaths.OrderedSegments | pkg/cmds/build/build.go:316 | a numbered directory and a numbered file name both lose their prefixes |
| BuildPaths.OutPath | pkg/cmds/build/build.go:308-318 | `dstPath`; specified by `ExplicitPathWins`, `MirroredPath`, `OrderedPath` and `OrderingRewritesOutDir` |
| BuildPaths.Route | pkg/cmds/build/build.go:320 | `finalPath`, the output path with its first occurrence of the output directory removed; specified by `ExplicitPathWins`, `MirroredPath` and `OutDirLost` |
| BuildPaths.ExplicitPathWins | pkg/cmds/build/build.go:310-320 | with a frontmatter path, the output path is `outDir/path` whatever the ordering option, and the route is `/path` |
| BuildPaths.MirroredPath | pkg/cmds/build/build.go:312-320 | without a frontmatter path or ordering, and when no `.md` starts inside the output directory, the output path is `outDir` followed by the relative source path with its first `.md` made `.html`, and the route is that relative part |
| BuildPaths.MdInOutDir | pkg/cmds/build/build.go:312-313 | when the output directory holds `.md` and no earlier dot, that `.md` is the one made `.html` and the page's own `.md` stays |
| BuildPaths.MdToHtml | pkg/cmds/build/build.go:313 | the first `.md` in the path, wherever it is, becomes `.html` |
| BuildPaths.OrderedPath | pkg/cmds/build/build.go:313-317 | with ordering, the output path is the rewrite of the unordered one; it is no longer, and equal exactly when no `/<digits>-` occurs |
| BuildPaths.OrderingRewritesOutDir | pkg/cmds/build/build.go:313-317 | a numbered prefix of the output directory itself is rewritten too |
| BuildPaths.OutDirLost | pkg/cmds/build/build.go:313-320 | for a numbered output directory, the rewritten output path no longer contains it, and the route keeps the directory's name |
| BuildWalk.CreateDocFile | pkg/cmds/build/build.go:275-332 | no page exactly for directories and non-Markdown names; a Markdown file that opens, parses, has a title and converts always becomes a page; failures to open, to parse, an empty title and a failed conversion give their errors; a page carries the frontmatter, its source path, the converted HTML, the modification time, `OutPath` under the ordering option as output path, and that path with the output directory removed as its route |
| BuildWalk.EmptyTitleRejected | pkg/cmds/build/build.go:296-298 | a Markdown file whose title is empty fails with the validator's error on the `Title` field; the file name goes only into the printed message |
| BuildWalk.ExplicitPathDoc | pkg/cmds/build/build.go:308-323 | a valid page with a frontmatter path becomes a page at `outDir/path` with route `/path` |
| BuildWalk.MirroredDoc | pkg/cmds/build/build.go:308-323 | a valid page without a frontmatter path or ordering, when no `.md` starts inside the output directory, becomes a page that mirrors its source path |
| BuildWalk.OrderedDoc | pkg/cmds/build/build.go:313-317 | with ordering on, a valid page's output path is the unordered one rewritten: no longer, and equal exactly when no `/<digits>-` occurs |
| BuildWalk.Visit | pkg/cmds/build/build.go:128-146 | entries the walk reports an error for, and directories, are skipped; a non-Markdown file that cannot be copied stops the walk with the copy error, and one that is copied is skipped; the walk stops exactly when the copy or `CreateDocFile` fails, and a Markdown file stops it with `CreateDocFile`'s error; a page is added exactly when `CreateDocFile` yields one |
| BuildWalk.Walk | pkg/cmds/build/build.go:128-183 | `filepath.Walk` with the callback; specified by `WalkAborts`, `WalkFiles`, `AbortSticks` and `CollectFiles` |
| BuildWalk.WalkAborts | pkg/cmds/build/build.go:128-183 | the walk stops exactly when some entry's callback fails, and then with the error of the first such entry |
| BuildWalk.WalkFiles | pkg/cmds/build/build.go:128-183 | a walk that runs to the end collects exactly the pages of the entries, in discovery order |
| BuildWalk.AbortSticks | pkg/cmds/build/build.go:128-183 | once stopped, later entries change nothing |
| BuildWalk.EmptyTitleStopsWalk | pkg/cmds/build/build.go:141-143 | a page with an empty title after a clean prefix stops the walk with the frontmatter error |
| BuildWalk.CollectFiles | pkg/cmds/build/build.go:120-183 | the callback loop computes the walk, and on success its sections are the grouping of the collected pages |
| BuildWalk.WalkSections | pkg/cmds/build/build.go:148-178 | after a successful walk the files are in discovery order, the tree is well grouped, and the total page count equals the number of files |
| BuildRender.Neighbours | pkg/cmds/build/build.go:219-236 | prev is the file before (the file itself at index 0); next is the file after (the file itself at the last index) |
| BuildRender.NeighboursChain | pkg/cmds/build/build.go:219-236 | for consecutive files, each is the other's next and prev |
| BuildRender.NeighboursSelf | pkg/cmds/build/build.go:219-236 | the first file is its own prev, the last its own next, and a single file is both |
| BuildRender.PageFor | pkg/cmds/build/build.go:238-266 | the page data carries the file's HTML, title and route, its neighbours' titles and routes, and the URL's path as `BasePath` (empty when it does not parse) |
| BuildRender.BuildFile | pkg/cmds/build/build.go:208-273 | a file is written exactly when it can be created and the template executes; it is written with its page data; a create failure names the output path |
| BuildRender.ErrorsEmpty | pkg/cmds/build/build.go:197-205 | no error is collected exactly when every file is written |
| BuildRender.ErrorsCount | pkg/cmds/build/build.go:197-199 | one error is collected per failed file |
| BuildRender.WritesPaths | pkg/cmds/build/build.go:213-216 | the output paths written are exactly those of the files whose render succeeds |
| BuildRender.WritesPage | pkg/cmds/build/build.go:247-270 | in the sequential render, a written file's output holds its own page data unless a later file shares its output path |
| BuildRender.RenderAll | pkg/cmds/build/build.go:187-205 | the render loop collects exactly the errors of the failed files (`Errors` of `Outcomes`, one `BuildFile` outcome per index) and writes exactly the pages of the others (`Writes`), as `ErrorsEmpty`, `ErrorsCount`, `WritesPaths` and `WritesPage` characterise |
| BuildRender.BuildAllFiles | pkg/cmds/build/build.go:106-206 | a failed asset copy, or a stopped walk, fails the call with that error; otherwise every collected file is rendered with the grouped sections |
| BuildRender.Sitemap | pkg/cmds/build/build.go:53-84 | the nested loop builds the start text, then one `<url>` block per page (`Blocks`: `loc` is the site URL followed by the href), section by section and page by page, then the end text |
| BuildRender.SitemapCount | pkg/cmds/build/build.go:76-84 | the number of blocks is the total page count |
| BuildRender.SitemapCoversFiles | pkg/cmds/build/build.go:76-84 | after a successful walk there is one block per collected file, every file's route has a block, and every block is some file's route |
| BuildRender.Build | pkg/cmds/build/build.go:65-104 | the sitemap text as above; a sitemap write failure is reported first, and otherwise the render errors, if any |
| BuildRender.BuildSucceeds | pkg/cmds/build/build.go:88-103 | the build succeeds exactly when the sitemap is written and every file renders |
| Serve.BasePath | pkg/cmds/serve/serve.go:51-58 | the URL's path with one trailing `/` removed, or empty when the URL does not parse |
| Serve.BasePathOneSlash | pkg/cmds/serve/serve.go:53-54 | only one slash is removed: a path ending in `//` keeps a trailing `/` |
| Serve.StripBase | pkg/cmds/serve/serve.go:65 | `filePath` before resolution; specified by `StripBaseCases` and `StripBaseInside` |
| Serve.StripBaseCases | pkg/cmds/serve/serve.go:65 | a request below the base path loses exactly that prefix; an empty base path changes nothing |
| Serve.StripBaseInside | pkg/cmds/serve/serve.go:62-65 | the base path is removed at its first occurrence even when that is not at the front |
| Serve.ResolveFile | pkg/cmds/serve/serve.go:69-73 | the resolved file is never empty and starts with the stripped path |
| Serve.ResolveFileSuffix | pkg/cmds/serve/serve.go:69-73 | `index.html` is added to an empty path or one ending in `/`, `.html` to any other path with no `.`, and nothing otherwise |
| Serve.ResolveFileIdempotent | pkg/cmds/serve/serve.go:69-73 | resolving a resolved path changes nothing |
| Serve.DotInDirectory | pkg/cmds/serve/serve.go:71-73 | a `.` in a directory name keeps `.html` from being added to an extension-less page |
| Serve.ServedFile | pkg/cmds/serve/serve.go:62-77 | the file served starts with the request path after the base path is removed |
| Serve.ServedUnderBase | pkg/cmds/serve/serve.go:62-77 | a request for `base + rest` is served from the file `rest` resolves to |
| Serve.FirstMatch | pkg/cmds/serve/serve.go:36-45 | the route chosen matches and no earlier one does; no route means none matches |
| Serve.FirstMatchUnique | pkg/cmds/serve/serve.go:36-45 | a matching route with no match before it is the one chosen |
| Serve.DispatchAfterRegister | pkg/cmds/serve/serve.go:28-45 | registering a route never redirects a request an earlier route matches; the new route takes only unmatched requests |
| Serve.RegexpHandler.constructor | pkg/cmds/serve/serve.go:60 | a new handler has no routes |
| Serve.RegexpHandler.Handler | pkg/cmds/serve/serve.go:28-30 | exactly one route, with the given handler, is appended at the end, and earlier routes are unchanged |
| Serve.RegexpHandler.HandleFunc | pkg/cmds/serve/serve.go:32-34 | exactly one route, wrapping the function, is appended at the end, and earlier routes are unchanged |
| Serve.RegexpHandler.ServeHTTP | pkg/cmds/serve/serve.go:36-45 | the request goes to the first route in registration order that matches, and is not found exactly when none matches |
| Serve.NewServer | pkg/cmds/serve/serve.go:51-64 | a fresh handler with the single route `basePath + ".*"` to the file server |
| Docgen.DstPathUnordered | cmd/docgen/main.go:325-333 | the predecessor's output path and route are the newer variant's with ordering off, and agree with it under either option when a frontmatter path is given |
| Docgen.DstPath | cmd/docgen/main.go:325-331 | `dstPath`; specified by `DstPathUnordered` and `NumbersKept` |
| Docgen.NumbersKept | cmd/docgen/main.go:325-333 | without a frontmatter path, and when no `.md` starts inside the output directory, the source path is mirrored with its first `.md` made `.html`, and numbered names are kept |
| Docgen.Visit | cmd/docgen/main.go:289-375 | a walk error stops the walk; directories and non-Markdown names are skipped; failures to open, to parse, an empty title and a failed conversion stop the walk with their errors; a valid page is added with `DstPath` as output path and that path with the output directory removed as route and href |
| Docgen.Walk | cmd/docgen/main.go:289-378 | `filepath.Walk` with the closure; specified by `WalkStopsAtFirstError`, `NoErrorBefore`, `ErrorSticks` and `CollectFiles` |
| Docgen.EmptyTitleStopsWalk | cmd/docgen/main.go:312-314 | a page with an empty title after a clean prefix stops the walk with the frontmatter error, keeping the pages before it |
| Docgen.WalkStopsAtFirstError | cmd/docgen/main.go:289-378 | the walk stops at the first failing entry with its error and keeps exactly the pages before it |
| Docgen.NoErrorBefore | cmd/docgen/main.go:289-378 | without a failing callback the walk reports no error |
| Docgen.ErrorSticks | cmd/docgen/main.go:289-378 | once stopped, later entries change nothing |
| Docgen.CollectFiles | cmd/docgen/main.go:281-378 | the closure's loop computes the walk, and its sections are the grouping of the pages collected, including those before a walk error |
| Docgen.CollectedSections | cmd/docgen/main.go:343-373 | the predecessor's tree is well grouped the same way, with one page per collected file |
| Docgen.RenderError | cmd/docgen/main.go:385-409 | rendering a file fails exactly when it cannot be created or the template does not execute |
| Docgen.FirstFailure | cmd/docgen/main.go:382-410 | finds the first file whose render fails, with every earlier one succeeding; no result means all succeed |
| Docgen.WrittenPaths | cmd/docgen/main.go:382-410 | the first `n` renders write exactly the output paths of the first `n` files |
| Docgen.RenderSequential | cmd/docgen/main.go:382-410 | files are written in order, each with its page data (`PageOf`: its HTML, title, route and all sections), up to the first failure, which is returned; later files are not written |
| Docgen.BuildAction | cmd/docgen/main.go:238-417 | a missing template or a failed asset copy fails before anything is written; otherwise the collected pages are rendered sequentially, even after a walk error |
| Docgen.PagesBeforeWalkErrorRendered | cmd/docgen/main.go:376-410 | after a walk error, the pages before the failing entry are still all written when their renders succeed |

## Left out

- File-system effects are not modelled as effects: removing and creating the output directory, `MkdirAll`, `os.Create`, and the copies of assets and non-Markdown files. Each is a boolean outcome, and writes are a map from output path to page data.
- Copy destinations of non-Markdown files are not modelled; only whether the copy succeeds.
- Goldmark conversion, frontmatter parsing, `html/template` execution and `url.Parse` are foreign code. Their outcomes are inputs.
- Regular-expression matching of a server route is a parameter. `fileNameOrderRegExp` and `mdRegExp` are modelled exactly.
- `filepath.Join` path cleaning: `Join` is plain `/`-concatenation.
- Validation through go-playground/validator is reduced to "the title is not empty". Config loading, the CLI, and `cmd/gocden/main.go` are not part of this model.
- `time.Now()` and date formatting: the sitemap date is one parameter for the whole sitemap. Modification times are integers copied into the page data.
- `http.ServeFile`, `http.ListenAndServe`, signal handling, the development watcher (`pkg/cmds/dev/dev.go`) and the debouncer are network, process and timing concerns.
- Closing of file handles, the spinner, logging and printed messages.
- The partial output a template leaves behind when its execution fails: a failed render writes nothing in the model.
- `Social` being nil: `conf.Social.Twitter` is a plain string in the configuration.
- BuildRender.RenderAll: the source renders each file in its own goroutine and appends to the error list without synchronisation. The model renders sequentially, in index order. The set of failed files is the same, but the order of the collected errors, and the race on the list, are not modelled.
- BuildRender.Build: it requires a walk that ran to the end and a successful asset copy. Otherwise the source dereferences nil sections and panics, which is not modelled.
- Serve.RegexpHandler.ServeHTTP: returns which handler serves the request instead of invoking it.
- BuildRender.WritesPage: "a later file wins" holds for the sequential render only. The source renders every file in its own goroutine, so two files with the same output path race on `os.Create` and template execution, and which page ends up in the file is not determined. That happens with equal frontmatter paths, or with ordering on (`01-intro.md` and `02-intro.md` both become `intro.html`).
- Go strings are byte sequences; the model uses sequences of characters. Lengths such as those in `BuildPaths.StripOrderingShrinks` count characters, which equal bytes only for ASCII paths.
