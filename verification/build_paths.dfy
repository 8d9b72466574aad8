/**
  Output-path and route computation for one Markdown source in
  pkg/cmds/build/build.go: the `^.+\.(md)$` file-name filter, the
  `/(\d+)-` ordering-prefix rewrite, and the `dstPath` / `finalPath`
  expressions of `CreateDocFile`.
 */
module BuildPaths {
  import opened GoStrings

  /** The frontmatter fields of a page (`DocMatter`); `title` is the only required one. */
  datatype DocMatter = DocMatter(title: string, description: string, path: string, section: string)

  /** `filepath.Join(dir, name)`, taken as plain `/`-concatenation: no cleaning of `..`, `.` or doubled separators. */
  function Join(dir: string, name: string): string {
    dir + "/" + name
  }

  /**
    `mdRegExp` (`^.+\.(md)$`) matched against a file name: at least one
    character other than a newline (RE2's `.`), then `.md` at the very end.
   */
  predicate IsMarkdownName(name: string) {
    |name| >= 4 && name[|name| - 3..] == ".md" &&
    forall k :: 0 <= k < |name| - 3 ==> name[k] != '\n'
  }

  /**
    The names the filter accepts are exactly `stem + ".md"` for a non-empty
    stem without a newline: any such name passes, and every name that
    passes splits that way.
   */
  lemma MarkdownNameIff(name: string, stem: string)
    ensures stem != [] && '\n' !in stem ==> IsMarkdownName(stem + ".md")
    ensures IsMarkdownName(name) ==> var base := name[..|name| - 3];
      base != [] && '\n' !in base && name == base + ".md"
  {
    var n := stem + ".md";
    if stem != [] && '\n' !in stem {
      assert n[|n| - 3..] == ".md";
      forall k | 0 <= k < |n| - 3 ensures n[k] != '\n' {
        assert n[k] == stem[k];
      }
    }
    if IsMarkdownName(name) {
      var base := name[..|name| - 3];
      assert name == base + name[|name| - 3..];
    }
  }

  predicate IsDigit(c: char) {
    '0' <= c <= '9'
  }

  /** End (exclusive) of the run of digits that starts at `from`. */
  function DigitRunEnd(s: string, from: nat): (e: nat)
    requires from <= |s|
    decreases |s| - from
    ensures from <= e <= |s|
    ensures forall k :: from <= k < e ==> IsDigit(s[k])
    ensures e < |s| ==> !IsDigit(s[e])
  {
    if from < |s| && IsDigit(s[from]) then DigitRunEnd(s, from + 1) else from
  }

  /**
    Whether `fileNameOrderRegExp` (`/(\d+)-`) matches at the head of `s`,
    and the length of the match. `\d+` is greedy but a digit is never `-`,
    so the only candidate is the whole digit run.
   */
  function HeadMatch(s: string): (r: Option<nat>)
    ensures r.Some? ==> 3 <= r.value <= |s|
  {
    if 3 <= |s| && s[0] == '/' then
      var e := DigitRunEnd(s, 1);
      if e > 1 && e < |s| && s[e] == '-' then Some(e + 1) else None
    else None
  }

  /** `t` is exactly one slash, one or more digits, and a dash. */
  predicate IsOrderPrefix(t: string) {
    |t| >= 3 && t[0] == '/' && t[|t| - 1] == '-' &&
    forall k :: 1 <= k < |t| - 1 ==> IsDigit(t[k])
  }

  /** `HeadMatch` finds exactly the `/<digits>-` prefixes, and there is at most one. */
  lemma HeadMatchIff(s: string, n: nat)
    requires n <= |s|
    ensures HeadMatch(s) == Some(n) <==> IsOrderPrefix(s[..n])
  {
    if IsOrderPrefix(s[..n]) {
      assert s[0] == s[..n][0];
      assert s[n - 1] == s[..n][n - 1];
      assert forall k :: 1 <= k < n - 1 ==> IsDigit(s[k]) by {
        forall k | 1 <= k < n - 1 ensures IsDigit(s[k]) {
          assert s[k] == s[..n][k];
        }
      }
      var e := DigitRunEnd(s, 1);
      assert e == n - 1;
    }
  }

  /**
    `fileNameOrderRegExp.ReplaceAllString(s, "/")`: every match of `/(\d+)-`,
    leftmost first and without overlap, becomes `/`; scanning resumes after
    each match.
   */
  function StripOrdering(s: string): (r: string)
    decreases |s|
    ensures |r| <= |s|
    ensures s != [] ==> r != []
  {
    if s == [] then []
    else match HeadMatch(s)
      case Some(e) => "/" + StripOrdering(s[e..])
      case None => [s[0]] + StripOrdering(s[1..])
  }

  /** No `/<digits>-` starts anywhere in `s`. */
  predicate NoOrderPrefix(s: string) {
    forall i :: 0 <= i <= |s| ==> HeadMatch(s[i..]).None?
  }

  /**
    The rewrite never lengthens a path, and it leaves a path unchanged
    exactly when no `/<digits>-` occurs in it.
   */
  lemma {:induction false} StripOrderingShrinks(s: string)
    ensures |StripOrdering(s)| <= |s|
    ensures StripOrdering(s) == s <==> NoOrderPrefix(s)
    decreases |s|
  {
    if s == [] {
      assert NoOrderPrefix(s) by {
        forall i | 0 <= i <= |s| ensures HeadMatch(s[i..]).None? { }
      }
    } else {
      NoOrderPrefixCons(s);
      match HeadMatch(s)
      case Some(e) =>
        StripOrderingShrinks(s[e..]);
        StripMatched(s, e);
      case None =>
        StripOrderingShrinks(s[1..]);
        StripUnmatched(s);
    }
  }

  /** No prefix anywhere in a non-empty text: none at its head and none in its tail. */
  lemma NoOrderPrefixCons(s: string)
    requires s != []
    ensures NoOrderPrefix(s) <==> HeadMatch(s).None? && NoOrderPrefix(s[1..])
  {
    var t := s[1..];
    assert s[0..] == s;
    forall i | 0 <= i <= |t| ensures t[i..] == s[i + 1..] { }
    if HeadMatch(s).None? && NoOrderPrefix(t) {
      forall i | 0 <= i <= |s| ensures HeadMatch(s[i..]).None? {
        if i > 0 { assert s[i..] == t[i - 1..]; }
      }
    }
  }

  lemma StripMatched(s: string, e: nat)
    requires s != [] && HeadMatch(s) == Some(e)
    requires |StripOrdering(s[e..])| <= |s[e..]|
    ensures StripOrdering(s) == "/" + StripOrdering(s[e..])
    ensures |StripOrdering(s)| < |s|
  {
  }

  lemma StripUnmatched(s: string)
    requires s != [] && HeadMatch(s).None?
    ensures StripOrdering(s) == [s[0]] + StripOrdering(s[1..])
    ensures StripOrdering(s) == s <==> StripOrdering(s[1..]) == s[1..]
  {
    assert s == [s[0]] + s[1..];
    var r := StripOrdering(s[1..]);
    if [s[0]] + r == s {
      assert r == ([s[0]] + r)[1..];
    }
  }

  /**
    The rewrite is not idempotent: `/1-2-a` loses only its first prefix,
    because scanning resumes after `/1-` and the `2-` that follows is no
    longer preceded by a slash.
   */
  lemma StripOrderingNotIdempotent()
    ensures StripOrdering("/1-2-a") == "/2-a"
    ensures StripOrdering(StripOrdering("/1-2-a")) == "/a"
  {
    assert HeadMatch("/1-2-a") == Some(3) by { HeadMatchIff("/1-2-a", 3); }
    assert "/1-2-a"[3..] == "2-a";
    assert StripOrdering("-a") == "-a" by {
      assert HeadMatch("-a") == None;
      assert StripOrdering("a") == "a";
    }
    assert StripOrdering("2-a") == "2-a" by { assert HeadMatch("2-a") == None; }
    assert HeadMatch("/2-a") == Some(3) by { HeadMatchIff("/2-a", 3); }
    assert "/2-a"[3..] == "a";
    assert StripOrdering("a") == "a";
  }

  /**
    `dstPath` in `CreateDocFile`: an explicit frontmatter path is joined under
    the output directory as is; otherwise the first occurrence of the source
    directory becomes the output directory, the first `.md` becomes `.html`,
    and with the ordering option every `/<digits>-` becomes `/`.
   */
  function OutPath(ordering: bool, srcDir: string, outDir: string, path: string, matter: DocMatter): string {
    if matter.path != "" then Join(outDir, matter.path)
    else
      var mirrored := ReplaceFirst(ReplaceFirst(path, srcDir, outDir), ".md", ".html");
      if ordering then StripOrdering(mirrored) else mirrored
  }

  /** `finalPath`: the public route, the output path with the first occurrence of the output directory removed. */
  function Route(outPath: string, outDir: string): string {
    ReplaceFirst(outPath, outDir, "")
  }

  /**
    An explicit frontmatter path wins whatever the ordering option says, is
    never rewritten, and its route is that path behind a slash.
   */
  lemma ExplicitPathWins(ordering: bool, srcDir: string, outDir: string, path: string, matter: DocMatter)
    requires matter.path != ""
    ensures OutPath(ordering, srcDir, outDir, path, matter) == outDir + "/" + matter.path
    ensures Route(OutPath(ordering, srcDir, outDir, path, matter), outDir) == "/" + matter.path
  {
    assert outDir + "/" + matter.path == outDir + ("/" + matter.path);
    ReplaceFirstAtFront(outDir, "/" + matter.path, "");
  }

  /**
    Without an explicit path and without ordering, a source `srcDir + rel`
    is mirrored to `outDir + rel'` and routed to `rel'`, where `rel'` is `rel`
    with its first `.md` turned into `.html`, provided no `.md` starts inside
    the output directory part.
   */
  lemma MirroredPath(srcDir: string, outDir: string, rel: string, matter: DocMatter)
    requires matter.path == ""
    requires forall i: nat :: i < |outDir| ==> !OccursAt(outDir + rel, ".md", i)
    ensures OutPath(false, srcDir, outDir, srcDir + rel, matter) == outDir + ReplaceFirst(rel, ".md", ".html")
    ensures Route(OutPath(false, srcDir, outDir, srcDir + rel, matter), outDir) == ReplaceFirst(rel, ".md", ".html")
  {
    ReplaceFirstAtFront(srcDir, rel, outDir);
    NoEarlyOccurrence(outDir, rel, ".md");
    ReplaceFirstAfter(outDir, rel, ".md", ".html");
    ReplaceFirstAtFront(outDir, ReplaceFirst(rel, ".md", ".html"), "");
  }

  /**
    With the ordering option the mirrored path is rewritten: never longer
    than without the option, and equal to it exactly when it holds no
    `/<digits>-`.
   */
  lemma OrderedPath(srcDir: string, outDir: string, path: string, matter: DocMatter)
    requires matter.path == ""
    ensures var plain := OutPath(false, srcDir, outDir, path, matter);
      && OutPath(true, srcDir, outDir, path, matter) == StripOrdering(plain)
      && |OutPath(true, srcDir, outDir, path, matter)| <= |plain|
      && (OutPath(true, srcDir, outDir, path, matter) == plain <==> NoOrderPrefix(plain))
  {
    StripOrderingShrinks(OutPath(false, srcDir, outDir, path, matter));
  }

  /**
    The rewrite runs over the whole output path before the output directory
    is removed: an output directory that itself starts with `/<digits>-`
    loses that prefix in every ordered output path.
   */
  lemma OrderingRewritesOutDir(srcDir: string, outDir: string, rel: string, matter: DocMatter, t: string, rest: string)
    requires matter.path == ""
    requires forall i: nat :: i < |outDir| ==> !OccursAt(outDir + rel, ".md", i)
    requires outDir == t + rest && IsOrderPrefix(t)
    ensures OutPath(true, srcDir, outDir, srcDir + rel, matter)
      == "/" + StripOrdering(rest + ReplaceFirst(rel, ".md", ".html"))
  {
    var html := ReplaceFirst(rel, ".md", ".html");
    OrderedPath(srcDir, outDir, srcDir + rel, matter);
    MirroredPath(srcDir, outDir, rel, matter);
    ConcatAssoc(t, rest, html);
    StripAfterPrefix(t, rest + html);
  }

  /** The first `.md` of `a + ".md" + b` is the one after `a` when `a` holds no dot. */
  lemma MdToHtml(a: string, b: string)
    requires '.' !in a
    ensures ReplaceFirst(a + ".md" + b, ".md", ".html") == a + ".html" + b
  {
    var s := a + ".md" + b;
    assert s[|a|..|a| + 3] == ".md";
    assert s[..|a|] == a;
    ReplaceFirstAtFirst(s, ".md", ".html", |a|);
    assert s[|a| + 3..] == b;
  }

  /**
    A `.md` in the output directory is the first one of the joined path, so
    it is the one made `.html` and the page's own `.md` stays: output
    directory `a.md` and source `x.md` give `a.html/x.md`.
   */
  lemma MdInOutDir(srcDir: string, a: string, b: string, rel: string, matter: DocMatter)
    requires matter.path == "" && '.' !in a
    ensures OutPath(false, srcDir, a + ".md" + b, srcDir + rel, matter) == a + ".html" + b + rel
  {
    var outDir := a + ".md" + b;
    ReplaceFirstAtFront(srcDir, rel, outDir);
    ConcatAssoc(a + ".md", b, rel);
    MdToHtml(a, b + rel);
    ConcatAssoc(a + ".html", b, rel);
  }

  /**
    An output directory `t + a` that starts with `/<digits>-` loses that
    prefix in the ordered page `t + a + "/" + b`; the result no longer
    contains the output directory, so its route keeps the whole path.
   */
  lemma OutDirLost(t: string, a: string, b: string)
    requires IsOrderPrefix(t) && '/' !in a && '/' !in b
    requires b != [] && !IsDigit(b[0])
    requires t[1] !in a && t[1] !in b
    ensures StripOrdering(t + a + "/" + b) == "/" + a + "/" + b
    ensures Route("/" + a + "/" + b, t + a) == "/" + a + "/" + b
  {
    OutDirStripped(t, a, b);
    OutDirNotRouted(t, a, b);
  }

  lemma OutDirStripped(t: string, a: string, b: string)
    requires IsOrderPrefix(t) && '/' !in a && '/' !in b
    requires b != [] && !IsDigit(b[0])
    ensures StripOrdering(t + a + "/" + b) == "/" + a + "/" + b
  {
    var tail := "/" + b;
    assert tail[1..] == b;
    NoSlashUnchanged(b);
    StripNoMatch(tail);
    StripSlashFree(a, tail);
    ConcatAssoc(t, a, tail);
    StripAfterPrefix(t, a + tail);
    ConcatAssoc("/", a, tail);
    ConcatAssoc(t + a, "/", b);
    ConcatAssoc("/" + a, "/", b);
  }

  lemma OutDirNotRouted(t: string, a: string, b: string)
    requires IsOrderPrefix(t) && t[1] !in a && t[1] !in b
    ensures Route("/" + a + "/" + b, t + a) == "/" + a + "/" + b
  {
    var p := "/" + a + "/" + b;
    assert t[1] in t + a by { assert (t + a)[1] == t[1]; }
    assert t[1] !in p;
    NoOccurrence(p, t + a, t[1]);
  }

  /** A text with no `/` is untouched by the rewrite. */
  lemma {:induction false} NoSlashUnchanged(s: string)
    ensures '/' !in s ==> StripOrdering(s) == s
    decreases |s|
  {
    if s != [] && '/' !in s {
      assert HeadMatch(s) == None;
      assert '/' !in s[1..];
      NoSlashUnchanged(s[1..]);
      assert s == [s[0]] + s[1..];
    }
  }

  /** A pattern holding a character that `s` lacks occurs nowhere in `s`, so replacing it changes nothing. */
  lemma NoOccurrence(s: string, pat: string, c: char)
    requires c in pat && c !in s
    ensures forall j: nat :: !OccursAt(s, pat, j)
    ensures ReplaceFirst(s, pat, "") == s
  {
    var k :| 0 <= k < |pat| && pat[k] == c;
    forall j: nat ensures !OccursAt(s, pat, j) {
      if j + |pat| <= |s| {
        assert s[j..j + |pat|][k] == s[j + k];
      }
    }
  }

  /** Prefixes go from directory segments as well as from the file name. */
  lemma OrderedSegments(t1: string, a: string, t2: string, b: string)
    requires IsOrderPrefix(t1) && IsOrderPrefix(t2) && '/' !in a && '/' !in b
    ensures StripOrdering(t1 + a + t2 + b) == "/" + a + "/" + b
  {
    var x := t2 + b;
    NoSlashUnchanged(b);
    StripAfterPrefix(t2, b);
    StripSlashFree(a, x);
    StripAfterPrefix(t1, a + x);
    Regroup(t1, a, t2, b);
  }

  /** The two ways of grouping the pieces in `OrderedSegments`. */
  lemma Regroup(t1: string, a: string, t2: string, b: string)
    ensures t1 + a + t2 + b == t1 + (a + (t2 + b))
    ensures "/" + a + "/" + b == "/" + (a + ("/" + b))
  {
    ConcatAssoc(t1 + a, t2, b);
    ConcatAssoc(t1, a, t2 + b);
    ConcatAssoc(a, "/", b);
    ConcatAssoc("/" + a, "/", b);
    ConcatAssoc("/", a, "/" + b);
  }

  /** A leading `/<digits>-` becomes `/`, and the scan goes on after it. */
  lemma StripAfterPrefix(t: string, rest: string)
    requires IsOrderPrefix(t)
    ensures StripOrdering(t + rest) == "/" + StripOrdering(rest)
  {
    assert (t + rest)[..|t|] == t;
    HeadMatchIff(t + rest, |t|);
    assert (t + rest)[|t|..] == rest;
  }

  /** A leading `/` that does not start `/<digits>-` is kept. */
  lemma StripNoMatch(s: string)
    requires |s| >= 2 && s[0] == '/' && !IsDigit(s[1])
    ensures StripOrdering(s) == "/" + StripOrdering(s[1..])
  {
    assert HeadMatch(s) == None;
  }

  /** Text without `/` in front of `rest` is kept as it is. */
  lemma {:induction false} StripSlashFree(a: string, rest: string)
    requires '/' !in a
    ensures StripOrdering(a + rest) == a + StripOrdering(rest)
    decreases |a|
  {
    if a == [] {
      assert a + rest == rest;
    } else {
      var s := a + rest;
      assert s[0] == a[0];
      assert HeadMatch(s) == None;
      assert s[1..] == a[1..] + rest;
      assert '/' !in a[1..];
      StripSlashFree(a[1..], rest);
      assert StripOrdering(s) == [a[0]] + StripOrdering(s[1..]);
      assert a == [a[0]] + a[1..];
    }
  }
}
