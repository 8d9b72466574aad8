/**
  The navigation tree shared by both build variants: an ordered list of
  sections, each an ordered list of pages. During the walk every page is
  appended to the first section whose title equals the page's frontmatter
  section, or else to a new section added at the end; the list starts with
  one empty-titled, empty section.
 */
module Nav {
  import opened GoStrings

  datatype NavPage = NavPage(title: string, href: string)

  datatype NavSection = NavSection(title: string, pages: seq<NavPage>)

  /** A page as the walk hands it to the navigation: its section name and its link. */
  datatype Placement = Placement(section: string, page: NavPage)

  /** The section list before any page is placed. */
  function Seed(): seq<NavSection> {
    [NavSection("", [])]
  }

  function Titles(sections: seq<NavSection>): (r: seq<string>)
    ensures |r| == |sections|
    ensures forall k :: 0 <= k < |sections| ==> r[k] == sections[k].title
  {
    seq(|sections|, k requires 0 <= k < |sections| => sections[k].title)
  }

  predicate DistinctTitles(sections: seq<NavSection>) {
    forall i, j :: 0 <= i < j < |sections| ==> sections[i].title != sections[j].title
  }

  /** All pages, section by section, each section's pages in order. */
  function Flatten(sections: seq<NavSection>): seq<NavPage> {
    if sections == [] then []
    else Flatten(sections[..|sections| - 1]) + sections[|sections| - 1].pages
  }

  function TotalPages(sections: seq<NavSection>): nat {
    if sections == [] then 0
    else TotalPages(sections[..|sections| - 1]) + |sections[|sections| - 1].pages|
  }

  /** Index of the first section titled `title`. */
  function FindSection(sections: seq<NavSection>, title: string): (r: Option<nat>)
    ensures r.Some? ==> r.value < |sections| && sections[r.value].title == title
    ensures r.Some? ==> forall j :: 0 <= j < r.value ==> sections[j].title != title
    ensures r.None? ==> forall j :: 0 <= j < |sections| ==> sections[j].title != title
  {
    if sections == [] then None
    else if sections[0].title == title then Some(0)
    else match FindSection(sections[1..], title)
      case None => None
      case Some(k) => Some(k + 1)
  }

  /** One step of the walk: `page` goes to the first section titled `title`, or to a new last section. */
  function Grouped(sections: seq<NavSection>, title: string, page: NavPage): seq<NavSection> {
    match FindSection(sections, title)
    case Some(k) => sections[k := NavSection(title, sections[k].pages + [page])]
    case None => sections + [NavSection(title, [page])]
  }

  /** The sections after placing every page of `placed`, in order, starting from `Seed()`. */
  function GroupAll(placed: seq<Placement>): seq<NavSection> {
    if placed == [] then Seed()
    else
      var last := placed[|placed| - 1];
      Grouped(GroupAll(placed[..|placed| - 1]), last.section, last.page)
  }

  /**
    The section titles in the order the placements first name them, after
    the seeded empty title; a title already seen adds nothing.
   */
  function SectionOrder(placed: seq<Placement>): (r: seq<string>)
    ensures |r| >= 1 && r[0] == ""
    ensures forall k :: 0 <= k < |placed| ==> placed[k].section in r
    ensures forall t :: t in r ==> t == "" || exists k :: 0 <= k < |placed| && placed[k].section == t
  {
    if placed == [] then [""]
    else
      var prefix := placed[..|placed| - 1];
      var last := placed[|placed| - 1];
      var order := SectionOrder(prefix);
      assert forall k :: 0 <= k < |prefix| ==> prefix[k] == placed[k];
      if last.section in order then order else order + [last.section]
  }

  /** The pages of `placed` whose section is `title`, in placement order. */
  function PagesIn(placed: seq<Placement>, title: string): seq<NavPage> {
    if placed == [] then []
    else
      var last := placed[|placed| - 1];
      PagesIn(placed[..|placed| - 1], title) + (if last.section == title then [last.page] else [])
  }

  /**
    The walk callback's loop over the sections: the first section
    with an equal title gets the page and the loop stops; if none matched,
    a new section holding only the page is appended.
   */
  method AddToSection(navSections: seq<NavSection>, title: string, page: NavPage)
    returns (r: seq<NavSection>)
    ensures r == Grouped(navSections, title, page)
  {
    r := navSections;
    var found := false;
    var i := 0;
    while i < |r|
      invariant 0 <= i <= |r|
      invariant r == navSections && !found
      invariant forall j :: 0 <= j < i ==> navSections[j].title != title
    {
      if r[i].title == title {
        r := r[i := NavSection(r[i].title, r[i].pages + [page])];
        found := true;
        break;
      }
      i := i + 1;
    }
    if !found {
      r := r + [NavSection(title, [page])];
    }
  }

  /**
    A grouping step keeps every existing title where it was, adds `title`
    at the end exactly when it was missing, and keeps titles distinct.
   */
  lemma GroupedTitles(sections: seq<NavSection>, title: string, page: NavPage)
    requires DistinctTitles(sections)
    ensures var r := Grouped(sections, title, page);
      && DistinctTitles(r)
      && (title in Titles(sections) ==> Titles(r) == Titles(sections))
      && (title !in Titles(sections) ==> Titles(r) == Titles(sections) + [title])
  {
    var r := Grouped(sections, title, page);
    if title in Titles(sections) {
      var k :| 0 <= k < |sections| && Titles(sections)[k] == title;
      assert FindSection(sections, title).Some?;
    } else {
      assert FindSection(sections, title).None?;
      assert Titles(r) == Titles(sections) + [title];
    }
  }

  /**
    A grouping step adds exactly `page` to one section and changes no other
    section: the first one titled `title` if there is one, otherwise a new
    last section.
   */
  lemma GroupedPlacesPage(sections: seq<NavSection>, title: string, page: NavPage)
    ensures var r := Grouped(sections, title, page);
      && (forall k :: (0 <= k < |sections| && sections[k].title == title &&
                      forall j :: 0 <= j < k ==> sections[j].title != title) ==>
            && |r| == |sections|
            && r[k].pages == sections[k].pages + [page]
            && forall j :: 0 <= j < |sections| && j != k ==> r[j] == sections[j])
      && ((forall j :: 0 <= j < |sections| ==> sections[j].title != title) ==>
            r == sections + [NavSection(title, [page])])
  {
    var r := Grouped(sections, title, page);
    forall k | 0 <= k < |sections| && sections[k].title == title &&
        (forall j :: 0 <= j < k ==> sections[j].title != title)
      ensures FindSection(sections, title) == Some(k)
    {
      var f := FindSection(sections, title);
      assert f.Some?;
      assert !(f.value < k) && !(k < f.value);
    }
  }

  lemma {:induction false} TotalPagesAppend(sections: seq<NavSection>, s: NavSection)
    ensures TotalPages(sections + [s]) == TotalPages(sections) + |s.pages|
  {
    assert (sections + [s])[..|sections|] == sections;
  }

  lemma {:induction false} TotalPagesUpdate(sections: seq<NavSection>, k: nat, s: NavSection)
    requires k < |sections|
    ensures TotalPages(sections[k := s]) == TotalPages(sections) - |sections[k].pages| + |s.pages|
    decreases |sections|
  {
    var n := |sections|;
    var u := sections[k := s];
    if k == n - 1 {
      assert u[..n - 1] == sections[..n - 1];
    } else {
      TotalPagesUpdate(sections[..n - 1], k, s);
      assert u[..n - 1] == sections[..n - 1][k := s];
    }
  }

  /** Each grouping step adds exactly one page to the tree. */
  lemma GroupedTotal(sections: seq<NavSection>, title: string, page: NavPage)
    ensures TotalPages(Grouped(sections, title, page)) == TotalPages(sections) + 1
  {
    match FindSection(sections, title)
    case Some(k) => TotalPagesUpdate(sections, k, NavSection(title, sections[k].pages + [page]));
    case None => TotalPagesAppend(sections, NavSection(title, [page]));
  }

  lemma {:induction false} FlattenAppend(sections: seq<NavSection>, s: NavSection)
    ensures Flatten(sections + [s]) == Flatten(sections) + s.pages
  {
    assert (sections + [s])[..|sections|] == sections;
  }

  lemma {:induction false} FlattenUpdate(sections: seq<NavSection>, k: nat, page: NavPage)
    requires k < |sections|
    ensures var u := sections[k := sections[k].(pages := sections[k].pages + [page])];
      multiset(Flatten(u)) == multiset(Flatten(sections)) + multiset{page}
    decreases |sections|
  {
    var n := |sections|;
    var u := sections[k := sections[k].(pages := sections[k].pages + [page])];
    if k == n - 1 {
      assert u[..n - 1] == sections[..n - 1];
    } else {
      FlattenUpdate(sections[..n - 1], k, page);
      assert u[..n - 1] == sections[..n - 1][k := sections[k].(pages := sections[k].pages + [page])];
    }
  }

  /** The flattened page list has one entry per page. */
  lemma {:induction false} FlattenLength(sections: seq<NavSection>)
    ensures |Flatten(sections)| == TotalPages(sections)
    decreases |sections|
  {
    if sections != [] {
      FlattenLength(sections[..|sections| - 1]);
    }
  }

  /** Each grouping step adds exactly `page`, once, to the flattened tree. */
  lemma GroupedFlatten(sections: seq<NavSection>, title: string, page: NavPage)
    ensures multiset(Flatten(Grouped(sections, title, page))) == multiset(Flatten(sections)) + multiset{page}
  {
    match FindSection(sections, title)
    case Some(k) =>
      assert NavSection(title, sections[k].pages + [page]) == sections[k].(pages := sections[k].pages + [page]);
      FlattenUpdate(sections, k, page);
    case None => FlattenAppend(sections, NavSection(title, [page]));
  }

  function PagesOf(placed: seq<Placement>): (r: seq<NavPage>)
    ensures |r| == |placed|
    ensures forall k :: 0 <= k < |placed| ==> r[k] == placed[k].page
  {
    seq(|placed|, k requires 0 <= k < |placed| => placed[k].page)
  }

  lemma PagesOfAppend(placed: seq<Placement>, last: Placement)
    ensures PagesOf(placed + [last]) == PagesOf(placed) + [last.page]
  {
    var a := PagesOf(placed + [last]);
    var b := PagesOf(placed) + [last.page];
    assert |a| == |b|;
    forall k | 0 <= k < |a| ensures a[k] == b[k] {
      if k < |placed| {
        assert (placed + [last])[k] == placed[k];
      }
    }
  }

  lemma PagesInEmpty(placed: seq<Placement>, title: string)
    requires forall k :: 0 <= k < |placed| ==> placed[k].section != title
    ensures PagesIn(placed, title) == []
  {
  }

  /** The shape of the navigation tree built from a placement order. */
  ghost predicate WellGrouped(placed: seq<Placement>, sections: seq<NavSection>) {
    && |sections| >= 1
    && sections[0].title == ""
    && DistinctTitles(sections)
    && Titles(sections) == SectionOrder(placed)
    && (forall k :: 0 <= k < |placed| ==> placed[k].section in Titles(sections))
    && (forall k :: 0 <= k < |sections| ==> sections[k].pages == PagesIn(placed, sections[k].title))
    && TotalPages(sections) == |placed|
    && multiset(Flatten(sections)) == multiset(PagesOf(placed))
  }

  lemma StepPages(prefix: seq<Placement>, s: seq<NavSection>, last: Placement, k: nat)
    requires WellGrouped(prefix, s)
    requires k < |Grouped(s, last.section, last.page)|
    ensures var r := Grouped(s, last.section, last.page);
      r[k].pages == PagesIn(prefix + [last], r[k].title)
  {
    var r := Grouped(s, last.section, last.page);
    var placed := prefix + [last];
    assert placed[..|placed| - 1] == prefix;
    match FindSection(s, last.section)
    case Some(m) =>
      if k != m {
        assert r[k] == s[k];
        assert s[k].title != last.section;
      }
    case None =>
      if k < |s| {
        assert r[k] == s[k];
      } else {
        forall j | 0 <= j < |prefix| ensures prefix[j].section != last.section {
          assert prefix[j].section in Titles(s);
        }
        PagesInEmpty(prefix, last.section);
      }
  }

  lemma StepSections(prefix: seq<Placement>, s: seq<NavSection>, last: Placement)
    requires WellGrouped(prefix, s)
    ensures var r := Grouped(s, last.section, last.page);
      forall k :: 0 <= k < |prefix + [last]| ==> (prefix + [last])[k].section in Titles(r)
  {
    var r := Grouped(s, last.section, last.page);
    GroupedTitles(s, last.section, last.page);
    forall k | 0 <= k < |prefix| + 1 ensures (prefix + [last])[k].section in Titles(r) {
      if k < |prefix| {
        assert (prefix + [last])[k] == prefix[k];
        assert prefix[k].section in Titles(s);
      }
    }
  }

  /** A grouping step extends the titles exactly as the first-seen order does. */
  lemma StepOrder(prefix: seq<Placement>, s: seq<NavSection>, last: Placement)
    requires DistinctTitles(s) && Titles(s) == SectionOrder(prefix)
    ensures Titles(Grouped(s, last.section, last.page)) == SectionOrder(prefix + [last])
  {
    GroupedTitles(s, last.section, last.page);
    assert (prefix + [last])[..|prefix|] == prefix;
  }

  lemma StepWellGrouped(prefix: seq<Placement>, s: seq<NavSection>, last: Placement)
    requires WellGrouped(prefix, s)
    ensures WellGrouped(prefix + [last], Grouped(s, last.section, last.page))
  {
    var r := Grouped(s, last.section, last.page);
    GroupedTitles(s, last.section, last.page);
    GroupedTotal(s, last.section, last.page);
    GroupedFlatten(s, last.section, last.page);
    PagesOfAppend(prefix, last);
    assert r[0].title == s[0].title by {
      assert Titles(r)[0] == Titles(s)[0];
    }
    StepSections(prefix, s, last);
    StepOrder(prefix, s, last);
    forall k | 0 <= k < |r| ensures r[k].pages == PagesIn(prefix + [last], r[k].title) {
      StepPages(prefix, s, last, k);
    }
  }

  /**
    The navigation built by the walk: the empty-titled section comes first,
    titles are distinct, the sections are exactly the placed titles in the
    order they were first seen, every placed page's section is present, each
    section holds exactly the pages placed under its title in placement
    order, and the tree holds every placed page exactly once.
   */
  lemma {:induction false} GroupAllShape(placed: seq<Placement>)
    ensures WellGrouped(placed, GroupAll(placed))
    decreases |placed|
  {
    if placed == [] {
      assert PagesOf(placed) == [];
      assert Titles(Seed()) == [""];
      assert Flatten(Seed()) == Flatten([]) + [];
    } else {
      var n := |placed|;
      GroupAllShape(placed[..n - 1]);
      assert placed[..n - 1] + [placed[n - 1]] == placed;
      StepWellGrouped(placed[..n - 1], GroupAll(placed[..n - 1]), placed[n - 1]);
    }
  }
}
