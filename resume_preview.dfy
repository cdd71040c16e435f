/**
 * The layout heuristic of `src/components/ResumePreview.tsx`: a per-type
 * height estimate for every section, a single next-fit pass that packs the
 * sections, in order, into A4 pages, and the page footers.
 */
module ResumePreview {
  import opened ResumeTypes

  const A4HeightMm: nat := 297
  const PageMarginMm: nat := 20
  /** The content height of a page: A4 height minus the top and bottom margins. */
  const ContentHeightMm: nat := A4HeightMm - 2 * PageMarginMm
  /** Added to every estimate to avoid tight fits. */
  const BufferMm: nat := 10

  // ---------------------------------------------------------------------------
  // Height estimate
  // ---------------------------------------------------------------------------

  /**
   * A section the estimator can measure: a list type must carry a list (the
   * source reads `.length` of it, or iterates over it).
   */
  predicate Estimable(s: Section) {
    s.kind.HoldsEntries() ==> s.content.IsEntryList()
  }

  type EstimableSection = s: Section | Estimable(s)
    witness Section("", Personal, Placeholder)

  /** `Math.ceil(a / b)` on naturals: the least q with a <= b * q. */
  function CeilDiv(a: nat, b: nat): (q: nat)
    requires b > 0
    ensures a <= b * q
    ensures q == 0 || b * (q - 1) < a
  {
    (a + b - 1) / b
  }

  /**
   * A JavaScript string's `length`: the number of UTF-16 code units, one for
   * a character of the Basic Multilingual Plane and two (a surrogate pair)
   * for a character beyond it.
   */
  function Utf16Length(s: string): (n: nat)
    ensures |s| <= n <= 2 * |s|
    ensures (forall i | 0 <= i < |s| :: s[i] <= '\U{FFFF}') ==> n == |s|
    ensures (forall i | 0 <= i < |s| :: s[i] > '\U{FFFF}') ==> n == 2 * |s|
  {
    if s == [] then 0
    else Utf16Length(s[..|s| - 1]) + (if s[|s| - 1] > '\U{FFFF}' then 2 else 1)
  }

  /** `section.content.description?.length || 0`, in UTF-16 code units. */
  function DescriptionLength(c: Content): nat {
    if c.AboutContent? then Utf16Length(c.description) else 0
  }

  /** `item.points?.length`, 0 when absent, for every entry of a list content. */
  function PointCounts(c: Content): (counts: seq<nat>)
    requires c.IsEntryList()
    ensures |counts| == c.EntryCount()
  {
    match c
    case EducationList(es) => seq(|es|, i requires 0 <= i < |es| => |es[i].points.GetOr([])|)
    case ExperienceList(es) => seq(|es|, i requires 0 <= i < |es| => |es[i].points|)
    case SkillList(es) => seq(|es|, i => 0)
    case ProjectList(es) => seq(|es|, i => 0)
    case CertificateList(es) => seq(|es|, i => 0)
    case LanguageList(es) => seq(|es|, i => 0)
    case ReferenceList(es) => seq(|es|, i => 0)
  }

  /**
   * Each count is its entry's number of points: an education entry without
   * points counts 0, and entries of the other list types, which have no
   * points, count 0.
   */
  lemma PointCountsPerEntry(c: Content, i: nat)
    requires c.IsEntryList() && i < c.EntryCount()
    ensures c.EducationList? ==> PointCounts(c)[i] == |c.educations[i].points.GetOr([])|
    ensures c.ExperienceList? ==> PointCounts(c)[i] == |c.experiences[i].points|
    ensures !c.EducationList? && !c.ExperienceList? ==> PointCounts(c)[i] == 0
  {
  }

  function Sum(counts: seq<nat>): nat {
    if counts == [] then 0 else Sum(counts[..|counts| - 1]) + counts[|counts| - 1]
  }

  /**
   * The estimated height in millimetres, as a closed formula per type, the
   * 10 mm buffer included. Every estimate is at least 30 mm.
   */
  function Estimate(s: EstimableSection): (h: nat)
    ensures h >= 30
  {
    BufferMm + match s.kind
      case Personal => 25
      case About => 20 + 15 * CeilDiv(DescriptionLength(s.content), 200)
      case Education | Experience =>
        20 + 20 * s.content.EntryCount() + 8 * Sum(PointCounts(s.content))
      case Skills => 20 + 10 * s.content.EntryCount()
      case Projects => 20 + 25 * s.content.EntryCount()
      case Certificates => 20 + 15 * s.content.EntryCount()
      case Languages => 20 + 10 * s.content.EntryCount()
      case References => 30
  }

  /**
   * The estimate as the source computes it: the switch on the type, with the
   * education and experience branch accumulating entry by entry.
   */
  method EstimateHeight(s: EstimableSection) returns (h: nat)
    ensures h == Estimate(s)
  {
    match s.kind {
      case Personal =>
        h := 25;
      case About =>
        h := 20 + CeilDiv(DescriptionLength(s.content), 200) * 15;
      case Education | Experience =>
        var counts := PointCounts(s.content);
        h := 20;
        for i := 0 to |counts|
          invariant h == 20 + 20 * i + 8 * Sum(counts[..i])
        {
          assert counts[..i + 1][..i] == counts[..i];
          h := h + 20;
          if counts[i] > 0 {
            h := h + counts[i] * 8;
          }
        }
        assert counts[..|counts|] == counts;
      case Skills =>
        h := 20 + s.content.EntryCount() * 10;
      case Projects =>
        h := 20 + s.content.EntryCount() * 25;
      case Certificates =>
        h := 20 + s.content.EntryCount() * 15;
      case Languages =>
        h := 20 + s.content.EntryCount() * 10;
      case References =>
        h := 30;
    }
    h := h + BufferMm;
  }

  // ---------------------------------------------------------------------------
  // Pagination
  // ---------------------------------------------------------------------------

  type Page = seq<EstimableSection>

  /** The summed estimates of the sections on a page. */
  function PageHeight(p: Page): nat {
    if p == [] then 0 else PageHeight(p[..|p| - 1]) + Estimate(p[|p| - 1])
  }

  /** All pages' sections, page after page. */
  function Flatten(pages: seq<Page>): seq<EstimableSection> {
    if pages == [] then [] else Flatten(pages[..|pages| - 1]) + pages[|pages| - 1]
  }

  /**
   * The packing invariant of the pass: the pages concatenate to the sections
   * seen so far; a new page starts exactly at a section whose estimate would
   * take the previous page past the content height; every page holds at most
   * the content height, except a later page holding one oversized section;
   * and no page but the first is empty.
   */
  ghost predicate Packed(sections: seq<EstimableSection>, pages: seq<Page>) {
    && Flatten(pages) == sections
    && BreaksWhereFull(pages)
    && WithinCapacity(pages)
  }

  ghost predicate BreaksWhereFull(pages: seq<Page>) {
    forall k | 0 < k < |pages| ::
      pages[k] != [] && PageHeight(pages[k - 1]) + Estimate(pages[k][0]) > ContentHeightMm
  }

  ghost predicate WithinCapacity(pages: seq<Page>) {
    forall k | 0 <= k < |pages| ::
      PageHeight(pages[k]) <= ContentHeightMm || (k > 0 && |pages[k]| == 1)
  }

  /** What the whole pass produces: a packing, with no pages for no sections. */
  ghost predicate NextFit(sections: seq<EstimableSection>, pages: seq<Page>) {
    Packed(sections, pages) && (pages == [] <==> sections == [])
  }

  lemma FlattenSnoc(pages: seq<Page>, p: Page)
    ensures Flatten(pages + [p]) == Flatten(pages) + p
  {
    assert (pages + [p])[..|pages|] == pages;
  }

  lemma PageHeightSnoc(p: Page, s: EstimableSection)
    ensures PageHeight(p + [s]) == PageHeight(p) + Estimate(s)
  {
    assert (p + [s])[..|p|] == p;
  }

  /** A section that does not fit closes the current page and opens the next. */
  lemma PackedBreak(prefix: seq<EstimableSection>, pages: seq<Page>, current: Page, s: EstimableSection)
    requires Packed(prefix, pages + [current])
    requires PageHeight(current) + Estimate(s) > ContentHeightMm
    ensures Packed(prefix + [s], pages + [current] + [[s]])
    ensures PageHeight([s]) == Estimate(s)
  {
    FlattenSnoc(pages + [current], [s]);
    BreakBreaks(pages + [current], s);
    BreakCapacity(pages + [current], s);
  }

  lemma BreakBreaks(all: seq<Page>, s: EstimableSection)
    requires BreaksWhereFull(all) && all != []
    requires PageHeight(all[|all| - 1]) + Estimate(s) > ContentHeightMm
    ensures BreaksWhereFull(all + [[s]])
  {
    var next := all + [[s]];
    forall k | 0 < k < |next|
      ensures next[k] != [] && PageHeight(next[k - 1]) + Estimate(next[k][0]) > ContentHeightMm
    {
      assert next[k - 1] == all[k - 1];
      if k < |all| {
        assert next[k] == all[k];
      }
    }
  }

  lemma BreakCapacity(all: seq<Page>, s: EstimableSection)
    requires WithinCapacity(all) && all != []
    ensures WithinCapacity(all + [[s]])
    ensures PageHeight([s]) == Estimate(s)
  {
    PageHeightSnoc([], s);
    assert [] + [s] == [s];
    var next := all + [[s]];
    forall k | 0 <= k < |next|
      ensures PageHeight(next[k]) <= ContentHeightMm || (k > 0 && |next[k]| == 1)
    {
      if k < |all| {
        assert next[k] == all[k];
      } else {
        assert next[k] == [s];
      }
    }
  }

  /** A section that fits joins the current page. */
  lemma PackedAppend(prefix: seq<EstimableSection>, pages: seq<Page>, current: Page, s: EstimableSection)
    requires Packed(prefix, pages + [current])
    requires PageHeight(current) + Estimate(s) <= ContentHeightMm
    ensures Packed(prefix + [s], pages + [current + [s]])
    ensures PageHeight(current + [s]) == PageHeight(current) + Estimate(s)
  {
    FlattenSnoc(pages, current);
    FlattenSnoc(pages, current + [s]);
    assert Flatten(pages) + (current + [s]) == (Flatten(pages) + current) + [s];
    AppendBreaks(pages, current, s);
    AppendCapacity(pages, current, s);
  }

  lemma AppendBreaks(pages: seq<Page>, current: Page, s: EstimableSection)
    requires BreaksWhereFull(pages + [current])
    ensures BreaksWhereFull(pages + [current + [s]])
  {
    var all, next := pages + [current], pages + [current + [s]];
    forall k | 0 < k < |next|
      ensures next[k] != [] && PageHeight(next[k - 1]) + Estimate(next[k][0]) > ContentHeightMm
    {
      assert next[k - 1] == all[k - 1];
      if k < |pages| {
        assert next[k] == all[k];
      } else {
        assert all[k] == current != [];
        assert next[k][0] == current[0];
      }
    }
  }

  lemma AppendCapacity(pages: seq<Page>, current: Page, s: EstimableSection)
    requires WithinCapacity(pages + [current])
    requires PageHeight(current) + Estimate(s) <= ContentHeightMm
    ensures WithinCapacity(pages + [current + [s]])
    ensures PageHeight(current + [s]) == PageHeight(current) + Estimate(s)
  {
    PageHeightSnoc(current, s);
    var all, next := pages + [current], pages + [current + [s]];
    forall k | 0 <= k < |next|
      ensures PageHeight(next[k]) <= ContentHeightMm || (k > 0 && |next[k]| == 1)
    {
      if k < |pages| {
        assert next[k] == all[k];
      }
    }
  }

  /**
   * The pagination loop: `currentPage` and `currentHeight` accumulate until a
   * section does not fit, at which point the current page is pushed (even
   * when it is still empty) and the section opens the next one.
   */
  method Paginate(sections: seq<EstimableSection>) returns (pages: seq<Page>)
    ensures NextFit(sections, pages)
  {
    pages := [];
    var currentPage: Page := [];
    var currentHeight: nat := 0;
    for i := 0 to |sections|
      invariant Packed(sections[..i], pages + [currentPage])
      invariant i == 0 ==> pages == [] && currentPage == []
      invariant i > 0 ==> currentPage != []
      invariant currentHeight == PageHeight(currentPage)
    {
      var section := sections[i];
      var estimatedHeight := EstimateHeight(section);
      PrefixSnoc(sections, i);
      if currentHeight + estimatedHeight > ContentHeightMm {
        PackedBreak(sections[..i], pages, currentPage, section);
        pages := pages + [currentPage];
        currentPage := [section];
        currentHeight := estimatedHeight;
      } else {
        PackedAppend(sections[..i], pages, currentPage, section);
        currentPage := currentPage + [section];
        currentHeight := currentHeight + estimatedHeight;
      }
    }
    assert sections[..|sections|] == sections;
    PackedClose(sections, pages, currentPage);
    if |currentPage| > 0 {
      pages := pages + [currentPage];
    }
  }

  lemma PrefixSnoc(sections: seq<EstimableSection>, i: nat)
    requires i < |sections|
    ensures sections[..i + 1] == sections[..i] + [sections[i]]
  {
  }

  /** After the loop the last current page is pushed unless no section was seen. */
  lemma PackedClose(sections: seq<EstimableSection>, pages: seq<Page>, current: Page)
    requires Packed(sections, pages + [current])
    requires sections == [] ==> pages == [] && current == []
    requires sections != [] ==> current != []
    ensures NextFit(sections, if current == [] then pages else pages + [current])
  {
    if current == [] {
      assert sections == [];
    }
  }

  /** Each section's estimate is part of its page's height. */
  lemma {:induction false} EstimateWithinPage(p: Page, j: nat)
    requires j < |p|
    ensures Estimate(p[j]) <= PageHeight(p)
    ensures |p| >= 2 ==> Estimate(p[j]) < PageHeight(p)
  {
    var init := p[..|p| - 1];
    if j < |p| - 1 {
      EstimateWithinPage(init, j);
      assert init[j] == p[j];
    } else if |p| >= 2 {
      EstimateWithinPage(init, 0);
    }
  }

  /**
   * A section whose estimate exceeds the content height is never split and
   * never shares its page; it cannot sit on the first page either, because
   * the first page is only ever filled up to the content height.
   */
  lemma OversizedSectionAlone(sections: seq<EstimableSection>, pages: seq<Page>, k: nat, j: nat)
    requires NextFit(sections, pages)
    requires k < |pages| && j < |pages[k]|
    requires Estimate(pages[k][j]) > ContentHeightMm
    ensures k > 0 && pages[k] == [pages[k][j]]
  {
    EstimateWithinPage(pages[k], j);
  }

  lemma FlattenCons(pages: seq<Page>)
    requires pages != []
    ensures Flatten(pages) == pages[0] + Flatten(pages[1..])
    decreases |pages|
  {
    if |pages| > 1 {
      var init := pages[..|pages| - 1];
      FlattenCons(init);
      assert init[1..] == pages[1..][..|pages| - 2];
    } else {
      assert pages[1..] == [];
    }
  }

  /**
   * The first page is empty exactly when the first section alone exceeds the
   * content height: the pass pushes the still-empty current page before it.
   */
  lemma FirstPageEmptyIff(sections: seq<EstimableSection>, pages: seq<Page>)
    requires NextFit(sections, pages) && sections != []
    ensures pages[0] == [] <==> Estimate(sections[0]) > ContentHeightMm
  {
    FlattenCons(pages);
    if pages[0] == [] {
      assert |pages| >= 2;
      FlattenCons(pages[1..]);
      assert pages[1..][0] == pages[1];
      assert sections[0] == pages[1][0];
    } else {
      assert sections[0] == pages[0][0];
      EstimateWithinPage(pages[0], 0);
    }
  }

  /** The only packing of no sections that has a page is the single empty page. */
  lemma PackedNothing(pages: seq<Page>)
    requires Packed([], pages) && pages != []
    ensures pages == [[]]
  {
    FlattenSnoc(pages[..|pages| - 1], pages[|pages| - 1]);
    assert pages[..|pages| - 1] + [pages[|pages| - 1]] == pages;
    assert |pages| == 1;
    FlattenSnoc([], pages[0]);
    assert [] + [pages[0]] == pages;
  }

  lemma SnocInjective<T>(a: seq<T>, x: T, b: seq<T>, y: T)
    requires a + [x] == b + [y]
    ensures a == b && x == y
  {
    assert a == (a + [x])[..|a|] && b == (b + [y])[..|b|];
  }

  /** Undoing a step that opened a new page for x. */
  lemma PackedDropPage(s: seq<EstimableSection>, x: EstimableSection, p: seq<Page>)
    requires Packed(s + [x], p)
    requires |p| >= 2 && p[|p| - 1] == [x]
    ensures Packed(s, p[..|p| - 1])
    ensures PageHeight(p[|p| - 2]) + Estimate(x) > ContentHeightMm
  {
    var n := |p|;
    var init := p[..n - 1];
    assert p == init + [[x]];
    FlattenSnoc(init, [x]);
    SnocInjective(Flatten(init), x, s, x);
    forall k | 0 < k < |init|
      ensures PageHeight(init[k - 1]) + Estimate(init[k][0]) > ContentHeightMm
    {
      assert init[k - 1] == p[k - 1] && init[k] == p[k];
    }
    forall k | 0 <= k < |init|
      ensures PageHeight(init[k]) <= ContentHeightMm || (k > 0 && |init[k]| == 1)
    {
      assert init[k] == p[k];
    }
    assert p[n - 1][0] == x;
  }

  /** Undoing a step that appended x to the last page q + [x]. */
  lemma PackedTrimLast(s: seq<EstimableSection>, x: EstimableSection, init: seq<Page>, q: Page)
    requires Packed(s + [x], init + [q + [x]])
    requires init == [] || q != []
    ensures Packed(s, init + [q])
    ensures PageHeight(q) + Estimate(x) <= ContentHeightMm
  {
    FlattenSnoc(init, q + [x]);
    FlattenSnoc(init, q);
    assert (Flatten(init) + q) + [x] == s + [x];
    SnocInjective(Flatten(init) + q, x, s, x);
    TrimLastBreaks(init, q, x);
    TrimLastCapacity(init, q, x);
  }

  lemma TrimLastBreaks(init: seq<Page>, q: Page, x: EstimableSection)
    requires BreaksWhereFull(init + [q + [x]])
    requires init == [] || q != []
    ensures BreaksWhereFull(init + [q])
  {
    var p, pred := init + [q + [x]], init + [q];
    forall k | 0 < k < |pred|
      ensures pred[k] != [] && PageHeight(pred[k - 1]) + Estimate(pred[k][0]) > ContentHeightMm
    {
      assert pred[k - 1] == p[k - 1];
      if k < |init| {
        assert pred[k] == p[k];
      } else {
        assert pred[k][0] == p[k][0];
      }
    }
  }

  lemma TrimLastCapacity(init: seq<Page>, q: Page, x: EstimableSection)
    requires WithinCapacity(init + [q + [x]])
    requires init == [] || q != []
    ensures WithinCapacity(init + [q])
    ensures PageHeight(q) + Estimate(x) <= ContentHeightMm
  {
    var p, pred := init + [q + [x]], init + [q];
    PageHeightSnoc(q, x);
    assert PageHeight(p[|init|]) <= ContentHeightMm;
    forall k | 0 <= k < |pred|
      ensures PageHeight(pred[k]) <= ContentHeightMm || (k > 0 && |pred[k]| == 1)
    {
      if k < |init| {
        assert pred[k] == p[k];
      }
    }
  }

  /** When x did not open a page of its own, it is the end of the last page. */
  lemma PackedLastShape(s: seq<EstimableSection>, x: EstimableSection, p: seq<Page>)
    requires Packed(s + [x], p)
    requires p != [] && !(|p| >= 2 && p[|p| - 1] == [x])
    ensures var last := p[|p| - 1];
      && last != [] && last[|last| - 1] == x
      && (|p| == 1 || |last| >= 2)
  {
    var n := |p|;
    var init, last := p[..n - 1], p[n - 1];
    assert p == init + [last];
    FlattenSnoc(init, last);
    assert last != [] by {
      if n == 1 {
        assert Flatten(init) == [];
      }
    }
    var q, y := last[..|last| - 1], last[|last| - 1];
    assert last == q + [y];
    assert (Flatten(init) + q) + [y] == s + [x];
    SnocInjective(Flatten(init) + q, y, s, x);
  }

  /**
   * Undoing the last step of the pass: a packing of `s + [x]` comes from a
   * packing `pred` of `s`, either by opening a new page for x, exactly when x
   * does not fit on the last page of `pred`, or else by appending x to it.
   */
  lemma PackedSplitLast(s: seq<EstimableSection>, x: EstimableSection, p: seq<Page>)
    returns (pred: seq<Page>, opens: bool)
    requires Packed(s + [x], p)
    ensures pred != [] && Packed(s, pred)
    ensures opens <==> PageHeight(pred[|pred| - 1]) + Estimate(x) > ContentHeightMm
    ensures p == if opens then pred + [[x]] else pred[..|pred| - 1] + [pred[|pred| - 1] + [x]]
  {
    FlattenSnoc([], []);
    assert p != [];
    var n := |p|;
    var init, last := p[..n - 1], p[n - 1];
    assert p == init + [last];
    if n >= 2 && last == [x] {
      PackedDropPage(s, x, p);
      pred, opens := init, true;
    } else {
      PackedLastShape(s, x, p);
      var q := last[..|last| - 1];
      assert last == q + [x];
      PackedTrimLast(s, x, init, q);
      pred, opens := init + [q], false;
      assert pred[..|pred| - 1] == init;
    }
  }

  /** The packing of a list of sections that has at least one page is unique. */
  lemma {:induction false} PackedUnique(s: seq<EstimableSection>, p1: seq<Page>, p2: seq<Page>)
    requires Packed(s, p1) && Packed(s, p2) && p1 != [] && p2 != []
    ensures p1 == p2
    decreases |s|
  {
    if s == [] {
      PackedNothing(p1);
      PackedNothing(p2);
    } else {
      var init, x := s[..|s| - 1], s[|s| - 1];
      assert s == init + [x];
      var pred1, opens1 := PackedSplitLast(init, x, p1);
      var pred2, opens2 := PackedSplitLast(init, x, p2);
      PackedUnique(init, pred1, pred2);
      SameStep(pred1, x, opens1, opens2, p1, p2);
    }
  }

  /** From the same packing, the loop's step for x is determined. */
  lemma SameStep(pred: seq<Page>, x: EstimableSection, opens1: bool, opens2: bool, p1: seq<Page>, p2: seq<Page>)
    requires pred != []
    requires opens1 <==> PageHeight(pred[|pred| - 1]) + Estimate(x) > ContentHeightMm
    requires opens2 <==> PageHeight(pred[|pred| - 1]) + Estimate(x) > ContentHeightMm
    requires p1 == if opens1 then pred + [[x]] else pred[..|pred| - 1] + [pred[|pred| - 1] + [x]]
    requires p2 == if opens2 then pred + [[x]] else pred[..|pred| - 1] + [pred[|pred| - 1] + [x]]
    ensures p1 == p2
  {
  }

  /**
   * The next-fit characterisation determines the pages completely, so it is
   * a full specification of what `Paginate` returns.
   */
  lemma NextFitUnique(sections: seq<EstimableSection>, p1: seq<Page>, p2: seq<Page>)
    requires NextFit(sections, p1) && NextFit(sections, p2)
    ensures p1 == p2
  {
    if sections != [] {
      PackedUnique(sections, p1, p2);
    }
  }

  /**
   * An oversized first section produces an empty first page followed by a
   * page holding that section alone.
   */
  lemma OversizedFirstSectionLeavesEmptyPage(s: EstimableSection, pages: seq<Page>)
    requires Estimate(s) > ContentHeightMm
    requires NextFit([s], pages)
    ensures pages == [[], [s]]
  {
    var expected: seq<Page> := [[], [s]];
    var none: seq<Page> := [];
    var emptyPage: Page := [];
    FlattenSnoc(none, emptyPage);
    FlattenSnoc([emptyPage], [s]);
    assert none + [emptyPage] == [emptyPage] && [emptyPage] + [[s]] == expected;
    PageHeightSnoc([], s);
    assert [] + [s] == [s];
    assert NextFit([s], expected);
    NextFitUnique([s], pages, expected);
  }

  // ---------------------------------------------------------------------------
  // Page footers
  // ---------------------------------------------------------------------------

  /** The "Page {page} of {total}" footer. */
  datatype Footer = Footer(page: nat, total: nat)

  /**
   * The frame of each rendered page: every page but the last gets the extra
   * 40 mm bottom padding and a footer numbering it among all pages.
   */
  datatype PageFrame = PageFrame(extraBottomPadding: bool, footer: Option<Footer>)

  function Frames(pageCount: nat): (frames: seq<PageFrame>)
    ensures |frames| == pageCount
    ensures forall i | 0 <= i < pageCount ::
      (frames[i].footer.Some? <==> i < pageCount - 1) &&
      frames[i].extraBottomPadding == frames[i].footer.Some?
    ensures forall i | 0 <= i < pageCount && frames[i].footer.Some? ::
      frames[i].footer.value == Footer(i + 1, pageCount)
  {
    seq(pageCount, i requires 0 <= i < pageCount =>
      if i < pageCount - 1 then PageFrame(true, Some(Footer(i + 1, pageCount)))
      else PageFrame(false, None))
  }

  function CountFooters(frames: seq<PageFrame>): nat {
    if frames == [] then 0
    else CountFooters(frames[..|frames| - 1]) + (if frames[|frames| - 1].footer.Some? then 1 else 0)
  }

  lemma {:induction false} CountLeadingFooters(frames: seq<PageFrame>, m: nat)
    requires m <= |frames|
    requires forall i | 0 <= i < |frames| :: frames[i].footer.Some? <==> i < m
    ensures CountFooters(frames) == m
  {
    if frames != [] {
      var init := frames[..|frames| - 1];
      if m == |frames| {
        CountLeadingFooters(init, m - 1);
      } else {
        CountLeadingFooters(init, m);
      }
    }
  }

  /** Of N pages, exactly N - 1 carry a "Page i of N" footer: all but the last. */
  lemma FooterCount(pageCount: nat)
    requires pageCount > 0
    ensures CountFooters(Frames(pageCount)) == pageCount - 1
    ensures Frames(pageCount)[pageCount - 1].footer.None?
  {
    CountLeadingFooters(Frames(pageCount), pageCount - 1);
  }
}
