/**
 * Three résumés worked through the estimator and the paginator of
 * `src/components/ResumePreview.tsx`. Each lemma pins down the one page
 * layout that the next-fit pass can produce for its input.
 */
module PaginationExamples {
  import opened ResumeTypes
  import opened ResumePreview

  /** A personal section (35 mm) and an empty about section (30 mm) share one page. */
  lemma PersonalAndAboutShareAPage(pages: seq<Page>)
    requires NextFit([Section("p", Personal, PersonalContent(PersonalInfo("", "", "", "", []))),
                      Section("a", About, AboutContent(""))], pages)
    ensures |pages| == 1 && |pages[0]| == 2
  {
    var personal: EstimableSection := Section("p", Personal, PersonalContent(PersonalInfo("", "", "", "", [])));
    var about: EstimableSection := Section("a", About, AboutContent(""));
    assert Estimate(personal) == 35;
    assert Estimate(about) == 30;
    var page: Page := [personal, about];
    var expected: seq<Page> := [page];
    var none: seq<Page> := [];
    FlattenSnoc(none, page);
    assert none + [page] == expected;
    PageHeightSnoc([personal], about);
    PageHeightSnoc([], personal);
    assert [] + [personal] == [personal] && [personal] + [about] == page;
    assert NextFit([personal, about], expected);
    NextFitUnique([personal, about], pages, expected);
  }

  /**
   * Two certificate sections of ten entries each are estimated at 180 mm
   * apiece; together they exceed the 257 mm page, so the second one opens
   * a second page.
   */
  lemma TwoCertificateSectionsTakeTwoPages(c1: Content, c2: Content, pages: seq<Page>)
    requires c1.CertificateList? && |c1.certificates| == 10
    requires c2.CertificateList? && |c2.certificates| == 10
    requires NextFit([Section("c1", Certificates, c1), Section("c2", Certificates, c2)], pages)
    ensures |pages| == 2 && |pages[0]| == 1 && |pages[1]| == 1
  {
    var first: EstimableSection := Section("c1", Certificates, c1);
    var second: EstimableSection := Section("c2", Certificates, c2);
    assert Estimate(first) == 180 && Estimate(second) == 180;
    var p1: Page := [first];
    var p2: Page := [second];
    var expected: seq<Page> := [p1, p2];
    var none: seq<Page> := [];
    FlattenSnoc(none, p1);
    FlattenSnoc([p1], p2);
    assert none + [p1] == [p1] && [p1] + [p2] == expected;
    PageHeightSnoc([], first);
    PageHeightSnoc([], second);
    assert [] + [first] == p1 && [] + [second] == p2;
    assert Flatten(expected) == [first, second];
    assert BreaksWhereFull(expected) by {
      assert PageHeight(expected[0]) + Estimate(expected[1][0]) == 360;
    }
    assert WithinCapacity(expected);
    NextFitUnique([first, second], pages, expected);
  }

  /** One experience entry with thirty points. */
  function LongExperience(points: seq<string>): (c: Content)
    requires |points| == 30
    ensures c.ExperienceList? && c.EntryCount() == 1
  {
    ExperienceList([ExperienceEntry("e", "", "", "", "", points)])
  }

  /**
   * A single experience entry with thirty points is estimated at
   * 20 + (20 + 8 * 30) + 10 = 290 mm, more than a page holds. As the only
   * section it is placed whole on a page of its own, behind the empty first
   * page that the unconditional break pushes.
   */
  lemma LongExperienceSitsAlone(points: seq<string>, pages: seq<Page>)
    requires |points| == 30
    requires NextFit([Section("x", Experience, LongExperience(points))], pages)
    ensures |pages| == 2 && pages[0] == [] && |pages[1]| == 1
  {
    var s: EstimableSection := Section("x", Experience, LongExperience(points));
    var counts := PointCounts(s.content);
    assert counts == [30];
    assert counts[..0] == [];
    assert Sum(counts) == 30;
    assert Estimate(s) == 290;
    OversizedFirstSectionLeavesEmptyPage(s, pages);
  }

  /**
   * The about text is measured in UTF-16 code units: 101 characters beyond
   * the Basic Multilingual Plane (emoji, say) are 202 units long, so the
   * text takes two 15 mm blocks and the section is estimated at 60 mm.
   */
  lemma AstralAboutText(text: string)
    requires |text| == 101 && forall i | 0 <= i < |text| :: text[i] > '\U{FFFF}'
    ensures Estimate(Section("a", About, AboutContent(text))) == 60
  {
    assert Utf16Length(text) == 202;
    assert CeilDiv(202, 200) == 2;
  }
}
