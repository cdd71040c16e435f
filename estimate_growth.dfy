/**
 * How the edits of the store and the editors move the height estimate of
 * `src/components/ResumePreview.tsx`: adding an entry raises a section's
 * estimate by a fixed amount per type, and adding a point to an education
 * or experience entry raises it by 8 mm. Neither ever lowers it.
 */
module EstimateGrowth {
  import opened ResumeTypes
  import opened ResumePreview
  import opened SectionStore
  import EducationEditor

  /** The growth of the estimate per added entry: the per-entry term of each formula. */
  function EntryIncrement(kind: SectionType): nat {
    match kind
    case Education => 20
    case Experience => 20
    case Skills => 10
    case Projects => 25
    case Certificates => 15
    case Languages => 10
    case References => 0
    case Personal => 0
    case About => 0
  }

  /** Appending a zero leaves a sum as it is. */
  lemma SumAppendZero(counts: seq<nat>)
    ensures Sum(counts + [0]) == Sum(counts)
  {
    assert (counts + [0])[..|counts|] == counts;
  }

  /** Raising one count by one raises the sum by one. */
  lemma {:induction false} SumOneMore(a: seq<nat>, b: seq<nat>, i: nat)
    requires |a| == |b| && i < |a|
    requires forall j | 0 <= j < |a| && j != i :: b[j] == a[j]
    requires b[i] == a[i] + 1
    ensures Sum(b) == Sum(a) + 1
  {
    var n := |a|;
    if i == n - 1 {
      assert a[..n - 1] == b[..n - 1];
    } else {
      SumOneMore(a[..n - 1], b[..n - 1], i);
    }
  }

  /**
   * `addEntry` raises the estimate of the section by exactly the per-entry
   * term of its type: 20 for education and experience (the new entry has no
   * points), 10, 25, 15 and 10 for skills, projects, certificates and
   * languages, and nothing for references, whose estimate is fixed.
   */
  lemma AddEntryGrowsEstimate(s: EstimableSection, entryId: string)
    requires s.content.IsEntryList() && Fits(s.kind, s.content)
    ensures var grown := s.(content := AddBlankEntry(s.kind, s.content, entryId));
      Estimable(grown) && Estimate(grown) == Estimate(s) + EntryIncrement(s.kind)
  {
    var c := AddBlankEntry(s.kind, s.content, entryId);
    match s.content
    case EducationList(es) =>
      assert PointCounts(c) == PointCounts(s.content) + [0];
      SumAppendZero(PointCounts(s.content));
    case ExperienceList(es) =>
      assert PointCounts(c) == PointCounts(s.content) + [0];
      SumAppendZero(PointCounts(s.content));
    case SkillList(_) =>
    case ProjectList(_) =>
    case CertificateList(_) =>
    case LanguageList(_) =>
    case ReferenceList(_) =>
  }

  /**
   * An education edit that gives the entry at `index` one more point and
   * leaves every other entry as it is, as `addPoint` does, raises the
   * estimate by exactly 8 mm.
   */
  lemma AddEducationPointGrowsEstimate(s: EstimableSection, r: seq<EducationEntry>, index: nat)
    requires s.kind == Education && s.content.EducationList?
    requires |r| == |s.content.educations| && index < |r|
    requires forall j | 0 <= j < |r| && j != index :: r[j] == s.content.educations[j]
    requires |EducationEditor.Points(r[index])| == |EducationEditor.Points(s.content.educations[index])| + 1
    ensures var grown := s.(content := EducationList(r));
      Estimable(grown) && Estimate(grown) == Estimate(s) + 8
  {
    SumOneMore(PointCounts(s.content), PointCounts(EducationList(r)), index);
  }

  /**
   * An experience edit that gives the entry at `index` one more point and
   * leaves every other entry as it is, as `addPoint` does, raises the
   * estimate by exactly 8 mm.
   */
  lemma AddExperiencePointGrowsEstimate(s: EstimableSection, r: seq<ExperienceEntry>, index: nat)
    requires s.kind == Experience && s.content.ExperienceList?
    requires |r| == |s.content.experiences| && index < |r|
    requires forall j | 0 <= j < |r| && j != index :: r[j] == s.content.experiences[j]
    requires |r[index].points| == |s.content.experiences[index].points| + 1
    ensures var grown := s.(content := ExperienceList(r));
      Estimable(grown) && Estimate(grown) == Estimate(s) + 8
  {
    SumOneMore(PointCounts(s.content), PointCounts(ExperienceList(r)), index);
  }
}
