/**
 * The résumé state of `src/store/useResumeStore.ts`: an ordered list of
 * sections and the six actions that replace it. Each action is specified by
 * a pure function of the old list, and the class's methods perform the
 * source's copy-and-assign steps and are proved to produce exactly that.
 */
module SectionStore {
  import opened ResumeTypes
  import opened Lists

  /** `sections.findIndex(s => s.id === id)`: the first position holding the id, or -1. */
  function IndexOf(sections: seq<Section>, id: string): (i: int)
    ensures -1 <= i < |sections|
    ensures i == -1 <==> forall j | 0 <= j < |sections| :: sections[j].id != id
    ensures i >= 0 ==> sections[i].id == id && forall j | 0 <= j < i :: sections[j].id != id
  {
    if sections == [] then -1
    else if sections[0].id == id then 0
    else
      var k := IndexOf(sections[1..], id);
      if k == -1 then -1 else k + 1
  }

  /** The blank content a new section of each type starts with. */
  function InitialContent(kind: SectionType): (c: Content)
    ensures Fits(kind, c)
    ensures c.IsEntryList() ==> c.EntryCount() == 0
    ensures c.PersonalContent? ==> c.info == PersonalInfo("", "", "", "", [])
    ensures c.AboutContent? ==> c.description == ""
  {
    match kind
    case Personal => PersonalContent(PersonalInfo("", "", "", "", []))
    case About => AboutContent("")
    case Education => EducationList([])
    case Experience => ExperienceList([])
    case Skills => SkillList([])
    case Projects => ProjectList([])
    case Certificates => CertificateList([])
    case Languages => LanguageList([])
    case References => ReferenceList([])
  }

  /** The second argument of `updateSection`: new content, or an updater of the old one. */
  datatype ContentUpdate = Replace(content: Content) | Apply(updater: Content -> Content)

  function Resolve(u: ContentUpdate, current: Content): Content {
    match u
    case Replace(c) => c
    case Apply(f) => f(current)
  }

  /** `after` differs from `before` at most in the content of the section at i. */
  predicate OnlyContentAt(before: seq<Section>, after: seq<Section>, i: int) {
    && |after| == |before|
    && (forall j | 0 <= j < |before| && j != i :: after[j] == before[j])
    && (0 <= i < |before| ==> after[i].id == before[i].id && after[i].kind == before[i].kind)
  }

  /**
   * The list after `updateSection(id, u)`: only the first section with that
   * id gets new content, the old content passed through the updater or the
   * given content; an unknown id changes nothing.
   */
  function Updated(sections: seq<Section>, id: string, u: ContentUpdate): (r: seq<Section>)
    ensures var i := IndexOf(sections, id);
      && OnlyContentAt(sections, r, i)
      && (i == -1 ==> r == sections)
      && (i >= 0 ==> r[i].content == (if u.Apply? then u.updater(sections[i].content) else u.content))
  {
    var i := IndexOf(sections, id);
    if i == -1 then sections
    else sections[i := sections[i].(content := Resolve(u, sections[i].content))]
  }

  /** `sections.filter(section => section.id !== id)` */
  function RemoveById(sections: seq<Section>, id: string): (r: seq<Section>)
    ensures |r| <= |sections|
    ensures forall j | 0 <= j < |r| :: r[j].id != id
  {
    if sections == [] then []
    else
      var last := sections[|sections| - 1];
      RemoveById(sections[..|sections| - 1], id) + (if last.id == id then [] else [last])
  }

  /** The filter keeps exactly the sections whose id differs. */
  lemma {:induction false} RemoveByIdMembers(sections: seq<Section>, id: string, s: Section)
    ensures s in RemoveById(sections, id) <==> s in sections && s.id != id
  {
    if sections != [] {
      var init := sections[..|sections| - 1];
      RemoveByIdMembers(init, id, s);
      assert sections == init + [sections[|sections| - 1]];
    }
  }

  /** The filter works piece by piece, so the sections it keeps stay in their order. */
  lemma {:induction false} RemoveByIdConcat(a: seq<Section>, b: seq<Section>, id: string)
    ensures RemoveById(a + b, id) == RemoveById(a, id) + RemoveById(b, id)
    decreases |b|
  {
    if b == [] {
      assert a + b == a;
    } else {
      var init := b[..|b| - 1];
      assert (a + b)[..|a + b| - 1] == a + init;
      RemoveByIdConcat(a, init, id);
    }
  }

  /** Removing an id no section carries changes nothing. */
  lemma {:induction false} RemoveUnknownId(sections: seq<Section>, id: string)
    requires forall j | 0 <= j < |sections| :: sections[j].id != id
    ensures RemoveById(sections, id) == sections
  {
    if sections != [] {
      var init := sections[..|sections| - 1];
      RemoveUnknownId(init, id);
      assert init + [sections[|sections| - 1]] == sections;
    }
  }

  /** The blank entry that `addEntry` appends to a list of the given type. */
  function AddBlankEntry(kind: SectionType, c: Content, entryId: string): (r: Content)
    requires c.IsEntryList() && Fits(kind, c)
    ensures Fits(kind, r) && r.EntryCount() == c.EntryCount() + 1
    ensures RemoveEntryAt(r, c.EntryCount()) == c
    ensures c.EducationList? ==>
      r.educations == c.educations + [EducationEntry(entryId, "", "", "", None, "", Some([]))]
    ensures c.ExperienceList? ==> r.experiences == c.experiences + [ExperienceEntry(entryId, "", "", "", "", [])]
    ensures c.SkillList? ==> r.skills == c.skills + [Skill(entryId, "", [])]
    ensures c.ProjectList? ==> r.projects == c.projects + [Project(entryId, "", "", "", [], None)]
    ensures c.CertificateList? ==> r.certificates == c.certificates + [Certificate(entryId, "", "", "", None)]
    ensures c.LanguageList? ==> r.languages == c.languages + [LanguageProficiency(entryId, "", "", Some(""))]
    ensures c.ReferenceList? ==>
      r.references == c.references + [Reference(entryId, "", "", "", "", Some(""), "")]
  {
    match c
    case EducationList(es) =>
      var r := EducationList(es + [EducationEntry(entryId, "", "", "", None, "", Some([]))]);
      assert RemoveAt(r.educations, |es|) == es;
      RemoveEntryAtIsSplice(r, |es|);
      r
    case ExperienceList(es) =>
      var r := ExperienceList(es + [ExperienceEntry(entryId, "", "", "", "", [])]);
      assert RemoveAt(r.experiences, |es|) == es;
      RemoveEntryAtIsSplice(r, |es|);
      r
    case SkillList(es) =>
      var r := SkillList(es + [Skill(entryId, "", [])]);
      assert RemoveAt(r.skills, |es|) == es;
      RemoveEntryAtIsSplice(r, |es|);
      r
    case ProjectList(es) =>
      var r := ProjectList(es + [Project(entryId, "", "", "", [], None)]);
      assert RemoveAt(r.projects, |es|) == es;
      RemoveEntryAtIsSplice(r, |es|);
      r
    case CertificateList(es) =>
      var r := CertificateList(es + [Certificate(entryId, "", "", "", None)]);
      assert RemoveAt(r.certificates, |es|) == es;
      RemoveEntryAtIsSplice(r, |es|);
      r
    case LanguageList(es) =>
      var r := LanguageList(es + [LanguageProficiency(entryId, "", "", Some(""))]);
      assert RemoveAt(r.languages, |es|) == es;
      RemoveEntryAtIsSplice(r, |es|);
      r
    case ReferenceList(es) =>
      var r := ReferenceList(es + [Reference(entryId, "", "", "", "", Some(""), "")]);
      assert RemoveAt(r.references, |es|) == es;
      RemoveEntryAtIsSplice(r, |es|);
      r
  }

  /** `content.filter((_, index) => index !== entryIndex)` on a list content. */
  function RemoveEntryAt(c: Content, k: int): (r: Content)
    requires c.IsEntryList()
    ensures forall kind :: Fits(kind, r) <==> Fits(kind, c)
    ensures r.IsEntryList()
    ensures r.EntryCount() == if 0 <= k < c.EntryCount() then c.EntryCount() - 1 else c.EntryCount()
  {
    RemoveEntryAtIsSplice(c, k);
    match c
    case EducationList(es) => EducationList(WithoutIndex(es, k))
    case ExperienceList(es) => ExperienceList(WithoutIndex(es, k))
    case SkillList(es) => SkillList(WithoutIndex(es, k))
    case ProjectList(es) => ProjectList(WithoutIndex(es, k))
    case CertificateList(es) => CertificateList(WithoutIndex(es, k))
    case LanguageList(es) => LanguageList(WithoutIndex(es, k))
    case ReferenceList(es) => ReferenceList(WithoutIndex(es, k))
  }

  /**
   * Removing an entry by index drops exactly the entry at that index, later
   * entries shifting down, and an index outside the list (a negative one
   * included) removes nothing.
   */
  lemma RemoveEntryAtIsSplice(c: Content, k: int)
    requires c.IsEntryList()
    ensures c.EducationList? ==> WithoutIndex(c.educations, k) == if 0 <= k < |c.educations| then RemoveAt(c.educations, k) else c.educations
    ensures c.ExperienceList? ==> WithoutIndex(c.experiences, k) == if 0 <= k < |c.experiences| then RemoveAt(c.experiences, k) else c.experiences
    ensures c.SkillList? ==> WithoutIndex(c.skills, k) == if 0 <= k < |c.skills| then RemoveAt(c.skills, k) else c.skills
    ensures c.ProjectList? ==> WithoutIndex(c.projects, k) == if 0 <= k < |c.projects| then RemoveAt(c.projects, k) else c.projects
    ensures c.CertificateList? ==> WithoutIndex(c.certificates, k) == if 0 <= k < |c.certificates| then RemoveAt(c.certificates, k) else c.certificates
    ensures c.LanguageList? ==> WithoutIndex(c.languages, k) == if 0 <= k < |c.languages| then RemoveAt(c.languages, k) else c.languages
    ensures c.ReferenceList? ==> WithoutIndex(c.references, k) == if 0 <= k < |c.references| then RemoveAt(c.references, k) else c.references
  {
    match c
    case EducationList(es) => WithoutIndexIsRemoveAt(es, k);
    case ExperienceList(es) => WithoutIndexIsRemoveAt(es, k);
    case SkillList(es) => WithoutIndexIsRemoveAt(es, k);
    case ProjectList(es) => WithoutIndexIsRemoveAt(es, k);
    case CertificateList(es) => WithoutIndexIsRemoveAt(es, k);
    case LanguageList(es) => WithoutIndexIsRemoveAt(es, k);
    case ReferenceList(es) => WithoutIndexIsRemoveAt(es, k);
  }

  /**
   * The section `addEntry` targets holds, if a list, the list of its own
   * type: the entry it appends is chosen by the type, so any other list
   * would receive an entry of a foreign shape.
   */
  predicate EntryListMatchesType(sections: seq<Section>, id: string) {
    var i := IndexOf(sections, id);
    i >= 0 && sections[i].content.IsEntryList() ==> Fits(sections[i].kind, sections[i].content)
  }

  /**
   * The list after `addEntry(id)`: one blank entry of the section's type is
   * appended to its list; an unknown id or a content that is not a list
   * leaves the sections as they are.
   */
  function WithEntryAdded(sections: seq<Section>, id: string, entryId: string): (r: seq<Section>)
    requires EntryListMatchesType(sections, id)
    ensures var i := IndexOf(sections, id);
      && OnlyContentAt(sections, r, i)
      && (i == -1 || !sections[i].content.IsEntryList() ==> r == sections)
      && (i >= 0 && sections[i].content.IsEntryList() ==>
            && r[i].content == AddBlankEntry(sections[i].kind, sections[i].content, entryId)
            && Fits(r[i].kind, r[i].content)
            && r[i].content.EntryCount() == sections[i].content.EntryCount() + 1
            && RemoveEntryAt(r[i].content, sections[i].content.EntryCount()) == sections[i].content)
  {
    var i := IndexOf(sections, id);
    if i == -1 then sections
    else
      var s := sections[i];
      if s.content.IsEntryList() then Updated(sections, id, Replace(AddBlankEntry(s.kind, s.content, entryId)))
      else sections
  }

  /**
   * The list after `removeEntry(id, entryIndex)`: the entry at that index
   * leaves the list of the first section with the id; an unknown id or a
   * content that is not a list changes nothing.
   */
  function WithEntryRemoved(sections: seq<Section>, id: string, entryIndex: int): (r: seq<Section>)
    ensures var i := IndexOf(sections, id);
      && OnlyContentAt(sections, r, i)
      && (i == -1 || !sections[i].content.IsEntryList() ==> r == sections)
      && (i >= 0 && sections[i].content.IsEntryList() ==>
            r[i].content == RemoveEntryAt(sections[i].content, entryIndex))
  {
    var i := IndexOf(sections, id);
    if i == -1 then sections
    else
      var s := sections[i];
      if s.content.IsEntryList() then Updated(sections, id, Replace(RemoveEntryAt(s.content, entryIndex)))
      else sections
  }

  /** Removing the entry just added gives the sections back. */
  lemma AddThenRemoveEntry(sections: seq<Section>, id: string, entryId: string)
    requires EntryListMatchesType(sections, id)
    ensures var i := IndexOf(sections, id);
      var n := if i >= 0 && sections[i].content.IsEntryList() then sections[i].content.EntryCount() else 0;
      WithEntryRemoved(WithEntryAdded(sections, id, entryId), id, n) == sections
  {
    var i := IndexOf(sections, id);
    var added := WithEntryAdded(sections, id, entryId);
    if i >= 0 && sections[i].content.IsEntryList() {
      assert IndexOf(added, id) == i;
      var r := WithEntryRemoved(added, id, sections[i].content.EntryCount());
      assert r[i] == sections[i];
      assert r == sections;
    }
  }

  /** Every section's content has the shape its type prescribes. */
  predicate AllWellFormed(sections: seq<Section>) {
    forall j | 0 <= j < |sections| :: WellFormed(sections[j])
  }

  class ResumeStore {
    var sections: seq<Section>

    predicate Valid()
      reads this
    {
      AllWellFormed(sections)
    }

    constructor()
      ensures sections == [] && Valid()
    {
      sections := [];
    }

    /**
     * `addSection`: appends the section with the caller's id and type, its
     * content replaced by the type's blank content.
     */
    method AddSection(section: Section)
      modifies this
      ensures sections == old(sections) + [Section(section.id, section.kind, InitialContent(section.kind))]
      ensures old(Valid()) ==> Valid()
    {
      var initialContent := InitialContent(section.kind);
      sections := sections + [section.(content := initialContent)];
    }

    /** `updateSection`: copies the list and assigns the new section into the copy. */
    method UpdateSection(id: string, u: ContentUpdate)
      modifies this
      ensures sections == Updated(old(sections), id, u)
    {
      var sectionIndex := IndexOf(sections, id);
      if sectionIndex == -1 {
        return;
      }
      var currentContent := sections[sectionIndex].content;
      var newContent := Resolve(u, currentContent);
      var newSections := AssignAt(sections, sectionIndex, sections[sectionIndex].(content := newContent));
      sections := newSections;
    }

    /** `reorderSections`: the store takes the given list as it is. */
    method ReorderSections(newSections: seq<Section>)
      modifies this
      ensures sections == newSections
    {
      sections := newSections;
    }

    /** `removeSection` */
    method RemoveSection(id: string)
      modifies this
      ensures sections == RemoveById(old(sections), id)
      ensures old(Valid()) ==> Valid()
    {
      var before := sections;
      sections := RemoveById(sections, id);
      forall j | 0 <= j < |sections| && AllWellFormed(before)
        ensures WellFormed(sections[j])
      {
        RemoveByIdMembers(before, id, sections[j]);
      }
    }

    /** `addEntry`, with the new entry's id passed in. */
    method AddEntry(sectionId: string, entryId: string)
      requires EntryListMatchesType(sections, sectionId)
      modifies this
      ensures sections == WithEntryAdded(old(sections), sectionId, entryId)
      ensures old(Valid()) ==> Valid()
    {
      var sectionIndex := IndexOf(sections, sectionId);
      if sectionIndex == -1 {
        return;
      }
      var section := sections[sectionIndex];
      var content := section.content;
      if content.IsEntryList() {
        content := AddBlankEntry(section.kind, content, entryId);
      }
      var newSections := AssignAt(sections, sectionIndex, section.(content := content));
      sections := newSections;
    }

    /** `removeEntry` */
    method RemoveEntry(sectionId: string, entryIndex: int)
      modifies this
      ensures sections == WithEntryRemoved(old(sections), sectionId, entryIndex)
      ensures old(Valid()) ==> Valid()
    {
      var sectionIndex := IndexOf(sections, sectionId);
      if sectionIndex == -1 {
        return;
      }
      var section := sections[sectionIndex];
      if !section.content.IsEntryList() {
        return;
      }
      var newSections := AssignAt(sections, sectionIndex, section.(content := RemoveEntryAt(section.content, entryIndex)));
      sections := newSections;
    }
  }
}
