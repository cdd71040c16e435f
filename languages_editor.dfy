/**
 * `src/components/editors/LanguagesEditor.tsx`: unlike the other list
 * editors, `handleChange` rebuilds the whole list from the content the
 * editor was rendered with and hands the list itself, not an updater, to
 * `updateSection`; removal goes through the store's `removeEntry` with the
 * entry's position in that list.
 */
module LanguagesEditor {
  import opened ResumeTypes
  import opened Lists
  import opened SectionStore

  /** The text fields the form edits. */
  datatype LanguageField = Name | Level | Description

  /** The field's text as the form shows it; an absent description shows as empty. */
  function FieldValue(l: LanguageProficiency, f: LanguageField): string {
    match f
    case Name => l.name
    case Level => l.level
    case Description => l.description.GetOr("")
  }

  /** `{ ...language, [field]: value }`: the named field reads back the value, the rest is kept. */
  function SetField(l: LanguageProficiency, f: LanguageField, value: string): (r: LanguageProficiency)
    ensures forall g :: FieldValue(r, g) == if g == f then value else FieldValue(l, g)
    ensures r.id == l.id
    ensures f == Description ==> r.description == Some(value)
    ensures f != Description ==> r.description == l.description
  {
    match f
    case Name => l.(name := value)
    case Level => l.(level := value)
    case Description => l.(description := Some(value))
  }

  /** The list `handleChange` rebuilds: a copy with the entry at `index` edited. */
  method Rebuild(content: seq<LanguageProficiency>, index: nat, field: LanguageField, value: string)
    returns (r: seq<LanguageProficiency>)
    requires index < |content|
    ensures |r| == |content| && r[index] == SetField(content[index], field, value)
    ensures forall j | 0 <= j < |content| && j != index :: r[j] == content[j]
  {
    r := AssignAt(content, index, SetField(content[index], field, value));
  }

  /**
   * `handleChange`: the rebuilt list replaces the section's content,
   * whatever the store held for the section at that moment.
   */
  method HandleChange(store: ResumeStore, sectionId: string, content: seq<LanguageProficiency>,
                      index: nat, field: LanguageField, value: string)
    requires index < |content|
    modifies store
    ensures store.sections == Updated(old(store.sections), sectionId,
      Replace(LanguageList(content[index := SetField(content[index], field, value)])))
  {
    var updatedContent := Rebuild(content, index, field, value);
    assert updatedContent == content[index := SetField(content[index], field, value)];
    store.UpdateSection(sectionId, Replace(LanguageList(updatedContent)));
  }

  /**
   * The remove button of the entry at `index` removes that entry and no
   * other: `removeEntry(id, index)` on a languages section drops exactly the
   * entry at its own position.
   */
  lemma RemoveTargetsOwnPosition(sections: seq<Section>, sectionId: string, index: nat)
    requires var i := IndexOf(sections, sectionId);
      i >= 0 && sections[i].content.LanguageList? && index < |sections[i].content.languages|
    ensures var i := IndexOf(sections, sectionId);
      var r := WithEntryRemoved(sections, sectionId, index);
      r[i].content == LanguageList(RemoveAt(sections[i].content.languages, index))
  {
    var i := IndexOf(sections, sectionId);
    RemoveEntryAtIsSplice(sections[i].content, index);
  }
}
