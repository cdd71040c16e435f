/**
 * The updaters of `src/components/editors/ReferencesEditor.tsx`: a field
 * edit that copies the section's list and assigns the edited reference at
 * its index, and the reorder that replaces the list.
 */
module ReferencesEditor {
  import opened ResumeTypes
  import opened Lists
  import opened SectionStore

  /** The text fields the form edits. */
  datatype ReferenceField = Name | Title | Company | Email | Phone | Relationship

  /** The field's text as the form shows it; an absent phone shows as empty. */
  function FieldValue(r: Reference, f: ReferenceField): string {
    match f
    case Name => r.name
    case Title => r.title
    case Company => r.company
    case Email => r.email
    case Phone => r.phone.GetOr("")
    case Relationship => r.relationship
  }

  /** `{ ...reference, [field]: value }`: the named field reads back the value, the rest is kept. */
  function SetField(ref: Reference, f: ReferenceField, value: string): (r: Reference)
    ensures forall g :: FieldValue(r, g) == if g == f then value else FieldValue(ref, g)
    ensures r.id == ref.id
    ensures f == Phone ==> r.phone == Some(value)
    ensures f != Phone ==> r.phone == ref.phone
  {
    match f
    case Name => ref.(name := value)
    case Title => ref.(title := value)
    case Company => ref.(company := value)
    case Email => ref.(email := value)
    case Phone => ref.(phone := Some(value))
    case Relationship => ref.(relationship := value)
  }

  /** `handleChange`: only the named field of the reference at `index` changes. */
  method HandleChange(content: seq<Reference>, index: nat, field: ReferenceField, value: string)
    returns (r: seq<Reference>)
    requires index < |content|
    ensures |r| == |content| && r[index] == SetField(content[index], field, value)
    ensures forall j | 0 <= j < |content| && j != index :: r[j] == content[j]
  {
    r := AssignAt(content, index, SetField(content[index], field, value));
  }

  /** `handleReorder`: the reordered list replaces the section's content as it is. */
  method HandleReorder(store: ResumeStore, sectionId: string, newContent: seq<Reference>)
    modifies store
    ensures store.sections == Updated(old(store.sections), sectionId, Replace(ReferenceList(newContent)))
  {
    store.UpdateSection(sectionId, Replace(ReferenceList(newContent)));
  }
}
