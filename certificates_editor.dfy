/**
 * The updaters of `src/components/editors/CertificatesEditor.tsx`: a field
 * edit that copies the section's list and assigns the edited certificate at
 * its index, and the reorder that replaces the list.
 */
module CertificatesEditor {
  import opened ResumeTypes
  import opened Lists
  import opened SectionStore

  /** The text fields the form edits. */
  datatype CertificateField = Name | Issuer | Date | LinkUrl

  /** The field's text as the form shows it; an absent link shows as empty. */
  function FieldValue(c: Certificate, f: CertificateField): string {
    match f
    case Name => c.name
    case Issuer => c.issuer
    case Date => c.date
    case LinkUrl => c.link.GetOr("")
  }

  /** `{ ...certificate, [field]: value }`: the named field reads back the value, the rest is kept. */
  function SetField(c: Certificate, f: CertificateField, value: string): (r: Certificate)
    ensures forall g :: FieldValue(r, g) == if g == f then value else FieldValue(c, g)
    ensures r.id == c.id
    ensures f == LinkUrl ==> r.link == Some(value)
    ensures f != LinkUrl ==> r.link == c.link
  {
    match f
    case Name => c.(name := value)
    case Issuer => c.(issuer := value)
    case Date => c.(date := value)
    case LinkUrl => c.(link := Some(value))
  }

  /** `handleChange`: only the named field of the certificate at `index` changes. */
  method HandleChange(content: seq<Certificate>, index: nat, field: CertificateField, value: string)
    returns (r: seq<Certificate>)
    requires index < |content|
    ensures |r| == |content| && r[index] == SetField(content[index], field, value)
    ensures forall j | 0 <= j < |content| && j != index :: r[j] == content[j]
  {
    r := AssignAt(content, index, SetField(content[index], field, value));
  }

  /** `handleReorder`: the reordered list replaces the section's content as it is. */
  method HandleReorder(store: ResumeStore, sectionId: string, newContent: seq<Certificate>)
    modifies store
    ensures store.sections == Updated(old(store.sections), sectionId, Replace(CertificateList(newContent)))
  {
    store.UpdateSection(sectionId, Replace(CertificateList(newContent)));
  }
}
