/**
 * `src/components/editors/PersonalInfoEditor.tsx`: every change builds a
 * new personal record from the one the editor shows and hands it to
 * `updateSection` as the section's new content. The link operations are a
 * spread, a `map` and a `filter` over the links.
 */
module PersonalInfoEditor {
  import opened ResumeTypes
  import opened SectionStore

  /** The text fields of the record. */
  datatype PersonalField = FullName | Email | Phone | Location

  function FieldValue(info: PersonalInfo, f: PersonalField): string {
    match f
    case FullName => info.fullName
    case Email => info.email
    case Phone => info.phone
    case Location => info.location
  }

  /** `{ ...content, [field]: value }`: the named field reads back the value, the rest is kept. */
  function WithField(info: PersonalInfo, f: PersonalField, value: string): (r: PersonalInfo)
    ensures forall g :: FieldValue(r, g) == if g == f then value else FieldValue(info, g)
    ensures r.links == info.links
  {
    match f
    case FullName => info.(fullName := value)
    case Email => info.(email := value)
    case Phone => info.(phone := value)
    case Location => info.(location := value)
  }

  /** `addLink`: one link with the given id and empty label and url goes at the end. */
  function AddLink(info: PersonalInfo, linkId: string): (r: PersonalInfo)
    ensures |r.links| == |info.links| + 1 && r.links[..|info.links|] == info.links
    ensures r.links[|info.links|] == Link(linkId, "", "")
    ensures forall g :: FieldValue(r, g) == FieldValue(info, g)
  {
    info.(links := info.links + [Link(linkId, "", "")])
  }

  /** The link fields the form edits (`label` is a Dafny keyword). */
  datatype LinkField = Label | Url

  /** `{ ...link, [field]: value }`: the named field takes the value, the id and the other field stay. */
  function SetLinkField(l: Link, f: LinkField, value: string): (r: Link)
    ensures r.id == l.id
    ensures f == Label ==> r.labelText == value && r.url == l.url
    ensures f == Url ==> r.url == value && r.labelText == l.labelText
  {
    match f
    case Label => l.(labelText := value)
    case Url => l.(url := value)
  }

  /**
   * `updateLink`: `links.map(link => link.id === linkId ? { ...link, [field]: value } : link)`.
   * Every link with the id gets the field set, every other link is kept, and
   * the length and order stay.
   */
  function UpdateLinks(links: seq<Link>, linkId: string, f: LinkField, value: string): (r: seq<Link>)
    ensures |r| == |links|
    ensures forall j | 0 <= j < |links| ::
      r[j] == if links[j].id == linkId then SetLinkField(links[j], f, value) else links[j]
  {
    if links == [] then []
    else
      var last := links[|links| - 1];
      UpdateLinks(links[..|links| - 1], linkId, f, value)
        + [if last.id == linkId then SetLinkField(last, f, value) else last]
  }

  function UpdateLink(info: PersonalInfo, linkId: string, f: LinkField, value: string): PersonalInfo {
    info.(links := UpdateLinks(info.links, linkId, f, value))
  }

  /** Updating a link id that no link carries changes nothing. */
  lemma UpdateUnknownLink(info: PersonalInfo, linkId: string, f: LinkField, value: string)
    requires forall j | 0 <= j < |info.links| :: info.links[j].id != linkId
    ensures UpdateLink(info, linkId, f, value) == info
  {
    assert UpdateLinks(info.links, linkId, f, value) == info.links;
  }

  /** `links.filter(link => link.id !== linkId)` */
  function RemoveLinks(links: seq<Link>, linkId: string): (r: seq<Link>)
    ensures |r| <= |links|
    ensures forall j | 0 <= j < |r| :: r[j].id != linkId
  {
    if links == [] then []
    else
      var last := links[|links| - 1];
      RemoveLinks(links[..|links| - 1], linkId) + (if last.id == linkId then [] else [last])
  }

  /** The filter keeps exactly the links whose id differs. */
  lemma {:induction false} RemoveLinksMembers(links: seq<Link>, linkId: string, l: Link)
    ensures l in RemoveLinks(links, linkId) <==> l in links && l.id != linkId
  {
    if links != [] {
      var init := links[..|links| - 1];
      RemoveLinksMembers(init, linkId, l);
      assert links == init + [links[|links| - 1]];
    }
  }

  /** The filter works piece by piece, so the links it keeps stay in their order. */
  lemma {:induction false} RemoveLinksConcat(a: seq<Link>, b: seq<Link>, linkId: string)
    ensures RemoveLinks(a + b, linkId) == RemoveLinks(a, linkId) + RemoveLinks(b, linkId)
    decreases |b|
  {
    if b == [] {
      assert a + b == a;
    } else {
      var init := b[..|b| - 1];
      assert (a + b)[..|a + b| - 1] == a + init;
      RemoveLinksConcat(a, init, linkId);
    }
  }

  /** Removing a link id that no link carries changes nothing. */
  lemma {:induction false} RemoveUnknownLink(links: seq<Link>, linkId: string)
    requires forall j | 0 <= j < |links| :: links[j].id != linkId
    ensures RemoveLinks(links, linkId) == links
  {
    if links != [] {
      var init := links[..|links| - 1];
      RemoveUnknownLink(init, linkId);
      assert init + [links[|links| - 1]] == links;
    }
  }

  function RemoveLink(info: PersonalInfo, linkId: string): (r: PersonalInfo)
    ensures forall g :: FieldValue(r, g) == FieldValue(info, g)
  {
    info.(links := RemoveLinks(info.links, linkId))
  }

  /** `handleChange` for a text field: the record with that field set becomes the section's content. */
  method HandleChange(store: ResumeStore, sectionId: string, content: PersonalInfo, field: PersonalField, value: string)
    modifies store
    ensures store.sections ==
      Updated(old(store.sections), sectionId, Replace(PersonalContent(WithField(content, field, value))))
  {
    store.UpdateSection(sectionId, Replace(PersonalContent(WithField(content, field, value))));
  }

  /**
   * `handleChange('links', links)`, which `addLink`, `updateLink` and
   * `removeLink` call with the links they computed.
   */
  method HandleLinks(store: ResumeStore, sectionId: string, content: PersonalInfo, links: seq<Link>)
    modifies store
    ensures store.sections ==
      Updated(old(store.sections), sectionId, Replace(PersonalContent(content.(links := links))))
  {
    store.UpdateSection(sectionId, Replace(PersonalContent(content.(links := links))));
  }
}
