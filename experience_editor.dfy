/**
 * The updaters of `src/components/editors/ExperienceEditor.tsx`. Each one
 * receives the section's current list of experience entries, copies it and
 * assigns the edited entry at the entry's index.
 */
module ExperienceEditor {
  import opened ResumeTypes
  import opened Lists
  import opened SectionStore

  /** The text fields the form edits. */
  datatype ExperienceField = Title | Company | Date | Location

  function FieldValue(e: ExperienceEntry, f: ExperienceField): string {
    match f
    case Title => e.title
    case Company => e.company
    case Date => e.date
    case Location => e.location
  }

  /** `{ ...entry, [field]: value }`: the named field reads back the value, the rest is kept. */
  function SetField(e: ExperienceEntry, f: ExperienceField, value: string): (r: ExperienceEntry)
    ensures forall g :: FieldValue(r, g) == if g == f then value else FieldValue(e, g)
    ensures r.id == e.id && r.points == e.points
  {
    match f
    case Title => e.(title := value)
    case Company => e.(company := value)
    case Date => e.(date := value)
    case Location => e.(location := value)
  }

  /** `handleChange`: only the named field of the entry at `index` changes. */
  method HandleChange(content: seq<ExperienceEntry>, index: nat, field: ExperienceField, value: string)
    returns (r: seq<ExperienceEntry>)
    requires index < |content|
    ensures |r| == |content| && r[index] == SetField(content[index], field, value)
    ensures forall j | 0 <= j < |content| && j != index :: r[j] == content[j]
  {
    r := AssignAt(content, index, SetField(content[index], field, value));
  }

  /** `addPoint`: the entry's points grow by one empty point at the end, the earlier points kept. */
  method AddPoint(content: seq<ExperienceEntry>, index: nat) returns (r: seq<ExperienceEntry>)
    requires index < |content|
    ensures |r| == |content| && r[index] == content[index].(points := r[index].points)
    ensures forall j | 0 <= j < |content| && j != index :: r[j] == content[j]
    ensures var before, after := content[index].points, r[index].points;
      |after| == |before| + 1 && after[..|before|] == before && after[|before|] == ""
  {
    var entry := content[index];
    var points := entry.points + [""];
    r := AssignAt(content, index, entry.(points := points));
  }

  /** `updatePoint`: exactly the point at `pointIndex` takes the new text. */
  method UpdatePoint(content: seq<ExperienceEntry>, index: nat, pointIndex: nat, value: string)
    returns (r: seq<ExperienceEntry>)
    requires index < |content| && pointIndex < |content[index].points|
    ensures |r| == |content| && r[index] == content[index].(points := r[index].points)
    ensures forall j | 0 <= j < |content| && j != index :: r[j] == content[j]
    ensures var before, after := content[index].points, r[index].points;
      && |after| == |before| && after[pointIndex] == value
      && forall q | 0 <= q < |before| && q != pointIndex :: after[q] == before[q]
  {
    var entry := content[index];
    var points := AssignAt(entry.points, pointIndex, value);
    r := AssignAt(content, index, entry.(points := points));
  }

  /**
   * `removePoint`: `points.splice(pointIndex, 1)` on a copy; the point at
   * `pointIndex` goes and the later ones shift down, and an index past the
   * end removes nothing.
   */
  method RemovePoint(content: seq<ExperienceEntry>, index: nat, pointIndex: nat)
    returns (r: seq<ExperienceEntry>)
    requires index < |content|
    ensures |r| == |content| && r[index] == content[index].(points := r[index].points)
    ensures forall j | 0 <= j < |content| && j != index :: r[j] == content[j]
    ensures var before := content[index].points;
      r[index].points == if pointIndex < |before| then RemoveAt(before, pointIndex) else before
  {
    var entry := content[index];
    var points := entry.points;
    if pointIndex < |points| {
      points := RemoveAt(points, pointIndex);
    }
    r := AssignAt(content, index, entry.(points := points));
  }

  /** `handleReorder`: the reordered list replaces the section's content as it is. */
  method HandleReorder(store: ResumeStore, sectionId: string, newContent: seq<ExperienceEntry>)
    modifies store
    ensures store.sections == Updated(old(store.sections), sectionId, Replace(ExperienceList(newContent)))
  {
    store.UpdateSection(sectionId, Replace(ExperienceList(newContent)));
  }
}
