/**
 * The updaters of `src/components/editors/EducationEditor.tsx`. Each one
 * receives the section's current list of education entries, copies it and
 * assigns the edited entry at the entry's index.
 */
module EducationEditor {
  import opened ResumeTypes
  import opened Lists
  import opened SectionStore

  /** The text fields the form edits. */
  datatype EducationField = School | Degree | Date | Gpa | Location

  /** The field's text as the form shows it; an absent GPA shows as empty. */
  function FieldValue(e: EducationEntry, f: EducationField): string {
    match f
    case School => e.school
    case Degree => e.degree
    case Date => e.date
    case Gpa => e.gpa.GetOr("")
    case Location => e.location
  }

  /** `{ ...entry, [field]: value }`: the named field reads back the value, the rest is kept. */
  function SetField(e: EducationEntry, f: EducationField, value: string): (r: EducationEntry)
    ensures forall g :: FieldValue(r, g) == if g == f then value else FieldValue(e, g)
    ensures r.id == e.id && r.points == e.points
    ensures f == Gpa ==> r.gpa == Some(value)
    ensures f != Gpa ==> r.gpa == e.gpa
  {
    match f
    case School => e.(school := value)
    case Degree => e.(degree := value)
    case Date => e.(date := value)
    case Gpa => e.(gpa := Some(value))
    case Location => e.(location := value)
  }

  /** The entry's points, an absent list read as empty (`points || []`). */
  function Points(e: EducationEntry): seq<string> {
    e.points.GetOr([])
  }

  /** `handleChange`: only the named field of the entry at `index` changes. */
  method HandleChange(content: seq<EducationEntry>, index: nat, field: EducationField, value: string)
    returns (r: seq<EducationEntry>)
    requires index < |content|
    ensures |r| == |content| && r[index] == SetField(content[index], field, value)
    ensures forall j | 0 <= j < |content| && j != index :: r[j] == content[j]
  {
    r := AssignAt(content, index, SetField(content[index], field, value));
  }

  /**
   * `addPoint`: the entry's points grow by one empty point at the end, the
   * earlier points kept; an entry without points gets `[""]`.
   */
  method AddPoint(content: seq<EducationEntry>, index: nat) returns (r: seq<EducationEntry>)
    requires index < |content|
    ensures |r| == |content| && r[index] == content[index].(points := r[index].points)
    ensures forall j | 0 <= j < |content| && j != index :: r[j] == content[j]
    ensures var before, after := Points(content[index]), r[index].points;
      && after.Some? && |after.value| == |before| + 1
      && after.value[..|before|] == before && after.value[|before|] == ""
    ensures content[index].points.None? ==> r[index].points == Some([""])
  {
    var entry := content[index];
    var points := Points(entry) + [""];
    r := AssignAt(content, index, entry.(points := Some(points)));
  }

  /** `updatePoint`: exactly the point at `pointIndex` takes the new text. */
  method UpdatePoint(content: seq<EducationEntry>, index: nat, pointIndex: nat, value: string)
    returns (r: seq<EducationEntry>)
    requires index < |content| && pointIndex < |Points(content[index])|
    ensures |r| == |content| && r[index] == content[index].(points := r[index].points)
    ensures forall j | 0 <= j < |content| && j != index :: r[j] == content[j]
    ensures var before, after := Points(content[index]), r[index].points;
      && after.Some? && |after.value| == |before| && after.value[pointIndex] == value
      && forall q | 0 <= q < |before| && q != pointIndex :: after.value[q] == before[q]
  {
    var entry := content[index];
    var points := AssignAt(Points(entry), pointIndex, value);
    r := AssignAt(content, index, entry.(points := Some(points)));
  }

  /**
   * `removePoint`: `points.splice(pointIndex, 1)` on a copy; the point at
   * `pointIndex` goes and the later ones shift down, and an index past the
   * end removes nothing.
   */
  method RemovePoint(content: seq<EducationEntry>, index: nat, pointIndex: nat)
    returns (r: seq<EducationEntry>)
    requires index < |content|
    ensures |r| == |content| && r[index] == content[index].(points := r[index].points)
    ensures forall j | 0 <= j < |content| && j != index :: r[j] == content[j]
    ensures var before, after := Points(content[index]), r[index].points;
      && after.Some?
      && after.value == if pointIndex < |before| then RemoveAt(before, pointIndex) else before
  {
    var entry := content[index];
    var points := Points(entry);
    if pointIndex < |points| {
      points := RemoveAt(points, pointIndex);
    }
    r := AssignAt(content, index, entry.(points := Some(points)));
  }

  /** `handleReorder`: the reordered list replaces the section's content as it is. */
  method HandleReorder(store: ResumeStore, sectionId: string, newContent: seq<EducationEntry>)
    modifies store
    ensures store.sections == Updated(old(store.sections), sectionId, Replace(EducationList(newContent)))
  {
    store.UpdateSection(sectionId, Replace(EducationList(newContent)));
  }
}
