/**
 * The updaters of `src/components/editors/SkillsEditor.tsx`: the category
 * field, the add, edit and remove of one skill item, and the reorder. The
 * first three copy the list and assign the edited skill at its index; the
 * removal of an item is a filter by position.
 */
module SkillsEditor {
  import opened ResumeTypes
  import opened Lists
  import opened SectionStore

  /** `handleChange('category', value)`: only the category of the skill at `index` changes. */
  method HandleChange(content: seq<Skill>, index: nat, category: string) returns (r: seq<Skill>)
    requires index < |content|
    ensures |r| == |content| && r[index] == content[index].(category := category)
    ensures r[index].category == category && r[index].items == content[index].items
    ensures forall j | 0 <= j < |content| && j != index :: r[j] == content[j]
  {
    r := AssignAt(content, index, content[index].(category := category));
  }

  /** `addSkill`: one empty item is appended to the skill's items, the earlier items kept. */
  method AddSkill(content: seq<Skill>, index: nat) returns (r: seq<Skill>)
    requires index < |content|
    ensures |r| == |content| && r[index] == content[index].(items := r[index].items)
    ensures forall j | 0 <= j < |content| && j != index :: r[j] == content[j]
    ensures var before, after := content[index].items, r[index].items;
      |after| == |before| + 1 && after[..|before|] == before && after[|before|] == ""
  {
    var skill := content[index];
    r := AssignAt(content, index, skill.(items := skill.items + [""]));
  }

  /** `updateSkillItem`: exactly the item at `skillIndex` takes the new text. */
  method UpdateSkillItem(content: seq<Skill>, index: nat, skillIndex: nat, value: string)
    returns (r: seq<Skill>)
    requires index < |content| && skillIndex < |content[index].items|
    ensures |r| == |content| && r[index] == content[index].(items := r[index].items)
    ensures forall j | 0 <= j < |content| && j != index :: r[j] == content[j]
    ensures var before, after := content[index].items, r[index].items;
      && |after| == |before| && after[skillIndex] == value
      && forall q | 0 <= q < |before| && q != skillIndex :: after[q] == before[q]
  {
    var skill := content[index];
    var items := AssignAt(skill.items, skillIndex, value);
    r := AssignAt(content, index, skill.(items := items));
  }

  /**
   * `removeSkill`: `items.filter((_, i) => i !== skillIndex)`. The item at
   * `skillIndex` goes and the others keep their order; an index outside the
   * list (a negative one included) removes nothing.
   */
  method RemoveSkill(content: seq<Skill>, index: nat, skillIndex: int) returns (r: seq<Skill>)
    requires index < |content|
    ensures |r| == |content| && r[index] == content[index].(items := r[index].items)
    ensures forall j | 0 <= j < |content| && j != index :: r[j] == content[j]
    ensures var before := content[index].items;
      r[index].items == if 0 <= skillIndex < |before| then RemoveAt(before, skillIndex) else before
  {
    var skill := content[index];
    var items := WithoutIndex(skill.items, skillIndex);
    WithoutIndexIsRemoveAt(skill.items, skillIndex);
    r := AssignAt(content, index, skill.(items := items));
  }

  /** `handleReorder`: the reordered list replaces the section's content as it is. */
  method HandleReorder(store: ResumeStore, sectionId: string, newContent: seq<Skill>)
    modifies store
    ensures store.sections == Updated(old(store.sections), sectionId, Replace(SkillList(newContent)))
  {
    store.UpdateSection(sectionId, Replace(SkillList(newContent)));
  }
}
