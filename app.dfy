/**
 * The two state-changing handlers of `src/App.tsx`: the drag-and-drop
 * reorder of sections and the "add section" menu.
 */
module App {
  import opened ResumeTypes
  import opened Lists
  import opened SectionStore

  /**
   * Moving the element at `from` so that it ends up at `to`: cut it out,
   * then insert it at `to` in the shortened list. The result is a
   * permutation, the moved element sits at `to`, and removing it again
   * leaves the other elements in their old relative order.
   */
  function Move<T>(s: seq<T>, from: nat, to: nat): (r: seq<T>)
    requires from < |s| && to < |s|
    ensures |r| == |s| && r[to] == s[from]
    ensures multiset(r) == multiset(s)
    ensures RemoveAt(r, to) == RemoveAt(s, from)
  {
    var rest := RemoveAt(s, from);
    RemoveAtMultiset(s, from);
    InsertAtMultiset(rest, to, s[from]);
    RemoveInsert(rest, to, s[from]);
    InsertAt(rest, to, s[from])
  }

  /** Moving the element back to where it came from undoes the move. */
  lemma MoveBack<T>(s: seq<T>, from: nat, to: nat)
    requires from < |s| && to < |s|
    ensures Move(Move(s, from, to), to, from) == s
  {
    var r := Move(s, from, to);
    assert RemoveAt(r, to) == RemoveAt(s, from);
    InsertRemove(s, from);
  }

  /** Moving an element onto its own position changes nothing. */
  lemma MoveInPlace<T>(s: seq<T>, i: nat)
    requires i < |s|
    ensures Move(s, i, i) == s
  {
    InsertRemove(s, i);
  }

  /**
   * `handleDragEnd`: with no drop target or a drop onto itself nothing
   * happens; otherwise the dragged section moves to the index of the
   * section it was dropped on, by splicing it out of a copy and back in.
   * The drag sources and drop targets are the sections themselves, so both
   * ids are present whenever there is a target.
   */
  method HandleDragEnd(store: ResumeStore, active: string, over: Option<string>)
    requires over.Some? ==>
      IndexOf(store.sections, active) >= 0 && IndexOf(store.sections, over.value) >= 0
    modifies store
    ensures over.None? || active == over.value ==> store.sections == old(store.sections)
    ensures over.Some? && active != over.value ==>
      store.sections == Move(old(store.sections), IndexOf(old(store.sections), active),
                             IndexOf(old(store.sections), over.value))
  {
    if over.None? {
      return;
    }
    if active != over.value {
      var oldIndex := IndexOf(store.sections, active);
      var newIndex := IndexOf(store.sections, over.value);
      var newSections := store.sections;
      var removed := newSections[oldIndex];
      newSections := RemoveAt(newSections, oldIndex);
      newSections := InsertAt(newSections, newIndex, removed);
      store.ReorderSections(newSections);
    }
  }

  /**
   * `handleAddSection`: submits a section of the chosen type, with a fresh
   * id and the placeholder content `{}`, to `addSection`, which appends it
   * with the type's blank content.
   */
  method HandleAddSection(store: ResumeStore, kind: SectionType, newId: string)
    modifies store
    ensures store.sections == old(store.sections) + [Section(newId, kind, InitialContent(kind))]
    ensures old(store.Valid()) ==> store.Valid()
  {
    var newSection := Section(newId, kind, Placeholder);
    store.AddSection(newSection);
  }
}
