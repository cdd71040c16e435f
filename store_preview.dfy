/**
 * The preview lays out the store's sections (`src/components/ResumePreview.tsx`
 * reads them straight from the store). Every section of a well-formed store
 * is one the estimator can measure, so the layout of a well-formed store is
 * always the next-fit packing of its sections.
 */
module StorePreview {
  import opened ResumeTypes
  import opened ResumePreview
  import opened SectionStore

  /** A section whose content has its type's shape holds a list whenever its type calls for one. */
  lemma WellFormedSectionsEstimable(sections: seq<Section>)
    requires AllWellFormed(sections)
    ensures forall j | 0 <= j < |sections| :: Estimable(sections[j])
  {
    forall j | 0 <= j < |sections|
      ensures Estimable(sections[j])
    {
      assert WellFormed(sections[j]);
    }
  }

  /** The pages the preview renders for the store's current sections. */
  method PreviewPages(store: ResumeStore) returns (pages: seq<Page>)
    requires store.Valid()
    ensures forall j | 0 <= j < |store.sections| :: Estimable(store.sections[j])
    ensures NextFit(store.sections, pages)
  {
    WellFormedSectionsEstimable(store.sections);
    var sections: seq<EstimableSection> := store.sections;
    pages := Paginate(sections);
  }
}
