# Résumé builder: layout heuristic and résumé state

A Dafny model of the logic of a browser-based résumé builder. A résumé is
an ordered list of typed sections (personal details, about, education,
experience, skills, projects, certificates, languages, references). Each
section holds either a record or a list of entries.

The model covers:

- **The preview's page layout** (`src/components/ResumePreview.tsx`).
  - Every section gets a height estimate in millimetres from a per-type
    formula plus a 10 mm buffer.
  - One next-fit pass packs the sections, in order, into A4 pages. A page
    holds 257 mm of content: the 297 mm height minus two 20 mm margins.
  - Every page but the last gets a "Page i of N" footer.
  - The pass is proved against a declarative characterisation (`NextFit`),
    and that characterisation is proved to determine the pages uniquely.
  - The pass keeps the source's quirk: a break pushes the current page even
    when it is still empty, so an oversized first section leaves an empty
    first page.
- **The résumé store** (`src/store/useResumeStore.ts`), modelled as a class
  with a `sections` field.
  - Each of its six actions is specified by a pure function of the old
    list, and the method is proved to compute exactly that function.
  - Four of the six actions (`addSection`, `removeSection`, `addEntry`,
    `removeEntry`) are proved to keep every section's content in the shape
    its type prescribes. The other two, `updateSection` and
    `reorderSections`, accept any content or list, as the source does, and
    promise no such shape.
- **The application's handlers** (`src/App.tsx`): the drag-and-drop move of
  a section and the "add section" menu.
- **The editors' updaters** (`src/components/editors/*.tsx`): single-field
  edits at an index, point and skill-item add, update and remove, link add,
  update and remove by id, and the comma split-and-trim of a project's
  technologies with its round trip through the `", "`-joined display.
- **The localization store** (`src/store/useLanguageStore.ts`): the current
  language and the lookup that falls back to the key.

Files:

| file | module | models |
|---|---|---|
| `resume_types.dfy` | `ResumeTypes` | the section record and the content union of `src/types/index.ts` |
| `lists.dfy` | `Lists` | `splice`, indexed assignment into a copy, and `filter` by position |
| `resume_preview.dfy` | `ResumePreview` | estimator, paginator, footers |
| `estimate_growth.dfy` | `EstimateGrowth` | how store and editor edits move the estimate |
| `store_preview.dfy` | `StorePreview` | the preview laying out a well-formed store's sections |
| `pagination_examples.dfy` | `PaginationExamples` | three concrete layouts worked through |
| `resume_store.dfy` | `SectionStore` | the store and the functions that specify its actions |
| `app.dfy` | `App` | `handleDragEnd`, `handleAddSection` |
| `*_editor.dfy` | one module per editor | the editors' updaters |
| `language_store.dfy` | `Localization` | `t` and `setLanguage` |

The editors' updaters are written as methods that take the list the updater
receives and return the list it builds. The reorder and the whole-content
handlers act on the store.

## Model

| member | source | states |
|---|---|---|
| Lists.RemoveAt | src/App.tsx:27 | `splice(i, 1)`: one element shorter, elements before `i` kept, later ones shifted down by one |
| Lists.InsertAt | src/App.tsx:28 | `splice(i, 0, x)`: one element longer, `x` at `i`, elements before kept, later ones shifted up by one |
| Lists.RemoveAtMultiset | src/App.tsx:27 | the removed element plus what is left is the original multiset |
| Lists.InsertAtMultiset | src/App.tsx:28 | inserting adds exactly that element to the multiset |
| Lists.RemoveInsert | src/App.tsx:27-28 | removing at `i` what was just inserted at `i` gives the list back |
| Lists.InsertRemove | src/App.tsx:27-28 | re-inserting a removed element at its old index gives the list back |
| Lists.AssignAt | src/store/useResumeStore.ts:45-55 | assigning into a copied array: the same length, the new value at `i`, every other element unchanged |
| Lists.WithoutIndexIsRemoveAt | src/components/editors/SkillsEditor.tsx:62 | `filter((_, i) => i !== k)` removes exactly the element at `k` when `k` is in range and nothing otherwise, negative `k` included |
| ResumePreview.CeilDiv | src/components/ResumePreview.tsx:276 | `Math.ceil(a / b)` is the least `q` with `a <= b * q` |
| ResumePreview.Utf16Length | src/components/ResumePreview.tsx:276 | a string's `length` in UTF-16 code units: between the number of characters and twice it, equal to it for text within the Basic Multilingual Plane, twice it for text wholly beyond it |
| ResumePreview.PointCounts | src/components/ResumePreview.tsx:280-287 | one point count per entry |
| ResumePreview.PointCountsPerEntry | src/components/ResumePreview.tsx:280-287 | each count is its entry's number of points, a missing points list counting 0, and entries of the other list types count 0 |
| ResumePreview.Estimate | src/components/ResumePreview.tsx:270-309 | every estimate is at least 30 mm |
| ResumePreview.EstimateHeight | src/components/ResumePreview.tsx:270-309 | the switch with its accumulating loop over entries computes the per-type formula plus the 10 mm buffer, the about text measured in UTF-16 code units |
| ResumePreview.FlattenSnoc | src/components/ResumePreview.tsx:312-317 | pushing a page appends its sections to the concatenation of the pages |
| ResumePreview.PageHeightSnoc | src/components/ResumePreview.tsx:316-317 | appending a section adds its estimate to the page's height |
| ResumePreview.PackedBreak | src/components/ResumePreview.tsx:311-314 | a section that does not fit closes the current page, opens the next one, and keeps the packing invariant |
| ResumePreview.BreakBreaks | src/components/ResumePreview.tsx:311-314 | the new page starts exactly where the old one would overflow |
| ResumePreview.BreakCapacity | src/components/ResumePreview.tsx:313-314 | a page opened by one section stays within capacity or holds that section alone |
| ResumePreview.PackedAppend | src/components/ResumePreview.tsx:315-318 | a section that fits joins the current page and keeps the packing invariant |
| ResumePreview.AppendBreaks | src/components/ResumePreview.tsx:315-318 | appending to the current page keeps every page break where it was |
| ResumePreview.AppendCapacity | src/components/ResumePreview.tsx:315-318 | appending a section that fits keeps the page within the content height |
| ResumePreview.Paginate | src/components/ResumePreview.tsx:254-323 | the pass produces the next-fit packing: the pages concatenate to the sections in order, a page breaks exactly where the next estimate would overflow the 257 mm, a page is over capacity only when it holds a single later section, and no sections give no pages |
| ResumePreview.PrefixSnoc | src/components/ResumePreview.tsx:262 | the sections seen grow by one per iteration |
| ResumePreview.PackedClose | src/components/ResumePreview.tsx:321-323 | pushing the last page when it is non-empty completes the packing |
| ResumePreview.EstimateWithinPage | src/components/ResumePreview.tsx:311-318 | a section's estimate is part of its page's height, strictly so on a page of two or more |
| ResumePreview.OversizedSectionAlone | src/components/ResumePreview.tsx:311-318 | a section estimated over 257 mm is never on the first page and always alone on its page |
| ResumePreview.FlattenCons | src/components/ResumePreview.tsx:312-322 | the first page's sections come first |
| ResumePreview.FirstPageEmptyIff | src/components/ResumePreview.tsx:311-312 | the first page is empty exactly when the first section alone exceeds 257 mm |
| ResumePreview.PackedNothing | src/components/ResumePreview.tsx:255-257 | with no sections, the only packing with a page is the single empty page |
| ResumePreview.SnocInjective | src/components/ResumePreview.tsx:312-317 | appending one element is injective |
| ResumePreview.PackedDropPage | src/components/ResumePreview.tsx:311-314 | a packing whose last page holds only the last section came from a break: the previous page plus that section overflows |
| ResumePreview.PackedTrimLast | src/components/ResumePreview.tsx:315-318 | a packing that appended the last section came from a packing where it fitted |
| ResumePreview.TrimLastBreaks | src/components/ResumePreview.tsx:315-318 | removing the last section of the last page keeps the breaks |
| ResumePreview.TrimLastCapacity | src/components/ResumePreview.tsx:315-318 | the last section was appended only because it fitted |
| ResumePreview.PackedLastShape | src/components/ResumePreview.tsx:311-318 | the last section ends the last page |
| ResumePreview.PackedSplitLast | src/components/ResumePreview.tsx:311-318 | every packing of `s + [x]` is a packing of `s` followed by exactly the step the loop takes for `x`: a break if and only if `x` does not fit |
| ResumePreview.PackedUnique | src/components/ResumePreview.tsx:262-319 | the packing of a list of sections is unique |
| ResumePreview.NextFitUnique | src/components/ResumePreview.tsx:254-323 | the next-fit characterisation determines the pages, so it fully specifies the pass |
| ResumePreview.OversizedFirstSectionLeavesEmptyPage | src/components/ResumePreview.tsx:311-314 | a lone oversized section gives an empty first page and then a page holding it |
| ResumePreview.Frames | src/components/ResumePreview.tsx:328-346 | one frame per page; every page but the last has the extra bottom padding and the footer "Page i+1 of N" |
| ResumePreview.CountLeadingFooters | src/components/ResumePreview.tsx:342-346 | frames whose footers are exactly the first `m` have `m` footers |
| ResumePreview.FooterCount | src/components/ResumePreview.tsx:342-346 | of N pages exactly N - 1 carry a footer, and the last does not |
| StorePreview.WellFormedSectionsEstimable | src/components/ResumePreview.tsx:8 | every section of a store whose contents have their types' shapes can be measured by the estimator |
| StorePreview.PreviewPages | src/components/ResumePreview.tsx:8-323 | the preview of a well-formed store is the next-fit packing of the store's sections |
| EstimateGrowth.SumAppendZero | src/components/ResumePreview.tsx:282-287 | an entry without points adds nothing to the point total |
| EstimateGrowth.SumOneMore | src/components/ResumePreview.tsx:282-287 | one more point on one entry adds one to the point total |
| EstimateGrowth.AddEntryGrowsEstimate | src/components/ResumePreview.tsx:278-302 | adding a blank entry raises the estimate by exactly 20, 20, 10, 25, 15, 10 or 0 mm by type, so never lowers it |
| EstimateGrowth.AddEducationPointGrowsEstimate | src/components/ResumePreview.tsx:284-285 | one more point on an education entry raises the estimate by exactly 8 mm |
| EstimateGrowth.AddExperiencePointGrowsEstimate | src/components/ResumePreview.tsx:284-285 | one more point on an experience entry raises the estimate by exactly 8 mm |
| PaginationExamples.PersonalAndAboutShareAPage | src/components/ResumePreview.tsx:272-277 | a blank personal section (35 mm) and an empty about section (30 mm) share one page |
| PaginationExamples.TwoCertificateSectionsTakeTwoPages | src/components/ResumePreview.tsx:298-299 | two sections of ten certificates (180 mm each) take two pages of one section each |
| PaginationExamples.AstralAboutText | src/components/ResumePreview.tsx:275-277 | 101 characters beyond the Basic Multilingual Plane count as 202 code units, giving an about section of 60 mm |
| PaginationExamples.LongExperienceSitsAlone | src/components/ResumePreview.tsx:278-314 | one experience entry with 30 points (290 mm) gives an empty first page and then a page holding it |
| SectionStore.IndexOf | src/store/useResumeStore.ts:42 | `findIndex`: the first position holding the id, or -1 exactly when no section has it |
| SectionStore.InitialContent | src/store/useResumeStore.ts:17-34 | the blank content fits the type: empty list, empty personal record, empty description |
| SectionStore.Updated | src/store/useResumeStore.ts:40-59 | only the content of the first section with the id changes, to the updater's result or the given content; an unknown id changes nothing |
| SectionStore.RemoveById | src/store/useResumeStore.ts:61-64 | no kept section has the id |
| SectionStore.RemoveByIdMembers | src/store/useResumeStore.ts:63 | a section is kept if and only if it was present and its id differs |
| SectionStore.RemoveByIdConcat | src/store/useResumeStore.ts:63 | the filter works piecewise, so the kept sections keep their relative order |
| SectionStore.RemoveUnknownId | src/store/useResumeStore.ts:63 | removing an id no section has changes nothing |
| SectionStore.AddBlankEntry | src/store/useResumeStore.ts:71-97 | one blank entry of the type, carrying the new id and empty fields (no points, items or technologies, no GPA or link), is appended to the old list: the list fits the type, holds one more entry, and removing the last entry gives the old list |
| SectionStore.RemoveEntryAt | src/store/useResumeStore.ts:113 | the list keeps its type and loses one entry when the index is in range, none otherwise |
| SectionStore.RemoveEntryAtIsSplice | src/store/useResumeStore.ts:113 | the entry at the index goes and later ones shift down; an index out of range removes nothing |
| SectionStore.WithEntryAdded | src/store/useResumeStore.ts:65-101 | only the target section's list changes, gaining the blank entry of its type with the new id at the end; an unknown id or a non-list content changes nothing |
| SectionStore.WithEntryRemoved | src/store/useResumeStore.ts:102-117 | only the target section's list changes, losing the entry at the index; an unknown id or a non-list content changes nothing |
| SectionStore.AddThenRemoveEntry | src/store/useResumeStore.ts:65-117 | removing the entry just added gives the sections back |
| SectionStore.ResumeStore.constructor | src/store/useResumeStore.ts:15 | the store starts with no sections |
| SectionStore.ResumeStore.AddSection | src/store/useResumeStore.ts:16-39 | one section is appended with the caller's id and type and the type's blank content; well-formedness is kept |
| SectionStore.ResumeStore.UpdateSection | src/store/useResumeStore.ts:40-59 | the copy-and-assign produces `Updated` |
| SectionStore.ResumeStore.ReorderSections | src/store/useResumeStore.ts:60 | the list is replaced by the given one as it is |
| SectionStore.ResumeStore.RemoveSection | src/store/useResumeStore.ts:61-64 | the list becomes the filter without the id; well-formedness is kept |
| SectionStore.ResumeStore.AddEntry | src/store/useResumeStore.ts:65-101 | the copy-and-assign produces `WithEntryAdded`; well-formedness is kept |
| SectionStore.ResumeStore.RemoveEntry | src/store/useResumeStore.ts:102-117 | the copy-and-assign produces `WithEntryRemoved`; well-formedness is kept |
| App.Move | src/App.tsx:26-28 | the same length and multiset, the moved element at the target index, and the others in their old relative order |
| App.MoveBack | src/App.tsx:26-28 | moving back from the target to the source index undoes the move |
| App.MoveInPlace | src/App.tsx:26-28 | moving an element onto its own index changes nothing |
| App.HandleDragEnd | src/App.tsx:18-32 | no target or a drop onto itself changes nothing; otherwise the dragged section moves to the index of the section it was dropped on |
| App.HandleAddSection | src/App.tsx:34-42 | one section of the chosen type with the fresh id and the type's blank content is appended |
| EducationEditor.SetField | src/components/editors/EducationEditor.tsx:35 | the named field reads back the value, every other field, the id and the points are kept |
| EducationEditor.HandleChange | src/components/editors/EducationEditor.tsx:32-38 | only the named field of the entry at the index changes; the length and the other entries are kept |
| EducationEditor.AddPoint | src/components/editors/EducationEditor.tsx:40-49 | the entry's points grow by one `""` at the end, earlier points kept; no points become `[""]`; nothing else changes |
| EducationEditor.UpdatePoint | src/components/editors/EducationEditor.tsx:51-59 | exactly the point at the index takes the value, the length kept; nothing else changes |
| EducationEditor.RemovePoint | src/components/editors/EducationEditor.tsx:61-69 | the point at the index goes and later ones shift down; an index past the end removes nothing; nothing else changes |
| EducationEditor.HandleReorder | src/components/editors/EducationEditor.tsx:179-181 | the reordered list replaces the section's content |
| ExperienceEditor.SetField | src/components/editors/ExperienceEditor.tsx:35 | the named field reads back the value, every other field, the id and the points are kept |
| ExperienceEditor.HandleChange | src/components/editors/ExperienceEditor.tsx:32-38 | only the named field of the entry at the index changes |
| ExperienceEditor.AddPoint | src/components/editors/ExperienceEditor.tsx:40-49 | the entry's points grow by one `""` at the end, earlier points kept |
| ExperienceEditor.UpdatePoint | src/components/editors/ExperienceEditor.tsx:51-59 | exactly the point at the index takes the value, the length kept |
| ExperienceEditor.RemovePoint | src/components/editors/ExperienceEditor.tsx:61-69 | the point at the index goes and later ones shift down; an index past the end removes nothing |
| ExperienceEditor.HandleReorder | src/components/editors/ExperienceEditor.tsx:170-172 | the reordered list replaces the section's content |
| SkillsEditor.HandleChange | src/components/editors/SkillsEditor.tsx:30-36 | only the category of the skill at the index changes |
| SkillsEditor.AddSkill | src/components/editors/SkillsEditor.tsx:38-47 | the skill's items grow by one `""` at the end, earlier items kept |
| SkillsEditor.UpdateSkillItem | src/components/editors/SkillsEditor.tsx:49-57 | exactly the item at the index takes the value, the length kept |
| SkillsEditor.RemoveSkill | src/components/editors/SkillsEditor.tsx:59-66 | the item at the index goes and the rest keep their order; an index out of range removes nothing |
| SkillsEditor.HandleReorder | src/components/editors/SkillsEditor.tsx:139-141 | the reordered list replaces the section's content |
| ProjectsEditor.TrimStart | src/components/editors/ProjectsEditor.tsx:39 | a suffix that does not start with whitespace, everything dropped being whitespace |
| ProjectsEditor.TrimEnd | src/components/editors/ProjectsEditor.tsx:39 | a prefix that does not end with whitespace, everything dropped being whitespace |
| ProjectsEditor.Trim | src/components/editors/ProjectsEditor.tsx:39 | `trim()` leaves no whitespace at either end |
| ProjectsEditor.TrimKeepsOut | src/components/editors/ProjectsEditor.tsx:39 | trimming adds no character |
| ProjectsEditor.TrimTrimmed | src/components/editors/ProjectsEditor.tsx:39 | a string without surrounding whitespace is its own trim |
| ProjectsEditor.TrimAfterSpace | src/components/editors/ProjectsEditor.tsx:39 | the space after the separator's comma is trimmed away |
| ProjectsEditor.Split | src/components/editors/ProjectsEditor.tsx:39 | `split(',')` gives one more piece than there are commas, and no piece holds a comma |
| ProjectsEditor.SplitAfterPiece | src/components/editors/ProjectsEditor.tsx:39 | a comma-free piece followed by a comma splits off as one element |
| ProjectsEditor.SplitWhole | src/components/editors/ProjectsEditor.tsx:39 | a comma-free string is a single piece |
| ProjectsEditor.SplitCons | src/components/editors/ProjectsEditor.tsx:39 | a leading non-comma joins the first piece |
| ProjectsEditor.SplitTrim | src/components/editors/ProjectsEditor.tsx:39 | the technologies: one more than the commas of the input, none holding a comma or surrounding whitespace |
| ProjectsEditor.SplitTrimEmpty | src/components/editors/ProjectsEditor.tsx:39 | an empty input gives `[""]`, not `[]` |
| ProjectsEditor.SplitJoined | src/components/editors/ProjectsEditor.tsx:78 | splitting the `", "`-joined list gives the first item, then each later item behind one space |
| ProjectsEditor.PiecesAfterSeparator | src/components/editors/ProjectsEditor.tsx:78 | the pieces of the joined tail, shifted by one, follow the first item |
| ProjectsEditor.JoinSplitTrimRoundTrip | src/components/editors/ProjectsEditor.tsx:78 | a non-empty list of comma-free, trimmed items survives the display and the re-parse unchanged |
| ProjectsEditor.EmptyListDoesNotRoundTrip | src/components/editors/ProjectsEditor.tsx:78 | an empty list comes back as `[""]` |
| ProjectsEditor.SetField | src/components/editors/ProjectsEditor.tsx:33 | the named field reads back the value, every other field, the id and the technologies are kept |
| ProjectsEditor.HandleChange | src/components/editors/ProjectsEditor.tsx:30-36 | only the named field of the project at the index changes |
| ProjectsEditor.HandleTechnologies | src/components/editors/ProjectsEditor.tsx:38-40 | only the technologies of the project at the index change, to the split and trimmed input |
| ProjectsEditor.HandleReorder | src/components/editors/ProjectsEditor.tsx:119-121 | the reordered list replaces the section's content |
| PersonalInfoEditor.WithField | src/components/editors/PersonalInfoEditor.tsx:14-19 | the named field reads back the value, the other fields and the links are kept |
| PersonalInfoEditor.AddLink | src/components/editors/PersonalInfoEditor.tsx:21-28 | one link with the new id and empty label and url at the end, the others and every text field kept |
| PersonalInfoEditor.SetLinkField | src/components/editors/PersonalInfoEditor.tsx:32 | the named link field takes the value, the id and the other field are kept |
| PersonalInfoEditor.UpdateLinks | src/components/editors/PersonalInfoEditor.tsx:30-35 | every link with the id gets the field set, every other link is kept, the length and order stay |
| PersonalInfoEditor.UpdateUnknownLink | src/components/editors/PersonalInfoEditor.tsx:31-33 | an unknown link id changes nothing |
| PersonalInfoEditor.RemoveLinks | src/components/editors/PersonalInfoEditor.tsx:38 | no kept link has the id |
| PersonalInfoEditor.RemoveLinksMembers | src/components/editors/PersonalInfoEditor.tsx:38 | a link is kept if and only if it was present and its id differs |
| PersonalInfoEditor.RemoveLinksConcat | src/components/editors/PersonalInfoEditor.tsx:38 | the filter works piecewise, so the kept links keep their order |
| PersonalInfoEditor.RemoveUnknownLink | src/components/editors/PersonalInfoEditor.tsx:38 | an unknown link id removes nothing |
| PersonalInfoEditor.RemoveLink | src/components/editors/PersonalInfoEditor.tsx:37-40 | removing links keeps every text field |
| PersonalInfoEditor.HandleChange | src/components/editors/PersonalInfoEditor.tsx:14-19 | the record with the field set, built from the shown content, replaces the section's content |
| PersonalInfoEditor.HandleLinks | src/components/editors/PersonalInfoEditor.tsx:21-40 | the record with the new links replaces the section's content |
| LanguagesEditor.SetField | src/components/editors/LanguagesEditor.tsx:16-19 | the named field reads back the value, every other field and the id are kept |
| LanguagesEditor.Rebuild | src/components/editors/LanguagesEditor.tsx:15-19 | the copy of the list has the same length, the edited entry at the index and every other entry unchanged |
| LanguagesEditor.HandleChange | src/components/editors/LanguagesEditor.tsx:14-21 | the rebuilt list itself, not an updater, replaces the section's content |
| LanguagesEditor.RemoveTargetsOwnPosition | src/components/editors/LanguagesEditor.tsx:67 | the remove button of the entry at an index drops exactly that entry |
| CertificatesEditor.SetField | src/components/editors/CertificatesEditor.tsx:33 | the named field reads back the value, every other field and the id are kept |
| CertificatesEditor.HandleChange | src/components/editors/CertificatesEditor.tsx:30-35 | only the named field of the certificate at the index changes; the length and the other entries are kept |
| CertificatesEditor.HandleReorder | src/components/editors/CertificatesEditor.tsx:104-106 | the reordered list replaces the section's content |
| ReferencesEditor.SetField | src/components/editors/ReferencesEditor.tsx:35 | the named field reads back the value, every other field and the id are kept |
| ReferencesEditor.HandleChange | src/components/editors/ReferencesEditor.tsx:32-37 | only the named field of the reference at the index changes; the length and the other entries are kept |
| ReferencesEditor.HandleReorder | src/components/editors/ReferencesEditor.tsx:125-127 | the reordered list replaces the section's content |
| Localization.LanguageStore.constructor | src/store/useLanguageStore.ts:11 | the store starts in English |
| Localization.LanguageStore.T | src/store/useLanguageStore.ts:12-15 | the current language's string when the table has a non-empty one, the key otherwise; a non-empty key always gives a non-empty text |
| Localization.LanguageStore.SetLanguage | src/store/useLanguageStore.ts:16 | the current language becomes the argument; nothing else changes |

## Left out

- `src/utils/pdfGenerator.ts`: it draws through a foreign PDF library with floating-point cursor arithmetic.
- `src/components/SortableList.tsx`: a wrapper over a drag-and-drop library whose `arrayMove` is foreign. The move itself is modelled by `App.Move`.
- `src/components/ResumeEditor.tsx` and `src/components/editors/AboutEditor.tsx`: the first only dispatches on the section type. The second replaces the content with a description, which is an instance of `updateSection`.
- The JSX rendering, the styling, and the React and store-library plumbing. The stores become classes, and the hooks' `set` becomes field assignment.
- `src/i18n/translations.ts`: the string tables are a parameter of `Localization.LanguageStore`, not transcribed.
- `crypto.randomUUID`: every new section, entry and link id is a parameter.
- Estimate monotonicity is proved for one added entry or point. The page count as a function of the capacity is not stated, because the capacity is a fixed constant.
- App.HandleDragEnd: requires both ids to be present when there is a drop target. The source does not check this. Drag sources and drop targets are the sections themselves, so a missing id cannot occur. The model does not capture `splice(-1, …)`.
- The editors' updaters are methods over the list the updater receives. They are not closures handed to `updateSection`. `SectionStore.ResumeStore.UpdateSection` takes either a replacement or a pure function, which covers both.
- EducationEditor.HandleChange, AddPoint, UpdatePoint, RemovePoint and the same updaters of the other editors: require the entry index to be in range. Each is only reachable from the entry it edits, so the index is always in range. The updaters of the point and skill-item editors likewise require an existing point or item index, except the removals, which follow `splice` and `filter` for any index.
- SkillsEditor.HandleChange: covers only the `category` field, the one field the form edits through it. The items are edited by the three item updaters.
- ExperienceEditor.AddPoint: `points || []` has no effect, because an experience entry's points are never absent in the types.
- SectionStore.ResumeStore.AddEntry: requires that a list in the target section is the list of the section's type. The source appends an entry of the section's type to whatever list it finds, so a mismatched list would receive an entry of a foreign shape. The content union of the model cannot hold such a list.
- ResumePreview.Estimate, ResumePreview.EstimateHeight and ResumePreview.Paginate: take only sections whose type calls for a list and that hold one. On other content the source misbehaves. An education or experience section throws at `items.forEach`. For the other list types, `.length * n` is `NaN`, so every later page-break test is false and all later sections pile onto the current page. The model does not capture either behaviour. `StorePreview.PreviewPages` shows that the sections of a store the model's actions keep well-formed always meet the restriction. `updateSection` and `reorderSections` can break it.
- The page break does not test whether the current page is empty. The model keeps this, which gives an oversized first section an empty first page.
