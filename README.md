# mydocmost core, modelled in Dafny

mydocmost is a collaborative wiki. Its pages are ProseMirror documents, and it adds an embedded table, the "doc database". This project models the parts of the wiki that decide things:

- **The embedded table.** The client edits it as a Yjs document with a `columns` array and a `rows` array. Option lists belong to select columns. The filter operators each field type offers are fixed.
- **The server's view table.** A table can have several saved views, at most one of them the default. The service creates tables and views, and lists them.
- **Admission to the collaboration server.** Who may open a page or table document, and who gets it read-only.
- **The space sidebar and the import flows.** The "move page" dialog removes the moved page's subtree from the targets it offers. The page-import dialog merges freshly imported pages into the sidebar tree. The server's import turns an uploaded Markdown, HTML or Word file into a page, taking the title from a leading level-1 heading.
- **The Markdown-to-HTML helper.** Its list renderers, and the fallbacks it uses on oversized or pathological input.
- **Base-path handling.** How the client's bundle, its development proxy and the server's API prefix agree.
- **The embed-provider lookup.**

Modules follow the source files:

| module | file |
|---|---|
| `DatabaseConstants` | `database_constants.dfy` |
| `DocTable` | `doc_table.dfy` |
| `SelectOptions` | `select_options.dfy` |
| `SpaceTree`, `TreeFilter` | `space_tree.dfy`, `tree_filter.dfy` |
| `MovePage`, `PageImport`, `ImportContent` | `move_page.dfy`, `page_import.dfy`, `import_content.dfy` |
| `MarkedUtils` | `marked_utils.dfy` |
| `CollabAuth` | `collab_auth.dfy` |
| `DocDatabaseViews`, `DocDatabaseService` | `doc_database_views.dfy`, `doc_database_service.dfy` |
| `EmbedProvider` | `embed_provider.dfy` |
| `ViteBasePath`, `ServerPrefix` | `vite_base_path.dfy`, `server_prefix.dfy` |

`Wrappers`, `Json`, `Strings` and `Seqs` hold the shared vocabulary.

State that the source changes in place is a class:

- **`DocTable.TableDoc`** is the Yjs document of one table. Each mutating callback of the table view is a method on it, with `version` counting document updates.
- **`DocDatabaseViews.ViewTable`** is the `doc_database_views` table.
- **`DocDatabaseService.Service`** holds the tables and their views.
- **`MovePage.MoveDialog`** is the dialog's React state.
- **`CollabAuth.Connection`** is the collaboration connection, whose read-only flag admission may set.

Everything computed from values is a function, with lemmas relating the functions to each other.

## Model

| member | source | states |
|---|---|---|
| DatabaseConstants.FieldTypeOptionsListEachOnce | apps/client/src/features/editor/components/doc-database/constants.ts:44-56 | the type menu has eleven entries, offers every field type, and offers none twice |
| DatabaseConstants.RandomOptionColor | apps/client/src/features/editor/components/doc-database/constants.ts:81-83 | for any `Math.random()` value in [0, 1) the colour drawn is one of the eight palette colours |
| DatabaseConstants.CheckboxOperatorsAreCheckedAndUnchecked | apps/client/src/features/editor/components/doc-database/constants.ts:141-144 | a checkbox column is filtered only by "checked" then "unchecked", and neither asks for a value |
| DatabaseConstants.NeedsValueExactlyForBinary | apps/client/src/features/editor/components/doc-database/constants.ts:114-173 | for every field type, an operator asks for a value exactly when it is not one of the four unary tests |
| DatabaseConstants.EmptinessOfferedExceptForCheckbox | apps/client/src/features/editor/components/doc-database/constants.ts:114-173 | "is empty" and "is not empty" are offered for a field type if and only if it is not checkbox |
| DatabaseConstants.OrderingOnlyForNumbersAndDates | apps/client/src/features/editor/components/doc-database/constants.ts:114-173 | "greater than" and "less than" are offered if and only if the type is number, date, created time or updated time |
| DatabaseConstants.SharedOperatorLists | apps/client/src/features/editor/components/doc-database/constants.ts:153-172 | url, file and page share text's list; created and updated time share date's; multi-select shares select's |
| DocTable.NumberOr | apps/client/src/features/editor/components/doc-database/database-ref-view.tsx:137 | `Number(x) \|\| fallback`: the number unless it is missing or zero, then the fallback |
| DocTable.ViewOfColumn | apps/client/src/features/editor/components/doc-database/database-ref-view.tsx:131-142 | a read column keeps id and options; a missing name reads as "", a missing type as text; a missing or zero width reads as 150, so no width reads as 0 |
| DocTable.ReadColumns | apps/client/src/features/editor/components/doc-database/database-ref-view.tsx:131-142 | reading never adds columns, and with no hidden column reads one view per column |
| DocTable.ReadColumnsMembers | apps/client/src/features/editor/components/doc-database/database-ref-view.tsx:131-142 | what is read is exactly the views of the non-hidden columns, in both directions |
| DocTable.ReadColumnsAppend | apps/client/src/features/editor/components/doc-database/database-ref-view.tsx:131-142 | reading keeps document order: it distributes over concatenation of column arrays |
| DocTable.HideDropsOnlyThatColumn | apps/client/src/features/editor/components/doc-database/database-ref-view.tsx:1100-1105 | hiding a visible column removes exactly its view from what is read and keeps the others in order |
| DocTable.ReadRows | apps/client/src/features/editor/components/doc-database/database-ref-view.tsx:144-156 | one view per row, in order; missing cells read as empty; a missing or zero timestamp reads as the current time |
| DocTable.FindColumn | apps/client/src/features/editor/components/doc-database/database-ref-view.tsx:1520-1531 | `findIndex` by id: -1 exactly when no column has the id, else the first index holding it |
| DocTable.FindRow | apps/client/src/features/editor/components/doc-database/database-ref-view.tsx:1501-1518 | `findIndex` by id: -1 exactly when no row has the id, else the first index holding it |
| DocTable.WithCell | apps/client/src/features/editor/components/doc-database/database-ref-view.tsx:1507-1515 | setting a cell keeps the row's id and creation time, stamps `updatedAt`, stores the value under the column and leaves every other cell |
| DocTable.ResizedWidth | apps/client/src/features/editor/components/doc-database/database-ref-view.tsx:1675 | the dragged width is the least value that is at least 80 and at least the start width plus the drag |
| DocTable.DefaultColumnFollowsDrag | apps/client/src/features/editor/components/doc-database/database-ref-view.tsx:1674-1675 | a column of the default width 150 follows the drag exactly for any widening and up to 70 pixels of shrinking, and stays at the minimum 80 beyond |
| DocTable.CopyCell | apps/client/src/features/editor/components/doc-database/database-ref-view.tsx:1131-1137 | a row holding a cell for the source column gets the same value under the copy and keeps every other cell; any other row is unchanged |
| DocTable.CopiedCells | apps/client/src/features/editor/components/doc-database/database-ref-view.tsx:1131-1137 | the cell copy keeps the row ids and their order and applies the per-row copy to each row |
| DocTable.CopyOfColumn | apps/client/src/features/editor/components/doc-database/database-ref-view.tsx:1113-1120 | the copy has the new id, the name with " copy" appended, the same type, width and options, and is visible |
| DocTable.ApplyEdit | apps/client/src/features/editor/components/doc-database/database-ref-view.tsx:1078-1105 | rename, retype, new options and hide each change only that attribute of the column, and hide makes it hidden |
| DocTable.DeleteRemovesOneOccurrence | apps/client/src/features/editor/components/doc-database/database-ref-view.tsx:1578-1590 | deleting a row by id removes exactly one occurrence of that id from the row ids |
| DocTable.TableDoc.EnsureInitialized | apps/client/src/features/editor/components/doc-database/database-ref-view.tsx:103-128 | an empty column array gets the single name column, an empty row array a single empty row; non-empty arrays stay; the update count is not touched |
| DocTable.TableDoc.SetCellValue | apps/client/src/features/editor/components/doc-database/database-ref-view.tsx:1501-1518 | with an unknown row nothing changes; otherwise only the first row with the id becomes `WithCell` of itself, and one update is counted |
| DocTable.TableDoc.UpdateColumnOptions | apps/client/src/features/editor/components/doc-database/database-ref-view.tsx:1520-1531 | only the first column with the id gets the new option list; an unknown id changes nothing |
| DocTable.TableDoc.AddRow | apps/client/src/features/editor/components/doc-database/database-ref-view.tsx:1534-1545 | when editable, one empty row stamped now is appended; otherwise nothing changes |
| DocTable.TableDoc.AddColumn | apps/client/src/features/editor/components/doc-database/database-ref-view.tsx:1548-1559 | when editable, a text column "新列" of width 150 is appended and the rows are untouched |
| DocTable.TableDoc.DeleteColumn | apps/client/src/features/editor/components/doc-database/database-ref-view.tsx:1562-1575 | when editable, the first column with the id is removed and the others keep their order; the rows keep that column's cells |
| DocTable.TableDoc.DeleteRow | apps/client/src/features/editor/components/doc-database/database-ref-view.tsx:1578-1590 | when editable, the first row with the id is removed and the others keep their order |
| DocTable.TableDoc.DuplicateRow | apps/client/src/features/editor/components/doc-database/database-ref-view.tsx:1593-1617 | when editable, a row with a fresh id and timestamps and the source row's cells is appended at the end; the source is unchanged |
| DocTable.TableDoc.InsertRow | apps/client/src/features/editor/components/doc-database/database-ref-view.tsx:1620-1657 | when editable, an empty row is inserted at the target's index (above) or the next one (below); an unknown target changes nothing |
| DocTable.TableDoc.ResizeMove | apps/client/src/features/editor/components/doc-database/database-ref-view.tsx:1671-1684 | while a column is being resized, only its width changes, to the clamped width |
| DocTable.TableDoc.EditColumn | apps/client/src/features/editor/components/doc-database/database-ref-view.tsx:1078-1105 | the field editor changes only the first column with the id, by that edit; rows are never touched |
| DocTable.TableDoc.CopyColumn | apps/client/src/features/editor/components/doc-database/database-ref-view.tsx:1107-1138 | the copy is inserted right after the original (appended when it is not found) and every row's cell is copied, in one update |
| SelectOptions.WithoutOption | apps/client/src/features/editor/components/doc-database/database-ref-view.tsx:471-474 | the filter keeps exactly the options with another id, and is the identity when none has the id |
| SelectOptions.WithoutOptionIsFilter | apps/client/src/features/editor/components/doc-database/database-ref-view.tsx:471-474 | the remaining options keep their order, and each option with another id occurs as often as before |
| SelectOptions.WithoutOptionAppend | apps/client/src/features/editor/components/doc-database/database-ref-view.tsx:471-474 | the filter distributes over concatenation |
| SelectOptions.SaveEdit | apps/client/src/features/editor/components/doc-database/database-ref-view.tsx:453-462 | something is written exactly when an option is being edited and the value is not blank; then only options with that id get the trimmed label |
| SelectOptions.Recolor | apps/client/src/features/editor/components/doc-database/database-ref-view.tsx:464-469 | only the colour of options with the id changes; every other option is unchanged |
| SelectOptions.Relabel | apps/client/src/features/editor/components/doc-database/database-ref-view.tsx:775-779 | only the label of options with the id changes, to the new label as typed |
| SelectOptions.DeleteOption | apps/client/src/features/editor/components/doc-database/database-ref-view.tsx:471-474 | an option survives deletion if and only if its id differs from the deleted one; the survivors keep their order and their repetitions |
| SelectOptions.AddOption | apps/client/src/features/editor/components/doc-database/database-ref-view.tsx:476-487 | a non-blank label, and only one, appends an option with the fresh id, trimmed label and drawn colour after the existing ones |
| SelectOptions.Toggle | apps/client/src/features/editor/components/doc-database/database-ref-view.tsx:746-753 | a selected id is removed wherever it occurs, and the other ids keep their order and their number of occurrences; an unselected one is appended |
| Seqs.WithoutIsFilter | apps/client/src/features/editor/components/doc-database/database-ref-view.tsx:746-753 | `filter(id => id !== x)` keeps the other values in order, each as often as before |
| SelectOptions.ToggleTwiceRestores | apps/client/src/features/editor/components/doc-database/database-ref-view.tsx:746-753 | toggling an unselected option twice restores the selection exactly |
| SelectOptions.ExactMatch | apps/client/src/features/editor/components/doc-database/database-ref-view.tsx:744 | a match has the search's trimmed lower-cased text as its lower-cased label and is the first option that has it, as `find` returns; no match means no option has it |
| SelectOptions.Create | apps/client/src/features/editor/components/doc-database/database-ref-view.tsx:755-773 | blank search writes nothing; an existing label selects its option once; a new label appends an option and selects it |
| SelectOptions.CreatedOptionMatches | apps/client/src/features/editor/components/doc-database/database-ref-view.tsx:755-773 | after an option is created from the search, the same search finds exactly that new option |
| SelectOptions.DeleteOptionInCell | apps/client/src/features/editor/components/doc-database/database-ref-view.tsx:786-792 | the option leaves the column's list, and the cell's selection is rewritten exactly when it held the option: without it, the other ids in order and as often as before |
| SelectOptions.Backspace | apps/client/src/features/editor/components/doc-database/database-ref-view.tsx:794-804 | only an empty search with a non-empty selection drops a tag, and it drops exactly the last one |
| SpaceTree.FindFirstIsFirstInPreorder | apps/client/src/features/page/components/move-page-in-space-modal.tsx:60-69 | the depth-first search returns the first node with the id in pre-order, and nothing exactly when the id is nowhere in the forest |
| SpaceTree.FirstWithIdIsFirst | apps/client/src/features/page/components/move-page-in-space-modal.tsx:60-69 | the reference search's result sits at the first position holding the id |
| SpaceTree.FindFirstInForest | apps/client/src/features/page/components/move-page-in-space-modal.tsx:60-69 | a node found by the search is a node of the forest |
| TreeFilter.DescendantIds | apps/client/src/features/page/tree/utils/tree-filter.ts:7-40 | an id absent from the forest has no descendants; a present one is among its own; all are ids of the forest |
| TreeFilter.CollectDescendants | apps/client/src/features/page/tree/utils/tree-filter.ts:29-36 | the accumulator gains exactly the node's subtree ids |
| TreeFilter.Traverse | apps/client/src/features/page/tree/utils/tree-filter.ts:13-27 | the walk reports a hit exactly when the search finds the id, and collects the subtree of the first hit |
| TreeFilter.GetDescendantIds | apps/client/src/features/page/tree/utils/tree-filter.ts:7-40 | the imperative walk returns the reference descendant set |
| TreeFilter.SubtreeWithinForest | apps/client/src/features/page/tree/utils/tree-filter.ts:29-36 | the subtree of any node of the forest lies within the forest's ids |
| TreeFilter.FilterTree | apps/client/src/features/page/tree/utils/tree-filter.ts:46-58 | no kept top-level node is excluded, each has a child list, and nothing is added |
| TreeFilter.FilterTreeAppend | apps/client/src/features/page/tree/utils/tree-filter.ts:46-58 | filtering keeps sibling order: it distributes over concatenation |
| TreeFilter.FilterTreeIds | apps/client/src/features/page/tree/utils/tree-filter.ts:46-58 | no excluded id survives at any depth and no id is invented |
| TreeFilter.FilterTreeSetsChildren | apps/client/src/features/page/tree/utils/tree-filter.ts:52-55 | every node of the result, at any depth, carries a child list |
| TreeFilter.FilterTreeTopLevel | apps/client/src/features/page/tree/utils/tree-filter.ts:50-51 | the kept top-level ids are the non-excluded ones, in their original order |
| TreeFilter.FilterTreeKeepsNodes | apps/client/src/features/page/tree/utils/tree-filter.ts:50-57 | every kept top-level node is a non-excluded input node, unchanged but for its filtered child list |
| TreeFilter.ExcludedSubtreeDropped | apps/client/src/features/page/tree/utils/tree-filter.ts:46-58 | an excluded top-level node disappears with its whole subtree |
| TreeFilter.FilterTreeIdempotent | apps/client/src/features/page/tree/utils/tree-filter.ts:46-58 | filtering twice by the same set is filtering once |
| MovePage.FindNode | apps/client/src/features/page/components/move-page-in-space-modal.tsx:60-69 | the loop with early return finds the reference first node, and nothing exactly when the id is absent |
| MovePage.SpaceRoots | apps/client/src/features/page/components/move-page-in-space-modal.tsx:47-48 | exactly the top-level nodes of the space are kept |
| MovePage.SpaceRootsAppend | apps/client/src/features/page/components/move-page-in-space-modal.tsx:47-48 | the filter distributes over concatenation, so it keeps order and multiplicity |
| MovePage.SpaceRootsIsSubsequence | apps/client/src/features/page/components/move-page-in-space-modal.tsx:47-48 | the space's roots are the top-level nodes with some left out, the rest in order |
| MovePage.SpaceRootsEmpty | apps/client/src/features/page/components/move-page-in-space-modal.tsx:47-48 | the space has no roots exactly when no top-level node belongs to it |
| MovePage.SpaceRootsLast | apps/client/src/features/page/components/move-page-in-space-modal.tsx:91-94 | the last root of the space is the last top-level node of the tree in that space |
| MovePage.SpaceRootsWithinForest | apps/client/src/features/page/components/move-page-in-space-modal.tsx:47-48 | the space's roots hold only ids of the tree |
| MovePage.TargetTreeExcludesSubtree | apps/client/src/features/page/components/move-page-in-space-modal.tsx:45-51 | the offered targets contain neither the moved page nor any descendant, only pages of the tree, and only the space's pages at the top |
| MovePage.ParentOf | apps/client/src/features/page/components/move-page-in-space-modal.tsx:72-73 | the current parent is the moved page's parent id exactly when the page is found with a non-empty parent id |
| MovePage.NewSiblings | apps/client/src/features/page/components/move-page-in-space-modal.tsx:79-96 | moving under a page appends after that page's children (none when it is unknown); moving to the root appends after the space's roots, in tree order |
| MovePage.SiblingAnchor | apps/client/src/features/page/components/move-page-in-space-modal.tsx:79-96 | the loop-free computation of the anchor, through `findNode` or the space filter, equals the last position of the reference siblings |
| MovePage.RootMoveAnchor | apps/client/src/features/page/components/move-page-in-space-modal.tsx:90-95 | moving to the root anchors after the position of the space's last top-level node, and there is no anchor exactly when the space has no top-level node |
| MovePage.LastPosition | apps/client/src/features/page/components/move-page-in-space-modal.tsx:84-95 | the anchor is the last sibling's position, and none exactly for an empty list |
| MovePage.ClickTarget | apps/client/src/features/page/components/move-page-in-space-modal.tsx:184-186 | clicking clears the selection exactly when the clicked node was selected, and otherwise selects it |
| MovePage.ClickTwice | apps/client/src/features/page/components/move-page-in-space-modal.tsx:184-186 | two clicks on one node restore the selection when it was that node, and clear it otherwise |
| MovePage.RefetchKeys | apps/client/src/features/page/components/move-page-in-space-modal.tsx:139-163 | the root listing comes first; the old and new parents' listings are refetched exactly when they are set |
| MovePage.MoveDialog.NodeClick | apps/client/src/features/page/components/move-page-in-space-modal.tsx:184-186 | the selected target becomes `ClickTarget` of the old one, and the moving flag is untouched |
| MovePage.MoveDialog.HandleMove | apps/client/src/features/page/components/move-page-in-space-modal.tsx:53-182 | a move already in progress is skipped; otherwise it sends the page, the target and the anchor position, and succeeds exactly when both the move and the refetch do; success clears the target and refetches the parents' listings; failure keeps the target; the moving flag always ends cleared |
| PageImport.Reparent | apps/client/src/features/page/components/page-import-modal.tsx:216-237 | the walk keeps length and every node's own fields, and gives every top-level node with the id its new child list |
| PageImport.ReparentDescends | apps/client/src/features/page/components/page-import-modal.tsx:229-234 | a node without the id keeps its data and has the walk applied to its children, so the walk reaches every depth |
| PageImport.ReparentAbsent | apps/client/src/features/page/components/page-import-modal.tsx:216-237 | without a node carrying the parent id the tree comes back unchanged |
| PageImport.ReparentKeepsUntouched | apps/client/src/features/page/components/page-import-modal.tsx:216-237 | every top-level node whose subtree holds no node with the id comes back whole |
| PageImport.ReparentFound | apps/client/src/features/page/components/page-import-modal.tsx:216-237 | searching the result finds the parent found before, now with the new child list |
| PageImport.UpdateChildrenForParent | apps/client/src/features/page/components/page-import-modal.tsx:216-241 | every top-level node with the id gets the fetched children; a node whose subtree lacks the id is kept whole; an absent parent leaves the tree unchanged; the first parent found now has the new children |
| PageImport.UpdateChildrenDescends | apps/client/src/features/page/components/page-import-modal.tsx:229-234 | below a node without the id the same update is applied to its children |
| PageImport.AddChildrenToParent | apps/client/src/features/page/components/page-import-modal.tsx:356-382 | every top-level node with the id gets the imported nodes after its existing children; a node whose subtree lacks the id is kept whole; an absent parent leaves the tree unchanged |
| PageImport.AddChildrenDescends | apps/client/src/features/page/components/page-import-modal.tsx:356-382 | below a node without the id the same update is applied to its children |
| PageImport.KeepByRootId | apps/client/src/features/page/components/page-import-modal.tsx:264-267 | a node is kept exactly when its id's membership in the set is the wanted one |
| PageImport.KeepByRootIdAppend | apps/client/src/features/page/components/page-import-modal.tsx:264-267 | the filter distributes over concatenation, so it keeps order and multiplicity |
| PageImport.KeepByRootIdIsSubsequence | apps/client/src/features/page/components/page-import-modal.tsx:264-267 | what is kept is the input with some nodes left out, the rest in order |
| PageImport.KeepByRootIdIsFilter | apps/client/src/features/page/components/page-import-modal.tsx:264-267 | what is kept is, in order, every node on the wanted side and only those |
| PageImport.RootRefresh | apps/client/src/features/page/components/page-import-modal.tsx:250-268 | nothing is written for an empty listing; otherwise current roots still listed come first, then the brand-new roots |
| PageImport.RootRefreshKeepsOrder | apps/client/src/features/page/components/page-import-modal.tsx:264-267 | the refreshed roots are the current roots still listed, all of them in current order, followed by the new roots in listing order |
| PageImport.RootRefreshHasFreshRoots | apps/client/src/features/page/components/page-import-modal.tsx:264-267 | after a refresh the set of root ids is exactly that of the latest listing |
| PageImport.RootRefreshKeepsCurrent | apps/client/src/features/page/components/page-import-modal.tsx:264-267 | when every current root is still listed, the current roots stay first, whole and in order |
| PageImport.RootConcat | apps/client/src/features/page/components/page-import-modal.tsx:384-389 | a root import appends the new nodes after the existing roots, and writes nothing when there are none |
| PageImport.Successes | apps/client/src/features/page/components/page-import-modal.tsx:332-343 | the pages kept are exactly those of the files whose import succeeded |
| PageImport.SuccessesAppend | apps/client/src/features/page/components/page-import-modal.tsx:335-343 | collected pages keep file order |
| PageImport.ImportFiles | apps/client/src/features/page/components/page-import-modal.tsx:332-343 | the loop collects exactly the successful pages, and counts them |
| PageImport.UploadTreeUpdate | apps/client/src/features/page/components/page-import-modal.tsx:345-389 | no imported page writes nothing; with a target the pages go under it, otherwise after the roots |
| PageImport.PageCountText | apps/client/src/features/page/components/page-import-modal.tsx:391-392 | "1 page" for one page, otherwise the decimal count and "pages" |
| ImportContent.HeadingText | apps/server/src/integrations/import/services/import.service.ts:324-331 | the heading's text is its first child's text, and none exactly when there is no such text |
| ImportContent.ExtractedTitle | apps/server/src/integrations/import/services/import.service.ts:319-346 | a title is taken only from a leading heading of level exactly 1, and is its text |
| ImportContent.ExtractedBody | apps/server/src/integrations/import/services/import.service.ts:319-346 | the body drops only a leading level-1 heading, never gets other new blocks, and is one empty paragraph when nothing is left |
| ImportContent.ExtractionLosesOnlyTheHeading | apps/server/src/integrations/import/services/import.service.ts:330-339 | heading followed by body gives back the document's blocks; without a title heading the blocks are kept whole |
| ImportContent.ExtractTitleAndRemoveHeading | apps/server/src/integrations/import/services/import.service.ts:319-346 | the shift and push version returns the reference title and body, with the other fields carried over |
| ImportContent.PageTitle | apps/server/src/integrations/import/services/import.service.ts:90 | `title \|\| fileName`: a non-empty title wins, else the file name |
| ImportContent.ProcessFile | apps/server/src/integrations/import/services/import.service.ts:60-79 | Markdown and HTML fail exactly when conversion fails; Word also fails without the "PK" signature; other extensions give no state; every failure reads 'Error processing file content' |
| ImportContent.ImportPage | apps/server/src/integrations/import/services/import.service.ts:42-131 | the three errors in their order; a created page has the extracted title or file name, the extracted body, and the parent only when it is non-empty |
| ImportContent.ImportIgnoresExtensionCase | apps/server/src/integrations/import/services/import.service.ts:51 | the import depends on the extension only up to ASCII case |
| ImportContent.DocxWithoutSignatureRejected | apps/server/src/integrations/import/services/import.service.ts:162-167 | a Word file that does not start with "PK" is never converted and fails with 'Error processing file content' |
| ImportContent.UnknownExtensionRejected | apps/server/src/integrations/import/services/import.service.ts:81-85 | any other extension fails with 'Failed to create ProseMirror state' |
| ImportContent.SuffixTestIsEquality | apps/server/src/integrations/import/services/import.service.ts:60-74 | for an extension with a single leading dot, the suffix tests of the dispatch are equality tests |
| ImportContent.ImportedPageShape | apps/server/src/integrations/import/services/import.service.ts:87-128 | a created page is never empty, keeps the document's other fields, and is named after a non-empty title heading or else the file |
| MarkedUtils.EscapeChar | packages/editor-ext/src/lib/markdown/utils/marked.utils.ts:35-44 | a character other than the five markup characters is kept as it is |
| MarkedUtils.EscapeHtml | packages/editor-ext/src/lib/markdown/utils/marked.utils.ts:35-44 | the escaped text contains none of the five markup characters, is no shorter, and equals text that had none |
| MarkedUtils.EscapeHtmlAppend | packages/editor-ext/src/lib/markdown/utils/marked.utils.ts:35-44 | escaping distributes over concatenation |
| MarkedUtils.UnescapeEscape | packages/editor-ext/src/lib/markdown/utils/marked.utils.ts:35-44 | decoding the five entities gives back the escaped text: escaping loses nothing |
| MarkedUtils.PreIsInert | packages/editor-ext/src/lib/markdown/utils/marked.utils.ts:83-93 | the plain-text fallback is a `<pre>` block holding no markup character, from which the text can be read back |
| MarkedUtils.StartAttrInjective | packages/editor-ext/src/lib/markdown/utils/marked.utils.ts:10-13 | different start numbers give different attributes |
| MarkedUtils.OrderedStartRecoverable | packages/editor-ext/src/lib/markdown/utils/marked.utils.ts:9-13 | two ordered lists with the same body render identically only when they start at the same number |
| MarkedUtils.TaskListIffCheckbox | packages/editor-ext/src/lib/markdown/utils/marked.utils.ts:15-16 | an unordered list is marked as a task list if and only if its body holds `<input` |
| MarkedUtils.OrderedAtOneKeepsSpace | packages/editor-ext/src/lib/markdown/utils/marked.utils.ts:10-13 | a list starting at 1 renders as `<ol >`, the space before the empty attribute kept |
| MarkedUtils.ListItemShape | packages/editor-ext/src/lib/markdown/utils/marked.utils.ts:19-27 | every item opens with `<li` and ends with its text and `</li>` |
| MarkedUtils.TaskItemIffMarked | packages/editor-ext/src/lib/markdown/utils/marked.utils.ts:19-27 | an item is marked as a task item if and only if it is one |
| MarkedUtils.TaskItemRecordsChecked | packages/editor-ext/src/lib/markdown/utils/marked.utils.ts:20-24 | task items that differ only in being checked render differently |
| MarkedUtils.LongLineIsProblematic | packages/editor-ext/src/lib/markdown/utils/marked.utils.ts:57-60 | a line longer than 50000 characters makes the text problematic |
| MarkedUtils.ShortTextFlaggedOnlyBySpecialChars | packages/editor-ext/src/lib/markdown/utils/marked.utils.ts:49-70 | text shorter than forty characters is flagged exactly when the repeated-character patterns fire |
| MarkedUtils.BlankLinesCountAsNesting | packages/editor-ext/src/lib/markdown/utils/marked.utils.ts:51-54 | forty-one line breaks in a row count as deep nesting wherever they occur |
| MarkedUtils.MarkdownToHtml | packages/editor-ext/src/lib/markdown/utils/marked.utils.ts:72-121 | input over 2 MiB gives its escaped first 2 MiB in `<pre>`; problematic text gives the escaped trimmed text; otherwise the parser's output, or the fallback when it throws |
| MarkedUtils.MarkdownFallbacksAreInert | packages/editor-ext/src/lib/markdown/utils/marked.utils.ts:72-121 | whenever the parser's output is not used, the result is a `<pre>` block from which the truncated or trimmed text is read back exactly |
| CollabAuth.Admit | apps/server/src/collaboration/extensions/authentication.extension.ts:30-87 | a token that does not verify is 'Invalid collab token'; a not-found error always reads 'Resource not found'; an admitted user is a known, active user |
| CollabAuth.AdmitIff | apps/server/src/collaboration/extensions/authentication.extension.ts:30-87 | admission succeeds if and only if the token verifies, its user is found and active, the resource exists in its type's repository, and the user has a role in its space; read-only if and only if that role is reader |
| CollabAuth.NotFoundOnlyAfterUserChecks | apps/server/src/collaboration/extensions/authentication.extension.ts:55-63 | a missing resource is reported as not found if and only if the token and user checks passed first |
| CollabAuth.OnlyTheTypedRepositoryIsConsulted | apps/server/src/collaboration/extensions/authentication.extension.ts:55-58 | a database document is decided without the pages, any other without the databases |
| CollabAuth.OnAuthenticate | apps/server/src/collaboration/extensions/authentication.extension.ts:30-87 | the handler returns the decision's user or error, and sets the connection read-only exactly for an admitted reader, never clearing it |
| DocDatabaseViews.FirstById | apps/server/src/database/repos/doc-database/doc-database-view.repo.ts:29-42 | none exactly when no row has the id; otherwise a row of the table with that id |
| DocDatabaseViews.OfDatabase | apps/server/src/database/repos/doc-database/doc-database-view.repo.ts:44-54 | exactly the rows of the database are selected |
| DocDatabaseViews.SortByCreated | apps/server/src/database/repos/doc-database/doc-database-view.repo.ts:52 | the result is ordered by creation time and is a permutation of the input |
| DocDatabaseViews.InsertByCreated | apps/server/src/database/repos/doc-database/doc-database-view.repo.ts:52 | inserting into an ordered list keeps it ordered and adds exactly that view |
| DocDatabaseViews.ApplyPatch | apps/server/src/database/repos/doc-database/doc-database-view.repo.ts:67-78 | each of the ten settable columns takes its new value when set and keeps its old one otherwise; the id stays and `updatedAt` is stamped |
| DocDatabaseViews.PatchRows | apps/server/src/database/repos/doc-database/doc-database-view.repo.ts:67-78 | exactly the rows with the id are patched; the others are unchanged |
| DocDatabaseViews.PatchKeepsIds | apps/server/src/database/repos/doc-database/doc-database-view.repo.ts:67-78 | an update never changes ids, so unique ids stay unique |
| DocDatabaseViews.PatchWithoutDefaultKeepsDefaults | apps/server/src/database/repos/doc-database/doc-database-view.repo.ts:67-78 | an update that sets neither `isDefault` nor `databaseId` keeps every default flag and database |
| DocDatabaseViews.PatchKeepsAtMostOne | apps/server/src/database/repos/doc-database/doc-database-view.repo.ts:67-78 | an update that sets no default and moves no view keeps at most one default per database |
| DocDatabaseViews.PatchMovingDefaultBreaksAtMostOne | apps/server/src/database/repos/doc-database/doc-database-view.repo.ts:67-78 | moving a default view into a database with its own default leaves two defaults: the repository does not guard the invariant |
| DocDatabaseViews.AfterSetDefault | apps/server/src/database/repos/doc-database/doc-database-view.repo.ts:80-99 | among the database's views exactly those with the id are default, all stamped; other databases' views are untouched |
| DocDatabaseViews.SetDefaultToForeignViewClearsAll | apps/server/src/database/repos/doc-database/doc-database-view.repo.ts:80-99 | naming a view the database does not have leaves the database without any default |
| DocDatabaseViews.SetDefaultIdempotentOnFlags | apps/server/src/database/repos/doc-database/doc-database-view.repo.ts:80-99 | setting the same default twice gives the flags of setting it once |
| DocDatabaseViews.SetDefaultKeepsAtMostOne | apps/server/src/database/repos/doc-database/doc-database-view.repo.ts:80-99 | with unique ids, every database still has at most one default view afterwards |
| DocDatabaseViews.InsertKeepsAtMostOne | apps/server/src/database/repos/doc-database/doc-database-view.repo.ts:56-65 | appending a non-default view, or a first view of its database, keeps at most one default per database |
| DocDatabaseViews.ViewTable.FindById | apps/server/src/database/repos/doc-database/doc-database-view.repo.ts:29-42 | none exactly when the table has no row with the id; otherwise such a row |
| DocDatabaseViews.ViewTable.ListByDatabaseId | apps/server/src/database/repos/doc-database/doc-database-view.repo.ts:44-54 | the views of the database, and all of them, by ascending creation time |
| DocDatabaseViews.ViewTable.InsertView | apps/server/src/database/repos/doc-database/doc-database-view.repo.ts:56-65 | the row is appended and returned; ids stay unique |
| DocDatabaseViews.ViewTable.UpdateView | apps/server/src/database/repos/doc-database/doc-database-view.repo.ts:67-78 | the table becomes the patched table; the patched row is returned, and none exactly when the id is unknown; an update that sets no default and moves no view keeps at most one default per database |
| DocDatabaseViews.ViewTable.SetDefaultView | apps/server/src/database/repos/doc-database/doc-database-view.repo.ts:80-99 | the two passes produce `AfterSetDefault`, and keep unique ids and at most one default per database |
| DocDatabaseService.FindDatabase | apps/server/src/core/doc-database/services/doc-database.service.ts:69 | none exactly when no database has the id; otherwise one with that id |
| DocDatabaseService.NewView | apps/server/src/core/doc-database/services/doc-database.service.ts:99-110 | the created view is named '表格', typed "table" and not default unless the request says otherwise, stamped now |
| DocDatabaseService.NewDefaultViewIsSole | apps/server/src/core/doc-database/services/doc-database.service.ts:112-116 | a view created as default ends up the only default of its database |
| DocDatabaseService.Service.CreateDatabase | apps/server/src/core/doc-database/services/doc-database.service.ts:23-66 | without the right to edit the space nothing changes; otherwise one database (titled '新数据库' when untitled) and one default table view '表格' are added |
| DocDatabaseService.Service.GetInfo | apps/server/src/core/doc-database/services/doc-database.service.ts:68-84 | an unknown database is not found before permissions are checked; a reader gets the database with its views by creation time |
| DocDatabaseService.Service.CreateView | apps/server/src/core/doc-database/services/doc-database.service.ts:86-119 | not found, then forbidden, change nothing; otherwise the new view is appended, and made the sole default when created as default |
| DocDatabaseService.Service.SetDefaultView | apps/server/src/core/doc-database/services/doc-database.service.ts:121-146 | unknown database, no right to edit, or a view that is missing or foreign are refused in that order and change nothing; otherwise the view becomes the default |
| DocDatabaseService.SetDefaultLeavesExactlyOne | apps/server/src/core/doc-database/services/doc-database.service.ts:133-145 | after a successful call the chosen view is default and no other view of the database is |
| EmbedProvider.FindById | packages/editor-ext/src/lib/embed-provider.ts:20-24 | none exactly when no provider's lower-cased id matches; otherwise the first matching provider |
| EmbedProvider.GetEmbedProviderByIdIff | packages/editor-ext/src/lib/embed-provider.ts:8-24 | the lookup finds the iframe provider exactly for ids that lower-case to "iframe" |
| EmbedProvider.FirstMatch | packages/editor-ext/src/lib/embed-provider.ts:31-45 | none exactly when no provider matches; otherwise a matching provider |
| EmbedProvider.GetEmbedUrlAndProvider | packages/editor-ext/src/lib/embed-provider.ts:31-45 | the embed URL is the URL itself and the provider is "iframe", matched or not |
| EmbedProvider.MatchIffAnyIframe | packages/editor-ext/src/lib/embed-provider.ts:8-18 | the registered provider matches exactly the URLs containing "any-iframe" |
| ViteBasePath.NormaliseBasePath | apps/client/vite.config.ts:20-25 | the base path always starts with "/", is "/" exactly for an unset or "/" variable, and otherwise is the value, given a leading "/" if it lacks one |
| ViteBasePath.NormaliseIdempotent | apps/client/vite.config.ts:20-25 | normalising a normalised base path changes nothing |
| ViteBasePath.DefinedBasePath | apps/client/vite.config.ts:32 | the compiled `BASE_PATH` is empty exactly at the root, otherwise the base path |
| ViteBasePath.DefinedBasePathShape | apps/client/vite.config.ts:20-32 | the compiled value is empty or a path starting with "/" other than "/" itself |
| ViteBasePath.TrailingSlashDoublesApiSlash | apps/client/vite.config.ts:20-25 | a setting ending in "/" keeps it, so the API prefix built from it has "//" before "api" |
| ViteBasePath.ProxyKeys | apps/client/vite.config.ts:51-64 | three proxied prefixes, each starting with the base path |
| ViteBasePath.ProxyKeysMatchClientPathsIff | apps/client/vite.config.ts:32-64 | the API proxy key equals the bundle's API prefix if and only if the base path is not "/"; at the root the keys are "//api", "//socket.io" and "//collab" |
| ServerPrefix.DropLeadingSlash | apps/server/src/main.ts:33-34 | exactly one leading slash is removed, and a path without one is kept |
| ServerPrefix.ApiPrefix | apps/server/src/main.ts:33-34 | "api" with no base path, otherwise a prefix ending in "/api" |
| ServerPrefix.FullApiPrefix | apps/server/src/main.ts:35 | the URL prefix starts with "/" and ends with "/api" |
| ServerPrefix.FullApiPrefixOfBasePath | apps/server/src/main.ts:33-35 | "/api" without a base path; otherwise the base path, with a leading slash supplied, then "/api" |
| ServerPrefix.ExcludedPaths | apps/server/src/main.ts:61-69 | the seven excluded paths are the prefix followed by each excluded tail |
| ServerPrefix.AnyPrefix | apps/server/src/main.ts:71-81 | true exactly when some path is a prefix of the URL |
| ServerPrefix.PreHandlerRefusesIff | apps/server/src/main.ts:59-82 | a request is refused with 'Workspace not found' if and only if it is under the prefix, no excluded path is its prefix, no workspace was resolved, and it is not the prefix itself |
| ServerPrefix.PassesOutsidePrefixOrWithWorkspace | apps/server/src/main.ts:71-81 | requests outside the prefix, or with a workspace, always pass |
| ServerPrefix.ExclusionIsByPrefix | apps/server/src/main.ts:61-81 | "/api/healthX" passes without a workspace while "/api/pages" is refused |
| ServerPrefix.ClientAndServerAgreeOnApiPath | apps/server/src/main.ts:33-35 | for any base path other than "/", the bundle's API prefix is the server's; for "/" the server's prefix is "//api" |

## Left out

- **Collaboration and rendering.**
  - Yjs itself (CRDT merging, remote updates, undo) is not modelled. A `transact` is one step of a method. The microtask-coalesced version counter of the table view is modelled as one increment per document change.
  - The Hocuspocus networking, React rendering and every notification toast are not modelled. The select cell's `handleSelect` is not modelled either, since it only forwards the value.
- **Ids, clocks, randomness and hidden helpers.** These are parameters.
  - `uuid7()`, `Date.now()` and `Math.random()` are parameters. Every clock read in one handler is taken to be the same instant.
  - Freshness of generated ids is a precondition of `InsertView`, `CreateDatabase` and `CreateView`, standing in for the database's primary key.
  - The CASL abilities are sets of space ids.
  - The token verification, user lookup, resource lookups and role lookup of admission are maps.
  - `getCollabDocumentInfo` is replaced by its result.
  - `buildTree`, `moveNodeInTree`, `generateJitteredKeyBetween` and the websocket emit are not modelled. The move dialog's result is the position anchor (the last sibling's position), not the generated key.
  - `path.extname`, `sanitize`, the Markdown, HTML and Word converters, the page insert and its position lookup, and the attachment upload of Word imports are given by their outcomes.
  - The YAML front-matter removal and the three repeated-character regular expressions of `hasProblematicPatterns` are given by their results (`withoutFrontMatter`, `specialChars`).
  - `getBasePath` on the server is taken as the raw string it returns.
- **Numbers and types.**
  - ResizeMove: `clientX` and the widths are JavaScript numbers (floats); the model uses integers.
  - Cell values and node attributes hold JSON numbers, which the model takes as integers. This matters only for the heading `level === 1` test, and a non-integer level is not 1 in either.
  - A column's stored `type` is any string in the document; the model's `FieldType` has only the eleven known types, so a stored unknown string, which the source keeps and sends to the `switch` default, has no counterpart.
- UpdateView: the definition of `UpdatableDocDatabaseView` is not part of this model. The patch follows Kysely's convention that every column of the row is optional, except `id`: the model's patch cannot change a row's id, where a caller could set one and a duplicate would be refused by the primary key.
- **Lookup by reference.**
  - EditColumn: the source writes through the `column.ymap` reference it already holds; the model looks the column up by id and changes the first one with that id. The two differ only when ids are duplicated. (`CopyColumn` reads the held column view and finds the insertion point by id, as the source does.)
- **Optional callbacks.** The select cells call `onUpdateOptions?.(…)`, which does nothing when no callback is passed; the model always writes the option list.
- **Strings.**
  - Strings are sequences of code points, not UTF-16 units.
  - `toLowerCase` is modelled for ASCII only.
  - The pattern `/any-iframe/` is modelled as a literal substring test and `getEmbedUrl` as the identity, which is all the registered provider does.
- **Ordering and the database.**
  - SQL `ORDER BY "createdAt"` is not guaranteed stable; `SortByCreated` fixes one stable order among the possible ones.
  - `findById` and `listByDatabaseId` return soft-deleted rows too, as the queries do.
- **Timing.** The two-second timeout of `markdownToHtml` is not modelled: the parser runs synchronously, so the race is decided before the timer can fire. The timer's late `console.warn`, and the other warnings it logs, are not modelled either.
- **Copies instead of mutation.** `extractTitleAndRemoveHeading` mutates the caller's `content` array with `shift` and `push`. The model works on its own copy and returns the new state.
- **Dead code.** The `mergedTree` of the root refresh is computed but never used, so it is not modelled.
- **Parts of the source outside the model.**
  - `importZip`, the file-task polling of the page-import dialog, `SORT_DIRECTIONS` and `main.ts`'s bootstrap beyond the API prefix and workspace hook are not part of this model.
  - The controller's `updateDatabase` route has no counterpart in the service shown, so it is not modelled.
- **Behaviour described elsewhere that the code does not have.** In each case the model follows the code.
  - Deleting an option does not remove it from cells that selected it.
  - `setCellValue` does not check that the column exists.
  - There is no cell back-fill for new columns, and no insert-column-left or insert-column-right.
- **The root refresh.** It runs only when the listing is non-empty. `RootRefresh` returns nothing for an empty `latest`, standing in for that outer guard.
