# All-apps list builder of the launcher drawer

A Dafny model of `AlphabeticalAppsList`, the object behind the launcher's
all-apps drawer. The drawer shows one of two lists:

- while a search is running, the search results as they were handed over;
- otherwise the A-Z list. It starts with the items the work-profile manager
  contributes. Then come one icon per drawer folder, all under the
  fast-scroll section `#`, and one icon per installed app, in sorted order.

Each rebuild of the list also does three other things:

- it records a fast-scroll section entry wherever the section name changes;
- it counts the items that accessibility services announce;
- it writes a row index and an in-row index into every icon cell. A new row
  starts every `numAppsPerRow` icons, and a divider starts the count afresh.

Around the rebuild sit a few smaller operations:

- replacing the search results, which reports whether anything changed;
- finding the child with IME launch focus (the first accessible item);
- the "has search results" and "no filtered results" queries;
- refreshing the apps from the apps store, which applies the item filter
  and keeps the order;
- installing a new item filter.

The model is imperative, like the source:

- An adapter item is a class whose row fields the builder writes in place.
- The list object is a class whose methods reassign its lists and counters
  and carry `modifies` frames.
- Every method is proved against specification functions: a fold that
  describes the row counters, a recursive description of the section
  entries, and a recursive filter. Lemmas state what those functions
  promise.

Modules, one per file:

| file | module | contents |
|---|---|---|
| `wrappers.dfy` | `Wrappers` | `Option` |
| `adapter_items.dfy` | `AdapterItems` | the item class, the accessibility count |
| `fast_scroll.dfy` | `FastScroll` | section entries, the folders' `#` section |
| `row_layout.dfy` | `RowLayout` | the row counters and the row-assignment pass |
| `app_filter.dfy` | `AppFilter` | order-preserving filter of the apps |
| `sorted_walk.dfy` | `SortedWalk` | the walk over folders and apps that builds the A-Z part |
| `apps_list.dfy` | `AppsList` | the `AlphabeticalAppsList` class and its operations |

Items are compared by identity: the model takes `AdapterItem` not to
override equality, so `ArrayList.equals` and `indexOf` compare references. Search results and the
adapter list share the same item objects, as `addAll` makes them do. When an
object occurs twice in the list, the builder writes its row fields twice and
the later write stays. So the row contracts speak of each object's last
occurrence; in a list without repeats that is every index.

## Model

| member | source | states |
|---|---|---|
| AppsList.AlphabeticalAppsList.UpdateAdapterItems | src/com/android/launcher3/allapps/AlphabeticalAppsList.java:254-326 | After a rebuild, with search results the adapter list equals them in order, there are no sections, and the count is theirs. When the work-profile manager hides work apps, the list is only the work items, there are no sections, the count stays 0, and the row count is untouched. Otherwise the list is the work items followed by fresh icons for the folders and apps, with the sections of the walk and the count of accessible items. Unless the rebuild stopped early, the row fields and the row count follow the layout when `numAppsPerRow != 0`. With `numAppsPerRow == 0` the row count and the row fields of the search and work items stay as they were. On the search path the work items are outside the frame, so only the results' row fields can change. |
| AppsList.AlphabeticalAppsList.CollectItems | src/com/android/launcher3/allapps/AlphabeticalAppsList.java:256-303 | Fills the list, the sections and the count as in the row above. Reports completion exactly when the rebuild did not stop early at hidden work apps. Leaves the row count alone. |
| AppsList.AlphabeticalAppsList.SetSearchResults | src/com/android/launcher3/allapps/AlphabeticalAppsList.java:193-203 | Returns true exactly when the new results differ from the current ones; a null list always differs. When it returns false, nothing changes. When it returns true, the search results become the given list (empty for null) and the adapter list is rebuilt from them. The row count stays when the rebuild stops at hidden work apps or `numAppsPerRow == 0`; in the latter case the given items and the work items keep their row fields. A rebuild that stops at hidden work apps leaves the work items' row fields alone, and with non-empty results the work items are outside the frame. On an A-Z rebuild the folder and app icons after the work items are fresh objects. Apps and filter are kept. |
| AppsList.AlphabeticalAppsList.OnAppsUpdated | src/com/android/launcher3/allapps/AlphabeticalAppsList.java:209-248 | Without an apps store nothing changes. Otherwise the apps become the sorted apps the item filter keeps, in order: all of them while search results show or when there is no filter. Without search results the list is rebuilt and, unless it stops at hidden work apps, its rows are laid out. While search results show, the adapter list, sections, count, row count and the row fields of the search and work items are unchanged. A rebuild that stops at hidden work apps keeps the row count and the work items' row fields. On an A-Z rebuild the folder and app icons after the work items are fresh objects. |
| AppsList.AlphabeticalAppsList.UpdateItemFilter | src/com/android/launcher3/allapps/AlphabeticalAppsList.java:114-117 | Installs the filter and refreshes the apps. With an apps store the apps are the sorted apps the new filter keeps, all of them while search results show. Without search results the list is rebuilt and its rows laid out (unless the rebuild stops at hidden work apps, which keeps the row count and the work items' row fields). With `numAppsPerRow == 0` the row count and the row fields of the search and work items are unchanged. Without an apps store, or while search results show, the adapter list, sections, count and row count are unchanged; without an apps store the apps are too. On an A-Z rebuild the folder and app icons after the work items are fresh objects. |
| AppsList.AlphabeticalAppsList.GetFocusedChildIndex | src/com/android/launcher3/allapps/AlphabeticalAppsList.java:153-160 | Returns `FocusIndex` of the adapter list: the first accessible item, found again by identity, or -1. |
| AppsList.AlphabeticalAppsList.GetFocusedChild | src/com/android/launcher3/allapps/AlphabeticalAppsList.java:143-148 | Returns none exactly when the focus index is -1 (this includes the empty list). Otherwise it returns the item at the focus index. |
| AppsList.AlphabeticalAppsList.HasSearchResults | src/com/android/launcher3/allapps/AlphabeticalAppsList.java:179-181 | True exactly when there are search results. In a valid state the adapter list is then the results and there are no sections. |
| AppsList.AlphabeticalAppsList.HasNoFilteredResults | src/com/android/launcher3/allapps/AlphabeticalAppsList.java:186-188 | In a valid state, true exactly when there are search results and none of the listed items is counted for accessibility. |
| AppsList.AlphabeticalAppsList.AccessibilityCountOfAToZ | src/com/android/launcher3/allapps/AlphabeticalAppsList.java:272-303 | After a full A-Z rebuild, the count is the work items' count plus one per shown folder and one per app. |
| AppsList.FocusIndex | src/com/android/launcher3/allapps/AlphabeticalAppsList.java:153-160 | Lies in `-1 .. size-1`. It is -1 exactly when no item is accessible. Otherwise the item there is accessible and none before it is. |
| AppsList.FocusIndexIsFirst | src/com/android/launcher3/allapps/AlphabeticalAppsList.java:153-160 | An accessible item with no accessible item before it is at the focus index. |
| AppsList.IndexOf | src/com/android/launcher3/allapps/AlphabeticalAppsList.java:156 | Returns the first position of the item by identity: -1 exactly when the item is absent, and no earlier occurrence otherwise. |
| AppsList.FilterApps | src/com/android/launcher3/allapps/AlphabeticalAppsList.java:221-244 | Returns the sorted apps the predicate keeps, in order, as the `Filter` specification gives them. |
| AppsList.ListedCount | src/com/android/launcher3/allapps/AlphabeticalAppsList.java:272-303 | A complete A-Z list counts its prefix's accessible items plus every folder and app icon. |
| SortedWalk.AppendSorted | src/com/android/launcher3/allapps/AlphabeticalAppsList.java:272-300 | Appends one fresh, distinct, accessible icon per folder (only with an apps store) and then per app, in order. The sections are those of the walked section names, counted on from the work offset. |
| SortedWalk.AddListed | src/com/android/launcher3/allapps/AlphabeticalAppsList.java:277-299 | One step of either walk: appends one fresh icon for the next folder or app, records an entry at the current position exactly when the section name differs from the last one, and moves the position on by one, so the walk's state after `walked + 1` entries holds. |
| SortedWalk.AppendFolders | src/com/android/launcher3/allapps/AlphabeticalAppsList.java:274-289 | Walks every folder: one icon each, with the `#` section entry recorded at the first folder. |
| SortedWalk.AppendApps | src/com/android/launcher3/allapps/AlphabeticalAppsList.java:291-300 | Walks every app after the folders: one icon each, with an entry wherever the app's section name differs from the last one. |
| SortedWalk.ListedSections | src/com/android/launcher3/allapps/AlphabeticalAppsList.java:272-300 | In a complete A-Z list, item `i` opens an entry at offset plus `i` exactly when it is the first item or its section name differs from the previous item's. Every entry names the item it points at. Entry positions strictly increase. |
| FastScroll.SectionsCharacterised | src/com/android/launcher3/allapps/AlphabeticalAppsList.java:279-298 | An entry is recorded for walk index `k` exactly when `k` is 0 or its name differs from the name at `k-1`. Positions lie inside the walked range and strictly increase. |
| FastScroll.FoldersShareOneSection | src/com/android/launcher3/allapps/AlphabeticalAppsList.java:274-289 | With at least one folder, the first entry is `#` at the offset, and no other entry falls on a folder. |
| FastScroll.SectionNameAt | src/com/android/launcher3/allapps/AlphabeticalAppsList.java:275-293 | The walked name at `k` is `#` for a folder and the app's section name for an app. |
| RowLayout.AssignRows | src/com/android/launcher3/allapps/AlphabeticalAppsList.java:304-323 | Returns the layout's row count. Every item's row index (0 for a non-icon) and every icon's in-row index hold what the layout gives at the item's last occurrence. |
| RowLayout.IconSlotInBounds | src/com/android/launcher3/allapps/AlphabeticalAppsList.java:311-320 | Every icon's in-row index lies in `0 .. numAppsPerRow-1` (taken as an absolute value), and its row index in `0 .. numRows-1`. |
| RowLayout.RowsNonDecreasing | src/com/android/launcher3/allapps/AlphabeticalAppsList.java:311-320 | Over icons, the row index never decreases. |
| RowLayout.FirstIconOpensRowZero | src/com/android/launcher3/allapps/AlphabeticalAppsList.java:307-320 | The first icon of the list goes into row 0 at place 0. |
| RowLayout.NextIconPlacement | src/com/android/launcher3/allapps/AlphabeticalAppsList.java:311-320 | The next icon either opens the next row at place 0, or stays in the same row one place further on. |
| RowLayout.NextIconInSection | src/com/android/launcher3/allapps/AlphabeticalAppsList.java:311-320 | Without a divider in between, the next icon's place is the previous place plus one, modulo `numAppsPerRow`. |
| RowLayout.FirstIconAfterDivider | src/com/android/launcher3/allapps/AlphabeticalAppsList.java:310-320 | The first icon after a divider opens a new row at place 0. |
| RowLayout.DividerSeparatesRows | src/com/android/launcher3/allapps/AlphabeticalAppsList.java:310-320 | Icons on the two sides of a divider never share a row. |
| RowLayout.NumRowsIsLastRowPlusOne | src/com/android/launcher3/allapps/AlphabeticalAppsList.java:304-325 | The row count is 0 without icons, and otherwise the last icon's row index plus one. |
| AdapterItems.CountCounted | src/com/android/launcher3/allapps/AlphabeticalAppsList.java:302-303 | The number of items counted for accessibility, never more than the list's length; the lemmas below relate it to lists with no counted item, lists with every item counted, and appended lists. |
| AdapterItems.CountCountedZero | src/com/android/launcher3/allapps/AlphabeticalAppsList.java:302-303 | The accessibility count is 0 exactly when no item is counted. |
| AdapterItems.CountCountedAppend | src/com/android/launcher3/allapps/AlphabeticalAppsList.java:302-303 | The count of two lists appended is the sum of their counts. |
| AdapterItems.CountCountedAll | src/com/android/launcher3/allapps/AlphabeticalAppsList.java:302-303 | When every item is counted, the count is the list's length. |
| AppFilter.FilterMembers | src/com/android/launcher3/allapps/AlphabeticalAppsList.java:222-224 | The kept apps are exactly the input apps the predicate accepts. |
| AppFilter.FilterAppend | src/com/android/launcher3/allapps/AlphabeticalAppsList.java:222-224 | Filtering preserves order: filtering two lists appended is appending their filtered lists. |
| AppFilter.FilterKeepsAll | src/com/android/launcher3/allapps/AlphabeticalAppsList.java:222-224 | When every app is accepted, filtering returns the list unchanged. |

## Left out

- The Simplified-Chinese regrouping of sections (`AlphabeticalAppsList.java:230-242`) is not modelled. It depends on the device locale and on a label comparator that is not part of this model. The apps keep the order of the sorted input.
- App sorting (`OmegaUtilsKt.sortApps`) is not part of this model. The already-sorted app list is an input of `OnAppsUpdated`, and the apps store's list and the sort mode are not modelled.
- The drawer folder list (`getFolderInfos`, `getFolderFilteredApps`) reads launcher state and preferences. It is an input (`Collaborators.folders`). `setAppsStore` on each folder is not modelled.
- The work-profile manager is not part of this model. Each rebuild takes its answer as an input: the items `addWorkItems` appends, the count it returns, and `shouldShowWorkApps`.
- The change notification after a rebuild (`DiffUtil`, `MyDiffCallback`) is left out. It is adapter plumbing built on item comparisons that are not part of this model.
- The constructor's context lookups and listener registration are left out. The column count and the presence of an apps store are constructor parameters. A missing work-profile manager is `Collaborators.work == None`.
- Simple getters and setters (`getApps`, `getAdapterItems`, `getNumAppRows`, `getNumFilteredApps`, `setAdapter`, `getFastScrollerSections`) only return or store a field. They are not separate members.
- The classification of view types into icon and divider (`BaseAllAppsAdapter`) is not part of this model. Folder and app cells are taken to be icons counted for accessibility. Any other item carries its kind and flag as given.
- Section names are taken to be non-null strings. In the source a null `sectionName` on an app makes the walk throw at the name comparison; that error path is not modelled.
- `AdapterItem` is taken not to override `equals`, so that `Objects.equals` on the result lists and `indexOf` compare items by reference. The item class (`BaseAllAppsAdapter`) is not part of this model.
- Java `int` arithmetic is unbounded here. The counters cannot overflow with a list that fits in memory.
- RowLayout.AssignRows: does not state that a non-icon item's `rowAppIndex` keeps its old value. Only its `rowIndex` (reset to 0) is stated.
- The item filter and the work-profile answer are plain values. A filter with side effects or a manager whose answer changes during one rebuild is not modelled.
- The grid-reorder solver exercised by the cell-layout test fixtures is not part of this model. So are the scrim view, the about screens and the feature-flag declarations, which are UI, I/O or constant declarations.
