# Tasks tracker routes and task list, in Dafny

This project models the core of the tasks tracker plugin for the RuneLite client. It covers:

- **Routes.** A route is an ordered list of named sections. Each section lists catalogue tasks and non-task placeholders (bank, home teleport, fairy ring). A section is stored either as a legacy list of task ids or as a list of entries. Every accessor picks between the two on each call.
- **Persistence.** Routes, the active-route name, tag filters, placeholder completion and task progress are kept in the client's key-value configuration. That store is modelled as two string maps, the profile scope and the account scope. JSON encoding is a codec passed in as a value; the round-trip lemmas assume it is correct.
- **Task list population.** Two list buffers alternate. A new catalogue is built into the hidden buffer a batch at a time. Each batch queues the next one on the event thread, modelled as an explicit FIFO of continuations run one per step.
- **Redraw.** Without an active route, panels are placed in the sort order. With one, each section that has something to show gets a header and then its rows, followed by the panels the route does not position. The header counts, the completed filter for placeholders, the collapse callback and the refresh of every row are covered.
- **Rows.** Each task row has a background colour, a track toggle, a visibility rule, an "Insert" menu and a points text. Each section header has a label, a progress count and colour, and a collapsed flag.

Java `null` becomes `Option` wherever the source tests for it; a `null` the source would dereference has no counterpart (see "## Left out"). An exception the source does not catch becomes a precondition. A caught exception becomes an explicit outcome. Each file holds one module:

- `wrappers.dfy`: `Option`.
- `text.dfy`: decimal text, and Java's `String.join` and `String.split` for a one-character separator.
- `seqs.dfy`: flattening and subsequences.
- `route_item.dfy`, `route_section.dfy`, `custom_route.dfy`: the route model.
- `config_task_save.dfy`, `tracker_config_store.dfy`: persistence.
- `section_header.dfy`, `task_panel.dfy`: the two kinds of row.
- `list_population.dfy`, `list_redraw.dfy`: the task list.

The model keeps these behaviours of the code, which a reader of the plugin might not expect:

- The buffers swap right after the first batch, not after the last one. The newly shown buffer therefore holds only the first batch while later batches are still queued (`Population.SwapAfterFirstBatch`).
- The list that `redraw` reads switches to the new panels only when task `batchSize - 1` is built. A catalogue smaller than one batch never switches it (`Population.SmallCatalogKeepsOldPanels`). So a redraw does not always see the new catalogue.
- `isFirstTaskInSection` is true when any section starts with the task, not only the section that contains it first (`CustomRoutes.FirstTaskAnywhereCounts`).
- An empty catalogue does not show its message. The draw runs on the hidden buffer, which takes the shared label and makes it visible; no swap follows, so the shown buffer keeps its old panels and the label stays off screen (`Population.EmptyCatalogMessageHidden`).
- At construction both buffers are visible, because selecting buffer 0 while it is already current does nothing. "Exactly one buffer visible" holds only from the first swap on (`Population.Init`, `Population.OneVisibleIsKept`).

## Model

| member | source | states |
|---|---|---|
| RouteItems.ForTask | src/main/java/net/reldo/taskstracker/data/route/RouteItem.java:36-41 | the entry is a task for exactly that id, has no placeholder, and its key is "task:" and the id |
| RouteItems.ForCustom | src/main/java/net/reldo/taskstracker/data/route/RouteItem.java:46-51 | the entry is never a task, holds exactly that placeholder, and its key is "custom:" and the placeholder's id, "null" for a missing id |
| RouteItems.ForCustomType | src/main/java/net/reldo/taskstracker/data/route/RouteItem.java:56-59 | the entry is never a task, wraps a new placeholder of the given type, and its key is "custom:" and the fresh id |
| RouteItems.ItemId | src/main/java/net/reldo/taskstracker/data/route/RouteItem.java:64-71 | a task entry's key starts with "task:" and a placeholder entry's with "custom:", and never the other way round |
| RouteItems.TaskIdWinsOverPlaceholder | src/main/java/net/reldo/taskstracker/data/route/RouteItem.java:28-31 | an entry carrying a task id is a task even when it also carries a placeholder; its key is that of the bare task entry and differs from the placeholder's |
| RouteItems.ItemIdSeparatesKinds | src/main/java/net/reldo/taskstracker/data/route/RouteItem.java:64-71 | two entries with the same key are both tasks or both placeholders, and two tasks with the same key refer to the same task |
| RouteItems.DisplayName | src/main/java/net/reldo/taskstracker/data/route/CustomRouteItem.java:29-46 | a missing type shows "Custom"; the three menu types show their fixed names; any other type shows its first character upper-cased by the locale's rule, which may give several characters, followed by the rest with every '_' as a space |
| RouteItems.Create | src/main/java/net/reldo/taskstracker/data/route/CustomRouteItem.java:51-57 | the new placeholder has the given type and an 8-character lower-case hex id taken from a fresh UUID |
| RouteSections.LegacyItems | src/main/java/net/reldo/taskstracker/data/route/RouteSection.java:53-59 | legacy ids become task entries without placeholders, one per non-null id, in order |
| RouteSections.GetItems | src/main/java/net/reldo/taskstracker/data/route/RouteSection.java:46-61 | a non-empty entry list wins; otherwise the entries are all tasks whose ids are the non-null legacy ids in order; with neither list there are none |
| RouteSections.SetItems | src/main/java/net/reldo/taskstracker/data/route/RouteSection.java:66-71 | the legacy list is always cleared, the name and description are kept, and reading the entries back gives the list installed (none for null) |
| RouteSections.GetTaskIds | src/main/java/net/reldo/taskstracker/data/route/RouteSection.java:76-92 | in both storage forms, the task ids are the task projection of the section's entries, in order |
| RouteSections.GetCustomItems | src/main/java/net/reldo/taskstracker/data/route/RouteSection.java:97-103 | the placeholders of the non-task entries, in entry order: a value is listed exactly when some non-task entry holds it; placeholders and task ids together account for every entry; a legacy section has none |
| RouteSections.CustomItemsOfAppend | src/main/java/net/reldo/taskstracker/data/route/RouteSection.java:97-103 | the placeholders of two entry lists joined are those of the first followed by those of the second |
| RouteSections.CustomItemsOfMembership | src/main/java/net/reldo/taskstracker/data/route/RouteSection.java:97-103 | a value is among the placeholders exactly when some non-task entry holds it |
| RouteSections.LegacyHasNoPlaceholders | src/main/java/net/reldo/taskstracker/data/route/RouteSection.java:97-103 | a section read through its legacy list has no placeholders |
| RouteSections.ContainsTask | src/main/java/net/reldo/taskstracker/data/route/RouteSection.java:105-108 | a section contains a task exactly when one of its entries is that task |
| RouteSections.GetTaskCount | src/main/java/net/reldo/taskstracker/data/route/RouteSection.java:110-113 | the task count is the number of entries that are not placeholders |
| RouteSections.FirstTaskPosition | src/main/java/net/reldo/taskstracker/data/route/RouteSection.java:127-137 | the position found holds the task and no earlier entry does; none means no entry holds it |
| RouteSections.InsertKeepsTaskIds | src/main/java/net/reldo/taskstracker/data/route/RouteSection.java:145-153 | inserting a placeholder anywhere leaves the task id projection unchanged |
| RouteSections.InsertCustomItem | src/main/java/net/reldo/taskstracker/data/route/RouteSection.java:122-157 | without the task nothing changes and nothing is created. Otherwise the new placeholder sits just before or just after the first entry for the task. Removing it gives back the old entries. The legacy list is cleared and the task ids are unchanged |
| RouteSections.WithoutPlaceholder | src/main/java/net/reldo/taskstracker/data/route/RouteSection.java:170-174 | exactly the entries that are not placeholders with that id survive; the task ids are unchanged; the list shrinks exactly when such a placeholder existed |
| RouteSections.WithoutPlaceholderIsFilter | src/main/java/net/reldo/taskstracker/data/route/RouteSection.java:170-174 | the survivors are a subsequence of the entries, in their old order, and every entry other than a matching placeholder survives as often as it occurred |
| RouteSections.RemoveCustomItem | src/main/java/net/reldo/taskstracker/data/route/RouteSection.java:163-175 | without a stored entry list it reports false and changes nothing. Otherwise it reports true exactly when a matching placeholder was stored. It removes all such placeholders and keeps every other entry and field |
| RouteSections.RemovalIsFilter | src/main/java/net/reldo/taskstracker/data/route/RouteSection.java:163-175 | after removal the stored entries are an order-keeping subsequence of the old ones, with every matching placeholder gone and every other entry kept as often as it occurred |
| RouteSections.RemovalKeepsTaskIds | src/main/java/net/reldo/taskstracker/data/route/RouteSection.java:163-175 | removal keeps the section's task ids, unless it empties an entry list that was hiding a legacy list |
| RouteSections.RemovalCanRevealLegacyIds | src/main/java/net/reldo/taskstracker/data/route/RouteSection.java:46-61 | a section with legacy id 7 and an entry list holding one placeholder shows no tasks; removing the placeholder makes task 7 reappear |
| CustomRoutes.GetFlattenedOrder | src/main/java/net/reldo/taskstracker/data/route/CustomRoute.java:51-61 | a task is in the flattened order exactly when some section lists it |
| CustomRoutes.FlattenedIdsAreProjection | src/main/java/net/reldo/taskstracker/data/route/CustomRoute.java:51-61 | concatenating each section's task ids equals the task projection of the concatenated entries |
| CustomRoutes.FlattenedOrderIsTaskProjection | src/main/java/net/reldo/taskstracker/data/route/CustomRoute.java:112-121 | the flattened order is the task projection of the flattened entries |
| CustomRoutes.GetFlattenedItems | src/main/java/net/reldo/taskstracker/data/route/CustomRoute.java:112-121 | an entry is among the flattened entries exactly when some section lists it |
| CustomRoutes.GetTaskCount | src/main/java/net/reldo/taskstracker/data/route/CustomRoute.java:81-84 | the route's task count is the length of its flattened task order, that is, its entries minus its placeholders |
| CustomRoutes.SectionIndexForTask | src/main/java/net/reldo/taskstracker/data/route/CustomRoute.java:72-75 | the index found is the first section containing the task; none means no section contains it |
| CustomRoutes.GetSectionForTask | src/main/java/net/reldo/taskstracker/data/route/CustomRoute.java:66-76 | a section is found exactly when the task is in the flattened order; it contains the task and is the first section that does |
| CustomRoutes.IsFirstTaskInSection | src/main/java/net/reldo/taskstracker/data/route/CustomRoute.java:90-107 | true exactly when some section's first task is this one |
| CustomRoutes.FirstTaskIsPositioned | src/main/java/net/reldo/taskstracker/data/route/CustomRoute.java:90-107 | a task that leads a section is in the flattened order |
| CustomRoutes.FirstTaskAnywhereCounts | src/main/java/net/reldo/taskstracker/data/route/CustomRoute.java:90-107 | a task second in section A and first in section B counts as a first task although its section is A |
| CustomRoutes.LegacyRouteExample | src/main/java/net/reldo/taskstracker/data/route/CustomRoute.java:51-107 | legacy sections [10, 20] and [30] flatten to [10, 20, 30]; 20 lies in the first section; 10 leads a section and 20 does not |
| CustomRoutes.InsertCustomItem | src/main/java/net/reldo/taskstracker/data/route/CustomRoute.java:130-138 | something is created exactly when the route positions the task. Then only the first section containing it changes, as the section insert does. The flattened order is unchanged and there is one entry more. Otherwise the route is unchanged |
| CustomRoutes.SpliceKeepsOrder | src/main/java/net/reldo/taskstracker/data/route/CustomRoute.java:130-138 | replacing one section by one with the same task ids and one more entry keeps the flattened order and adds one flattened entry |
| CustomRoutes.FirstPlaceholderIndex | src/main/java/net/reldo/taskstracker/data/route/CustomRoute.java:149-158 | the position found holds a placeholder with the id and no earlier entry does; none means no entry does |
| CustomRoutes.FirstPlaceholderIndexAppend | src/main/java/net/reldo/taskstracker/data/route/CustomRoute.java:149-158 | searching a concatenation finds the first list's match, or else the second list's match shifted by the first list's length |
| CustomRoutes.FindInLists | src/main/java/net/reldo/taskstracker/data/route/CustomRoute.java:149-159 | the section-by-section search finds a placeholder exactly when one exists in the flattened entries, and it returns the first one |
| CustomRoutes.FindCustomItem | src/main/java/net/reldo/taskstracker/data/route/CustomRoute.java:143-160 | none exactly when no entry is a placeholder with the id; otherwise the placeholder held by the first flattened entry that is a placeholder with that id |
| CustomRoutes.FirstSectionStoring | src/main/java/net/reldo/taskstracker/data/route/CustomRoute.java:172-178 | the index found is the first section whose stored entries hold a matching placeholder; none means no section's do |
| CustomRoutes.RemoveInSections | src/main/java/net/reldo/taskstracker/data/route/CustomRoute.java:172-179 | the loop removes from the first section storing the placeholder and from no other; with no such section nothing changes |
| CustomRoutes.RemoveInSectionsStep | src/main/java/net/reldo/taskstracker/data/route/CustomRoute.java:172-179 | skipping a first section that stores no match and removing from the rest is the same as removing from the whole list |
| CustomRoutes.RemoveCustomItem | src/main/java/net/reldo/taskstracker/data/route/CustomRoute.java:166-180 | it reports true exactly when some section stores a matching placeholder. Then only the first such section changes, and it becomes that section after the section removal: same name, description and legacy list, matching placeholders gone. Otherwise, including a route without sections, nothing changes |
| TaskSaves.FromTask | src/main/java/net/reldo/taskstracker/data/task/ConfigTaskSave.java:15-22 | the three timestamps and the struct id are copied; the tags are the task's set, or empty when it has none; the save shows progress exactly when the task does |
| TaskSaves.SameSaveIffSameFields | src/main/java/net/reldo/taskstracker/data/task/ConfigTaskSave.java:17-21 | two tasks give equal saves exactly when their timestamps, struct ids and tag sets agree, a missing set counting as empty |
| ConfigStore.RouteKeysDiffer | src/main/java/net/reldo/taskstracker/data/TrackerConfigStore.java:104-105 | the routes key and the active-route key of a tab and task type never coincide |
| ConfigStore.PutProfile | src/main/java/net/reldo/taskstracker/data/TrackerConfigStore.java:112 | writing a profile key sets exactly that key and keeps every other entry of both scopes |
| ConfigStore.ValidRoutes | src/main/java/net/reldo/taskstracker/data/TrackerConfigStore.java:132-134 | a route survives the load filter exactly when it is present and has a non-empty name |
| ConfigStore.ValidRoutesIsFilter | src/main/java/net/reldo/taskstracker/data/TrackerConfigStore.java:132-134 | the survivors keep the stored order, and a route with a name survives exactly as often as it was stored |
| ConfigStore.ValidRoutesKeepsValid | src/main/java/net/reldo/taskstracker/data/TrackerConfigStore.java:132-134 | routes that all have names pass the filter unchanged and in order |
| ConfigStore.SaveTabRoutes | src/main/java/net/reldo/taskstracker/data/TrackerConfigStore.java:108-113 | only the routes key changes, and a missing or empty list is written as "" |
| ConfigStore.LoadTabRoutes | src/main/java/net/reldo/taskstracker/data/TrackerConfigStore.java:115-141 | every loaded route has a name; a missing key, "", undecodable text and a decoded null all load as the empty list |
| ConfigStore.LoadKeepsStoredOrder | src/main/java/net/reldo/taskstracker/data/TrackerConfigStore.java:115-141 | when the stored text decodes to a list, the loaded routes are its named entries in stored order, each as often as it was stored |
| ConfigStore.SaveNothingLoadsEmpty | src/main/java/net/reldo/taskstracker/data/TrackerConfigStore.java:108-122 | saving a missing or empty list loads back as empty, exactly as a missing key does |
| ConfigStore.LoadAfterSave | src/main/java/net/reldo/taskstracker/data/TrackerConfigStore.java:108-141 | with a correct codec, loading a saved non-empty list gives its named routes in order |
| ConfigStore.RoutesRoundTrip | src/main/java/net/reldo/taskstracker/data/TrackerConfigStore.java:108-141 | with a correct codec, a list of named routes loads back exactly as saved |
| ConfigStore.UnnamedRouteDropped | src/main/java/net/reldo/taskstracker/data/TrackerConfigStore.java:131-134 | a saved route without a name is not among the loaded routes |
| ConfigStore.SaveActiveRouteName | src/main/java/net/reldo/taskstracker/data/TrackerConfigStore.java:143-147 | only the active-route key changes, and a missing name is written as "" |
| ConfigStore.LoadActiveRouteName | src/main/java/net/reldo/taskstracker/data/TrackerConfigStore.java:149-154 | a name is returned exactly when the key holds a non-empty value, and it is never "" |
| ConfigStore.ActiveNameRoundTrip | src/main/java/net/reldo/taskstracker/data/TrackerConfigStore.java:143-154 | a non-empty name reads back as saved; a missing or empty name reads back as none |
| ConfigStore.FirstNamed | src/main/java/net/reldo/taskstracker/data/TrackerConfigStore.java:165-168 | the index found is the first route with the name; none means no route has it |
| ConfigStore.GetActiveRoute | src/main/java/net/reldo/taskstracker/data/TrackerConfigStore.java:156-169 | without an active name there is no route. A route found carries the active name and is the first loaded route that does. None found means no loaded route carries it |
| ConfigStore.WithoutName | src/main/java/net/reldo/taskstracker/data/TrackerConfigStore.java:177 | exactly the routes not carrying the name survive, and a missing name removes nothing |
| ConfigStore.WithoutNameIsSubsequence | src/main/java/net/reldo/taskstracker/data/TrackerConfigStore.java:177 | the survivors keep their relative order |
| ConfigStore.WithoutNameCounts | src/main/java/net/reldo/taskstracker/data/TrackerConfigStore.java:177 | every copy of a route with the name is removed, and every other route keeps all its copies |
| ConfigStore.WithRouteAdded | src/main/java/net/reldo/taskstracker/data/TrackerConfigStore.java:173-178 | the new route is last, no earlier route shares its name, and the earlier routes are the old ones without that name in order |
| ConfigStore.AddRouteToTab | src/main/java/net/reldo/taskstracker/data/TrackerConfigStore.java:171-181 | only the routes key of that tab and task type changes |
| ConfigStore.AddRouteReplacesByName | src/main/java/net/reldo/taskstracker/data/TrackerConfigStore.java:171-181 | with a correct codec, after adding a named route it loads last, is the only route with its name, and the others keep their order |
| ConfigStore.AddUnnamedRouteVanishes | src/main/java/net/reldo/taskstracker/data/TrackerConfigStore.java:171-181 | with a correct codec, adding a route without a usable name leaves the loaded routes as they were, minus any that share its name |
| ConfigStore.RemoveRouteFromTab | src/main/java/net/reldo/taskstracker/data/TrackerConfigStore.java:183-195 | only the routes key and the active-route key can change. An active name other than the removed one is kept. An active name equal to it moves to the first remaining route, or is cleared when none remains |
| ConfigStore.RemovedNameIsGone | src/main/java/net/reldo/taskstracker/data/TrackerConfigStore.java:183-195 | with a correct codec, reloading gives exactly the earlier routes without those carrying the name, in their earlier order, so none carries it |
| Text.JavaSplitOfJoin | src/main/java/net/reldo/taskstracker/data/TrackerConfigStore.java:214 | splitting the comma-joined text of non-empty, comma-free strings gives those strings back |
| Text.Join | src/main/java/net/reldo/taskstracker/data/TrackerConfigStore.java:202 | joining nothing gives ""; the text starts with the first part; with separator-free parts, the separator occurs exactly once fewer than there are parts |
| Text.JavaSplit | src/main/java/net/reldo/taskstracker/data/TrackerConfigStore.java:214 | "" splits to [""]; no piece holds the separator; a non-empty text never ends in an empty piece; a text without the separator splits to itself |
| ConfigStore.EncodeSet | src/main/java/net/reldo/taskstracker/data/TrackerConfigStore.java:202 | a missing or empty set is stored as "" |
| ConfigStore.DecodeSet | src/main/java/net/reldo/taskstracker/data/TrackerConfigStore.java:209-214 | missing or empty text reads as the empty set |
| ConfigStore.SetRoundTrip | src/main/java/net/reldo/taskstracker/data/TrackerConfigStore.java:199-215 | a set of non-empty, comma-free strings reads back as the same set |
| ConfigStore.EmptyElementIsLost | src/main/java/net/reldo/taskstracker/data/TrackerConfigStore.java:206-215 | a set holding only the empty string reads back as the empty set |
| ConfigStore.PutAccount | src/main/java/net/reldo/taskstracker/data/TrackerConfigStore.java:203 | writing an account key sets exactly that key and keeps every other entry of both scopes |
| ConfigStore.SaveTabTagFilter | src/main/java/net/reldo/taskstracker/data/TrackerConfigStore.java:199-204 | only the tab's tag-filter key in the account scope changes |
| ConfigStore.LoadTabTagFilter | src/main/java/net/reldo/taskstracker/data/TrackerConfigStore.java:206-215 | a missing key reads as the empty set |
| ConfigStore.TagFilterRoundTrip | src/main/java/net/reldo/taskstracker/data/TrackerConfigStore.java:199-215 | non-empty, comma-free tags read back as the set saved, and a missing set as empty |
| ConfigStore.SaveCustomItemCompletion | src/main/java/net/reldo/taskstracker/data/TrackerConfigStore.java:224-232 | only the route's completion key in the profile scope changes |
| ConfigStore.LoadCustomItemCompletion | src/main/java/net/reldo/taskstracker/data/TrackerConfigStore.java:237-249 | a missing key reads as the empty set |
| ConfigStore.CompletionRoundTrip | src/main/java/net/reldo/taskstracker/data/TrackerConfigStore.java:224-249 | non-empty, comma-free placeholder ids read back as the set saved, and a missing set as empty |
| ConfigStore.SaveMapOf | src/main/java/net/reldo/taskstracker/data/TrackerConfigStore.java:83-90 | a struct id is saved exactly when some task with that id has a timestamp set; the first such task provides its save |
| ConfigStore.OnlyProgressIsSaved | src/main/java/net/reldo/taskstracker/data/TrackerConfigStore.java:84 | a task with no timestamp set, whose struct id is unique, is not saved |
| ConfigStore.SaveCurrentTaskTypeData | src/main/java/net/reldo/taskstracker/data/TrackerConfigStore.java:80-95 | only the current task type's save key changes |
| ConfigStore.LoadCurrentTaskType | src/main/java/net/reldo/taskstracker/data/TrackerConfigStore.java:50-78 | without a task type nothing happens, and without a stored value no save is applied. Undecodable text, and only that, removes exactly that key. In every other case the store is untouched |
| ConfigStore.WipedBlobSkippedNextTime | src/main/java/net/reldo/taskstracker/data/TrackerConfigStore.java:73-77 | after an undecodable value is wiped, loading again finds nothing to apply and changes nothing |
| ConfigStore.TaskProgressRoundTrip | src/main/java/net/reldo/taskstracker/data/TrackerConfigStore.java:60-95 | with a correct codec, loading after saving applies exactly the map of tasks with progress |
| SectionHeaders.SectionKey | src/main/java/net/reldo/taskstracker/panel/components/SectionHeaderPanel.java:58 | a section is named by its name, or "Section" when it has none |
| SectionHeaders.LabelText | src/main/java/net/reldo/taskstracker/panel/components/SectionHeaderPanel.java:58-61 | the label starts with the display name |
| SectionHeaders.LabelShowsDescription | src/main/java/net/reldo/taskstracker/panel/components/SectionHeaderPanel.java:58-61 | the label is longer than the name exactly when the description is non-empty, and then it ends with " - " and the description |
| SectionHeaders.ProgressText | src/main/java/net/reldo/taskstracker/panel/components/SectionHeaderPanel.java:70 | the progress text contains the slash that separates the counts |
| SectionHeaders.ProgressTextRoundTrip | src/main/java/net/reldo/taskstracker/panel/components/SectionHeaderPanel.java:69-70 | reading the progress text back gives both counts |
| SectionHeaders.ProgressColorOf | src/main/java/net/reldo/taskstracker/panel/components/SectionHeaderPanel.java:69 | the progress is green exactly when the completed count equals the total |
| SectionHeaders.CollapseHtml | src/main/java/net/reldo/taskstracker/panel/components/SectionHeaderPanel.java:141-145 | the indicator shows ▶ when collapsed and ▼ when expanded |
| SectionHeaders.NewHeader | src/main/java/net/reldo/taskstracker/panel/components/SectionHeaderPanel.java:45-73 | a new header is expanded, has no callback and shows its state. It carries the label, and its progress text reads back as the two counts, green exactly when they are equal |
| SectionHeaders.SetCollapseCallback | src/main/java/net/reldo/taskstracker/panel/components/SectionHeaderPanel.java:109-112 | the header gains a callback and nothing else changes |
| SectionHeaders.ToggleCollapsed | src/main/java/net/reldo/taskstracker/panel/components/SectionHeaderPanel.java:117-125 | the state flips and the indicator follows. The callback fires exactly when one is set, and it receives the new state. Nothing else changes |
| SectionHeaders.SetCollapsedState | src/main/java/net/reldo/taskstracker/panel/components/SectionHeaderPanel.java:130-134 | the state becomes the value given, the indicator follows, and nothing else changes |
| SectionHeaders.ToggleTwiceRestores | src/main/java/net/reldo/taskstracker/panel/components/SectionHeaderPanel.java:117-125 | two clicks restore the header, and a callback sees the two states in turn |
| SectionHeaders.SetCollapsedStateIdempotent | src/main/java/net/reldo/taskstracker/panel/components/SectionHeaderPanel.java:130-134 | setting the state a header already has changes nothing |
| TaskPanels.AnyUnmet | src/main/java/net/reldo/taskstracker/panel/TaskPanel.java:142-160 | the loop finds an unmet requirement exactly when some requirement names a known skill above the player's level |
| TaskPanels.BackgroundColor | src/main/java/net/reldo/taskstracker/panel/TaskPanel.java:125-163 | without the player's levels the row is plain, even when completed. A completed task is marked completed. A row is unqualified exactly when levels are known, the task is not completed, and some requirement naming a known skill is unmet |
| TaskPanels.UnknownSkillsAreIgnored | src/main/java/net/reldo/taskstracker/panel/TaskPanel.java:144-154 | requirements that name only unknown skills never mark a row unqualified |
| TaskPanels.MeetsFilterCriteria | src/main/java/net/reldo/taskstracker/panel/TaskPanel.java:413-428 | a task shows exactly when the matcher accepts it and, under an active route, some section of the route lists it |
| TaskPanels.ShownRouteTaskHasSection | src/main/java/net/reldo/taskstracker/panel/TaskPanel.java:416-425 | a task shown under an active route has a section, and that section contains it |
| TaskPanels.Refresh | src/main/java/net/reldo/taskstracker/panel/TaskPanel.java:385-411 | tracking is disabled exactly when completed tasks are untracked automatically and this one is completed, and a tooltip is set exactly then. The toggles mirror the task. The row is visible exactly when the matcher accepts the task and, under an active route, some section lists it |
| TaskPanels.InsertMenu | src/main/java/net/reldo/taskstracker/panel/TaskPanel.java:309-353 | there is no menu without an active route. Otherwise the menu is bank, home teleport and fairy ring before the task, then the same after it, with the captions "Bank", "Home Teleport" and "Fairy Ring" |
| TaskPanels.MenuCaptionsAreDisplayNames | src/main/java/net/reldo/taskstracker/panel/TaskPanel.java:332-335 | each fixed menu caption is the name the route list shows for that placeholder type, whatever the upper-casing rule |
| TaskPanels.ChooseInsert | src/main/java/net/reldo/taskstracker/panel/TaskPanel.java:341-350 | the route is saved and the list redrawn exactly when the route positions the task. Then the task order is unchanged and there is one entry more; otherwise the route is unchanged |
| TaskPanels.PointsText | src/main/java/net/reldo/taskstracker/panel/TaskPanel.java:505-513 | the text is empty exactly when the task is worth no points |
| TaskPanels.PointsTextRoundTrip | src/main/java/net/reldo/taskstracker/panel/TaskPanel.java:505-513 | a task worth something gets " - ", its points and " points", and the points read back from the text |
| Population.Init | src/main/java/net/reldo/taskstracker/panel/TaskListPanel.java:58-76 | a new list has buffer 0 current and nothing queued, but both buffers are visible; the shared empty-list label sits hidden in the last buffer built, and no registered panel is visible |
| Population.NextBufferIndex | src/main/java/net/reldo/taskstracker/panel/TaskListPanel.java:106-109 | the next buffer is the other one, (current + 1) mod 2 |
| Population.SetCurrent | src/main/java/net/reldo/taskstracker/panel/TaskListPanel.java:78-86 | selecting the current buffer changes nothing. Selecting the other hides the old one and shows the new one. Nothing else changes |
| Population.Enqueue | src/main/java/net/reldo/taskstracker/panel/TaskListPanel.java:628 | queued work goes to the back of the queue and nothing else changes |
| Population.ShowNext | src/main/java/net/reldo/taskstracker/panel/TaskListPanel.java:98-104 | the other buffer becomes current and the only one shown. Emptying the old buffer is queued. Nothing else changes |
| Population.Accept | src/main/java/net/reldo/taskstracker/panel/TaskListPanel.java:308-316 | one panel for the task is appended to the draw and to the target buffer. The list that redraw reads becomes the draw's exactly at index batchSize - 1 |
| Population.AcceptBatch | src/main/java/net/reldo/taskstracker/panel/TaskListPanel.java:607-618 | a batch touches only its own draw and its target buffer |
| Population.AcceptBatchRange | src/main/java/net/reldo/taskstracker/panel/TaskListPanel.java:607-618 | with a positive batch size k, the batch from task base builds exactly tasks base up to min(base + k, n), in increasing order, into the draw and the buffer. The list redraw reads switches exactly when task k - 1 is among them |
| Population.BatchBuilt | src/main/java/net/reldo/taskstracker/panel/TaskListPanel.java:607-618 | the rest of a batch adds exactly the next task indices up to the batch's end, in order, to the draw |
| Population.BatchContents | src/main/java/net/reldo/taskstracker/panel/TaskListPanel.java:607-618 | the rest of a batch appends exactly those tasks' panels, in order, to the target buffer |
| Population.BatchTaskPanels | src/main/java/net/reldo/taskstracker/panel/TaskListPanel.java:315 | the rest of a batch switches the list redraw reads exactly when it reaches index batchSize - 1 |
| Population.RunBatch | src/main/java/net/reldo/taskstracker/panel/TaskListPanel.java:603-634 | a batch queues the next batch exactly when (batch + 1) * k is below the task count, and otherwise queues a refresh of every row; it touches only its target buffer. After its loop the label is visible exactly when no panel registered since the draw began is visible, counting the panels this batch built for tasks batch * k up to min((batch + 1) * k, n) |
| Population.DrawNewTaskType | src/main/java/net/reldo/taskstracker/panel/TaskListPanel.java:281-317 | the buffer not shown always takes the shared empty-list label, and the registered panels are forgotten. An empty catalogue makes the label visible there and changes nothing else. Otherwise a new draw of n tasks starts and the other buffer becomes the only one shown. Either way the label ends up visible exactly when no task of the first batch (the first min(k, n)) has a panel passing its filter |
| Population.AnyShownIff | src/main/java/net/reldo/taskstracker/panel/TaskListPanel.java:212-224 | the recursive test `refreshEmptyPanel` uses holds exactly when some task in the range has a panel that passes its filter |
| Population.FirstBatchMessageSeen | src/main/java/net/reldo/taskstracker/panel/TaskListPanel.java:603-621 | right after a draw of a non-empty catalogue the empty-list message is on screen exactly when no task of the first batch passes its filter |
| Population.EmptyCatalogMessageHidden | src/main/java/net/reldo/taskstracker/panel/TaskListPanel.java:281-300 | with one buffer shown, drawing an empty catalogue leaves the message off screen, and the shown buffer keeps its panels, the list redraw reads and the queue |
| Population.FirstBatch | src/main/java/net/reldo/taskstracker/panel/TaskListPanel.java:603-634 | the first batch builds tasks 0 up to min(k, n) into the target buffer and queues the second batch or the refresh |
| Population.SwapAfterFirstBatch | src/main/java/net/reldo/taskstracker/panel/TaskListPanel.java:597-601 | when the swap happens, the newly shown buffer holds only the first batch, and the second batch (or the refresh) is queued before the emptying of the old buffer |
| Population.Step | src/main/java/net/reldo/taskstracker/panel/TaskListPanel.java:624-633 | a turn with nothing queued changes nothing, and no turn changes which buffer is current or shown |
| Population.EmptyBuffer | src/main/java/net/reldo/taskstracker/panel/TaskListPanel.java:276-279 | emptying a buffer removes its panels and, when it holds the empty-list label, the label; the other buffer and everything else are kept |
| Population.Run | src/main/java/net/reldo/taskstracker/panel/TaskListPanel.java:624-633 | running the queue never changes which buffer is current or shown, nor the batch size |
| Population.OneVisibleIsKept | src/main/java/net/reldo/taskstracker/panel/TaskListPanel.java:78-86 | once exactly one buffer is shown, queued work keeps it so |
| Population.BatchStep | src/main/java/net/reldo/taskstracker/panel/TaskListPanel.java:603-634 | one turn running batch b builds that batch's tasks and queues the next batch or the refresh behind the rest of the queue |
| Population.FinalRefresh | src/main/java/net/reldo/taskstracker/panel/TaskListPanel.java:630-633 | the last turn of a draw refreshes every row once and leaves the queue idle |
| Population.Drain | src/main/java/net/reldo/taskstracker/panel/TaskListPanel.java:603-634 | from any later batch, the remaining turns build every remaining task once, in order. They end with an idle queue and touch neither the other buffer nor the list redraw reads |
| Population.DrainContents | src/main/java/net/reldo/taskstracker/panel/TaskListPanel.java:603-634 | from any later batch, the remaining turns append exactly the remaining tasks' panels, in order, to the target buffer |
| Population.PopulationCompletes | src/main/java/net/reldo/taskstracker/panel/TaskListPanel.java:597-634 | with a positive batch size, a draw of n tasks builds every task exactly once, in order, into the newly shown buffer. It empties the old buffer and ends idle. Redraw reads the new list exactly when n reaches a full batch |
| Population.SingleBatchDraw | src/main/java/net/reldo/taskstracker/panel/TaskListPanel.java:597-634 | a draw of at most one batch completes as stated for a whole draw |
| Population.SingleBatchRest | src/main/java/net/reldo/taskstracker/panel/TaskListPanel.java:276-279 | the two turns after a one-batch draw empty the old buffer and the queue, and keep the shown buffer, the draws and the list redraw reads |
| Population.SingleBatchTurns | src/main/java/net/reldo/taskstracker/panel/TaskListPanel.java:626 | a catalogue of at most one batch takes one batch |
| Population.RefreshThenClear | src/main/java/net/reldo/taskstracker/panel/TaskListPanel.java:276-279 | after a one-batch draw the two queued turns refresh every row and empty the old buffer |
| Population.SecondTurn | src/main/java/net/reldo/taskstracker/panel/TaskListPanel.java:603-634 | after a larger draw the next two turns build the second batch and empty the old buffer |
| Population.ClearTurn | src/main/java/net/reldo/taskstracker/panel/TaskListPanel.java:276-279 | a queued emptying clears exactly that buffer |
| Population.MultiBatchTurns | src/main/java/net/reldo/taskstracker/panel/TaskListPanel.java:626 | a draw of more than one batch takes two batches plus those left from task 2k |
| Population.AfterFirstBatch | src/main/java/net/reldo/taskstracker/panel/TaskListPanel.java:603-634 | after the first batch of a larger draw, the remaining turns build every task and empty the old buffer, leaving visibility and the list redraw reads alone |
| Population.AfterFirstBatchContents | src/main/java/net/reldo/taskstracker/panel/TaskListPanel.java:603-634 | after the first batch, the remaining turns append the panels of tasks k to n, in order |
| Population.MultiBatchRest | src/main/java/net/reldo/taskstracker/panel/TaskListPanel.java:603-634 | from the state the first batch of a larger draw leaves, the rest completes the whole catalogue, in order, in the shown buffer |
| Population.MultiBatchDraw | src/main/java/net/reldo/taskstracker/panel/TaskListPanel.java:597-634 | a draw of more than one batch completes as stated for a whole draw, and redraw then reads the new list |
| Population.SmallCatalogKeepsOldPanels | src/main/java/net/reldo/taskstracker/panel/TaskListPanel.java:315 | a catalogue smaller than one batch is fully built, yet redraw still reads the previous list |
| Population.StuckStep | src/main/java/net/reldo/taskstracker/panel/TaskListPanel.java:607-629 | with a batch size of zero or less, a turn builds nothing and a batch of the draw stays queued |
| Population.StuckRun | src/main/java/net/reldo/taskstracker/panel/TaskListPanel.java:603-634 | with a batch size of zero or less, that stays so for any number of turns |
| Population.NonPositiveBatchSizeNeverFinishes | src/main/java/net/reldo/taskstracker/panel/TaskListPanel.java:607-629 | with a batch size of zero or less, a draw builds no panel and never empties its queue |
| Population.TaskPanelsOf | src/main/java/net/reldo/taskstracker/panel/TaskListPanel.java:42 | a replaced list has one panel per task the draw has built |
| Population.RedrawSeesWholeDraw | src/main/java/net/reldo/taskstracker/panel/TaskListPanel.java:305-316 | after a draw of at least one full batch, redraw sees one panel per task of the new catalogue, in order, and they are the panels the shown buffer gained |
| ListRedraw.CountedIds | src/main/java/net/reldo/taskstracker/panel/TaskListPanel.java:422-441 | the counted tasks are exactly the listed tasks that have a panel and pass the matcher, in route order |
| ListRedraw.CountCompleted | src/main/java/net/reldo/taskstracker/panel/TaskListPanel.java:435-438 | the completed count never exceeds the tasks counted |
| ListRedraw.ShownPlaceholders | src/main/java/net/reldo/taskstracker/panel/TaskListPanel.java:443-461 | every placeholder kept passes the completed filter |
| ListRedraw.ScanItems | src/main/java/net/reldo/taskstracker/panel/TaskListPanel.java:422-484 | the completed count is at most the total, which is at most the number of rows |
| ListRedraw.ScanMatchesReference | src/main/java/net/reldo/taskstracker/panel/TaskListPanel.java:418-484 | the scan's task rows are exactly the counted tasks in route order, and its placeholder rows exactly the admitted placeholders in route order. Its total and completed counts are those of the counted tasks |
| ListRedraw.ShownPlaceholdersRespectFilter | src/main/java/net/reldo/taskstracker/panel/TaskListPanel.java:449-460 | a placeholder row's state is its id's membership in the completed set, and the completed filter admits it |
| ListRedraw.SectionRows | src/main/java/net/reldo/taskstracker/panel/TaskListPanel.java:486-553 | a section with nothing to show gets no rows. Otherwise it gets a header with its key, counts, remembered collapsed state and callback, then one row per scanned entry in route order, hidden when collapsed |
| ListRedraw.SectionHeader | src/main/java/net/reldo/taskstracker/panel/TaskListPanel.java:492-512 | the header is wired to the callback and carries the section's label and counts, in the remembered collapsed state |
| ListRedraw.EntryRows | src/main/java/net/reldo/taskstracker/panel/TaskListPanel.java:544-553 | one placed row per entry, in order |
| ListRedraw.SectionTaskRows | src/main/java/net/reldo/taskstracker/panel/TaskListPanel.java:422-441 | a section shows a task exactly when it lists the task and the task has a panel and passes the matcher |
| ListRedraw.Unpositioned | src/main/java/net/reldo/taskstracker/panel/TaskListPanel.java:556-564 | the trailing rows are exactly the panels whose tasks the route does not position, never hidden |
| ListRedraw.RedrawWithSections | src/main/java/net/reldo/taskstracker/panel/TaskListPanel.java:380-565 | the rows are every section's rows in section order, followed by the panels the route leaves out |
| ListRedraw.SectionPartTaskRows | src/main/java/net/reldo/taskstracker/panel/TaskListPanel.java:409-553 | the section rows show a task exactly when some section lists it and it is counted |
| ListRedraw.RedrawTaskRows | src/main/java/net/reldo/taskstracker/panel/TaskListPanel.java:380-565 | a panel's task is placed exactly when the route leaves it out or it is counted. A task the route positions but the matcher rejects is placed nowhere. A hidden task row is always a counted task the route positions |
| ListRedraw.SectionRowsRespectFilter | src/main/java/net/reldo/taskstracker/panel/TaskListPanel.java:451-460 | every placeholder row of a section passes the completed filter |
| ListRedraw.RedrawRespectsCompletedFilter | src/main/java/net/reldo/taskstracker/panel/TaskListPanel.java:451-460 | every placeholder row of a sectioned redraw passes the completed filter |
| ListRedraw.PlaceholderOnlySectionReadsZeroOfZero | src/main/java/net/reldo/taskstracker/panel/TaskListPanel.java:486-497 | a section holding one placeholder still gets a header, and it reads 0/0 in green |
| ListRedraw.CompletionChanged | src/main/java/net/reldo/taskstracker/panel/TaskListPanel.java:463-473 | ticking a placeholder puts its id in the completed set and unticking takes it out; no other id changes |
| ListRedraw.CompletionChangedIsSeen | src/main/java/net/reldo/taskstracker/panel/TaskListPanel.java:449-473 | the next redraw reads the toggled placeholder in its new state and every other placeholder as before |
| ListRedraw.PlaceholderDone | src/main/java/net/reldo/taskstracker/panel/TaskListPanel.java:449 | a placeholder with an id is done exactly when that id is in the completed set; one without an id is never done |
| ListRedraw.CollapseCallback | src/main/java/net/reldo/taskstracker/panel/TaskListPanel.java:515-536 | collapsing remembers the section key and hides every row. Expanding forgets the key, shows every placeholder row, and shows a task row exactly when the matcher accepts its task |
| ListRedraw.ExpandShowsEverySectionRow | src/main/java/net/reldo/taskstracker/panel/TaskListPanel.java:515-536 | expanding a section that the redraw built shows every one of its rows again |
| ListRedraw.CollapseThenExpand | src/main/java/net/reldo/taskstracker/panel/TaskListPanel.java:515-536 | collapsing then expanding forgets the key and leaves the rows as a single expand would |
| ListRedraw.ClickHeader | src/main/java/net/reldo/taskstracker/panel/TaskListPanel.java:515-539 | a click flips the header. Only a wired header has an effect: it leaves the key remembered exactly when the section is now collapsed, keeps every other remembered key, and hides every row when collapsing. Its effect is exactly the collapse callback run for the header's new state |
| ListRedraw.IsTaskInCollapsedSection | src/main/java/net/reldo/taskstracker/panel/TaskListPanel.java:146-165 | a task is in a collapsed section only when the active route positions it, and then exactly when its first section's key is collapsed |
| ListRedraw.RefreshAllTasks | src/main/java/net/reldo/taskstracker/panel/TaskListPanel.java:123-141 | a panel is visible exactly when it meets its filter criteria and is not in a collapsed section; the empty message shows exactly when no panel is visible |
| ListRedraw.RefreshShowsOnlyExpandedRouteTasks | src/main/java/net/reldo/taskstracker/panel/TaskListPanel.java:131-139 | after a refresh under an active route, a visible task has a section, that section is expanded, and the matcher accepts the task |
| ListRedraw.SortedPosition | src/main/java/net/reldo/taskstracker/panel/TaskListPanel.java:368-372 | the sort position of a display slot is within the list |
| ListRedraw.RedrawWithoutSections | src/main/java/net/reldo/taskstracker/panel/TaskListPanel.java:364-378 | slot i shows the panel the sort puts at that slot's position, and every slot shows one of the panels |
| ListRedraw.DescendingReversesAscending | src/main/java/net/reldo/taskstracker/panel/TaskListPanel.java:366-377 | ascending, slot i shows sort position i; descending, it shows sort position n - 1 - i |
| ListRedraw.EveryPanelIsPlaced | src/main/java/net/reldo/taskstracker/panel/TaskListPanel.java:366-377 | when the sort is a permutation of the panels, every panel gets a slot in either direction |
| ListRedraw.CompletedItemsFor | src/main/java/net/reldo/taskstracker/panel/TaskListPanel.java:383-387 | a route without a name has no completed placeholders |
| ListRedraw.Redraw | src/main/java/net/reldo/taskstracker/panel/TaskListPanel.java:324-362 | the layout this call places: no panels shows the empty message. An active route with sections gives the sectioned layout, with that route's completed placeholders. Otherwise the panels follow the sort order (placeholder rows left from an earlier sectioned redraw are not part of the result) |

## Left out

- Swing rendering is not modelled: components, borders, fonts, colours as RGB, `revalidate` and `repaint`. Rows are abstract values carrying their visibility, and `setComponentZOrder` positions become the order of the row list.
- The event-dispatch-thread checks and their refusal branches are concurrency plumbing and are not modelled. `SwingUtilities.invokeLater` is the explicit continuation queue.
- JSON encoding and decoding is a codec passed in as a value. The round-trip lemmas assume it is correct.
- The random UUID in `CustomRouteItem.create` is the parameter `freshId`.
- The ordering of `HashSet` is not modelled. Saving a set takes its elements in the caller's iteration order.
- Tooltips, the date format, the completion percentage (a float) and the wiki link are formatting, floating point and I/O, so they are not modelled.
- `Icons.java` is image loading and drawing, so it is not modelled.
- `CustomItemPanel.java` and `RouteSelector.java` are Swing widgets. Their effect on the list is the completion and removal callbacks that `TaskListPanel` wires.
- `TaskService`, `FilterMatcher`, `TaskFromStruct` and `Skill` are not part of this model. They appear as parameters: the sort index function, the matcher verdict, the task fields read, and a function from skill name to ordinal.
- `refreshTask`, `refreshMultipleTasks` and `refreshTaskPanelsWithSkill` are not modelled separately. They call the per-row `refresh` that `TaskPanels.Refresh` states.
- Population.DrawNewTaskType: the registered panels (`taskPanelsByStructId`) are one flag, "some panel registered since the draw began is visible", set from each panel's filter result when it is built (the `shown` argument, which the panel constructor's `refresh` decides). A panel hidden or shown later, by a filter change or a collapse, is not seen by the next batch's `refreshEmptyPanel`. A struct id registered by two interleaved draws counts both panels, where the map keeps only the later one. The label after the final full refresh is `ListRedraw.RefreshAllTasks`.
- A `null` element inside a list has no counterpart: a route's section list holding `null` and a section's entry list holding `null` cannot be built. The source throws a `NullPointerException` on both (CustomRoute.java:58 and RouteSection.java:80-83).
- The removal callback of a placeholder row (`TaskListPanel.java:474-478`) is not modelled as its own member. It is the route removal (`CustomRoutes.RemoveCustomItem`), a save, and a redraw.
- Population.RunBatch: does not model the 32-bit overflow of `batch * batchSize` and `(batch + 1) * batchSize`. Integers are unbounded, because an overflow needs a catalogue of more than 2^31 tasks.
- Population.PopulationCompletes: requires a positive batch size and an idle queue at the start. A draw started while another is still queued interleaves with it, and that case is not stated. A batch size of zero or less is covered separately (`Population.NonPositiveBatchSizeNeverFinishes`).
- Population.RedrawSeesWholeDraw: stated only for a catalogue of at least one full batch. A smaller one leaves the old list in place (`Population.SmallCatalogKeepsOldPanels`).
- ListRedraw.PlaceholderDone: a placeholder with no id is never done. In the source, ticking such a placeholder adds `null` to the in-memory completed set and would then read it as done. That set is reset from the stored ids on the next sectioned redraw.
- TaskPanels.BackgroundColor: requires that every skill ordinal indexes the player's levels, as the client's skill table guarantees. An out-of-range index would throw.
- RouteItems.DisplayName: requires a type other than "". In the source an empty type throws from `substring`.
- ListRedraw.SectionRows: the header is keyed by the section name, or "Section" when there is none. In the source, two sections with the same key share one header entry, so the later section removes the earlier section's header (`TaskListPanel.java:494-507`). The model gives each section its own header.
- ListRedraw.RedrawWithSections: a task listed twice in the route gets a row at each place in the model. The source has one panel per task, so it ends up only at the last place.
- ListRedraw.RedrawWithoutSections: requires that the sort index of each slot is below the number of panels. The source reads `taskPanels.get(taskIndex)` unchecked (`TaskListPanel.java:375`). That throws when the list holds fewer panels than the catalogue, for example while later batches are still queued or after a catalogue smaller than one batch.
- ListRedraw.Redraw: carries the same requirement. It also leaves out the `refreshAllTasks` that the source queues after every layout (`TaskListPanel.java:356`); that refresh is `ListRedraw.RefreshAllTasks`. Its result is only the layout this call places. Placeholder rows added by an earlier sectioned redraw (`TaskListPanel.java:480`) are removed only by the next sectioned redraw (`TaskListPanel.java:396-401`); neither the header-hiding loop (`TaskListPanel.java:339-343`) nor the unsectioned reordering touches them. So after an unsectioned or empty redraw they stay in the buffer, visible, after the task panels, and the model does not carry them.
- CustomRoutes.FindCustomItem: requires that no placeholder entry before the match is null. The source would throw a `NullPointerException` there.
