/**
 * How the task list lays out its rows. With an active route that has sections, each
 * section with something to show gets a header followed by its rows in route order,
 * and the task panels the route does not position follow at the end. Without one,
 * the panels are placed in the task service's sort order. Also the collapse callback,
 * the check that hides tasks of collapsed sections, and the refresh of every row.
 */
module ListRedraw {
  import opened Wrappers
  import opened Seqs
  import opened RouteItems
  import opened RouteSections
  import opened CustomRoutes
  import opened SectionHeaders
  import TaskPanels

  /** The completed-filter setting, as it applies to placeholders. */
  datatype CompletedFilter = ShowAll | ShowComplete | ShowIncomplete

  predicate Admits(f: CompletedFilter, done: bool)
  {
    match f
    case ShowAll => true
    case ShowComplete => done
    case ShowIncomplete => !done
  }

  /**
   * What a sectioned redraw reads: the task ids of the existing task panels, the
   * filter matcher's verdict per task id (None when there is no matcher), whether each
   * task is completed, the ids of completed placeholders, the completed filter, and
   * the keys of the collapsed sections.
   */
  datatype Context = Context(
    panelIds: seq<int>,
    matcher: Option<int -> bool>,
    isCompleted: int -> bool,
    completedItems: set<string>,
    completedFilter: CompletedFilter,
    collapsed: set<string>)

  /** A task counted in its section's header: it has a panel and the matcher accepts it. */
  predicate Counted(ctx: Context, t: int)
  {
    t in ctx.panelIds && ctx.matcher.Some? && ctx.matcher.value(t)
  }

  /** Reference definition: the counted ids, in order. */
  function CountedIds(ids: seq<int>, ctx: Context): (r: seq<int>)
    ensures forall t :: t in r <==> t in ids && Counted(ctx, t)
    ensures IsSubsequence(r, ids)
  {
    if |ids| == 0 then []
    else
      var rest := CountedIds(ids[1..], ctx);
      if Counted(ctx, ids[0]) then
        assert ([ids[0]] + rest)[1..] == rest;
        [ids[0]] + rest
      else rest
  }

  /** Reference definition: how many of `ids` are completed tasks. */
  function CountCompleted(ids: seq<int>, ctx: Context): (r: nat)
    ensures r <= |ids|
  {
    if |ids| == 0 then 0
    else (if ctx.isCompleted(ids[0]) then 1 else 0) + CountCompleted(ids[1..], ctx)
  }

  /** A row of a section before it is placed: a task, or a placeholder with its state. */
  datatype Entry = TaskEntry(taskId: int) | CustomEntry(item: CustomRouteItem, done: bool)

  /** A placeholder is done when its id is in the completed set; a missing id never is. */
  function PlaceholderDone(ctx: Context, c: CustomRouteItem): (r: bool)
    ensures c.id.None? ==> !r
    ensures c.id.Some? ==> (r <==> c.id.value in ctx.completedItems)
  {
    c.id.Some? && c.id.value in ctx.completedItems
  }

  /** Reference definition: the placeholders the completed filter lets through, in order. */
  function ShownPlaceholders(cs: seq<Option<CustomRouteItem>>, ctx: Context): (r: seq<Entry>)
    ensures forall i :: 0 <= i < |r| ==> r[i].CustomEntry? && Admits(ctx.completedFilter, r[i].done)
  {
    if |cs| == 0 then []
    else
      (if cs[0].Some? && Admits(ctx.completedFilter, PlaceholderDone(ctx, cs[0].value))
       then [CustomEntry(cs[0].value, PlaceholderDone(ctx, cs[0].value))] else [])
      + ShownPlaceholders(cs[1..], ctx)
  }

  function TaskEntryIds(es: seq<Entry>): seq<int>
  {
    if |es| == 0 then []
    else (if es[0].TaskEntry? then [es[0].taskId] else []) + TaskEntryIds(es[1..])
  }

  function CustomEntries(es: seq<Entry>): seq<Entry>
  {
    if |es| == 0 then []
    else (if es[0].CustomEntry? then [es[0]] else []) + CustomEntries(es[1..])
  }

  lemma {:induction false} TaskEntryIdsMembership(es: seq<Entry>, t: int)
    ensures t in TaskEntryIds(es) <==> TaskEntry(t) in es
  {
    if |es| > 0 {
      TaskEntryIdsMembership(es[1..], t);
      assert es == [es[0]] + es[1..];
    }
  }

  /** The rows of one section, with its header counts. */
  datatype Scan = Scan(entries: seq<Entry>, total: nat, completed: nat)

  /**
   * The loop over a section's entries. A task with a panel is shown and counted when the
   * matcher accepts it; a placeholder is shown when the completed filter admits it; a
   * null placeholder is skipped. The header counts cover tasks only.
   */
  function ScanItems(items: seq<RouteItem>, ctx: Context): (r: Scan)
    ensures r.completed <= r.total <= |r.entries|
  {
    if |items| == 0 then Scan([], 0, 0)
    else
      var rest := ScanItems(items[1..], ctx);
      var item := items[0];
      if item.IsTask() then
        var t := item.taskId.value;
        if Counted(ctx, t) then
          Scan([TaskEntry(t)] + rest.entries, rest.total + 1, rest.completed + (if ctx.isCompleted(t) then 1 else 0))
        else rest
      else
        match item.customItem
        case None => rest
        case Some(c) =>
          var done := PlaceholderDone(ctx, c);
          if Admits(ctx.completedFilter, done) then Scan([CustomEntry(c, done)] + rest.entries, rest.total, rest.completed)
          else rest
  }

  lemma TaskEntryIdsCons(e: Entry, es: seq<Entry>)
    ensures TaskEntryIds([e] + es) == (if e.TaskEntry? then [e.taskId] else []) + TaskEntryIds(es)
    ensures CustomEntries([e] + es) == (if e.CustomEntry? then [e] else []) + CustomEntries(es)
  {
    assert ([e] + es)[0] == e && ([e] + es)[1..] == es;
  }

  lemma CountedIdsCons(t: int, ids: seq<int>, ctx: Context)
    ensures CountedIds([t] + ids, ctx) == (if Counted(ctx, t) then [t] else []) + CountedIds(ids, ctx)
    ensures CountCompleted([t] + ids, ctx) == (if ctx.isCompleted(t) then 1 else 0) + CountCompleted(ids, ctx)
  {
    assert ([t] + ids)[0] == t && ([t] + ids)[1..] == ids;
  }

  lemma ShownPlaceholdersCons(c: Option<CustomRouteItem>, cs: seq<Option<CustomRouteItem>>, ctx: Context)
    ensures ShownPlaceholders([c] + cs, ctx) ==
      (if c.Some? && Admits(ctx.completedFilter, PlaceholderDone(ctx, c.value))
       then [CustomEntry(c.value, PlaceholderDone(ctx, c.value))] else [])
      + ShownPlaceholders(cs, ctx)
  {
    assert ([c] + cs)[0] == c && ([c] + cs)[1..] == cs;
  }

  /**
   * The one-pass scan agrees with the reference definitions: its task rows are exactly
   * the counted task ids in route order, its placeholder rows exactly the placeholders
   * the completed filter admits, in route order, and its counts are those of the
   * counted tasks.
   */
  lemma {:induction false} ScanMatchesReference(items: seq<RouteItem>, ctx: Context)
    ensures TaskEntryIds(ScanItems(items, ctx).entries) == CountedIds(TaskIdsOf(items), ctx)
    ensures CustomEntries(ScanItems(items, ctx).entries) == ShownPlaceholders(CustomItemsOf(items), ctx)
    ensures ScanItems(items, ctx).total == |CountedIds(TaskIdsOf(items), ctx)|
    ensures ScanItems(items, ctx).completed == CountCompleted(CountedIds(TaskIdsOf(items), ctx), ctx)
  {
    if |items| > 0 {
      ScanMatchesReference(items[1..], ctx);
      var rest := ScanItems(items[1..], ctx);
      var item := items[0];
      var ids := TaskIdsOf(items[1..]);
      var cs := CustomItemsOf(items[1..]);
      if item.IsTask() {
        var t := item.taskId.value;
        assert TaskIdsOf(items) == [t] + ids;
        assert CustomItemsOf(items) == cs;
        CountedIdsCons(t, ids, ctx);
        if Counted(ctx, t) {
          TaskEntryIdsCons(TaskEntry(t), rest.entries);
          CountedIdsCons(t, CountedIds(ids, ctx), ctx);
        }
      } else {
        assert TaskIdsOf(items) == ids;
        assert CustomItemsOf(items) == [item.customItem] + cs;
        ShownPlaceholdersCons(item.customItem, cs, ctx);
        if item.customItem.Some? {
          var c := item.customItem.value;
          TaskEntryIdsCons(CustomEntry(c, PlaceholderDone(ctx, c)), rest.entries);
        }
      }
    }
  }

  /** Every placeholder shown respects the completed filter. */
  lemma {:induction false} ShownPlaceholdersRespectFilter(items: seq<RouteItem>, ctx: Context, e: Entry)
    requires e in ScanItems(items, ctx).entries && e.CustomEntry?
    ensures Admits(ctx.completedFilter, e.done) && e.done == PlaceholderDone(ctx, e.item)
  {
    if |items| > 0 {
      var rest := ScanItems(items[1..], ctx);
      if e in rest.entries {
        ShownPlaceholdersRespectFilter(items[1..], ctx, e);
      }
    }
  }

  /** A row as placed: a section header, or a task or placeholder hidden when its section is collapsed. */
  datatype Row =
    | HeaderRow(key: string, header: HeaderPanel, completed: nat, total: nat)
    | TaskRow(taskId: int, hidden: bool)
    | CustomRow(item: CustomRouteItem, done: bool, hidden: bool)

  function EntryRow(e: Entry, hidden: bool): Row
  {
    match e
    case TaskEntry(t) => TaskRow(t, hidden)
    case CustomEntry(c, d) => CustomRow(c, d, hidden)
  }

  /**
   * One section: nothing when it has nothing to show; otherwise a new header with its
   * counts, restored to the remembered collapsed state and wired to the callback, then
   * its rows in route order, hidden when the section is collapsed.
   */
  function SectionRows(s: RouteSection, ctx: Context): (r: seq<Row>)
    ensures var scan := ScanItems(GetItems(s), ctx);
      && (|r| == 0 <==> |scan.entries| == 0)
      && (|r| > 0 ==>
          && |r| == |scan.entries| + 1
          && r[0].HeaderRow? && r[0].key == SectionKey(s.name)
          && r[0].completed == scan.completed && r[0].total == scan.total
          && r[0].header.collapsed == (SectionKey(s.name) in ctx.collapsed)
          && r[0].header.hasCallback
          && r[1..] == EntryRows(scan.entries, r[0].header.collapsed))
  {
    var scan := ScanItems(GetItems(s), ctx);
    if |scan.entries| == 0 then []
    else
      var key := SectionKey(s.name);
      var isCollapsed := key in ctx.collapsed;
      var head := HeaderRow(key, SectionHeader(s, scan.completed, scan.total, isCollapsed), scan.completed, scan.total);
      var rows := EntryRows(scan.entries, isCollapsed);
      assert ([head] + rows)[1..] == rows;
      [head] + rows
  }

  /** The header of a shown section: new, with its counts, in the remembered state, wired to the callback. */
  function SectionHeader(s: RouteSection, completed: nat, total: nat, isCollapsed: bool): (h: HeaderPanel)
    ensures h.collapsed == isCollapsed && h.hasCallback && Consistent(h)
    ensures h.labelText == LabelText(s.name, s.description)
    ensures ParseProgress(h.progressText) == Some((completed as int, total as int))
    ensures h.progressColor == Done <==> completed == total
  {
    SetCollapseCallback(SetCollapsedState(NewHeader(s.name, s.description, completed, total), isCollapsed))
  }

  function EntryRows(es: seq<Entry>, hidden: bool): (r: seq<Row>)
    ensures |r| == |es| && forall i :: 0 <= i < |es| ==> r[i] == EntryRow(es[i], hidden)
  {
    seq(|es|, i requires 0 <= i < |es| => EntryRow(es[i], hidden))
  }

  /** Whether a task appears as a row, hidden or not. */
  predicate HasTaskRow(rows: seq<Row>, t: int)
  {
    TaskRow(t, true) in rows || TaskRow(t, false) in rows
  }

  /** A section shows a task exactly when the section lists it and it is counted. */
  lemma SectionTaskRows(s: RouteSection, ctx: Context, t: int)
    ensures HasTaskRow(SectionRows(s, ctx), t) <==> t in GetTaskIds(s) && Counted(ctx, t)
  {
    var items := GetItems(s);
    var scan := ScanItems(items, ctx);
    ScanMatchesReference(items, ctx);
    TaskEntryIdsMembership(scan.entries, t);
    assert t in GetTaskIds(s) && Counted(ctx, t) <==> TaskEntry(t) in scan.entries;
    if |scan.entries| > 0 {
      var isCollapsed := SectionKey(s.name) in ctx.collapsed;
      var rows := EntryRows(scan.entries, isCollapsed);
      EntryRowsTasks(scan.entries, isCollapsed, t);
      var head := HeaderRow(SectionKey(s.name), SectionHeader(s, scan.completed, scan.total, isCollapsed), scan.completed, scan.total);
      assert SectionRows(s, ctx) == [head] + rows;
    }
  }

  /** A task appears among placed entries exactly when it is an entry. */
  lemma EntryRowsTasks(es: seq<Entry>, hidden: bool, t: int)
    ensures HasTaskRow(EntryRows(es, hidden), t) <==> TaskEntry(t) in es
  {
    var rows := EntryRows(es, hidden);
    if HasTaskRow(rows, t) {
      var k :| 0 <= k < |rows| && rows[k].TaskRow? && rows[k].taskId == t;
      assert es[k] == TaskEntry(t);
    }
    if TaskEntry(t) in es {
      var k :| 0 <= k < |es| && es[k] == TaskEntry(t);
      assert rows[k] == TaskRow(t, hidden);
    }
  }

  /** The rows of every section, in section order. */
  function SectionPart(ss: seq<RouteSection>, ctx: Context): seq<Row>
  {
    Flatten(seq(|ss|, i requires 0 <= i < |ss| => SectionRows(ss[i], ctx)))
  }

  /** The trailing rows: every task panel whose task the route does not position, in panel order. */
  function Unpositioned(ids: seq<int>, order: seq<int>): (r: seq<Row>)
    ensures forall i :: 0 <= i < |r| ==> r[i].TaskRow? && !r[i].hidden && r[i].taskId in ids && r[i].taskId !in order
    ensures forall t :: t in ids && t !in order ==> TaskRow(t, false) in r
  {
    if |ids| == 0 then []
    else (if ids[0] !in order then [TaskRow(ids[0], false)] else []) + Unpositioned(ids[1..], order)
  }

  /** `redrawWithSections`: the section rows, then the panels the route leaves out. */
  function RedrawWithSections(route: CustomRoute, ctx: Context): (r: seq<Row>)
    requires route.sections.Some?
    ensures |r| >= |SectionPart(route.sections.value, ctx)|
    ensures r[..|SectionPart(route.sections.value, ctx)|] == SectionPart(route.sections.value, ctx)
    ensures r[|SectionPart(route.sections.value, ctx)|..] == Unpositioned(ctx.panelIds, GetFlattenedOrder(route))
  {
    SectionPart(route.sections.value, ctx) + Unpositioned(ctx.panelIds, GetFlattenedOrder(route))
  }

  lemma SectionPartTaskRows(ss: seq<RouteSection>, ctx: Context, t: int)
    ensures HasTaskRow(SectionPart(ss, ctx), t) <==> Counted(ctx, t) && InSomeSection(ss, t)
  {
    var ls := seq(|ss|, i requires 0 <= i < |ss| => SectionRows(ss[i], ctx));
    FlattenMembership(ls, TaskRow(t, true));
    FlattenMembership(ls, TaskRow(t, false));
    forall j | 0 <= j < |ss|
      ensures HasTaskRow(ls[j], t) <==> t in GetTaskIds(ss[j]) && Counted(ctx, t)
    {
      SectionTaskRows(ss[j], ctx, t);
    }
    if Counted(ctx, t) && InSomeSection(ss, t) {
      var j :| 0 <= j < |ss| && t in GetTaskIds(ss[j]);
      assert HasTaskRow(ls[j], t);
    }
  }

  /**
   * Which tasks a sectioned redraw places: a panel's task appears exactly when the route
   * does not position it, or when the matcher accepts it; a task the route positions but
   * the matcher rejects is never placed anywhere. Only section rows can be hidden.
   */
  lemma RedrawTaskRows(route: CustomRoute, ctx: Context, t: int)
    requires route.sections.Some?
    ensures HasTaskRow(RedrawWithSections(route, ctx), t) <==>
      t in ctx.panelIds && (t !in GetFlattenedOrder(route) || Counted(ctx, t))
    ensures TaskRow(t, true) in RedrawWithSections(route, ctx) ==> t in GetFlattenedOrder(route) && Counted(ctx, t)
  {
    var ss := route.sections.value;
    var head := SectionPart(ss, ctx);
    var tail := Unpositioned(ctx.panelIds, GetFlattenedOrder(route));
    SectionPartTaskRows(ss, ctx, t);
    assert RedrawWithSections(route, ctx) == head + tail;
    assert SectionsOf(route) == ss;
  }

  /** Every placeholder a section shows respects the completed filter. */
  lemma SectionRowsRespectFilter(s: RouteSection, ctx: Context, row: Row)
    requires row in SectionRows(s, ctx) && row.CustomRow?
    ensures Admits(ctx.completedFilter, row.done)
  {
    var r := SectionRows(s, ctx);
    var scan := ScanItems(GetItems(s), ctx);
    var m :| 0 <= m < |r| && r[m] == row;
    assert r[m] == r[1..][m - 1];
    ShownPlaceholdersRespectFilter(GetItems(s), ctx, scan.entries[m - 1]);
  }

  /** Every placeholder a sectioned redraw places respects the completed filter. */
  lemma RedrawRespectsCompletedFilter(route: CustomRoute, ctx: Context, k: nat)
    requires route.sections.Some?
    requires k < |RedrawWithSections(route, ctx)| && RedrawWithSections(route, ctx)[k].CustomRow?
    ensures Admits(ctx.completedFilter, RedrawWithSections(route, ctx)[k].done)
  {
    var ss := route.sections.value;
    var ls := seq(|ss|, i requires 0 <= i < |ss| => SectionRows(ss[i], ctx));
    var r := RedrawWithSections(route, ctx);
    var row := r[k];
    var head := SectionPart(ss, ctx);
    assert k < |head|;
    assert row == head[k];
    FlattenMembership(ls, row);
    var j :| 0 <= j < |ls| && row in ls[j];
    SectionRowsRespectFilter(ss[j], ctx, row);
  }

  /** A section of placeholders only still gets a header, reading "0/0" in green. */
  lemma PlaceholderOnlySectionReadsZeroOfZero(ctx: Context, c: CustomRouteItem)
    requires ctx.completedFilter == ShowAll
    ensures var s := RouteSection(None, None, None, Some([ForCustom(c)]));
      var r := SectionRows(s, ctx);
      && |r| == 2 && r[0].HeaderRow? && r[0].total == 0 && r[0].completed == 0
      && r[0].header.progressColor == Done
  {
    var s := RouteSection(None, None, None, Some([ForCustom(c)]));
    assert GetItems(s) == [ForCustom(c)];
    var rest := ScanItems([ForCustom(c)][1..], ctx);
    assert [ForCustom(c)][1..] == [];
  }

  /**
   * The completion callback of a placeholder row: the placeholder's id joins the
   * completed set when it is ticked and leaves it when it is unticked; no other id moves.
   */
  function CompletionChanged(completedItems: set<string>, id: string, nowCompleted: bool): (r: set<string>)
    ensures id in r <==> nowCompleted
    ensures forall other :: other != id ==> (other in r <==> other in completedItems)
  {
    if nowCompleted then completedItems + {id} else completedItems - {id}
  }

  /**
   * The next redraw reads a ticked placeholder as done and an unticked one as not done,
   * and every placeholder with another id as before.
   */
  lemma CompletionChangedIsSeen(ctx: Context, id: string, nowCompleted: bool, c: CustomRouteItem)
    ensures var after := ctx.(completedItems := CompletionChanged(ctx.completedItems, id, nowCompleted));
      && (c.id == Some(id) ==> (PlaceholderDone(after, c) <==> nowCompleted))
      && (c.id != Some(id) ==> (PlaceholderDone(after, c) <==> PlaceholderDone(ctx, c)))
  {
  }

  /** The matcher's verdict the collapse callback uses; no matcher shows everything. */
  predicate PassesFilter(matcher: Option<int -> bool>, t: int)
  {
    matcher.None? || matcher.value(t)
  }

  datatype CallbackEffect = CallbackEffect(collapsed: set<string>, visible: seq<bool>)

  /**
   * The collapse callback of one section: remembers or forgets the section's key, and
   * sets each of the section's rows visible when the section is expanded, a task row
   * only when it also passes the filter.
   */
  function CollapseCallback(collapsed: set<string>, key: string, nowCollapsed: bool, entries: seq<Entry>,
                            matcher: Option<int -> bool>): (r: CallbackEffect)
    ensures nowCollapsed ==> r.collapsed == collapsed + {key}
    ensures !nowCollapsed ==> r.collapsed == collapsed - {key}
    ensures |r.visible| == |entries|
    ensures nowCollapsed ==> forall i :: 0 <= i < |entries| ==> !r.visible[i]
    ensures !nowCollapsed ==> forall i :: 0 <= i < |entries| ==> entries[i].CustomEntry? ==> r.visible[i]
    ensures !nowCollapsed ==> forall i :: 0 <= i < |entries| ==> entries[i].TaskEntry? ==> (r.visible[i] <==> matcher.None? || matcher.value(entries[i].taskId))
  {
    CallbackEffect(
      if nowCollapsed then collapsed + {key} else collapsed - {key},
      seq(|entries|, i requires 0 <= i < |entries| =>
        !nowCollapsed && (entries[i].TaskEntry? ==> PassesFilter(matcher, entries[i].taskId))))
  }

  /** Expanding a section the redraw built shows every one of its rows again. */
  lemma ExpandShowsEverySectionRow(collapsed: set<string>, s: RouteSection, ctx: Context)
    ensures var scan := ScanItems(GetItems(s), ctx);
      var r := CollapseCallback(collapsed, SectionKey(s.name), false, scan.entries, ctx.matcher);
      SectionKey(s.name) !in r.collapsed && forall i :: 0 <= i < |r.visible| ==> r.visible[i]
  {
    var scan := ScanItems(GetItems(s), ctx);
    forall i | 0 <= i < |scan.entries| && scan.entries[i].TaskEntry?
      ensures Counted(ctx, scan.entries[i].taskId)
    {
      var t := scan.entries[i].taskId;
      TaskEntryIdsMembership(scan.entries, t);
      ScanMatchesReference(GetItems(s), ctx);
    }
  }

  /** Collapsing and then expanding forgets the key, whether or not it was remembered. */
  lemma CollapseThenExpand(collapsed: set<string>, key: string, entries: seq<Entry>, matcher: Option<int -> bool>)
    ensures var once := CollapseCallback(collapsed, key, true, entries, matcher);
      var twice := CollapseCallback(once.collapsed, key, false, entries, matcher);
      && twice.collapsed == collapsed - {key}
      && twice.visible == CollapseCallback(collapsed, key, false, entries, matcher).visible
  {
  }

  /**
   * A click on a section header: the header toggles and, when wired, runs the callback;
   * an unwired header has no effect on the remembered keys or on any row.
   */
  function ClickHeader(h: HeaderPanel, collapsed: set<string>, key: string, entries: seq<Entry>,
                       matcher: Option<int -> bool>): (r: (HeaderPanel, Option<CallbackEffect>))
    requires Consistent(h)
    ensures r.0.collapsed == !h.collapsed
    ensures r.1.Some? <==> h.hasCallback
    ensures r.1.Some? ==> (key in r.1.value.collapsed <==> r.0.collapsed)
    ensures r.1.Some? ==> r.1.value.collapsed - {key} == collapsed - {key}
    ensures r.1.Some? && r.0.collapsed ==> forall i :: 0 <= i < |r.1.value.visible| ==> !r.1.value.visible[i]
    ensures r.1.Some? ==> r.1.value == CollapseCallback(collapsed, key, r.0.collapsed, entries, matcher)
  {
    var t := ToggleCollapsed(h);
    match t.fired
    case None => (t.header, None)
    case Some(c) => (t.header, Some(CollapseCallback(collapsed, key, c, entries, matcher)))
  }

  /**
   * `isTaskInCollapsedSection`: with an active route that has sections, whether the
   * first section listing the task is collapsed; otherwise false.
   */
  function IsTaskInCollapsedSection(activeRoute: Option<CustomRoute>, collapsed: set<string>, t: int): (r: bool)
    ensures r ==> activeRoute.Some? && t in GetFlattenedOrder(activeRoute.value)
    ensures activeRoute.Some? && GetSectionForTask(activeRoute.value, t).Some? ==>
      (r <==> SectionKey(GetSectionForTask(activeRoute.value, t).value.name) in collapsed)
  {
    match activeRoute
    case None => false
    case Some(route) =>
      match route.sections
      case None => false
      case Some(ss) =>
        match SectionIndexForTask(ss, t)
        case None => false
        case Some(i) => SectionKey(ss[i].name) in collapsed
  }

  datatype Refreshed = Refreshed(visible: seq<bool>, emptyShown: bool)

  /**
   * `refreshAllTasks`: each panel refreshes (its visibility becomes its filter verdict),
   * then a visible panel in a collapsed section is hidden; the empty-list message shows
   * exactly when no panel is visible.
   */
  function RefreshAllTasks(panelIds: seq<int>, activeRoute: Option<CustomRoute>, matcherAccepts: int -> bool,
                           collapsed: set<string>): (r: Refreshed)
    ensures |r.visible| == |panelIds|
    ensures forall i :: 0 <= i < |panelIds| ==>
      r.visible[i] == (TaskPanels.MeetsFilterCriteria(activeRoute, panelIds[i], matcherAccepts(panelIds[i]))
                       && !IsTaskInCollapsedSection(activeRoute, collapsed, panelIds[i]))
    ensures r.emptyShown <==> forall i :: 0 <= i < |panelIds| ==> !r.visible[i]
  {
    var visible := seq(|panelIds|, i requires 0 <= i < |panelIds| =>
      TaskPanels.MeetsFilterCriteria(activeRoute, panelIds[i], matcherAccepts(panelIds[i]))
      && !IsTaskInCollapsedSection(activeRoute, collapsed, panelIds[i]));
    Refreshed(visible, true !in visible)
  }

  /** After a refresh under an active route, a visible task's first section is expanded. */
  lemma RefreshShowsOnlyExpandedRouteTasks(panelIds: seq<int>, route: CustomRoute, matcherAccepts: int -> bool,
                                           collapsed: set<string>, i: nat)
    requires i < |panelIds| && RefreshAllTasks(panelIds, Some(route), matcherAccepts, collapsed).visible[i]
    ensures GetSectionForTask(route, panelIds[i]).Some?
    ensures SectionKey(GetSectionForTask(route, panelIds[i]).value.name) !in collapsed
    ensures matcherAccepts(panelIds[i])
  {
  }

  /** The sort position shown at display slot `i`: reversed when descending. */
  function SortedPosition(n: nat, descending: bool, i: nat): (r: nat)
    requires i < n
    ensures r < n
  {
    if descending then n - (i + 1) else i
  }

  /** `sortedIndex` maps each sort position to the index of a task panel. */
  predicate IndexesPanels(n: nat, sortedIndex: nat -> nat)
  {
    forall k :: 0 <= k < n ==> sortedIndex(k) < n
  }

  /** `redrawWithoutSections`: the task panels, by id, in display order. */
  function RedrawWithoutSections(panelIds: seq<int>, descending: bool, sortedIndex: nat -> nat): (r: seq<int>)
    requires IndexesPanels(|panelIds|, sortedIndex)
    ensures |r| == |panelIds|
    ensures forall i :: 0 <= i < |r| ==> r[i] == panelIds[sortedIndex(SortedPosition(|panelIds|, descending, i))]
    ensures forall i :: 0 <= i < |r| ==> r[i] in panelIds
  {
    seq(|panelIds|, i requires 0 <= i < |panelIds| =>
      panelIds[sortedIndex(SortedPosition(|panelIds|, descending, i))])
  }

  /** Slot i shows sort position i ascending, and n-1-i descending: one order is the other reversed. */
  lemma DescendingReversesAscending(panelIds: seq<int>, sortedIndex: nat -> nat, i: nat)
    requires IndexesPanels(|panelIds|, sortedIndex) && i < |panelIds|
    ensures RedrawWithoutSections(panelIds, false, sortedIndex)[i] == panelIds[sortedIndex(i)]
    ensures RedrawWithoutSections(panelIds, true, sortedIndex)[i]
      == RedrawWithoutSections(panelIds, false, sortedIndex)[|panelIds| - 1 - i]
  {
  }

  /** When the sort is a permutation of the panels, every panel gets a slot. */
  lemma EveryPanelIsPlaced(panelIds: seq<int>, descending: bool, sortedIndex: nat -> nat, positionOf: nat -> nat, k: nat)
    requires IndexesPanels(|panelIds|, sortedIndex)
    requires forall j :: 0 <= j < |panelIds| ==> positionOf(j) < |panelIds| && sortedIndex(positionOf(j)) == j
    requires k < |panelIds|
    ensures exists i :: 0 <= i < |panelIds| && RedrawWithoutSections(panelIds, descending, sortedIndex)[i] == panelIds[k]
  {
    var n := |panelIds|;
    var p := positionOf(k);
    var i := SortedPosition(n, descending, p);
    assert SortedPosition(n, descending, i) == p;
    assert RedrawWithoutSections(panelIds, descending, sortedIndex)[i] == panelIds[k];
  }

  /** The placeholders completed for a route: none when the route has no name. */
  function CompletedItemsFor(routeName: Option<string>, load: string -> set<string>): (r: set<string>)
    ensures routeName.None? ==> r == {}
  {
    if routeName.Some? then load(routeName.value) else {}
  }

  datatype Redrawn = EmptyList | Sectioned(rows: seq<Row>) | Unsectioned(order: seq<int>)

  /**
   * `redraw`: no panels shows the empty-list message; an active route with sections
   * gives the sectioned layout, using that route's completed placeholders; otherwise
   * the sort order. The result is what this call places: placeholder rows an earlier
   * sectioned redraw added stay in the buffer until the next sectioned redraw removes
   * them, and are not part of it.
   */
  function Redraw(ctx: Context, activeRoute: Option<CustomRoute>, loadCompletion: string -> set<string>,
                  descending: bool, sortedIndex: nat -> nat): (r: Redrawn)
    requires IndexesPanels(|ctx.panelIds|, sortedIndex)
    ensures r.EmptyList? <==> |ctx.panelIds| == 0
    ensures r.Sectioned? <==> |ctx.panelIds| > 0 && activeRoute.Some? && activeRoute.value.sections.Some?
    ensures r.Sectioned? ==>
      r.rows == RedrawWithSections(activeRoute.value,
                                   ctx.(completedItems := CompletedItemsFor(activeRoute.value.name, loadCompletion)))
    ensures r.Unsectioned? ==> r.order == RedrawWithoutSections(ctx.panelIds, descending, sortedIndex)
  {
    if |ctx.panelIds| == 0 then EmptyList
    else if activeRoute.Some? && activeRoute.value.sections.Some? then
      var route := activeRoute.value;
      Sectioned(RedrawWithSections(route, ctx.(completedItems := CompletedItemsFor(route.name, loadCompletion))))
    else Unsectioned(RedrawWithoutSections(ctx.panelIds, descending, sortedIndex))
  }
}
