/**
 * The row logic of one task panel: its background colour, its track toggle, whether it
 * is shown, the "Insert" menu it offers on an active route, and its points text.
 */
module TaskPanels {
  import opened Wrappers
  import Text
  import opened RouteItems
  import opened RouteSections
  import opened CustomRoutes

  /** A skill a task requires: the skill's name as the task data spells it, and the level. */
  datatype SkillRequirement = SkillRequirement(skill: string, level: int)

  /** The three backgrounds a row can have. */
  datatype Background = Plain | CompletedBackground | Unqualified

  /**
   * `ordinalOf` plays the role of upper-casing a skill name and looking it up in the
   * client's skill enumeration; every ordinal it gives indexes the player's levels.
   */
  ghost predicate OrdinalsInRange(levels: seq<int>, ordinalOf: string -> Option<nat>)
  {
    forall name :: ordinalOf(name).Some? ==> ordinalOf(name).value < |levels|
  }

  /** A requirement naming a known skill whose level the player has not reached. */
  predicate Unmet(levels: seq<int>, req: SkillRequirement, ordinalOf: string -> Option<nat>)
    requires OrdinalsInRange(levels, ordinalOf)
  {
    ordinalOf(req.skill).Some? && levels[ordinalOf(req.skill).value] < req.level
  }

  /** The loop over the requirements: unknown names are skipped, the first unmet one decides. */
  function AnyUnmet(levels: seq<int>, reqs: seq<SkillRequirement>, ordinalOf: string -> Option<nat>): (r: bool)
    requires OrdinalsInRange(levels, ordinalOf)
    ensures r <==> exists i :: 0 <= i < |reqs| && Unmet(levels, reqs[i], ordinalOf)
  {
    if |reqs| == 0 then false
    else match ordinalOf(reqs[0].skill)
      case None =>
        assert forall i :: 1 <= i < |reqs| ==> reqs[i] == reqs[1..][i - 1];
        AnyUnmet(levels, reqs[1..], ordinalOf)
      case Some(k) =>
        if levels[k] < reqs[0].level then true
        else
          assert forall i :: 1 <= i < |reqs| ==> reqs[i] == reqs[1..][i - 1];
          AnyUnmet(levels, reqs[1..], ordinalOf)
  }

  /**
   * `getTaskBackgroundColor`. Without the player's levels the row is plain; a completed
   * task is marked completed; otherwise the row is marked unqualified exactly when some
   * requirement naming a known skill is above the player's level.
   */
  function BackgroundColor(playerLevels: Option<seq<int>>, completed: bool, skills: Option<seq<SkillRequirement>>,
                           ordinalOf: string -> Option<nat>): (r: Background)
    requires playerLevels.Some? ==> OrdinalsInRange(playerLevels.value, ordinalOf)
    ensures playerLevels.None? ==> r == Plain
    ensures playerLevels.Some? && completed ==> r == CompletedBackground
    ensures r == Unqualified <==>
      (&& playerLevels.Some? && !completed && skills.Some?
       && exists i :: 0 <= i < |skills.value| && Unmet(playerLevels.value, skills.value[i], ordinalOf))
  {
    match playerLevels
    case None => Plain
    case Some(levels) =>
      if completed then CompletedBackground
      else if skills.None? || |skills.value| == 0 then Plain
      else if AnyUnmet(levels, skills.value, ordinalOf) then Unqualified
      else Plain
  }

  /** A requirement list with only unknown skill names never marks a row unqualified. */
  lemma UnknownSkillsAreIgnored(levels: seq<int>, skills: seq<SkillRequirement>, ordinalOf: string -> Option<nat>)
    requires OrdinalsInRange(levels, ordinalOf)
    requires forall i :: 0 <= i < |skills| ==> ordinalOf(skills[i].skill).None?
    ensures BackgroundColor(Some(levels), false, Some(skills), ordinalOf) == Plain
  {
  }

  /**
   * `meetsFilterCriteria`: with an active route, a task the route does not position is
   * hidden; every other task shows exactly when the filter matcher accepts it.
   */
  function MeetsFilterCriteria(activeRoute: Option<CustomRoute>, taskId: int, matcherAccepts: bool): (r: bool)
    ensures r <==> matcherAccepts && (activeRoute.None? || InSomeSection(SectionsOf(activeRoute.value), taskId))
  {
    if activeRoute.Some? && taskId !in GetFlattenedOrder(activeRoute.value) then false
    else matcherAccepts
  }

  /** A task shown under an active route belongs to a section of that route. */
  lemma ShownRouteTaskHasSection(route: CustomRoute, taskId: int, matcherAccepts: bool)
    requires MeetsFilterCriteria(Some(route), taskId, matcherAccepts)
    ensures GetSectionForTask(route, taskId).Some?
    ensures ContainsTask(GetSectionForTask(route, taskId).value, taskId)
  {
  }

  const TRACK_DISABLED_TOOLTIP := "Completed tasks cannot be tracked while 'Untrack Tasks Upon Completion' is enabled."

  /** What `refresh` sets on the row. */
  datatype RowView = RowView(
    background: Background,
    trackEnabled: bool,
    trackTooltip: Option<string>,
    trackSelected: bool,
    ignoreSelected: bool,
    visible: bool)

  /** The task state `refresh` reads. */
  datatype TaskState = TaskState(
    taskId: int,
    completed: bool,
    tracked: bool,
    ignored: bool,
    skills: Option<seq<SkillRequirement>>)

  /**
   * `refresh`: a completed task cannot be tracked while completed tasks are untracked
   * automatically, and then the tooltip says why; the toggles mirror the task; the row
   * is visible exactly when it meets the filter criteria.
   */
  function Refresh(task: TaskState, playerLevels: Option<seq<int>>, ordinalOf: string -> Option<nat>,
                   untrackUponCompletion: bool, activeRoute: Option<CustomRoute>, matcherAccepts: bool): (r: RowView)
    requires playerLevels.Some? ==> OrdinalsInRange(playerLevels.value, ordinalOf)
    ensures !r.trackEnabled <==> untrackUponCompletion && task.completed
    ensures r.trackTooltip.Some? <==> !r.trackEnabled
    ensures r.trackSelected == task.tracked && r.ignoreSelected == task.ignored
    ensures r.visible ==> matcherAccepts
    ensures r.visible <==> matcherAccepts && (activeRoute.None? || InSomeSection(SectionsOf(activeRoute.value), task.taskId))
    ensures activeRoute.Some? && r.visible ==> GetSectionForTask(activeRoute.value, task.taskId).Some?
    ensures r.background == BackgroundColor(playerLevels, task.completed, task.skills, ordinalOf)
  {
    var disableTrack := untrackUponCompletion && task.completed;
    RowView(
      BackgroundColor(playerLevels, task.completed, task.skills, ordinalOf),
      !disableTrack,
      if disableTrack then Some(TRACK_DISABLED_TOOLTIP) else None,
      task.tracked,
      task.ignored,
      MeetsFilterCriteria(activeRoute, task.taskId, matcherAccepts))
  }

  /** The placeholder kinds the "Insert" menu offers, in menu order, and their labels. */
  const INSERT_TYPES := [BANK, HOME_TELEPORT, FAIRY_RING]
  const INSERT_LABELS := ["Bank", "Home Teleport", "Fairy Ring"]

  datatype MenuEntry = MenuEntry(caption: string, itemType: string, insertAfter: bool)

  /** One submenu of "Insert": each kind once, all inserting on the same side. */
  function InsertSubmenu(insertAfter: bool): seq<MenuEntry>
  {
    seq(3, i requires 0 <= i < 3 => MenuEntry(INSERT_LABELS[i], INSERT_TYPES[i], insertAfter))
  }

  /**
   * The "Insert" menu: present only with an active route, a "Before" submenu and then
   * an "After" submenu, each offering every kind under the name the route list shows.
   */
  function InsertMenu(activeRoute: Option<CustomRoute>): (r: seq<MenuEntry>)
    ensures activeRoute.None? ==> r == []
    ensures activeRoute.Some? ==> |r| == 2 * |INSERT_TYPES|
    ensures forall i :: 0 <= i < |r| ==>
      && r[i].itemType == INSERT_TYPES[i % 3]
      && r[i].insertAfter == (i >= 3)
      && r[i].caption == INSERT_LABELS[i % 3]
  {
    if activeRoute.None? then []
    else InsertSubmenu(false) + InsertSubmenu(true)
  }

  /**
   * The menu's fixed captions are the names the route list shows for those kinds,
   * whatever the locale's upper-casing.
   */
  lemma MenuCaptionsAreDisplayNames(upperCase: string -> string)
    ensures forall i :: 0 <= i < |INSERT_TYPES| ==> INSERT_LABELS[i] == DisplayName(Some(INSERT_TYPES[i]), upperCase)
  {
    assert DisplayName(Some(INSERT_TYPES[1]), upperCase) == INSERT_LABELS[1];
  }

  /** The outcome of choosing a menu entry: the route, and whether it was saved and redrawn. */
  datatype InsertOutcome = InsertOutcome(route: CustomRoute, savedAndRedrawn: bool)

  /**
   * The menu action: inserts the placeholder next to this task, and saves the route and
   * redraws the list only when a placeholder was created.
   */
  function ChooseInsert(route: CustomRoute, taskId: int, entry: MenuEntry, freshId: string): (r: InsertOutcome)
    requires IsUuidPrefix(freshId)
    ensures r.savedAndRedrawn <==> taskId in GetFlattenedOrder(route)
    ensures !r.savedAndRedrawn ==> r.route == route
    ensures r.savedAndRedrawn ==>
      && GetFlattenedOrder(r.route) == GetFlattenedOrder(route)
      && |GetFlattenedItems(r.route)| == |GetFlattenedItems(route)| + 1
  {
    var result := CustomRoutes.InsertCustomItem(route, taskId, entry.itemType, freshId, entry.insertAfter);
    InsertOutcome(result.route, result.created.Some?)
  }

  /** `getPointsTooltipText`: empty for a task worth nothing, else " - N points". */
  function PointsText(points: int): (r: string)
    ensures r == "" <==> points == 0
  {
    if points == 0 then "" else " - " + Text.IntToString(points) + " points"
  }

  /** The points text of a task worth something gives its points back. */
  lemma PointsTextRoundTrip(points: int)
    requires points != 0
    ensures var r := PointsText(points);
      && |r| > 10 && r[..3] == " - " && r[|r| - 7..] == " points"
      && Text.IsIntText(r[3..|r| - 7]) && Text.ParseInt(r[3..|r| - 7]) == points
  {
    var r := PointsText(points);
    assert r[3..|r| - 7] == Text.IntToString(points);
    Text.IntRoundTrip(points);
  }
}
