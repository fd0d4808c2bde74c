/**
 * A route: an ordered list of sections for one task type. Task-level views (the
 * flattened order, the section of a task) and the placeholder edits the list view
 * offers (insert before/after a task, find, remove).
 */
module CustomRoutes {
  import opened Wrappers
  import opened RouteItems
  import opened RouteSections
  import opened Seqs

  datatype CustomRoute = CustomRoute(
    name: Option<string>,
    taskType: Option<string>,
    author: Option<string>,
    description: Option<string>,
    sections: Option<seq<RouteSection>>)

  /** The sections, a missing list read as empty. */
  function SectionsOf(route: CustomRoute): seq<RouteSection>
  {
    route.sections.GetOr([])
  }

  /** Each section's `getTaskIds`, in section order. */
  function SectionIds(ss: seq<RouteSection>): (r: seq<seq<int>>)
    ensures |r| == |ss| && forall j :: 0 <= j < |ss| ==> r[j] == GetTaskIds(ss[j])
  {
    seq(|ss|, j requires 0 <= j < |ss| => GetTaskIds(ss[j]))
  }

  /** Each section's `getItems`, in section order. */
  function SectionItems(ss: seq<RouteSection>): (r: seq<seq<RouteItem>>)
    ensures |r| == |ss| && forall j :: 0 <= j < |ss| ==> r[j] == GetItems(ss[j])
  {
    seq(|ss|, j requires 0 <= j < |ss| => GetItems(ss[j]))
  }

  /** Whether some section lists task `t`. */
  predicate InSomeSection(ss: seq<RouteSection>, t: int)
  {
    exists j :: 0 <= j < |ss| && t in GetTaskIds(ss[j])
  }

  /** `getFlattenedOrder`: every task id the route positions, section by section. */
  function GetFlattenedOrder(route: CustomRoute): (r: seq<int>)
    ensures forall t :: t in r <==> InSomeSection(SectionsOf(route), t)
  {
    var ss := SectionsOf(route);
    forall t ensures t in Flatten(SectionIds(ss)) <==> InSomeSection(ss, t) {
      FlattenMembership(SectionIds(ss), t);
    }
    Flatten(SectionIds(ss))
  }

  /** `getFlattenedItems`: every entry of every section, sections in order. */
  function GetFlattenedItems(route: CustomRoute): (r: seq<RouteItem>)
    ensures forall x :: x in r <==> exists j :: 0 <= j < |SectionsOf(route)| && x in GetItems(SectionsOf(route)[j])
  {
    var ls := SectionItems(SectionsOf(route));
    forall x {
      FlattenMembership(ls, x);
    }
    Flatten(ls)
  }

  lemma {:induction false} FlattenedIdsAreProjection(ss: seq<RouteSection>)
    ensures Flatten(SectionIds(ss)) == TaskIdsOf(Flatten(SectionItems(ss)))
  {
    if |ss| > 0 {
      assert SectionIds(ss)[1..] == SectionIds(ss[1..]);
      assert SectionItems(ss)[1..] == SectionItems(ss[1..]);
      FlattenedIdsAreProjection(ss[1..]);
      TaskIdsOfAppend(GetItems(ss[0]), Flatten(SectionItems(ss[1..])));
    }
  }

  /**
   * The flattened order is exactly the task entries of the flattened entries,
   * placeholders skipped, in traversal order.
   */
  lemma FlattenedOrderIsTaskProjection(route: CustomRoute)
    ensures GetFlattenedOrder(route) == TaskIdsOf(GetFlattenedItems(route))
  {
    FlattenedIdsAreProjection(SectionsOf(route));
  }

  /** `getTaskCount`: the number of task entries over all sections. */
  function GetTaskCount(route: CustomRoute): (r: nat)
    ensures r == |TaskIdsOf(GetFlattenedItems(route))|
    ensures r == |GetFlattenedItems(route)| - |CustomItemsOf(GetFlattenedItems(route))|
  {
    FlattenedOrderIsTaskProjection(route);
    ProjectionSizes(GetFlattenedItems(route));
    |GetFlattenedOrder(route)|
  }

  /** Index of the first section that lists task `t`. */
  function SectionIndexForTask(ss: seq<RouteSection>, t: int): (r: Option<nat>)
    ensures r.Some? ==> r.value < |ss| && t in GetTaskIds(ss[r.value])
    ensures r.Some? ==> forall j :: 0 <= j < r.value ==> t !in GetTaskIds(ss[j])
    ensures r.None? <==> !InSomeSection(ss, t)
  {
    FirstContaining(SectionIds(ss), t)
  }

  /** `getSectionForTask`: the first section containing `t`, if the route positions `t`. */
  function GetSectionForTask(route: CustomRoute, t: int): (r: Option<RouteSection>)
    ensures r.Some? <==> t in GetFlattenedOrder(route)
    ensures r.Some? ==> ContainsTask(r.value, t)
    ensures r.Some? ==> exists i :: (0 <= i < |SectionsOf(route)| && SectionsOf(route)[i] == r.value
      && forall j :: 0 <= j < i ==> t !in GetTaskIds(SectionsOf(route)[j]))
  {
    match SectionIndexForTask(SectionsOf(route), t)
    case None => None
    case Some(i) => Some(SectionsOf(route)[i])
  }

  predicate LeadsSection(s: RouteSection, t: int)
  {
    |GetTaskIds(s)| > 0 && GetTaskIds(s)[0] == t
  }

  /**
   * `isFirstTaskInSection`: some section, any section, has `t` as its first task. It
   * does not restrict the test to the section that `getSectionForTask` returns.
   */
  function IsFirstTaskInSection(route: CustomRoute, t: int): (r: bool)
    ensures r <==> exists i :: 0 <= i < |SectionsOf(route)| && LeadsSection(SectionsOf(route)[i], t)
  {
    AnyStartsWith(SectionIds(SectionsOf(route)), t)
  }

  /** A task that leads a section is positioned by the route. */
  lemma FirstTaskIsPositioned(route: CustomRoute, t: int)
    requires IsFirstTaskInSection(route, t)
    ensures t in GetFlattenedOrder(route)
  {
    var ss := SectionsOf(route);
    var i :| 0 <= i < |ss| && LeadsSection(ss[i], t);
    var ids := GetTaskIds(ss[i]);
    assert ids[0] == t && t in ids;
    assert InSomeSection(ss, t);
  }

  /**
   * A task listed second in section A and first in section B counts as a first task,
   * although its section (the first containing it) is A.
   */
  lemma FirstTaskAnywhereCounts()
    ensures
      var a := RouteSection(Some("A"), None, Some([Some(5), Some(9)]), None);
      var b := RouteSection(Some("B"), None, Some([Some(9)]), None);
      var route := CustomRoute(Some("R"), None, None, None, Some([a, b]));
      && IsFirstTaskInSection(route, 9)
      && GetSectionForTask(route, 9) == Some(a)
      && !LeadsSection(a, 9)
  {
    var a := RouteSection(Some("A"), None, Some([Some(5), Some(9)]), None);
    var b := RouteSection(Some("B"), None, Some([Some(9)]), None);
    var route := CustomRoute(Some("R"), None, None, None, Some([a, b]));
    assert NonNullIds([Some(9)]) == [9];
    assert NonNullIds([Some(5), Some(9)]) == [5] + NonNullIds([Some(9)]);
    assert LeadsSection(SectionsOf(route)[1], 9);
    assert GetTaskIds(a) == [5, 9];
  }

  /**
   * Sections A = [10, 20] and B = [30] in the legacy form give the order
   * [10, 20, 30]; 20 lies in A; 10 leads a section and 20 does not.
   */
  lemma LegacyRouteExample()
    ensures
      var a := RouteSection(Some("A"), None, Some([Some(10), Some(20)]), None);
      var b := RouteSection(Some("B"), None, Some([Some(30)]), None);
      var route := CustomRoute(Some("R"), None, None, None, Some([a, b]));
      && GetFlattenedOrder(route) == [10, 20, 30]
      && GetSectionForTask(route, 20) == Some(a)
      && IsFirstTaskInSection(route, 10)
      && !IsFirstTaskInSection(route, 20)
  {
    var a := RouteSection(Some("A"), None, Some([Some(10), Some(20)]), None);
    var b := RouteSection(Some("B"), None, Some([Some(30)]), None);
    var route := CustomRoute(Some("R"), None, None, None, Some([a, b]));
    assert NonNullIds([Some(20)]) == [20];
    assert NonNullIds([Some(10), Some(20)]) == [10] + NonNullIds([Some(20)]);
    assert NonNullIds([Some(30)]) == [30];
    assert GetTaskIds(a) == [10, 20];
    assert GetTaskIds(b) == [30];
    var ls := SectionIds([a, b]);
    assert ls == [[10, 20], [30]];
    assert ls[1..] == [[30]];
    assert Flatten(ls[1..]) == [30] + Flatten(ls[1..][1..]);
    assert LeadsSection(SectionsOf(route)[0], 10);
  }

  datatype RouteInsertResult = RouteInsertResult(route: CustomRoute, created: Option<CustomRouteItem>)

  /**
   * `insertCustomItem`: delegates to the first section containing the task. When no
   * section contains it, the route is unchanged and nothing is created. Otherwise only
   * that section changes, the flattened task order is the same, and the route holds
   * exactly one entry more.
   */
  function InsertCustomItem(route: CustomRoute, t: int, itemType: string, freshId: string, insertAfter: bool): (r: RouteInsertResult)
    requires IsUuidPrefix(freshId)
    ensures r.created.None? <==> t !in GetFlattenedOrder(route)
    ensures r.created.None? ==> r.route == route
    ensures r.created.Some? ==>
      var ss := SectionsOf(route);
      var i := SectionIndexForTask(ss, t).value;
      && r.created == Some(Create(itemType, freshId))
      && r.route == route.(sections := r.route.sections)
      && |SectionsOf(r.route)| == |ss|
      && (forall j :: 0 <= j < |ss| && j != i ==> SectionsOf(r.route)[j] == ss[j])
      && SectionsOf(r.route)[i] == RouteSections.InsertCustomItem(ss[i], t, itemType, freshId, insertAfter).section
      && GetFlattenedOrder(r.route) == GetFlattenedOrder(route)
      && |GetFlattenedItems(r.route)| == |GetFlattenedItems(route)| + 1
  {
    var ss := SectionsOf(route);
    match SectionIndexForTask(ss, t)
    case None => RouteInsertResult(route, None)
    case Some(i) =>
      var inserted := RouteSections.InsertCustomItem(ss[i], t, itemType, freshId, insertAfter);
      assert ContainsTask(ss[i], t);
      SpliceKeepsOrder(ss, i, inserted.section);
      RouteInsertResult(route.(sections := Some(ss[i := inserted.section])), inserted.created)
  }

  /** Swapping in a section with the same task ids and one more entry. */
  lemma SpliceKeepsOrder(ss: seq<RouteSection>, i: nat, x: RouteSection)
    requires i < |ss|
    requires GetTaskIds(x) == GetTaskIds(ss[i]) && |GetItems(x)| == |GetItems(ss[i])| + 1
    ensures Flatten(SectionIds(ss[i := x])) == Flatten(SectionIds(ss))
    ensures |Flatten(SectionItems(ss[i := x]))| == |Flatten(SectionItems(ss))| + 1
  {
    assert SectionIds(ss[i := x]) == SectionIds(ss);
    assert SectionItems(ss[i := x]) == SectionItems(ss)[i := GetItems(x)];
    FlattenReplace(SectionItems(ss), i, GetItems(x));
  }

  /** Position of the first placeholder carrying `id`. */
  function FirstPlaceholderIndex(items: seq<RouteItem>, id: string): (r: Option<nat>)
    ensures r.Some? ==> r.value < |items| && IsPlaceholderWithId(items[r.value], id)
    ensures r.Some? ==> forall j :: 0 <= j < r.value ==> !IsPlaceholderWithId(items[j], id)
    ensures r.None? ==> forall j :: 0 <= j < |items| ==> !IsPlaceholderWithId(items[j], id)
  {
    if |items| == 0 then None
    else if IsPlaceholderWithId(items[0], id) then Some(0)
    else match FirstPlaceholderIndex(items[1..], id)
      case None => None
      case Some(k) => Some(k + 1)
  }

  /** How far the search for `id` scans: to the first match, or to the end. */
  function ScanLength(items: seq<RouteItem>, id: string): nat
  {
    match FirstPlaceholderIndex(items, id)
    case Some(k) => k
    case None => |items|
  }

  /** No non-task entry without a placeholder among the first `n` entries. */
  predicate NoNullPlaceholderBefore(items: seq<RouteItem>, n: nat)
  {
    forall j :: 0 <= j < n && j < |items| ==> items[j].IsTask() || items[j].customItem.Some?
  }

  lemma {:induction false} FirstPlaceholderIndexAppend(a: seq<RouteItem>, b: seq<RouteItem>, id: string)
    ensures FirstPlaceholderIndex(a + b, id) ==
      match FirstPlaceholderIndex(a, id)
      case Some(k) => Some(k)
      case None =>
        match FirstPlaceholderIndex(b, id)
        case Some(k) => Some(|a| + k)
        case None => None
  {
    if |a| == 0 {
      assert a + b == b;
    } else {
      assert (a + b)[0] == a[0];
      assert (a + b)[1..] == a[1..] + b;
      FirstPlaceholderIndexAppend(a[1..], b, id);
    }
  }

  function FindInLists(ls: seq<seq<RouteItem>>, id: string): (r: Option<CustomRouteItem>)
    requires NoNullPlaceholderBefore(Flatten(ls), ScanLength(Flatten(ls), id))
    ensures r.None? <==> FirstPlaceholderIndex(Flatten(ls), id).None?
    ensures r.Some? ==> Some(r.value) == Flatten(ls)[FirstPlaceholderIndex(Flatten(ls), id).value].customItem
  {
    if |ls| == 0 then None
    else
      var items := ls[0];
      FirstPlaceholderIndexAppend(items, Flatten(ls[1..]), id);
      match FirstPlaceholderIndex(items, id)
      case Some(k) => items[k].customItem
      case None =>
        assert forall j :: 0 <= j < |Flatten(ls[1..])| ==> Flatten(ls[1..])[j] == Flatten(ls)[|items| + j];
        FindInLists(ls[1..], id)
  }

  /**
   * `findCustomItem`: the placeholder of the first entry, in section-then-entry order,
   * carrying `id`; none when no entry does. The source dereferences each placeholder it
   * passes, so a non-task entry without one before the match is excluded.
   */
  function FindCustomItem(route: CustomRoute, id: string): (r: Option<CustomRouteItem>)
    requires NoNullPlaceholderBefore(GetFlattenedItems(route), ScanLength(GetFlattenedItems(route), id))
    ensures r.None? <==> forall j :: 0 <= j < |GetFlattenedItems(route)| ==> !IsPlaceholderWithId(GetFlattenedItems(route)[j], id)
    ensures r.Some? ==> r.value.id == Some(id)
    ensures r.Some? ==>
      var k := FirstPlaceholderIndex(GetFlattenedItems(route), id);
      k.Some? && Some(r.value) == GetFlattenedItems(route)[k.value].customItem
  {
    FindInLists(SectionItems(SectionsOf(route)), id)
  }

  /** Whether a section's stored entry list holds a placeholder carrying `id`. */
  predicate StoresPlaceholder(s: RouteSection, id: string)
  {
    s.items.Some? && exists j :: 0 <= j < |s.items.value| && IsPlaceholderWithId(s.items.value[j], id)
  }

  function FirstSectionStoring(ss: seq<RouteSection>, id: string): (r: Option<nat>)
    ensures r.Some? ==> r.value < |ss| && StoresPlaceholder(ss[r.value], id)
    ensures r.Some? ==> forall j :: 0 <= j < r.value ==> !StoresPlaceholder(ss[j], id)
    ensures r.None? ==> forall j :: 0 <= j < |ss| ==> !StoresPlaceholder(ss[j], id)
  {
    if |ss| == 0 then None
    else if StoresPlaceholder(ss[0], id) then Some(0)
    else
      assert forall j :: 1 <= j < |ss| ==> ss[j] == ss[1..][j - 1];
      match FirstSectionStoring(ss[1..], id)
      case None => None
      case Some(i) => Some(i + 1)
  }

  datatype SectionsRemoveResult = SectionsRemoveResult(sections: seq<RouteSection>, removed: bool)

  function RemoveInSections(ss: seq<RouteSection>, id: string): (r: SectionsRemoveResult)
    ensures r.removed <==> FirstSectionStoring(ss, id).Some?
    ensures !r.removed ==> r.sections == ss
    ensures r.removed ==>
      var i := FirstSectionStoring(ss, id).value;
      r.sections == ss[i := RouteSections.RemoveCustomItem(ss[i], id).section]
  {
    if |ss| == 0 then SectionsRemoveResult(ss, false)
    else
      var first := RouteSections.RemoveCustomItem(ss[0], id);
      if first.removed then
        assert StoresPlaceholder(ss[0], id);
        assert forall j :: 0 <= j < |ss| ==> ([first.section] + ss[1..])[j] == ss[0 := first.section][j];
        SectionsRemoveResult([first.section] + ss[1..], true)
      else
        assert !StoresPlaceholder(ss[0], id);
        var rest := RemoveInSections(ss[1..], id);
        RemoveInSectionsStep(ss, id, rest);
        SectionsRemoveResult([ss[0]] + rest.sections, rest.removed)
  }

  lemma RemoveInSectionsStep(ss: seq<RouteSection>, id: string, rest: SectionsRemoveResult)
    requires |ss| > 0 && !StoresPlaceholder(ss[0], id)
    requires rest.removed <==> FirstSectionStoring(ss[1..], id).Some?
    requires !rest.removed ==> rest.sections == ss[1..]
    requires rest.removed ==>
      var i := FirstSectionStoring(ss[1..], id).value;
      rest.sections == ss[1..][i := RouteSections.RemoveCustomItem(ss[1..][i], id).section]
    ensures rest.removed <==> FirstSectionStoring(ss, id).Some?
    ensures !rest.removed ==> [ss[0]] + rest.sections == ss
    ensures rest.removed ==>
      var i := FirstSectionStoring(ss, id).value;
      [ss[0]] + rest.sections == ss[i := RouteSections.RemoveCustomItem(ss[i], id).section]
  {
    FirstStoringShift(ss, id);
    if rest.removed {
      var i := FirstSectionStoring(ss[1..], id).value;
      assert ss[1..][i] == ss[i + 1];
      UpdateShift(ss, i, RouteSections.RemoveCustomItem(ss[i + 1], id).section);
    } else {
      assert ss == [ss[0]] + ss[1..];
    }
  }

  lemma FirstStoringShift(ss: seq<RouteSection>, id: string)
    requires |ss| > 0 && !StoresPlaceholder(ss[0], id)
    ensures FirstSectionStoring(ss, id).Some? <==> FirstSectionStoring(ss[1..], id).Some?
    ensures FirstSectionStoring(ss, id).Some? ==> FirstSectionStoring(ss, id).value == FirstSectionStoring(ss[1..], id).value + 1
  {
  }

  lemma UpdateShift<T>(ss: seq<T>, i: nat, x: T)
    requires i + 1 < |ss|
    ensures [ss[0]] + ss[1..][i := x] == ss[i + 1 := x]
  {
    var l, r := [ss[0]] + ss[1..][i := x], ss[i + 1 := x];
    assert forall j :: 0 <= j < |l| ==> l[j] == r[j];
  }

  datatype RouteRemoveResult = RouteRemoveResult(route: CustomRoute, removed: bool)

  /**
   * `removeCustomItem`: removes the placeholders carrying `id` from the first section
   * whose stored entry list holds one, and stops there. Without sections, or when no
   * section stores such a placeholder, nothing changes and the answer is false.
   */
  function RemoveCustomItem(route: CustomRoute, id: string): (r: RouteRemoveResult)
    ensures route.sections.None? ==> r == RouteRemoveResult(route, false)
    ensures r.removed <==> exists i :: 0 <= i < |SectionsOf(route)| && StoresPlaceholder(SectionsOf(route)[i], id)
    ensures !r.removed ==> r.route == route
    ensures r.removed ==>
      var ss := SectionsOf(route);
      var i := FirstSectionStoring(ss, id).value;
      && r.route == route.(sections := r.route.sections)
      && |SectionsOf(r.route)| == |ss|
      && (forall j :: 0 <= j < |ss| && j != i ==> SectionsOf(r.route)[j] == ss[j])
      && (forall x :: x in SectionsOf(r.route)[i].items.GetOr([]) <==> x in ss[i].items.GetOr([]) && !IsPlaceholderWithId(x, id))
      && |SectionsOf(r.route)[i].items.GetOr([])| < |ss[i].items.GetOr([])|
      && SectionsOf(r.route)[i] == RouteSections.RemoveCustomItem(ss[i], id).section
  {
    match route.sections
    case None => RouteRemoveResult(route, false)
    case Some(ss) =>
      assert SectionsOf(route) == ss;
      var res := RemoveInSections(ss, id);
      if res.removed then
        RouteRemoveResult(route.(sections := Some(res.sections)), true)
      else RouteRemoveResult(route, false)
  }
}
