/**
 * A named section of a route. A section is stored in two ways: the legacy flat list
 * of task ids and the canonical list of entries. Every accessor chooses between them
 * on each call: the entry list wins when it is present and non-empty.
 */
module RouteSections {
  import opened Wrappers
  import opened Seqs
  import opened RouteItems

  datatype RouteSection = RouteSection(
    name: Option<string>,
    description: Option<string>,
    taskIds: Option<seq<Option<int>>>,
    items: Option<seq<RouteItem>>)

  /** Whether the canonical entry list is the one in force. */
  predicate HasItems(s: RouteSection)
  {
    s.items.Some? && |s.items.value| > 0
  }

  /** The task ids of the task entries, in order. */
  function TaskIdsOf(items: seq<RouteItem>): seq<int>
  {
    if |items| == 0 then []
    else (if items[0].IsTask() then [items[0].taskId.value] else []) + TaskIdsOf(items[1..])
  }

  /** The placeholders of the non-task entries, in order (null ones included). */
  function CustomItemsOf(items: seq<RouteItem>): seq<Option<CustomRouteItem>>
  {
    if |items| == 0 then []
    else (if items[0].IsTask() then [] else [items[0].customItem]) + CustomItemsOf(items[1..])
  }

  lemma {:induction false} TaskIdsOfAppend(a: seq<RouteItem>, b: seq<RouteItem>)
    ensures TaskIdsOf(a + b) == TaskIdsOf(a) + TaskIdsOf(b)
  {
    if |a| > 0 {
      assert (a + b)[0] == a[0];
      assert (a + b)[1..] == a[1..] + b;
      TaskIdsOfAppend(a[1..], b);
    } else {
      assert a + b == b;
    }
  }

  lemma {:induction false} ProjectionSizes(items: seq<RouteItem>)
    ensures |TaskIdsOf(items)| + |CustomItemsOf(items)| == |items|
  {
    if |items| > 0 {
      ProjectionSizes(items[1..]);
    }
  }

  lemma {:induction false} TaskIdsOfMembership(items: seq<RouteItem>, t: int)
    ensures t in TaskIdsOf(items) <==> exists i :: 0 <= i < |items| && items[i].taskId == Some(t)
  {
    if |items| > 0 {
      TaskIdsOfMembership(items[1..], t);
      if t in TaskIdsOf(items[1..]) {
        var i :| 0 <= i < |items[1..]| && items[1..][i].taskId == Some(t);
        assert items[i + 1].taskId == Some(t);
      }
      if exists i :: 0 <= i < |items| && items[i].taskId == Some(t) {
        var i :| 0 <= i < |items| && items[i].taskId == Some(t);
        if i > 0 {
          assert items[1..][i - 1].taskId == Some(t);
        }
      }
    }
  }

  /**
   * The placeholder projection is fixed by how it splits over a concatenation and by
   * what it makes of one entry: nothing for a task, its placeholder otherwise.
   */
  lemma {:induction false} CustomItemsOfAppend(a: seq<RouteItem>, b: seq<RouteItem>)
    ensures CustomItemsOf(a + b) == CustomItemsOf(a) + CustomItemsOf(b)
    ensures |a| == 1 ==> CustomItemsOf(a) == if a[0].IsTask() then [] else [a[0].customItem]
  {
    if |a| > 0 {
      assert (a + b)[0] == a[0];
      assert (a + b)[1..] == a[1..] + b;
      CustomItemsOfAppend(a[1..], b);
    } else {
      assert a + b == b;
    }
  }

  lemma {:induction false} CustomItemsOfMembership(items: seq<RouteItem>, c: Option<CustomRouteItem>)
    ensures c in CustomItemsOf(items) <==> exists i :: 0 <= i < |items| && !items[i].IsTask() && items[i].customItem == c
  {
    if |items| > 0 {
      CustomItemsOfMembership(items[1..], c);
      if c in CustomItemsOf(items[1..]) {
        var i :| 0 <= i < |items[1..]| && !items[1..][i].IsTask() && items[1..][i].customItem == c;
        assert items[i + 1] == items[1..][i];
      }
      if exists i :: 0 <= i < |items| && !items[i].IsTask() && items[i].customItem == c {
        var i :| 0 <= i < |items| && !items[i].IsTask() && items[i].customItem == c;
        if i > 0 {
          assert items[1..][i - 1] == items[i];
        }
      }
    }
  }

  lemma {:induction false} CustomItemsOfAllTasks(items: seq<RouteItem>)
    requires forall i :: 0 <= i < |items| ==> items[i].IsTask()
    ensures CustomItemsOf(items) == []
  {
    if |items| > 0 {
      CustomItemsOfAllTasks(items[1..]);
    }
  }

  /** The legacy ids with the null ones skipped. */
  function NonNullIds(ids: seq<Option<int>>): seq<int>
  {
    if |ids| == 0 then []
    else (if ids[0].Some? then [ids[0].value] else []) + NonNullIds(ids[1..])
  }

  /** One task entry per non-null legacy id, in order. */
  function LegacyItems(ids: seq<Option<int>>): (r: seq<RouteItem>)
    ensures forall i :: 0 <= i < |r| ==> r[i].IsTask() && r[i].customItem.None?
    ensures TaskIdsOf(r) == NonNullIds(ids)
  {
    if |ids| == 0 then []
    else
      var head := if ids[0].Some? then [ForTask(ids[0].value)] else [];
      var rest := LegacyItems(ids[1..]);
      TaskIdsOfAppend(head, rest);
      head + rest
  }

  function LegacyIds(s: RouteSection): seq<int>
  {
    if s.taskIds.Some? then NonNullIds(s.taskIds.value) else []
  }

  /**
   * `getItems`: the entry list when it is present and non-empty; otherwise one task
   * entry per non-null legacy id; otherwise nothing.
   */
  function GetItems(s: RouteSection): (r: seq<RouteItem>)
    ensures HasItems(s) ==> r == s.items.value
    ensures !HasItems(s) ==> forall i :: 0 <= i < |r| ==> r[i].IsTask()
    ensures !HasItems(s) ==> TaskIdsOf(r) == LegacyIds(s)
    ensures !HasItems(s) && s.taskIds.None? ==> r == []
  {
    if HasItems(s) then s.items.value
    else if s.taskIds.Some? then LegacyItems(s.taskIds.value)
    else []
  }

  /** `setItems`: installs the entry list and always clears the legacy list. */
  function SetItems(s: RouteSection, items: Option<seq<RouteItem>>): (r: RouteSection)
    ensures r.taskIds.None? && r.items == items
    ensures r.name == s.name && r.description == s.description
    ensures GetItems(r) == items.GetOr([])
  {
    s.(items := items, taskIds := None)
  }

  /**
   * `getTaskIds`, computed from the stored fields as the source does; it agrees with
   * the task projection of `getItems` in both representations.
   */
  function GetTaskIds(s: RouteSection): (r: seq<int>)
    ensures r == TaskIdsOf(GetItems(s))
  {
    if HasItems(s) then TaskIdsOf(s.items.value) else LegacyIds(s)
  }

  /** `getCustomItems`: the placeholders of `getItems`; a legacy section has none. */
  function GetCustomItems(s: RouteSection): (r: seq<Option<CustomRouteItem>>)
    ensures r == CustomItemsOf(GetItems(s))
    ensures forall c :: c in r <==> exists i :: 0 <= i < |GetItems(s)| && !GetItems(s)[i].IsTask() && GetItems(s)[i].customItem == c
    ensures |r| + |GetTaskIds(s)| == |GetItems(s)|
    ensures !HasItems(s) ==> r == []
  {
    ProjectionSizes(GetItems(s));
    LegacyHasNoPlaceholders(s);
    forall c {
      CustomItemsOfMembership(GetItems(s), c);
    }
    CustomItemsOf(GetItems(s))
  }

  lemma LegacyHasNoPlaceholders(s: RouteSection)
    ensures !HasItems(s) ==> CustomItemsOf(GetItems(s)) == []
  {
    if !HasItems(s) {
      CustomItemsOfAllTasks(GetItems(s));
    }
  }

  /** `containsTask`: some task entry of `getItems` refers to `t`. */
  function ContainsTask(s: RouteSection, t: int): (r: bool)
    ensures r <==> exists i :: 0 <= i < |GetItems(s)| && GetItems(s)[i].taskId == Some(t)
  {
    TaskIdsOfMembership(GetItems(s), t);
    t in GetTaskIds(s)
  }

  /** `getTaskCount`: the entries of `getItems` that are not placeholders. */
  function GetTaskCount(s: RouteSection): (r: nat)
    ensures r == |GetItems(s)| - |GetCustomItems(s)|
  {
    |GetTaskIds(s)|
  }

  /** Position of the first task entry referring to `t`, if any. */
  function FirstTaskPosition(items: seq<RouteItem>, t: int): (r: Option<nat>)
    ensures r.Some? ==> r.value < |items| && items[r.value].taskId == Some(t)
    ensures r.Some? ==> forall j :: 0 <= j < r.value ==> items[j].taskId != Some(t)
    ensures r.None? ==> forall j :: 0 <= j < |items| ==> items[j].taskId != Some(t)
  {
    if |items| == 0 then None
    else if items[0].taskId == Some(t) then Some(0)
    else match FirstTaskPosition(items[1..], t)
      case None => None
      case Some(p) => Some(p + 1)
  }

  function InsertAt<T>(xs: seq<T>, p: nat, x: T): seq<T>
    requires p <= |xs|
  {
    xs[..p] + [x] + xs[p..]
  }

  /** Where a new placeholder goes: at the first match, or just after it. */
  function InsertionPoint(items: seq<RouteItem>, t: int, insertAfter: bool): nat
    requires FirstTaskPosition(items, t).Some?
  {
    var p := FirstTaskPosition(items, t).value;
    if insertAfter then p + 1 else p
  }

  datatype InsertResult = InsertResult(section: RouteSection, created: Option<CustomRouteItem>)

  lemma {:induction false} InsertKeepsTaskIds(items: seq<RouteItem>, q: nat, x: RouteItem)
    requires q <= |items| && !x.IsTask()
    ensures TaskIdsOf(InsertAt(items, q, x)) == TaskIdsOf(items)
  {
    TaskIdsOfAppend(items[..q] + [x], items[q..]);
    TaskIdsOfAppend(items[..q], [x]);
    TaskIdsOfAppend(items[..q], items[q..]);
    assert items[..q] + items[q..] == items;
  }

  /**
   * `insertCustomItem`: materialises the entries, finds the first task entry for
   * `taskId` and puts a new placeholder before or after it. Without a match nothing
   * changes and no placeholder is returned.
   */
  function InsertCustomItem(s: RouteSection, taskId: int, itemType: string, freshId: string, insertAfter: bool): (r: InsertResult)
    requires IsUuidPrefix(freshId)
    ensures r.created.None? <==> !ContainsTask(s, taskId)
    ensures r.created.None? ==> r.section == s
    ensures r.created.Some? ==>
      var before := GetItems(s);
      var after := GetItems(r.section);
      var q := InsertionPoint(before, taskId, insertAfter);
      && r.created.value == Create(itemType, freshId)
      && r.section.taskIds.None? && HasItems(r.section)
      && r.section.name == s.name && r.section.description == s.description
      && |after| == |before| + 1
      && q < |after| && after[q] == ForCustom(r.created.value)
      && after[..q] + after[q + 1..] == before
      && (insertAfter ==> 0 < q && after[q - 1].taskId == Some(taskId))
      && (!insertAfter ==> q + 1 < |after| && after[q + 1].taskId == Some(taskId))
      && GetTaskIds(r.section) == GetTaskIds(s)
  {
    var current := GetItems(s);
    match FirstTaskPosition(current, taskId)
    case None => InsertResult(s, None)
    case Some(p) =>
      var created := Create(itemType, freshId);
      var q := if insertAfter then p + 1 else p;
      var updated := InsertAt(current, q, ForCustom(created));
      assert updated[..q] == current[..q];
      assert updated[q + 1..] == current[q..];
      assert current[..q] + current[q..] == current;
      InsertKeepsTaskIds(current, q, ForCustom(created));
      InsertResult(s.(items := Some(updated), taskIds := None), Some(created))
  }

  /** The entries `removeCustomItem` deletes: placeholders carrying id `id`. */
  predicate IsPlaceholderWithId(item: RouteItem, id: string)
  {
    !item.IsTask() && item.customItem.Some? && item.customItem.value.id == Some(id)
  }

  /** The list with every placeholder carrying `id` removed (`removeIf`). */
  function WithoutPlaceholder(items: seq<RouteItem>, id: string): (r: seq<RouteItem>)
    ensures |r| <= |items|
    ensures (exists j :: 0 <= j < |items| && IsPlaceholderWithId(items[j], id)) ==> |r| < |items|
    ensures forall x :: x in r <==> x in items && !IsPlaceholderWithId(x, id)
    ensures TaskIdsOf(r) == TaskIdsOf(items)
    ensures (forall j :: 0 <= j < |items| ==> !IsPlaceholderWithId(items[j], id)) <==> r == items
  {
    if |items| == 0 then []
    else
      var rest := WithoutPlaceholder(items[1..], id);
      assert items == [items[0]] + items[1..];
      if IsPlaceholderWithId(items[0], id) then rest
      else
        [items[0]] + rest
  }

  /**
   * The survivors keep their order and every copy of every entry that is not a
   * matching placeholder survives: the result is exactly the order-preserving filter.
   */
  lemma {:induction false} WithoutPlaceholderIsFilter(items: seq<RouteItem>, id: string)
    ensures IsSubsequence(WithoutPlaceholder(items, id), items)
    ensures forall x :: multiset(WithoutPlaceholder(items, id))[x] == (if IsPlaceholderWithId(x, id) then 0 else multiset(items)[x])
  {
    if |items| > 0 {
      var rest := WithoutPlaceholder(items[1..], id);
      WithoutPlaceholderIsFilter(items[1..], id);
      assert items == [items[0]] + items[1..];
      assert multiset(items) == multiset([items[0]]) + multiset(items[1..]);
      if IsPlaceholderWithId(items[0], id) {
        if |rest| > 0 {
          assert IsSubsequence(rest, items[1..]);
        }
      } else {
        assert ([items[0]] + rest)[1..] == rest;
        assert multiset([items[0]] + rest) == multiset([items[0]]) + multiset(rest);
      }
    }
  }

  datatype RemoveResult = RemoveResult(section: RouteSection, removed: bool)

  /**
   * `removeCustomItem`: works on the stored entry list only. With no stored list it
   * reports false; otherwise it deletes every placeholder with that id, keeps every
   * task entry, and reports whether anything was deleted.
   */
  function RemoveCustomItem(s: RouteSection, id: string): (r: RemoveResult)
    ensures s.items.None? ==> r == RemoveResult(s, false)
    ensures r.removed <==> s.items.Some? && exists j :: 0 <= j < |s.items.value| && IsPlaceholderWithId(s.items.value[j], id)
    ensures !r.removed ==> r.section == s
    ensures r.removed ==> |r.section.items.GetOr([])| < |s.items.GetOr([])|
    ensures r.section.name == s.name && r.section.description == s.description && r.section.taskIds == s.taskIds
    ensures r.section.items.Some? <==> s.items.Some?
    ensures forall x :: x in r.section.items.GetOr([]) <==> x in s.items.GetOr([]) && !IsPlaceholderWithId(x, id)
    ensures TaskIdsOf(r.section.items.GetOr([])) == TaskIdsOf(s.items.GetOr([]))
    ensures r.section == s.(items := r.section.items)
    ensures s.items.Some? ==> r.section.items == Some(WithoutPlaceholder(s.items.value, id))
  {
    match s.items
    case None => RemoveResult(s, false)
    case Some(items) =>
      var kept := WithoutPlaceholder(items, id);
      if kept == items then RemoveResult(s, false)
      else RemoveResult(s.(items := Some(kept)), true)
  }

  /**
   * The stored entries left by a removal are exactly those that are not matching
   * placeholders, in their old order and with every copy kept.
   */
  lemma RemovalIsFilter(s: RouteSection, id: string)
    ensures IsSubsequence(RemoveCustomItem(s, id).section.items.GetOr([]), s.items.GetOr([]))
    ensures forall x :: multiset(RemoveCustomItem(s, id).section.items.GetOr([]))[x] == (if IsPlaceholderWithId(x, id) then 0 else multiset(s.items.GetOr([]))[x])
  {
    if s.items.Some? {
      WithoutPlaceholderIsFilter(s.items.value, id);
    }
  }

  /**
   * Removing placeholders leaves the task ids of a section alone, unless the removal
   * empties an entry list that was shadowing a legacy list.
   */
  lemma RemovalKeepsTaskIds(s: RouteSection, id: string)
    requires s.taskIds.None? || HasItems(RemoveCustomItem(s, id).section)
    ensures GetTaskIds(RemoveCustomItem(s, id).section) == GetTaskIds(s)
  {
    var r := RemoveCustomItem(s, id);
    if r.removed && !HasItems(r.section) {
      assert r.section.items == Some([]);
      assert TaskIdsOf(s.items.value) == TaskIdsOf([]);
    }
  }

  /**
   * The exception to `RemovalKeepsTaskIds`: a section stored with both lists, whose
   * entry list is a single placeholder, shows no tasks; removing the placeholder makes
   * the legacy ids reappear.
   */
  lemma RemovalCanRevealLegacyIds()
    ensures
      var c := CustomRouteItem(Some("0a1b2c3d"), Some(BANK));
      var s := RouteSection(Some("A"), None, Some([Some(7)]), Some([ForCustom(c)]));
      var r := RemoveCustomItem(s, "0a1b2c3d");
      && r.removed
      && GetTaskIds(s) == []
      && GetTaskIds(r.section) == [7]
  {
    var c := CustomRouteItem(Some("0a1b2c3d"), Some(BANK));
    var s := RouteSection(Some("A"), None, Some([Some(7)]), Some([ForCustom(c)]));
    assert IsPlaceholderWithId(s.items.value[0], "0a1b2c3d");
    var r := RemoveCustomItem(s, "0a1b2c3d");
    assert r.section.items == Some([]);
    assert NonNullIds([Some(7)]) == [7] + NonNullIds([]);
  }
}
