/**
 * Entries of a route section: a reference to a catalog task, or a placeholder
 * (bank, home teleport, fairy ring, ...) that is not a task.
 */
module RouteItems {
  import opened Wrappers
  import Text

  /** A placeholder entry. Both fields are nullable in the stored form. */
  datatype CustomRouteItem = CustomRouteItem(id: Option<string>, itemType: Option<string>)

  /**
   * One entry of a section. The stored form has two nullable fields; the entry is a
   * task exactly when `taskId` is present, whatever `customItem` holds.
   */
  datatype RouteItem = RouteItem(taskId: Option<int>, customItem: Option<CustomRouteItem>) {
    predicate IsTask()
    {
      taskId.Some?
    }
  }

  /** The placeholder types the row menu offers. */
  const BANK := "bank"
  const HOME_TELEPORT := "home_teleport"
  const FAIRY_RING := "fairy_ring"

  /** Entry referring to catalog task `id`. */
  function ForTask(id: int): (r: RouteItem)
    ensures r.IsTask() && r.taskId.value == id
    ensures r.customItem.None?
    ensures ItemId(r) == "task:" + Text.IntToString(id)
  {
    RouteItem(Some(id), None)
  }

  /** Entry wrapping placeholder `c`; it is never a task. */
  function ForCustom(c: CustomRouteItem): (r: RouteItem)
    ensures !r.IsTask() && r.customItem == Some(c)
    ensures ItemId(r) == "custom:" + c.id.GetOr("null")
  {
    RouteItem(None, Some(c))
  }

  /**
   * The unique key of an entry. Java's string concatenation renders a null id as
   * "null", so a missing placeholder and a placeholder with a null id share "custom:null".
   */
  function ItemId(item: RouteItem): (r: string)
    ensures |r| > 5
    ensures item.IsTask() <==> r[..5] == "task:"
    ensures !item.IsTask() <==> |r| >= 7 && r[..7] == "custom:"
  {
    var t := "task:";
    var c := "custom:";
    if item.IsTask() then
      var r := t + Text.IntToString(item.taskId.value);
      assert r[..5] == t && r[0] == 't';
      r
    else
      var r := c + (if item.customItem.Some? then item.customItem.value.id.GetOr("null") else "null");
      assert r[..7] == c && r[0] == 'c';
      r
  }

  /**
   * An entry that carries a task id is a task even when it also carries a placeholder,
   * and its key is that of the bare task entry.
   */
  lemma TaskIdWinsOverPlaceholder(item: RouteItem)
    requires item.taskId.Some?
    ensures item.IsTask()
    ensures ItemId(item) == ItemId(ForTask(item.taskId.value))
    ensures item.customItem.Some? ==> ItemId(item) != ItemId(ForCustom(item.customItem.value))
  {
    if item.customItem.Some? && ItemId(item) == ItemId(ForCustom(item.customItem.value)) {
      ItemIdSeparatesKinds(item, ForCustom(item.customItem.value));
    }
  }

  /**
   * Task keys and placeholder keys never collide, and two task entries share a key
   * only when they refer to the same task.
   */
  lemma ItemIdSeparatesKinds(a: RouteItem, b: RouteItem)
    requires ItemId(a) == ItemId(b)
    ensures a.IsTask() <==> b.IsTask()
    ensures a.IsTask() ==> a.taskId == b.taskId
  {
    var ka, kb := ItemId(a), ItemId(b);
    assert ka[0] == (if a.IsTask() then 't' else 'c');
    assert kb[0] == (if b.IsTask() then 't' else 'c');
    if a.IsTask() && b.IsTask() {
      var p := "task:";
      assert ka[|p|..] == Text.IntToString(a.taskId.value);
      assert kb[|p|..] == Text.IntToString(b.taskId.value);
      Text.IntToStringInjective(a.taskId.value, b.taskId.value);
    }
  }

  /**
   * `getDisplayName` applied to the stored `type`. The three menu types have fixed
   * names. Any other type has its first character upper-cased by `upperCase`, Java's
   * locale-dependent `String.toUpperCase`, which may return more than one character
   * (German sharp s becomes "SS"); every later '_' is shown as a space.
   */
  function DisplayName(itemType: Option<string>, upperCase: string -> string): (r: string)
    requires itemType != Some("")
    ensures itemType.None? ==> r == "Custom"
    ensures itemType == Some(BANK) ==> r == "Bank"
    ensures itemType == Some(HOME_TELEPORT) ==> r == "Home Teleport"
    ensures itemType == Some(FAIRY_RING) ==> r == "Fairy Ring"
    ensures itemType.Some? && itemType.value !in {BANK, HOME_TELEPORT, FAIRY_RING} ==>
      var t := itemType.value;
      var u := upperCase(t[..1]);
      && |r| == |u| + |t| - 1
      && r[..|u|] == u
      && forall i :: 1 <= i < |t| ==> r[|u| + i - 1] == (if t[i] == '_' then ' ' else t[i])
  {
    match itemType
    case None => "Custom"
    case Some(t) =>
      if t == BANK then "Bank"
      else if t == HOME_TELEPORT then "Home Teleport"
      else if t == FAIRY_RING then "Fairy Ring"
      else upperCase(t[..1]) + Text.ReplaceChar(t[1..], '_', ' ')
  }

  predicate IsLowerHex(c: char)
  {
    '0' <= c <= '9' || 'a' <= c <= 'f'
  }

  /** What `UUID.randomUUID().toString().substring(0, 8)` can return. */
  predicate IsUuidPrefix(s: string)
  {
    |s| == 8 && forall i :: 0 <= i < |s| ==> IsLowerHex(s[i])
  }

  /**
   * `CustomRouteItem.create(type)`: the random part is the parameter `freshId`, the
   * first eight characters of a random UUID.
   */
  function Create(itemType: string, freshId: string): (r: CustomRouteItem)
    requires IsUuidPrefix(freshId)
    ensures r.itemType == Some(itemType)
    ensures r.id.Some? && |r.id.value| == 8 && r.id.value == freshId
  {
    CustomRouteItem(Some(freshId), Some(itemType))
  }

  /** `forCustomType`: an entry wrapping a new placeholder of that type, keyed by its fresh id. */
  function ForCustomType(itemType: string, freshId: string): (r: RouteItem)
    requires IsUuidPrefix(freshId)
    ensures !r.IsTask()
    ensures r.customItem.Some? && r.customItem.value.itemType == Some(itemType)
    ensures ItemId(r) == "custom:" + freshId
  {
    ForCustom(Create(itemType, freshId))
  }
}
