/**
 * Persistence of routes, the active-route name, tag filters, placeholder completion
 * and task progress in the client's key-value configuration.
 *
 * The configuration manager is two string maps: the profile scope (per game account
 * profile) and the account scope. JSON encoding is a codec whose functions are
 * parameters; `Faithful` states what a correct codec guarantees and is assumed only by
 * the round-trip lemmas.
 */
module ConfigStore {
  import opened Wrappers
  import Text
  import opened RouteItems
  import opened CustomRoutes
  import opened TaskSaves
  import opened Seqs

  datatype Store = Store(profile: map<string, string>, account: map<string, string>)

  /** What a JSON decoder produces: a syntax error, the literal `null`, or a value. */
  datatype Decoded<T> = ParseError | Null | Value(v: T)

  /** Routes codec. Decoded lists may hold `null` entries. */
  datatype RouteCodec = RouteCodec(
    encode: seq<CustomRoute> -> string,
    decode: string -> Decoded<seq<Option<CustomRoute>>>)

  type SaveMap = map<int, ConfigTaskSave>

  /** Task-progress codec, for the map from struct id to save. */
  datatype SaveCodec = SaveCodec(
    encode: SaveMap -> string,
    decode: string -> Decoded<SaveMap>)

  const SEPARATOR := "-"
  const TASKS_PREFIX := "tasks"
  const ROUTES_PREFIX := "routes"
  const ACTIVE_ROUTE_PREFIX := "activeRoute"
  const TAG_FILTER_PREFIX := "tagFilter"
  const CUSTOM_COMPLETION_PREFIX := "customCompletion"

  function RoutesKey(tabId: string, taskType: string): string
  {
    ROUTES_PREFIX + SEPARATOR + tabId + SEPARATOR + taskType
  }

  function ActiveRouteKey(tabId: string, taskType: string): string
  {
    ACTIVE_ROUTE_PREFIX + SEPARATOR + tabId + SEPARATOR + taskType
  }

  function TagFilterKey(tabId: string): string
  {
    TAG_FILTER_PREFIX + SEPARATOR + tabId
  }

  function CompletionKey(tabId: string, taskType: string, routeName: string): string
  {
    CUSTOM_COMPLETION_PREFIX + SEPARATOR + tabId + SEPARATOR + taskType + SEPARATOR + routeName
  }

  function TaskSaveKey(taskJsonName: string): string
  {
    TASKS_PREFIX + SEPARATOR + taskJsonName
  }

  /** The routes list and the active-route name of a tab never share a key. */
  lemma RouteKeysDiffer(tabId: string, taskType: string)
    ensures RoutesKey(tabId, taskType) != ActiveRouteKey(tabId, taskType)
  {
    assert RoutesKey(tabId, taskType)[0] == 'r';
    assert ActiveRouteKey(tabId, taskType)[0] == 'a';
  }

  /** Every key of `before` outside `except` is still present in `after` with its value. */
  predicate KeepsOthers(before: map<string, string>, after: map<string, string>, except: set<string>)
  {
    forall k :: k in before && k !in except ==> k in after && after[k] == before[k]
  }

  /** `setRSProfileConfiguration`: writes one profile key and nothing else. */
  function PutProfile(st: Store, key: string, value: string): (r: Store)
    ensures r.account == st.account
    ensures key in r.profile && r.profile[key] == value
    ensures r.profile.Keys == st.profile.Keys + {key}
    ensures KeepsOthers(st.profile, r.profile, {key})
  {
    st.(profile := st.profile[key := value])
  }

  /** `getRSProfileConfiguration`: the stored value, or none for a missing key. */
  function GetProfile(st: Store, key: string): Option<string>
  {
    if key in st.profile then Some(st.profile[key]) else None
  }

  // ---------------------------------------------------------------- routes

  function Somes<T>(xs: seq<T>): (r: seq<Option<T>>)
    ensures |r| == |xs| && forall i :: 0 <= i < |xs| ==> r[i] == Some(xs[i])
  {
    seq(|xs|, i requires 0 <= i < |xs| => Some(xs[i]))
  }

  /**
   * A correct codec: a non-empty list encodes to non-empty text that decodes to the
   * same routes.
   */
  ghost predicate Faithful(codec: RouteCodec)
  {
    forall rs: seq<CustomRoute> :: |rs| > 0 ==>
      codec.encode(rs) != "" && codec.decode(codec.encode(rs)) == Value(Somes(rs))
  }

  /** The load filter: a route survives when it is present and has a non-empty name. */
  predicate HasValidName(route: CustomRoute)
  {
    route.name.Some? && route.name.value != ""
  }

  function ValidRoutes(xs: seq<Option<CustomRoute>>): (r: seq<CustomRoute>)
    ensures |r| <= |xs|
    ensures forall i :: 0 <= i < |r| ==> HasValidName(r[i])
    ensures forall route :: route in r <==> Some(route) in xs && HasValidName(route)
  {
    if |xs| == 0 then []
    else
      var rest := ValidRoutes(xs[1..]);
      assert xs == [xs[0]] + xs[1..];
      if xs[0].Some? && HasValidName(xs[0].value) then [xs[0].value] + rest else rest
  }

  /**
   * The load filter keeps stored order and multiplicity: its result is a subsequence of
   * the stored entries, and a usable route occurs as often as it was stored.
   */
  lemma {:induction false} ValidRoutesIsFilter(xs: seq<Option<CustomRoute>>)
    ensures IsSubsequence(Somes(ValidRoutes(xs)), xs)
    ensures forall route :: multiset(ValidRoutes(xs))[route] == (if HasValidName(route) then multiset(xs)[Some(route)] else 0)
  {
    if |xs| > 0 {
      ValidRoutesIsFilter(xs[1..]);
      var rest := ValidRoutes(xs[1..]);
      assert xs == [xs[0]] + xs[1..];
      assert multiset(xs) == multiset([xs[0]]) + multiset(xs[1..]);
      if xs[0].Some? && HasValidName(xs[0].value) {
        var r := [xs[0].value] + rest;
        assert Somes(r) == [xs[0]] + Somes(rest);
        assert Somes(r)[1..] == Somes(rest);
        assert multiset(r) == multiset([xs[0].value]) + multiset(rest);
      }
    }
  }

  /** Routes that all pass the filter survive it unchanged and in order. */
  lemma {:induction false} ValidRoutesKeepsValid(rs: seq<CustomRoute>)
    requires forall i :: 0 <= i < |rs| ==> HasValidName(rs[i])
    ensures ValidRoutes(Somes(rs)) == rs
  {
    if |rs| > 0 {
      assert Somes(rs)[1..] == Somes(rs[1..]);
      ValidRoutesKeepsValid(rs[1..]);
      assert rs == [rs[0]] + rs[1..];
    }
  }

  /** `saveTabRoutes`: a missing or empty list is stored as the empty string. */
  function SaveTabRoutes(st: Store, codec: RouteCodec, tabId: string, taskType: string, routes: Option<seq<CustomRoute>>): (r: Store)
    ensures r.account == st.account
    ensures r.profile.Keys == st.profile.Keys + {RoutesKey(tabId, taskType)}
    ensures KeepsOthers(st.profile, r.profile, {RoutesKey(tabId, taskType)})
    ensures routes.None? || routes == Some([]) ==> r.profile[RoutesKey(tabId, taskType)] == ""
  {
    var json := if routes.Some? && |routes.value| > 0 then codec.encode(routes.value) else "";
    PutProfile(st, RoutesKey(tabId, taskType), json)
  }

  /**
   * `loadTabRoutes`: never fails. A missing key, an empty value, undecodable text and a
   * decoded `null` all give the empty list; otherwise the stored routes that have a
   * non-empty name, in stored order.
   */
  function LoadTabRoutes(st: Store, codec: RouteCodec, tabId: string, taskType: string): (r: seq<CustomRoute>)
    ensures forall i :: 0 <= i < |r| ==> HasValidName(r[i])
    ensures GetProfile(st, RoutesKey(tabId, taskType)) in {None, Some("")} ==> r == []
    ensures match GetProfile(st, RoutesKey(tabId, taskType))
      case Some(json) => json != "" && codec.decode(json) in {ParseError, Null} ==> r == []
      case None => true
  {
    match GetProfile(st, RoutesKey(tabId, taskType))
    case None => []
    case Some(json) =>
      if json == "" then []
      else match codec.decode(json)
        case ParseError => []
        case Null => []
        case Value(xs) => ValidRoutes(xs)
  }

  /**
   * When the stored text decodes to a list, the loaded routes are its usable entries in
   * stored order, each as often as it was stored.
   */
  lemma LoadKeepsStoredOrder(st: Store, codec: RouteCodec, tabId: string, taskType: string, xs: seq<Option<CustomRoute>>)
    requires GetProfile(st, RoutesKey(tabId, taskType)).Some?
    requires GetProfile(st, RoutesKey(tabId, taskType)).value != ""
    requires codec.decode(GetProfile(st, RoutesKey(tabId, taskType)).value) == Value(xs)
    ensures IsSubsequence(Somes(LoadTabRoutes(st, codec, tabId, taskType)), xs)
    ensures forall route :: multiset(LoadTabRoutes(st, codec, tabId, taskType))[route] == (if HasValidName(route) then multiset(xs)[Some(route)] else 0)
  {
    ValidRoutesIsFilter(xs);
  }

  /** Saving no routes reads back as the empty list, exactly like a key never written. */
  lemma SaveNothingLoadsEmpty(st: Store, codec: RouteCodec, tabId: string, taskType: string, routes: Option<seq<CustomRoute>>)
    requires routes.None? || routes == Some([])
    ensures LoadTabRoutes(SaveTabRoutes(st, codec, tabId, taskType, routes), codec, tabId, taskType) == []
    ensures LoadTabRoutes(st.(profile := st.profile - {RoutesKey(tabId, taskType)}), codec, tabId, taskType) == []
  {
  }

  /** With a correct codec, a saved non-empty list loads back as its named routes. */
  lemma LoadAfterSave(st: Store, codec: RouteCodec, tabId: string, taskType: string, rs: seq<CustomRoute>)
    requires Faithful(codec) && |rs| > 0
    ensures LoadTabRoutes(SaveTabRoutes(st, codec, tabId, taskType, Some(rs)), codec, tabId, taskType) == ValidRoutes(Somes(rs))
  {
    assert codec.encode(rs) != "" && codec.decode(codec.encode(rs)) == Value(Somes(rs));
  }

  /** With a correct codec, routes that all have names are loaded back as saved. */
  lemma RoutesRoundTrip(st: Store, codec: RouteCodec, tabId: string, taskType: string, rs: seq<CustomRoute>)
    requires Faithful(codec)
    requires forall i :: 0 <= i < |rs| ==> HasValidName(rs[i])
    ensures LoadTabRoutes(SaveTabRoutes(st, codec, tabId, taskType, Some(rs)), codec, tabId, taskType) == rs
  {
    if |rs| > 0 {
      LoadAfterSave(st, codec, tabId, taskType, rs);
      ValidRoutesKeepsValid(rs);
    }
  }

  /** With a correct codec, a saved route without a usable name is gone on reload. */
  lemma UnnamedRouteDropped(st: Store, codec: RouteCodec, tabId: string, taskType: string, rs: seq<CustomRoute>, i: nat)
    requires Faithful(codec)
    requires i < |rs| && !HasValidName(rs[i])
    ensures rs[i] !in LoadTabRoutes(SaveTabRoutes(st, codec, tabId, taskType, Some(rs)), codec, tabId, taskType)
  {
    assert codec.encode(rs) != "" && codec.decode(codec.encode(rs)) == Value(Somes(rs));
  }

  // ---------------------------------------------------------------- active route

  /** `saveActiveRouteName`: a missing name is stored as the empty string. */
  function SaveActiveRouteName(st: Store, tabId: string, taskType: string, routeName: Option<string>): (r: Store)
    ensures r.account == st.account
    ensures r.profile.Keys == st.profile.Keys + {ActiveRouteKey(tabId, taskType)}
    ensures KeepsOthers(st.profile, r.profile, {ActiveRouteKey(tabId, taskType)})
    ensures routeName.None? ==> r.profile[ActiveRouteKey(tabId, taskType)] == ""
  {
    PutProfile(st, ActiveRouteKey(tabId, taskType), routeName.GetOr(""))
  }

  /** `loadActiveRouteName`: a missing key and the empty string both mean no active route. */
  function LoadActiveRouteName(st: Store, tabId: string, taskType: string): (r: Option<string>)
    ensures r.Some? ==> r.value != ""
    ensures r.Some? <==> ActiveRouteKey(tabId, taskType) in st.profile && st.profile[ActiveRouteKey(tabId, taskType)] != ""
  {
    match GetProfile(st, ActiveRouteKey(tabId, taskType))
    case Some(v) => if v != "" then Some(v) else None
    case None => None
  }

  /** A non-empty name round-trips; a missing or empty one reads back as none. */
  lemma ActiveNameRoundTrip(st: Store, tabId: string, taskType: string, routeName: Option<string>)
    ensures LoadActiveRouteName(SaveActiveRouteName(st, tabId, taskType, routeName), tabId, taskType) ==
      if routeName == Some("") then None else routeName
  {
  }

  /** Index of the first route named `name`. */
  function FirstNamed(routes: seq<CustomRoute>, name: string): (r: Option<nat>)
    ensures r.Some? ==> r.value < |routes| && routes[r.value].name == Some(name)
    ensures r.Some? ==> forall j :: 0 <= j < r.value ==> routes[j].name != Some(name)
    ensures r.None? ==> forall j :: 0 <= j < |routes| ==> routes[j].name != Some(name)
  {
    if |routes| == 0 then None
    else if routes[0].name == Some(name) then Some(0)
    else match FirstNamed(routes[1..], name)
      case None => None
      case Some(i) => Some(i + 1)
  }

  /**
   * `getActiveRoute`: the first loaded route whose name is the active name; none when
   * there is no active name or no loaded route carries it.
   */
  function GetActiveRoute(st: Store, codec: RouteCodec, tabId: string, taskType: string): (r: Option<CustomRoute>)
    ensures LoadActiveRouteName(st, tabId, taskType).None? ==> r.None?
    ensures r.Some? ==>
      var routes := LoadTabRoutes(st, codec, tabId, taskType);
      && r.value.name == LoadActiveRouteName(st, tabId, taskType)
      && exists i :: (0 <= i < |routes| && routes[i] == r.value
        && forall j :: 0 <= j < i ==> routes[j].name != r.value.name)
    ensures r.None? && LoadActiveRouteName(st, tabId, taskType).Some? ==>
      forall route :: route in LoadTabRoutes(st, codec, tabId, taskType) ==> route.name != LoadActiveRouteName(st, tabId, taskType)
  {
    match LoadActiveRouteName(st, tabId, taskType)
    case None => None
    case Some(active) =>
      var routes := LoadTabRoutes(st, codec, tabId, taskType);
      match FirstNamed(routes, active)
      case None => None
      case Some(i) => Some(routes[i])
  }

  // ---------------------------------------------------------------- add and remove

  /**
   * `removeIf(r -> r.getName() != null && r.getName().equals(name))`; a missing `name`
   * matches nothing.
   */
  function WithoutName(routes: seq<CustomRoute>, name: Option<string>): (r: seq<CustomRoute>)
    ensures |r| <= |routes|
    ensures forall route :: route in r <==> route in routes && (name.None? || route.name != name)
    ensures name.None? ==> r == routes
  {
    if |routes| == 0 then []
    else
      var rest := WithoutName(routes[1..], name);
      assert routes == [routes[0]] + routes[1..];
      if name.Some? && routes[0].name == name then rest else [routes[0]] + rest
  }

  /** The filter keeps the survivors in their original relative order. */
  lemma {:induction false} WithoutNameIsSubsequence(routes: seq<CustomRoute>, name: Option<string>)
    ensures IsSubsequence(WithoutName(routes, name), routes)
  {
    if |routes| > 0 {
      WithoutNameIsSubsequence(routes[1..], name);
      var rest := WithoutName(routes[1..], name);
      if !(name.Some? && routes[0].name == name) {
        assert ([routes[0]] + rest)[1..] == rest;
      }
    }
  }

  /** The filter removes every copy of a matching route and keeps every copy of the others. */
  lemma {:induction false} WithoutNameCounts(routes: seq<CustomRoute>, name: Option<string>)
    ensures forall route :: multiset(WithoutName(routes, name))[route] == (if name.Some? && route.name == name then 0 else multiset(routes)[route])
  {
    if |routes| > 0 {
      WithoutNameCounts(routes[1..], name);
      var rest := WithoutName(routes[1..], name);
      assert routes == [routes[0]] + routes[1..];
      assert multiset(routes) == multiset([routes[0]]) + multiset(routes[1..]);
      if !(name.Some? && routes[0].name == name) {
        assert multiset([routes[0]] + rest) == multiset([routes[0]]) + multiset(rest);
      }
    }
  }

  /** The list `addRouteToTab` saves: same-named routes removed, the new one appended. */
  function WithRouteAdded(routes: seq<CustomRoute>, route: CustomRoute): (r: seq<CustomRoute>)
    ensures |r| > 0 && r[|r| - 1] == route
    ensures route.name.Some? ==> forall i :: 0 <= i < |r| - 1 ==> r[i].name != route.name
    ensures r[..|r| - 1] == WithoutName(routes, route.name)
  {
    var kept := WithoutName(routes, route.name);
    assert (kept + [route])[..|kept|] == kept;
    assert forall i :: 0 <= i < |kept| ==> kept[i] in kept;
    kept + [route]
  }

  /** `addRouteToTab`: reload, replace by name, save. */
  function AddRouteToTab(st: Store, codec: RouteCodec, tabId: string, taskType: string, route: CustomRoute): (r: Store)
    ensures r.account == st.account
    ensures KeepsOthers(st.profile, r.profile, {RoutesKey(tabId, taskType)})
  {
    SaveTabRoutes(st, codec, tabId, taskType, Some(WithRouteAdded(LoadTabRoutes(st, codec, tabId, taskType), route)))
  }

  /**
   * With a correct codec and a named route: after adding, the route is the last one
   * loaded, no other loaded route has its name, and the others are the previously
   * loaded routes without that name, in their previous order.
   */
  lemma AddRouteReplacesByName(st: Store, codec: RouteCodec, tabId: string, taskType: string, route: CustomRoute)
    requires Faithful(codec) && HasValidName(route)
    ensures
      var after := LoadTabRoutes(AddRouteToTab(st, codec, tabId, taskType, route), codec, tabId, taskType);
      && |after| > 0 && after[|after| - 1] == route
      && (forall i :: 0 <= i < |after| - 1 ==> after[i].name != route.name)
      && after[..|after| - 1] == WithoutName(LoadTabRoutes(st, codec, tabId, taskType), route.name)
  {
    var before := LoadTabRoutes(st, codec, tabId, taskType);
    var saved := WithRouteAdded(before, route);
    forall i | 0 <= i < |saved| ensures HasValidName(saved[i]) {
      if i < |saved| - 1 {
        assert saved[i] in saved[..|saved| - 1];
      }
    }
    RoutesRoundTrip(st, codec, tabId, taskType, saved);
  }

  /** With a correct codec, adding a route without a usable name leaves the loaded list as it was. */
  lemma AddUnnamedRouteVanishes(st: Store, codec: RouteCodec, tabId: string, taskType: string, route: CustomRoute)
    requires Faithful(codec) && !HasValidName(route)
    ensures LoadTabRoutes(AddRouteToTab(st, codec, tabId, taskType, route), codec, tabId, taskType) ==
      WithoutName(LoadTabRoutes(st, codec, tabId, taskType), route.name)
  {
    var before := LoadTabRoutes(st, codec, tabId, taskType);
    var saved := WithRouteAdded(before, route);
    var kept := WithoutName(before, route.name);
    assert saved == kept + [route];
    forall i | 0 <= i < |kept| ensures HasValidName(kept[i]) {
      assert kept[i] in kept;
    }
    LoadAfterSave(st, codec, tabId, taskType, saved);
    DropInvalidLast(kept, route);
  }

  lemma {:induction false} DropInvalidLast(kept: seq<CustomRoute>, route: CustomRoute)
    requires forall i :: 0 <= i < |kept| ==> HasValidName(kept[i])
    requires !HasValidName(route)
    ensures ValidRoutes(Somes(kept + [route])) == kept
  {
    if |kept| == 0 {
      assert Somes(kept + [route]) == [Some(route)];
    } else {
      assert Somes(kept + [route])[1..] == Somes(kept[1..] + [route]);
      assert (kept + [route])[1..] == kept[1..] + [route];
      DropInvalidLast(kept[1..], route);
      assert kept == [kept[0]] + kept[1..];
    }
  }

  /**
   * `removeRouteFromTab`: drops every route with that name and saves; when the name was
   * the active one, the active name moves to the first remaining route, or is cleared.
   */
  function RemoveRouteFromTab(st: Store, codec: RouteCodec, tabId: string, taskType: string, routeName: string): (r: Store)
    ensures r.account == st.account
    ensures KeepsOthers(st.profile, r.profile, {RoutesKey(tabId, taskType), ActiveRouteKey(tabId, taskType)})
    ensures LoadActiveRouteName(st, tabId, taskType) != Some(routeName) ==>
      LoadActiveRouteName(r, tabId, taskType) == LoadActiveRouteName(st, tabId, taskType)
    ensures LoadActiveRouteName(st, tabId, taskType) == Some(routeName) ==>
      var remaining := WithoutName(LoadTabRoutes(st, codec, tabId, taskType), Some(routeName));
      LoadActiveRouteName(r, tabId, taskType) == if |remaining| == 0 then None else remaining[0].name
  {
    var routes := WithoutName(LoadTabRoutes(st, codec, tabId, taskType), Some(routeName));
    var saved := SaveTabRoutes(st, codec, tabId, taskType, Some(routes));
    RouteKeysDiffer(tabId, taskType);
    var active := LoadActiveRouteName(saved, tabId, taskType);
    assert active == LoadActiveRouteName(st, tabId, taskType);
    if active == Some(routeName) then
      var next := if |routes| == 0 then None else routes[0].name;
      assert |routes| > 0 ==> routes[0] in routes && HasValidName(routes[0]);
      SaveActiveRouteName(saved, tabId, taskType, next)
    else saved
  }

  /**
   * With a correct codec, reloading after the removal gives exactly the earlier routes
   * without the named ones, in their earlier order; no loaded route carries the name.
   */
  lemma RemovedNameIsGone(st: Store, codec: RouteCodec, tabId: string, taskType: string, routeName: string)
    requires Faithful(codec)
    ensures LoadTabRoutes(RemoveRouteFromTab(st, codec, tabId, taskType, routeName), codec, tabId, taskType) == WithoutName(LoadTabRoutes(st, codec, tabId, taskType), Some(routeName))
    ensures forall route :: route in LoadTabRoutes(RemoveRouteFromTab(st, codec, tabId, taskType, routeName), codec, tabId, taskType) ==>
      route.name != Some(routeName)
  {
    var routes := WithoutName(LoadTabRoutes(st, codec, tabId, taskType), Some(routeName));
    var saved := SaveTabRoutes(st, codec, tabId, taskType, Some(routes));
    forall i | 0 <= i < |routes| ensures HasValidName(routes[i]) {
      assert routes[i] in routes;
    }
    RoutesRoundTrip(st, codec, tabId, taskType, routes);
    RouteKeysDiffer(tabId, taskType);
    var r := RemoveRouteFromTab(st, codec, tabId, taskType, routeName);
    assert GetProfile(r, RoutesKey(tabId, taskType)) == GetProfile(saved, RoutesKey(tabId, taskType));
  }

  // ---------------------------------------------------------------- string sets

  /**
   * The comma-joined form of a set; `order` is the set's iteration order. A missing or
   * empty set is the empty string.
   */
  function EncodeSet(order: Option<seq<string>>): (r: string)
    ensures order.None? || order == Some([]) ==> r == ""
  {
    if order.Some? && |order.value| > 0 then Text.Join(order.value, ',') else ""
  }

  /** Reading a set back: missing or empty text is the empty set, otherwise the pieces of `split(",")`. */
  function DecodeSet(value: Option<string>): (r: set<string>)
    ensures value.None? || value == Some("") ==> r == {}
  {
    if value.None? || value.value == "" then {}
    else
      var parts := Text.JavaSplit(value.value, ',');
      set i | 0 <= i < |parts| :: parts[i]
  }

  /** Elements that are non-empty and free of commas survive encoding and decoding. */
  lemma SetRoundTrip(order: seq<string>)
    requires Text.SeparatorFree(order, ',') && Text.AllNonEmpty(order)
    ensures DecodeSet(Some(EncodeSet(Some(order)))) == set i | 0 <= i < |order| :: order[i]
  {
    if |order| > 0 {
      Text.JavaSplitOfJoin(order, ',');
    }
  }

  /** The empty tag does not survive: a set holding only it reads back empty. */
  lemma EmptyElementIsLost()
    ensures DecodeSet(Some(EncodeSet(Some([""])))) == {}
  {
  }

  function PutAccount(st: Store, key: string, value: string): (r: Store)
    ensures r.profile == st.profile
    ensures key in r.account && r.account[key] == value
    ensures r.account.Keys == st.account.Keys + {key}
    ensures KeepsOthers(st.account, r.account, {key})
  {
    st.(account := st.account[key := value])
  }

  /** `saveTabTagFilter`, in the account scope. */
  function SaveTabTagFilter(st: Store, tabId: string, tags: Option<seq<string>>): (r: Store)
    ensures r.profile == st.profile
    ensures KeepsOthers(st.account, r.account, {TagFilterKey(tabId)})
  {
    PutAccount(st, TagFilterKey(tabId), EncodeSet(tags))
  }

  function LoadTabTagFilter(st: Store, tabId: string): (r: set<string>)
    ensures TagFilterKey(tabId) !in st.account ==> r == {}
  {
    var key := TagFilterKey(tabId);
    DecodeSet(if key in st.account then Some(st.account[key]) else None)
  }

  /** Tag sets of non-empty comma-free tags round-trip; an empty or missing set reads back empty. */
  lemma TagFilterRoundTrip(st: Store, tabId: string, tags: Option<seq<string>>)
    requires tags.Some? ==> Text.SeparatorFree(tags.value, ',') && Text.AllNonEmpty(tags.value)
    ensures LoadTabTagFilter(SaveTabTagFilter(st, tabId, tags), tabId) ==
      if tags.None? then {} else set i | 0 <= i < |tags.value| :: tags.value[i]
  {
    if tags.Some? {
      SetRoundTrip(tags.value);
    }
  }

  /** `saveCustomItemCompletion`, in the profile scope, keyed by tab, task type and route. */
  function SaveCustomItemCompletion(st: Store, tabId: string, taskType: string, routeName: string, completedIds: Option<seq<string>>): (r: Store)
    ensures r.account == st.account
    ensures KeepsOthers(st.profile, r.profile, {CompletionKey(tabId, taskType, routeName)})
  {
    PutProfile(st, CompletionKey(tabId, taskType, routeName), EncodeSet(completedIds))
  }

  function LoadCustomItemCompletion(st: Store, tabId: string, taskType: string, routeName: string): (r: set<string>)
    ensures CompletionKey(tabId, taskType, routeName) !in st.profile ==> r == {}
  {
    DecodeSet(GetProfile(st, CompletionKey(tabId, taskType, routeName)))
  }

  /** Completed placeholder ids round-trip (they are eight hex digits, so never empty nor holding commas). */
  lemma CompletionRoundTrip(st: Store, tabId: string, taskType: string, routeName: string, ids: Option<seq<string>>)
    requires ids.Some? ==> Text.SeparatorFree(ids.value, ',') && Text.AllNonEmpty(ids.value)
    ensures LoadCustomItemCompletion(SaveCustomItemCompletion(st, tabId, taskType, routeName, ids), tabId, taskType, routeName) ==
      if ids.None? then {} else set i | 0 <= i < |ids.value| :: ids.value[i]
  {
    if ids.Some? {
      SetRoundTrip(ids.value);
    }
  }

  // ---------------------------------------------------------------- task progress

  /**
   * The map `saveCurrentTaskTypeData` writes: tasks with some timestamp set, keyed by
   * struct id, the first such task winning on a repeated id.
   */
  function SaveMapOf(tasks: seq<TaskRecord>): (r: SaveMap)
    ensures forall id :: id in r <==> exists i :: 0 <= i < |tasks| && HasProgress(tasks[i]) && tasks[i].structId == id
    ensures forall i :: (0 <= i < |tasks| && HasProgress(tasks[i])
      && (forall j :: 0 <= j < i && HasProgress(tasks[j]) ==> tasks[j].structId != tasks[i].structId)) ==>
      r[tasks[i].structId] == FromTask(tasks[i])
  {
    if |tasks| == 0 then map[]
    else
      var init := tasks[..|tasks| - 1];
      var last := tasks[|tasks| - 1];
      var m := SaveMapOf(init);
      assert forall i :: 0 <= i < |init| ==> init[i] == tasks[i];
      if HasProgress(last) && last.structId !in m then m[last.structId := FromTask(last)] else m
  }

  /** Whether `saveCurrentTaskTypeData` would record this task. */
  lemma OnlyProgressIsSaved(tasks: seq<TaskRecord>, i: nat)
    requires i < |tasks| && !HasProgress(tasks[i])
    requires forall j :: 0 <= j < |tasks| && j != i ==> tasks[j].structId != tasks[i].structId
    ensures tasks[i].structId !in SaveMapOf(tasks)
  {
  }

  ghost predicate SaveCodecFaithful(codec: SaveCodec)
  {
    forall m: SaveMap :: codec.decode(codec.encode(m)) == Value(m)
  }

  /** `saveCurrentTaskTypeData`: writes the save map under the current type's key. */
  function SaveCurrentTaskTypeData(st: Store, codec: SaveCodec, taskJsonName: string, tasks: seq<TaskRecord>): (r: Store)
    ensures r.account == st.account
    ensures KeepsOthers(st.profile, r.profile, {TaskSaveKey(taskJsonName)})
  {
    PutProfile(st, TaskSaveKey(taskJsonName), codec.encode(SaveMapOf(tasks)))
  }

  /** What loading the current type's progress did. */
  datatype TaskLoad =
    | NoTaskType        // no current task type: skipped
    | NoSave            // nothing stored: no save applied
    | Applied(data: Option<SaveMap>)   // decoded (possibly `null`) and handed to the task service
    | Wiped             // undecodable: the key was removed

  datatype LoadOutcome = LoadOutcome(store: Store, load: TaskLoad)

  /** `loadCurrentTaskTypeFromConfig`; `taskJsonName` is none when there is no current type. */
  function LoadCurrentTaskType(st: Store, codec: SaveCodec, taskJsonName: Option<string>): (r: LoadOutcome)
    ensures taskJsonName.None? ==> r.load == NoTaskType
    ensures r.load == Wiped <==> (taskJsonName.Some? && TaskSaveKey(taskJsonName.value) in st.profile
      && codec.decode(st.profile[TaskSaveKey(taskJsonName.value)]) == ParseError)
    ensures r.load != Wiped ==> r.store == st
    ensures r.load == Wiped ==> (r.store.account == st.account
      && r.store.profile == st.profile - {TaskSaveKey(taskJsonName.value)})
    ensures r.load == NoSave <==> taskJsonName.Some? && TaskSaveKey(taskJsonName.value) !in st.profile
  {
    match taskJsonName
    case None => LoadOutcome(st, NoTaskType)
    case Some(name) =>
      match GetProfile(st, TaskSaveKey(name))
      case None => LoadOutcome(st, NoSave)
      case Some(json) =>
        match codec.decode(json)
        case ParseError => LoadOutcome(st.(profile := st.profile - {TaskSaveKey(name)}), Wiped)
        case Null => LoadOutcome(st, Applied(None))
        case Value(m) => LoadOutcome(st, Applied(Some(m)))
  }

  /** A wiped blob is gone: loading again applies nothing and changes nothing. */
  lemma WipedBlobSkippedNextTime(st: Store, codec: SaveCodec, taskJsonName: string)
    requires LoadCurrentTaskType(st, codec, Some(taskJsonName)).load == Wiped
    ensures
      var after := LoadCurrentTaskType(st, codec, Some(taskJsonName)).store;
      LoadCurrentTaskType(after, codec, Some(taskJsonName)) == LoadOutcome(after, NoSave)
  {
  }

  /** With a correct codec, loading after saving applies exactly the saved map. */
  lemma TaskProgressRoundTrip(st: Store, codec: SaveCodec, taskJsonName: string, tasks: seq<TaskRecord>)
    requires SaveCodecFaithful(codec)
    ensures
      var saved := SaveCurrentTaskTypeData(st, codec, taskJsonName, tasks);
      LoadCurrentTaskType(saved, codec, Some(taskJsonName)) == LoadOutcome(saved, Applied(Some(SaveMapOf(tasks))))
  {
    assert codec.decode(codec.encode(SaveMapOf(tasks))) == Value(SaveMapOf(tasks));
  }
}
