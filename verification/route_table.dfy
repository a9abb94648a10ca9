/**
  The route table (`Router` in pkg/router/router.go): route entries grouped under the
  string key `Method + "-" + Path`, each key holding an ordered list of entries.
  Go's unspecified map iteration order is an explicit parameter `order` that
  enumerates the keys; the random draw of the weighted choice is an explicit `draw`.
 */
module RouteTable {
  import opened Wrappers
  import opened Collections
  import RouteSelection

  datatype Route = Route(
    id: string,
    path: string,
    httpMethod: string,
    serviceName: string,
    backendUrl: string,
    weight: int,
    headers: map<string, string>,
    enabled: bool)

  /** `map[string][]*Route`: routing key to the entries registered under it. */
  type Table = map<string, seq<Route>>

  datatype RouteError =
    | NilRoute           // "route cannot be nil"
    | EmptyPath          // "route path cannot be empty"
    | EmptyMethod        // "route method cannot be empty"
    | EmptyServiceName   // "route service name cannot be empty"
    | DuplicateId        // "route with same ID already exists"
    | RouteNotFound      // "route not found"

  /** A table together with the error a mutating call returned (None is Go's nil). */
  datatype Outcome = Outcome(table: Table, err: Option<RouteError>)

  /** The routing key: method and path joined by a dash. */
  function Key(httpMethod: string, path: string): string
  {
    httpMethod + "-" + path
  }

  function KeyOf(r: Route): string
  {
    Key(r.httpMethod, r.path)
  }

  /** `r.routes[key]`: a missing key reads as the empty (nil) slice. */
  function ListAt(t: Table, key: string): seq<Route>
  {
    if key in t then t[key] else []
  }

  predicate HasId(rs: seq<Route>, id: string)
  {
    exists i :: 0 <= i < |rs| && rs[i].id == id
  }

  /** The entries of `rs` whose ID differs from `id`, in their original order. */
  function Without(rs: seq<Route>, id: string): (kept: seq<Route>)
    ensures forall r :: r in kept <==> r in rs && r.id != id
    ensures |kept| <= |rs|
    ensures |kept| == |rs| <==> !HasId(rs, id)
  {
    if |rs| == 0 then []
    else
      var rest := Without(rs[1..], id);
      assert forall i :: 0 < i < |rs| ==> rs[i] == rs[1..][i - 1];
      if rs[0].id != id then [rs[0]] + rest else rest
  }

  /** The validation `AddRoute` performs before touching the table, in the source's order. */
  function Validate(route: Option<Route>): (e: Option<RouteError>)
    ensures e.None? <==> route.Some? && route.value.path != "" && route.value.httpMethod != "" && route.value.serviceName != ""
    ensures route.None? ==> e == Some(NilRoute)
    ensures route.Some? && route.value.path == "" ==> e == Some(EmptyPath)
    ensures route.Some? && route.value.path != "" && route.value.httpMethod == "" ==> e == Some(EmptyMethod)
  {
    match route
    case None => Some(NilRoute)
    case Some(r) =>
      if r.path == "" then Some(EmptyPath)
      else if r.httpMethod == "" then Some(EmptyMethod)
      else if r.serviceName == "" then Some(EmptyServiceName)
      else None
  }

  /**
    AddRoute: rejects a nil route and empty path, method or service name (an empty ID
    is accepted), rejects an ID already present under the same key, and otherwise
    appends the route at the end of its key's list.
   */
  function AddRoute(t: Table, route: Option<Route>): (o: Outcome)
    ensures o.err.Some? ==> o.table == t
    ensures Validate(route).Some? ==> o.err == Validate(route)
    ensures o.err == Some(DuplicateId) <==>
              Validate(route).None? && HasId(ListAt(t, KeyOf(route.value)), route.value.id)
    ensures o.err.None? <==>
              Validate(route).None? && !HasId(ListAt(t, KeyOf(route.value)), route.value.id)
    ensures o.err.None? ==>
              && KeyOf(route.value) in o.table
              && o.table[KeyOf(route.value)] == ListAt(t, KeyOf(route.value)) + [route.value]
    ensures o.err.None? ==>
              forall k :: k != KeyOf(route.value) ==>
                (k in o.table <==> k in t) && (k in t ==> o.table[k] == t[k])
  {
    match Validate(route)
    case Some(e) => Outcome(t, Some(e))
    case None =>
      var r := route.value;
      var key := KeyOf(r);
      if HasId(ListAt(t, key), r.id) then Outcome(t, Some(DuplicateId))
      else Outcome(t[key := ListAt(t, key) + [r]], None)
  }

  /** The first key of `order` whose list holds an entry with ID `id`, as an index into `order`. */
  function FirstKeyWith(t: Table, order: seq<string>, id: string): (i: nat)
    requires forall k :: k in order ==> k in t
    ensures i <= |order|
    ensures i < |order| ==> HasId(t[order[i]], id)
    ensures forall j :: 0 <= j < i ==> !HasId(t[order[j]], id)
  {
    if |order| == 0 then 0
    else if HasId(t[order[0]], id) then 0
    else 1 + FirstKeyWith(t, order[1..], id)
  }

  /** How many keys of `order` RemoveRoute's loop visits: up to and including the first one holding the ID. */
  function Visited(t: Table, order: seq<string>, id: string): (n: nat)
    requires forall k :: k in order ==> k in t
    ensures n <= |order|
  {
    var i := FirstKeyWith(t, order, id);
    if i < |order| then i + 1 else |order|
  }

  /**
    `t'` is `t` with the lists of the `visited` keys filtered by ID and the keys whose
    filtered list is empty deleted; every other key is untouched.
   */
  predicate Swept(t: Table, t': Table, id: string, visited: seq<string>)
  {
    && (forall k :: k in t' ==> k in t)
    && (forall k :: k in t && k !in visited ==> k in t' && t'[k] == t[k])
    && (forall k :: k in t && k in visited ==> (k in t' <==> |Without(t[k], id)| > 0))
    && (forall k :: k in t' && k in visited ==> t'[k] == Without(t[k], id))
  }

  /** One iteration of the loop: the key's list is rewritten without the ID, and deleted if now empty. */
  function SweepKey(t: Table, id: string, key: string): (t': Table)
    requires key in t
    ensures Swept(t, t', id, [key])
  {
    var kept := Without(t[key], id);
    if |kept| == 0 then t - {key} else t[key := kept]
  }

  lemma {:induction false} FirstKeyWithAgree(t: Table, t': Table, order: seq<string>, id: string)
    requires forall k :: k in order ==> k in t && k in t' && t[k] == t'[k]
    ensures FirstKeyWith(t, order, id) == FirstKeyWith(t', order, id)
    decreases |order|
  {
    if |order| > 0 {
      assert order[0] in order;
      FirstKeyWithAgree(t, t', order[1..], id);
    }
  }

  /**
    The body of RemoveRoute's loop over the keys in `order`: each visited key's list is
    rewritten without the ID and deleted when it becomes empty; the loop returns after
    the first key in which the ID was found.
   */
  function RemoveLoop(t: Table, id: string, order: seq<string>): (o: Outcome)
    requires Distinct(order)
    requires forall k :: k in order ==> k in t
    ensures o.err.None? <==> FirstKeyWith(t, order, id) < |order|
    ensures o.err.Some? ==> o.err == Some(RouteNotFound)
    ensures Swept(t, o.table, id, order[..Visited(t, order, id)])
    decreases |order|
  {
    if |order| == 0 then Outcome(t, Some(RouteNotFound))
    else
      var key := order[0];
      var t' := SweepKey(t, id, key);
      if HasId(t[key], id) then
        assert order[..Visited(t, order, id)] == [key];
        Outcome(t', None)
      else
        RestInSwept(t, id, order);
        var o := RemoveLoop(t', id, order[1..]);
        RemoveLoopStep(t, id, order, o);
        o
  }

  lemma RestInSwept(t: Table, id: string, order: seq<string>)
    requires Distinct(order) && |order| > 0
    requires forall k :: k in order ==> k in t
    requires !HasId(t[order[0]], id)
    ensures Distinct(order[1..])
    ensures forall k :: k in order[1..] ==> k in SweepKey(t, id, order[0])
  {
    forall k | k in order[1..] ensures k in SweepKey(t, id, order[0]) {
      var j :| 0 <= j < |order[1..]| && order[1..][j] == k;
      assert order[j + 1] == k;
    }
  }

  lemma SweptCompose(t: Table, t': Table, t'': Table, id: string, key: string, rest: seq<string>)
    requires key in t && Without(t[key], id) == t[key]
    requires key !in rest
    requires Swept(t, t', id, [key])
    requires Swept(t', t'', id, rest)
    requires forall k :: k in rest ==> k in t
    ensures Swept(t, t'', id, [key] + rest)
  {
  }

  lemma RemoveLoopStep(t: Table, id: string, order: seq<string>, o: Outcome)
    requires Distinct(order) && |order| > 0
    requires forall k :: k in order ==> k in t
    requires !HasId(t[order[0]], id)
    requires forall k :: k in order[1..] ==> k in SweepKey(t, id, order[0])
    requires o.err.None? <==> FirstKeyWith(SweepKey(t, id, order[0]), order[1..], id) < |order[1..]|
    requires Swept(SweepKey(t, id, order[0]), o.table, id,
                   order[1..][..Visited(SweepKey(t, id, order[0]), order[1..], id)])
    ensures o.err.None? <==> FirstKeyWith(t, order, id) < |order|
    ensures Swept(t, o.table, id, order[..Visited(t, order, id)])
  {
    var key := order[0];
    var t' := SweepKey(t, id, key);
    var rest := order[1..];
    StepVisits(t, id, order);
    var visited' := rest[..Visited(t', rest, id)];
    HeadNotInTail(order, Visited(t', rest, id));
    WithoutNoId(t[key], id);
    SweptCompose(t, t', o.table, id, key, visited');
    assert order[..Visited(t, order, id)] == [key] + visited';
  }

  lemma HeadNotInTail<T>(xs: seq<T>, m: nat)
    requires Distinct(xs) && |xs| > 0 && m <= |xs| - 1
    ensures xs[0] !in xs[1..][..m]
  {
    forall j | 0 <= j < m ensures xs[1..][..m][j] != xs[0] {
      assert xs[1..][..m][j] == xs[j + 1];
    }
  }

  /** Skipping a first key without the ID: the loop over the rest finds the same key and visits one key fewer. */
  lemma StepVisits(t: Table, id: string, order: seq<string>)
    requires Distinct(order) && |order| > 0
    requires forall k :: k in order ==> k in t
    requires !HasId(t[order[0]], id)
    requires forall k :: k in order[1..] ==> k in SweepKey(t, id, order[0])
    ensures FirstKeyWith(t, order, id) == 1 + FirstKeyWith(SweepKey(t, id, order[0]), order[1..], id)
    ensures order[..Visited(t, order, id)] ==
              [order[0]] + order[1..][..Visited(SweepKey(t, id, order[0]), order[1..], id)]
  {
    var t' := SweepKey(t, id, order[0]);
    var rest := order[1..];
    forall k | k in rest ensures k in t && k in t' && t[k] == t'[k] {
      var j :| 0 <= j < |rest| && rest[j] == k;
      assert order[j + 1] == k && order[0] != k;
    }
    FirstKeyWithAgree(t, t', rest, id);
    SliceCons(order, Visited(t', rest, id));
  }

  lemma SliceCons<T>(xs: seq<T>, m: nat)
    requires m < |xs|
    ensures xs[..m + 1] == [xs[0]] + xs[1..][..m]
  {
  }

  lemma {:induction false} WithoutNoId(rs: seq<Route>, id: string)
    requires !HasId(rs, id)
    ensures Without(rs, id) == rs
  {
    if |rs| > 0 {
      assert !HasId(rs[1..], id) by {
        forall i | 0 <= i < |rs[1..]| ensures rs[1..][i].id != id {
          assert rs[1..][i] == rs[i + 1];
        }
      }
      WithoutNoId(rs[1..], id);
      assert rs == [rs[0]] + rs[1..];
    }
  }

  /**
    RemoveRoute: deletes every entry with this ID from the first key (in map iteration
    order) that holds one, deleting that key if its list becomes empty; "route not
    found" when no key holds the ID.
   */
  function RemoveRoute(t: Table, id: string, order: seq<string>): (o: Outcome)
    requires Enumerates(order, t.Keys)
    ensures o.err.None? <==> exists k :: k in t && HasId(t[k], id)
    ensures o.err.Some? ==> o.err == Some(RouteNotFound)
    ensures forall k :: k in o.table ==> k in t
    ensures o.err.None? ==> RemovedAt(t, o.table, id, order[FirstKeyWith(t, order, id)])
    ensures NonEmptyLists(t) && o.err.None? ==> UnchangedExcept(t, o.table, order[FirstKeyWith(t, order, id)])
    ensures NonEmptyLists(t) && o.err.Some? ==> o.table == t
  {
    RemoveLoopFindsAny(t, id, order);
    RemoveRouteFound(t, id, order);
    RemoveRouteFrame(t, id, order);
    RemoveLoop(t, id, order)
  }

  /** The list of key `fk` held the ID; in `t'` it holds the other entries, or the key is gone if none remain. */
  predicate RemovedAt(t: Table, t': Table, id: string, fk: string)
  {
    && fk in t && HasId(t[fk], id)
    && (fk in t' <==> |Without(t[fk], id)| > 0)
    && (fk in t' ==> t'[fk] == Without(t[fk], id))
  }

  /** Every key other than `fk` is present in `t'` iff in `t`, with the same list. */
  predicate UnchangedExcept(t: Table, t': Table, fk: string)
  {
    && (forall k :: k in t && k != fk ==> k in t' && t'[k] == t[k])
    && (forall k :: k in t' && k != fk ==> k in t)
  }

  lemma RemoveRouteFound(t: Table, id: string, order: seq<string>)
    requires Enumerates(order, t.Keys)
    ensures var o := RemoveLoop(t, id, order);
            o.err.None? ==> RemovedAt(t, o.table, id, order[FirstKeyWith(t, order, id)])
  {
    var o := RemoveLoop(t, id, order);
    if o.err.None? {
      var i := FirstKeyWith(t, order, id);
      assert order[i] in order[..Visited(t, order, id)];
    }
  }

  lemma RemoveRouteFrame(t: Table, id: string, order: seq<string>)
    requires Enumerates(order, t.Keys)
    ensures var o := RemoveLoop(t, id, order);
            && (NonEmptyLists(t) && o.err.None? ==> UnchangedExcept(t, o.table, order[FirstKeyWith(t, order, id)]))
            && (NonEmptyLists(t) && o.err.Some? ==> o.table == t)
  {
    var o := RemoveLoop(t, id, order);
    if NonEmptyLists(t) {
      if o.err.Some? {
        RemoveMissFrame(t, id, order, o);
      } else {
        RemoveHitFrame(t, id, order, o);
      }
    }
  }

  lemma RemoveMissFrame(t: Table, id: string, order: seq<string>, o: Outcome)
    requires Enumerates(order, t.Keys) && NonEmptyLists(t)
    requires FirstKeyWith(t, order, id) == |order|
    requires Swept(t, o.table, id, order[..Visited(t, order, id)])
    ensures o.table == t
  {
    assert order[..Visited(t, order, id)] == order;
    forall k | k in order ensures k in t && !HasId(t[k], id) {
      var j :| 0 <= j < |order| && order[j] == k;
    }
    SweptUnchanged(t, o.table, id, order, {});
    SameEntries(t, o.table);
  }

  lemma RemoveHitFrame(t: Table, id: string, order: seq<string>, o: Outcome)
    requires Enumerates(order, t.Keys) && NonEmptyLists(t)
    requires FirstKeyWith(t, order, id) < |order|
    requires Swept(t, o.table, id, order[..Visited(t, order, id)])
    ensures UnchangedExcept(t, o.table, order[FirstKeyWith(t, order, id)])
  {
    var i := FirstKeyWith(t, order, id);
    var visited := order[..Visited(t, order, id)];
    assert visited == order[..i + 1];
    forall k | k in visited && k != order[i] ensures k in t && !HasId(t[k], id) {
      var j :| 0 <= j < |visited| && visited[j] == k;
      assert order[j] == k && j < i;
    }
    SweptUnchanged(t, o.table, id, visited, {order[i]});
  }

  /** Sweeping keys whose lists do not hold the ID (outside `except`) leaves them as they were. */
  lemma SweptUnchanged(t: Table, t': Table, id: string, visited: seq<string>, except: set<string>)
    requires Swept(t, t', id, visited)
    requires NonEmptyLists(t)
    requires forall k :: k in visited && k !in except ==> k in t && !HasId(t[k], id)
    ensures forall k :: k in t && k !in except ==> k in t' && t'[k] == t[k]
  {
    forall k | k in t && k !in except ensures k in t' && t'[k] == t[k] {
      if k in visited {
        WithoutNoId(t[k], id);
      }
    }
  }

  lemma RemoveLoopFindsAny(t: Table, id: string, order: seq<string>)
    requires Enumerates(order, t.Keys)
    ensures FirstKeyWith(t, order, id) < |order| <==> exists k :: k in t && HasId(t[k], id)
  {
    if FirstKeyWith(t, order, id) == |order| {
      forall k | k in t ensures !HasId(t[k], id) {
        var j :| 0 <= j < |order| && order[j] == k;
      }
    }
  }

  /**
    UpdateRoute: a nil route is rejected; otherwise remove-by-ID then add. A failed
    removal returns its error without adding; a failed add leaves the old entry removed.
   */
  function UpdateRoute(t: Table, route: Option<Route>, order: seq<string>): (o: Outcome)
    requires Enumerates(order, t.Keys)
    ensures route.None? ==> o == Outcome(t, Some(NilRoute))
    ensures route.Some? && !(exists k :: k in t && HasId(t[k], route.value.id)) ==>
              o.err == Some(RouteNotFound) && (NonEmptyLists(t) ==> o.table == t)
    ensures route.Some? && (exists k :: k in t && HasId(t[k], route.value.id)) ==>
              var fk := order[FirstKeyWith(t, order, route.value.id)];
              fk in o.table ==> !HasId(o.table[fk], route.value.id) || (o.err.None? && fk == KeyOf(route.value))
    ensures o.err.None? ==>
              && route.Some? && KeyOf(route.value) in o.table && |o.table[KeyOf(route.value)]| > 0
              && o.table[KeyOf(route.value)][|o.table[KeyOf(route.value)]| - 1] == route.value
    ensures route.Some? && (exists k :: k in t && HasId(t[k], route.value.id)) && Validate(route).Some? ==>
              o.err == Validate(route)
    ensures NonEmptyLists(t) && route.Some? && (exists k :: k in t && HasId(t[k], route.value.id)) ==>
              var fk := order[FirstKeyWith(t, order, route.value.id)];
              forall k :: k != fk && k != KeyOf(route.value) ==>
                (k in o.table <==> k in t) && (k in t ==> o.table[k] == t[k])
    ensures NonEmptyLists(t) ==>
              (o.err.None? <==>
                 && route.Some? && (exists k :: k in t && HasId(t[k], route.value.id))
                 && Validate(route).None?
                 && (KeyOf(route.value) == order[FirstKeyWith(t, order, route.value.id)]
                     || !HasId(ListAt(t, KeyOf(route.value)), route.value.id)))
    ensures NonEmptyLists(t) ==>
              (o.err == Some(DuplicateId) <==>
                 && route.Some? && (exists k :: k in t && HasId(t[k], route.value.id))
                 && Validate(route).None?
                 && KeyOf(route.value) != order[FirstKeyWith(t, order, route.value.id)]
                 && HasId(ListAt(t, KeyOf(route.value)), route.value.id))
  {
    match route
    case None => Outcome(t, Some(NilRoute))
    case Some(r) =>
      var removed := RemoveRoute(t, r.id, order);
      if removed.err.Some? then removed
      else
        UpdateKeepsOthers(t, r, order);
        UpdateOutcome(t, r, order);
        AddRoute(removed.table, route)
  }

  /** Once the ID is found and removed, the add touches no key other than the found key and the route's own key. */
  lemma UpdateKeepsOthers(t: Table, r: Route, order: seq<string>)
    requires Enumerates(order, t.Keys)
    ensures var removed := RemoveRoute(t, r.id, order);
            var added := AddRoute(removed.table, Some(r));
            removed.err.None? ==>
              var fk := order[FirstKeyWith(t, order, r.id)];
              && (fk in added.table ==> !HasId(added.table[fk], r.id) || (added.err.None? && fk == KeyOf(r)))
              && (NonEmptyLists(t) ==>
                    forall k :: k != fk && k != KeyOf(r) ==>
                      (k in added.table <==> k in t) && (k in t ==> added.table[k] == t[k]))
  {
    RemovalStep(t, r, order);
  }

  /** Once the ID is found and removed, the add succeeds unless the route is invalid or its own key still holds the ID. */
  lemma UpdateOutcome(t: Table, r: Route, order: seq<string>)
    requires Enumerates(order, t.Keys)
    ensures var removed := RemoveRoute(t, r.id, order);
            var added := AddRoute(removed.table, Some(r));
            NonEmptyLists(t) && removed.err.None? ==>
              var fk := order[FirstKeyWith(t, order, r.id)];
              && (added.err.None? <==>
                    Validate(Some(r)).None? && (KeyOf(r) == fk || !HasId(ListAt(t, KeyOf(r)), r.id)))
              && (added.err == Some(DuplicateId) <==>
                    Validate(Some(r)).None? && KeyOf(r) != fk && HasId(ListAt(t, KeyOf(r)), r.id))
  {
    RemovalStep(t, r, order);
  }

  /**
    What UpdateRoute's removal leaves for the add: in a table without empty lists, a
    found ID survives only under keys other than the one it was removed from, and
    every other key is as it was.
   */
  lemma RemovalStep(t: Table, r: Route, order: seq<string>)
    requires Enumerates(order, t.Keys)
    ensures var removed := RemoveRoute(t, r.id, order);
            NonEmptyLists(t) && removed.err.None? ==>
              var fk := order[FirstKeyWith(t, order, r.id)];
              && (HasId(ListAt(removed.table, KeyOf(r)), r.id) <==> KeyOf(r) != fk && HasId(ListAt(t, KeyOf(r)), r.id))
              && (forall k :: k != fk ==> (k in removed.table <==> k in t) && (k in t ==> removed.table[k] == t[k]))
  {
    var removed := RemoveRoute(t, r.id, order);
    if NonEmptyLists(t) && removed.err.None? {
      var fk := order[FirstKeyWith(t, order, r.id)];
      assert UnchangedExcept(t, removed.table, fk);
      if KeyOf(r) == fk {
        if fk in removed.table {
          assert removed.table[fk] == Without(t[fk], r.id);
        }
        assert !HasId(ListAt(removed.table, fk), r.id);
      } else {
        assert ListAt(removed.table, KeyOf(r)) == ListAt(t, KeyOf(r));
      }
    }
  }

  /** GetRoute: the list stored under the key of `httpMethod` and `path`, if any. */
  function GetRoute(t: Table, httpMethod: string, path: string): (r: Option<seq<Route>>)
    ensures r.Some? <==> Key(httpMethod, path) in t
    ensures r.Some? ==> r.value == t[Key(httpMethod, path)]
  {
    if Key(httpMethod, path) in t then Some(t[Key(httpMethod, path)]) else None
  }

  /** The lists of the keys in `order`, concatenated. */
  function Concat(t: Table, order: seq<string>): (all: seq<Route>)
    requires forall k :: k in order ==> k in t
    ensures forall r :: r in all <==> exists i :: 0 <= i < |order| && r in t[order[i]]
  {
    if |order| == 0 then []
    else
      var rest := Concat(t, order[1..]);
      assert forall i :: 0 < i < |order| ==> order[i] == order[1..][i - 1];
      assert forall i :: 0 <= i < |order[1..]| ==> order[1..][i] == order[i + 1];
      t[order[0]] + rest
  }

  /**
    GetAllRoutes: a copy of every entry of every key, key by key in map iteration
    order: the list of the `i`-th key sits at the offset given by the keys before it,
    and nothing else is in the result.
   */
  function GetAllRoutes(t: Table, order: seq<string>): (all: seq<Route>)
    requires Enumerates(order, t.Keys)
    ensures forall r :: r in all <==> exists k :: k in t && r in t[k]
    ensures |all| == LengthSum(t, order)
    ensures forall i :: 0 <= i < |order| ==>
              && LengthSum(t, order[..i]) + |t[order[i]]| <= |all|
              && all[LengthSum(t, order[..i])..LengthSum(t, order[..i]) + |t[order[i]]|] == t[order[i]]
  {
    ConcatCoversKeys(t, order);
    ConcatLayout(t, order);
    Concat(t, order)
  }

  /** Concat places each key's list right after the lists of the keys before it. */
  lemma ConcatLayout(t: Table, order: seq<string>)
    requires forall k :: k in order ==> k in t
    ensures |Concat(t, order)| == LengthSum(t, order)
    ensures forall i :: 0 <= i < |order| ==>
              && LengthSum(t, order[..i]) + |t[order[i]]| <= |Concat(t, order)|
              && Concat(t, order)[LengthSum(t, order[..i])..LengthSum(t, order[..i]) + |t[order[i]]|] == t[order[i]]
  {
    ConcatLength(t, order);
    forall i | 0 <= i < |order|
      ensures && LengthSum(t, order[..i]) + |t[order[i]]| <= |Concat(t, order)|
              && Concat(t, order)[LengthSum(t, order[..i])..LengthSum(t, order[..i]) + |t[order[i]]|] == t[order[i]]
    {
      ConcatLayoutAt(t, order, i);
    }
  }

  /** The list of the `i`-th key sits between the lists of the keys before it and those after it. */
  lemma ConcatLayoutAt(t: Table, order: seq<string>, i: nat)
    requires forall k :: k in order ==> k in t
    requires i < |order|
    ensures && LengthSum(t, order[..i]) + |t[order[i]]| <= |Concat(t, order)|
            && Concat(t, order)[LengthSum(t, order[..i])..LengthSum(t, order[..i]) + |t[order[i]]|] == t[order[i]]
  {
    ConcatSplit(t, order, i);
    ConcatLength(t, order[..i]);
    var before, here, after := Concat(t, order[..i]), t[order[i]], Concat(t, order[i + 1..]);
    assert order[i..][0] == order[i] && order[i..][1..] == order[i + 1..];
    assert Concat(t, order[i..]) == here + after;
    var all := Concat(t, order);
    assert all == before + here + after;
    assert |before| == LengthSum(t, order[..i]);
    assert all[|before|..|before| + |here|] == here;
  }

  lemma {:induction false} ConcatLength(t: Table, order: seq<string>)
    requires forall k :: k in order ==> k in t
    ensures |Concat(t, order)| == LengthSum(t, order)
    decreases |order|
  {
    if |order| > 0 {
      ConcatLength(t, order[1..]);
    }
  }

  /** The concatenation over `order` is the one over its first `i` keys followed by the one over the rest. */
  lemma {:induction false} ConcatSplit(t: Table, order: seq<string>, i: nat)
    requires forall k :: k in order ==> k in t
    requires i <= |order|
    ensures Concat(t, order) == Concat(t, order[..i]) + Concat(t, order[i..])
    decreases i
  {
    if i == 0 {
      assert order[..0] == [] && order[0..] == order;
    } else {
      ConcatSplit(t, order[1..], i - 1);
      assert order[..i][0] == order[0] && order[..i][1..] == order[1..][..i - 1];
      assert order[1..][i - 1..] == order[i..];
    }
  }

  /** After a successful AddRoute, GetRoute on the route's method and path ends with the route. */
  lemma AddThenGet(t: Table, r: Route)
    requires AddRoute(t, Some(r)).err.None?
    ensures var got := GetRoute(AddRoute(t, Some(r)).table, r.httpMethod, r.path);
            got.Some? && got.value == ListAt(t, KeyOf(r)) + [r]
  {
  }

  /** After a successful AddRoute, GetAllRoutes lists one more entry, and the new route among them. */
  lemma AddGrowsAll(t: Table, r: Route, order: seq<string>, order': seq<string>)
    requires Enumerates(order, t.Keys)
    requires AddRoute(t, Some(r)).err.None?
    requires Enumerates(order', AddRoute(t, Some(r)).table.Keys)
    ensures |GetAllRoutes(AddRoute(t, Some(r)).table, order')| == |GetAllRoutes(t, order)| + 1
    ensures r in GetAllRoutes(AddRoute(t, Some(r)).table, order')
  {
    var t' := AddRoute(t, Some(r)).table;
    var key := KeyOf(r);
    LengthSumTotal(t, order);
    LengthSumTotal(t', order');
    SumOfUpdate(t, key, ListAt(t, key) + [r]);
    assert r in t'[key];
  }

  lemma ConcatCoversKeys(t: Table, order: seq<string>)
    requires Enumerates(order, t.Keys)
    ensures forall r :: r in Concat(t, order) <==> exists k :: k in t && r in t[k]
  {
    forall r | r in Concat(t, order) ensures exists k :: k in t && r in t[k] {
      var i :| 0 <= i < |order| && r in t[order[i]];
      assert order[i] in t;
    }
    forall r | (exists k :: k in t && r in t[k]) ensures r in Concat(t, order) {
      var k :| k in t && r in t[k];
      var i :| 0 <= i < |order| && order[i] == k;
    }
  }

  /** The enabled entries of `rs`, in order. */
  function EnabledOf(rs: seq<Route>): (en: seq<Route>)
    ensures forall r :: r in en <==> r in rs && r.enabled
  {
    if |rs| == 0 then []
    else
      var rest := EnabledOf(rs[1..]);
      assert forall i :: 0 < i < |rs| ==> rs[i] == rs[1..][i - 1];
      if rs[0].enabled then [rs[0]] + rest else rest
  }

  /**
    EnabledOf is an order-preserving filter: it distributes over concatenation, so the
    enabled entries keep the relative order they have in the key's list.
   */
  lemma {:induction false} EnabledOfAppend(a: seq<Route>, b: seq<Route>)
    ensures EnabledOf(a + b) == EnabledOf(a) + EnabledOf(b)
    decreases |a|
  {
    if |a| == 0 {
      assert a + b == b;
    } else {
      var rest := EnabledOf(a[1..] + b);
      EnabledOfAppend(a[1..], b);
      assert (a + b)[0] == a[0] && (a + b)[1..] == a[1..] + b;
      assert EnabledOf(a + b) == (if a[0].enabled then [a[0]] else []) + rest;
      assert EnabledOf(a) == (if a[0].enabled then [a[0]] else []) + EnabledOf(a[1..]);
    }
  }

  /** A single entry is kept iff it is enabled. */
  lemma EnabledOfSingle(r: Route)
    ensures EnabledOf([r]) == if r.enabled then [r] else []
  {
    assert [r][1..] == [];
  }

  function Weights(rs: seq<Route>): (ws: seq<int>)
    ensures |ws| == |rs|
    ensures forall i :: 0 <= i < |rs| ==> ws[i] == rs[i].weight
  {
    seq(|rs|, i requires 0 <= i < |rs| => rs[i].weight)
  }

  /** `selectRoute` on a list of entries, with `draw` standing for the `rand.Intn` result. */
  function SelectRoute(rs: seq<Route>, draw: int): (r: Route)
    requires RouteSelection.ValidDraw(Weights(rs), draw)
    ensures r in rs
    ensures r == rs[RouteSelection.SelectIndex(Weights(rs), draw)]
  {
    rs[RouteSelection.SelectIndex(Weights(rs), draw)]
  }

  /** The draw is one the source's `rand.Intn` could return for this request's enabled entries. */
  predicate DrawFor(t: Table, httpMethod: string, path: string, draw: int)
  {
    var en := EnabledOf(ListAt(t, Key(httpMethod, path)));
    |en| > 0 ==> RouteSelection.ValidDraw(Weights(en), draw)
  }

  /**
    MatchRoute: no match when the key is absent or holds no enabled entry; otherwise
    a weighted choice among the enabled entries, which is always an enabled entry of
    that key.
   */
  function MatchRoute(t: Table, httpMethod: string, path: string, draw: int): (m: Option<Route>)
    requires DrawFor(t, httpMethod, path, draw)
    ensures m.None? <==> Key(httpMethod, path) !in t || forall r :: r in t[Key(httpMethod, path)] ==> !r.enabled
    ensures m.Some? ==> m.value in t[Key(httpMethod, path)] && m.value.enabled
    ensures m.Some? ==>
              && Key(httpMethod, path) in t && |EnabledOf(t[Key(httpMethod, path)])| > 0
              && m.value == SelectRoute(EnabledOf(t[Key(httpMethod, path)]), draw)
  {
    match GetRoute(t, httpMethod, path)
    case None => None
    case Some(rs) =>
      var en := EnabledOf(rs);
      if |en| == 0 then None
      else Some(SelectRoute(en, draw))
  }

  /** No key maps to an empty list (RemoveRoute deletes emptied keys, AddRoute only appends). */
  predicate NonEmptyLists(t: Table)
  {
    forall k :: k in t ==> |t[k]| > 0
  }

  predicate UniqueIds(rs: seq<Route>)
  {
    forall i, j :: 0 <= i < j < |rs| ==> rs[i].id != rs[j].id
  }

  /** The invariant the table operations keep: valid entries filed under their own key, IDs unique per key. */
  predicate WellFormed(t: Table)
  {
    && NonEmptyLists(t)
    && (forall k :: k in t ==> UniqueIds(t[k]))
    && (forall k, r :: k in t && r in t[k] ==> KeyOf(r) == k && Validate(Some(r)).None?)
  }

  /** The test route `initDefaultRoutes` installs. */
  const DefaultRoute := Route("test-echo", "/api/v1/echo", "GET", "test", "http://localhost:8080", 100, map[], true)

  /** NewRouter: an empty table into which `initDefaultRoutes` adds the test route. */
  function NewRouter(): (t: Table)
    ensures WellFormed(t)
    ensures t.Keys == {"GET-/api/v1/echo"}
    ensures t["GET-/api/v1/echo"] == [DefaultRoute]
  {
    var t := AddRoute(map[], Some(DefaultRoute)).table;
    assert KeyOf(DefaultRoute) == "GET-/api/v1/echo";
    assert t.Keys == {"GET-/api/v1/echo"};
    t
  }

  lemma {:induction false} WithoutKeepsUnique(rs: seq<Route>, id: string)
    requires UniqueIds(rs)
    ensures UniqueIds(Without(rs, id))
  {
    if |rs| > 0 {
      UniqueTail(rs);
      WithoutKeepsUnique(rs[1..], id);
      if rs[0].id != id {
        var rest := Without(rs[1..], id);
        forall r | r in rest ensures r.id != rs[0].id {
          var m :| 0 <= m < |rs[1..]| && rs[1..][m] == r;
          assert rs[m + 1] == r;
        }
        ConsKeepsUnique(rs[0], rest);
      }
    }
  }

  lemma UniqueTail(rs: seq<Route>)
    requires UniqueIds(rs) && |rs| > 0
    ensures UniqueIds(rs[1..])
  {
    forall i, j | 0 <= i < j < |rs[1..]| ensures rs[1..][i].id != rs[1..][j].id {
      assert rs[1..][i] == rs[i + 1] && rs[1..][j] == rs[j + 1];
    }
  }

  lemma ConsKeepsUnique(r: Route, rest: seq<Route>)
    requires UniqueIds(rest) && forall x :: x in rest ==> x.id != r.id
    ensures UniqueIds([r] + rest)
  {
    var kept := [r] + rest;
    forall i, j | 0 <= i < j < |kept| ensures kept[i].id != kept[j].id {
      assert kept[j] == rest[j - 1];
      if i > 0 {
        assert kept[i] == rest[i - 1];
      }
    }
  }

  lemma AppendKeepsUnique(rs: seq<Route>, r: Route)
    requires UniqueIds(rs) && !HasId(rs, r.id)
    ensures UniqueIds(rs + [r])
  {
    var xs := rs + [r];
    forall i, j | 0 <= i < j < |xs| ensures xs[i].id != xs[j].id {
      if j == |rs| {
        assert xs[i] == rs[i];
      } else {
        assert xs[i] == rs[i] && xs[j] == rs[j];
      }
    }
  }

  /** AddRoute keeps the table well formed. */
  lemma AddPreservesWellFormed(t: Table, route: Option<Route>)
    requires WellFormed(t)
    ensures WellFormed(AddRoute(t, route).table)
  {
    var o := AddRoute(t, route);
    if o.err.None? {
      var r := route.value;
      AppendKeepsUnique(ListAt(t, KeyOf(r)), r);
      forall k, x | k in o.table && x in o.table[k] ensures KeyOf(x) == k && Validate(Some(x)).None? {
        if k == KeyOf(r) && x !in ListAt(t, k) {
          assert x == r;
        }
      }
    }
  }

  /** RemoveRoute keeps the table well formed. */
  lemma RemovePreservesWellFormed(t: Table, id: string, order: seq<string>)
    requires WellFormed(t)
    requires Enumerates(order, t.Keys)
    ensures WellFormed(RemoveRoute(t, id, order).table)
  {
    var o := RemoveRoute(t, id, order);
    if o.err.None? {
      RemovedAtWellFormed(t, o.table, id, order[FirstKeyWith(t, order, id)]);
    }
  }

  lemma RemovedAtWellFormed(t: Table, t': Table, id: string, fk: string)
    requires WellFormed(t)
    requires RemovedAt(t, t', id, fk) && UnchangedExcept(t, t', fk)
    ensures WellFormed(t')
  {
    WithoutKeepsUnique(t[fk], id);
    forall k, x | k in t' && x in t'[k] ensures KeyOf(x) == k && Validate(Some(x)).None? {
      assert x in t[k];
    }
  }

  /** UpdateRoute keeps the table well formed. */
  lemma UpdatePreservesWellFormed(t: Table, route: Option<Route>, order: seq<string>)
    requires WellFormed(t)
    requires Enumerates(order, t.Keys)
    ensures WellFormed(UpdateRoute(t, route, order).table)
  {
    if route.Some? {
      RemovePreservesWellFormed(t, route.value.id, order);
      AddPreservesWellFormed(RemoveRoute(t, route.value.id, order).table, route);
    }
  }

  /**
    Adding a route whose ID is used nowhere in the table and then removing that ID
    gives back the original table, whatever the iteration order.
   */
  lemma AddRemoveRoundTrip(t: Table, r: Route, order: seq<string>)
    requires NonEmptyLists(t)
    requires Validate(Some(r)).None?
    requires forall k :: k in t ==> !HasId(t[k], r.id)
    requires Enumerates(order, AddRoute(t, Some(r)).table.Keys)
    ensures AddRoute(t, Some(r)).err.None?
    ensures RemoveRoute(AddRoute(t, Some(r)).table, r.id, order) == Outcome(t, None)
  {
    var key := KeyOf(r);
    var t1 := AddRoute(t, Some(r)).table;
    assert t1[key][|t1[key]| - 1] == r;
    assert HasId(t1[key], r.id);
    assert NonEmptyLists(t1);
    var o := RemoveRoute(t1, r.id, order);
    var fk := order[FirstKeyWith(t1, order, r.id)];
    assert fk == key;
    WithoutNoId(ListAt(t, key), r.id);
    WithoutAppend(ListAt(t, key), r);
    UndoAppend(t, t1, o.table, r);
  }

  /** Removing the appended route's ID from its key, and nothing else, restores the table. */
  lemma UndoAppend(t: Table, t1: Table, t2: Table, r: Route)
    requires NonEmptyLists(t)
    requires t1 == t[KeyOf(r) := ListAt(t, KeyOf(r)) + [r]]
    requires Without(t1[KeyOf(r)], r.id) == ListAt(t, KeyOf(r))
    requires RemovedAt(t1, t2, r.id, KeyOf(r)) && UnchangedExcept(t1, t2, KeyOf(r))
    ensures t2 == t
  {
    assert t2.Keys == t.Keys;
  }

  lemma WithoutAppend(rs: seq<Route>, r: Route)
    requires Without(rs, r.id) == rs
    ensures Without(rs + [r], r.id) == rs
  {
    WithoutSplit(rs, [r], r.id);
  }

  lemma {:induction false} WithoutSplit(xs: seq<Route>, ys: seq<Route>, id: string)
    ensures Without(xs + ys, id) == Without(xs, id) + Without(ys, id)
  {
    if |xs| > 0 {
      assert (xs + ys)[1..] == xs[1..] + ys;
      WithoutSplit(xs[1..], ys, id);
    } else {
      assert xs + ys == ys;
    }
  }

  /** A key holding a single enabled entry of positive weight always matches that entry. */
  lemma SingleEntryMatches(t: Table, httpMethod: string, path: string, r: Route, draw: int)
    requires Key(httpMethod, path) in t && t[Key(httpMethod, path)] == [r]
    requires r.enabled && 0 <= draw < r.weight
    ensures DrawFor(t, httpMethod, path, draw)
    ensures MatchRoute(t, httpMethod, path, draw) == Some(r)
  {
    assert [r][1..] == [];
    assert EnabledOf([r]) == [r];
    assert Weights([r]) == [r.weight];
    assert RouteSelection.Total([r.weight]) == r.weight by {
      assert [r.weight][..0] == [];
    }
  }

  /** The freshly built router sends GET /api/v1/echo to the test route. */
  lemma DefaultRouteMatches(draw: int)
    requires 0 <= draw < 100
    ensures DrawFor(NewRouter(), "GET", "/api/v1/echo", draw)
    ensures MatchRoute(NewRouter(), "GET", "/api/v1/echo", draw) == Some(DefaultRoute)
  {
    assert Key("GET", "/api/v1/echo") == "GET-/api/v1/echo";
    SingleEntryMatches(NewRouter(), "GET", "/api/v1/echo", DefaultRoute, draw);
  }
}
