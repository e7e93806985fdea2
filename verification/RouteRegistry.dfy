/** The route registry: batches that are registered whole or not at all, and the snapshot that servers read. */
module RouteRegistry {
  import opened Collections
  import opened Routing
  import opened RouteSelection
  import RL = RateLimit

  predicate SameEndpoint(a: Route, b: Route) {
    a.verb == b.verb && a.pattern == b.pattern
  }

  /** No two routes share a name, and no two share a method and pattern. */
  ghost predicate Unique(routes: seq<Route>) {
    forall i, j | 0 <= i < j < |routes| :: routes[i].name != routes[j].name && !SameEndpoint(routes[i], routes[j])
  }

  predicate Named(routes: seq<Route>, name: string) {
    exists i | 0 <= i < |routes| :: routes[i].name == name
  }

  /** What keeps a route out: its name is taken and may not be replaced, or another route has its endpoint. */
  predicate Refuses(existing: Route, r: Route, replace: bool) {
    if existing.name == r.name then !replace else SameEndpoint(existing, r)
  }

  predicate Clashes(routes: seq<Route>, r: Route, replace: bool) {
    exists i | 0 <= i < |routes| :: Refuses(routes[i], r, replace)
  }

  /** In words of the fields: a route is kept out by one of its name that it may not replace, or by one of another name
      with its method and its pattern. */
  lemma ClashesIff(routes: seq<Route>, r: Route, replace: bool)
    ensures Clashes(routes, r, replace) <==>
      exists i | 0 <= i < |routes| ::
        || (routes[i].name == r.name && !replace)
        || (routes[i].name != r.name && routes[i].verb == r.verb && routes[i].pattern == r.pattern)
  {
    assert forall i | 0 <= i < |routes| :: Refuses(routes[i], r, replace) <==>
      || (routes[i].name == r.name && !replace)
      || (routes[i].name != r.name && routes[i].verb == r.verb && routes[i].pattern == r.pattern);
  }

  /** A replaced route keeps its place, since the place decides which of several matches wins. */
  function Put(routes: seq<Route>, r: Route): seq<Route> {
    if Named(routes, r.name) then seq(|routes|, i requires 0 <= i < |routes| => if routes[i].name == r.name then r else routes[i])
    else routes + [r]
  }

  function AddBatch(routes: seq<Route>, batch: seq<Route>, replace: bool): Option<seq<Route>>
    decreases |batch|
  {
    if batch == [] then Some(routes)
    else if Clashes(routes, batch[0], replace) then None
    else AddBatch(Put(routes, batch[0]), batch[1..], replace)
  }

  /** Erases the first route of that name. */
  function Drop(routes: seq<Route>, name: string): seq<Route> {
    if routes == [] then [] else if routes[0].name == name then routes[1..] else [routes[0]] + Drop(routes[1..], name)
  }

  function ClearBatch(t: RL.Table, batch: seq<Route>): RL.Table
    decreases |batch|
  {
    if batch == [] then t else ClearBatch(RL.ClearRoute(t, batch[0].name), batch[1..])
  }

  // ---------------------------------------------------------------- batches

  lemma PutUniqueIff(routes: seq<Route>, r: Route)
    requires Unique(routes)
    ensures Unique(Put(routes, r)) <==> !Clashes(routes, r, true)
    ensures !Clashes(routes, r, false) <==> !Named(routes, r.name) && !Clashes(routes, r, true)
  {
    var after := Put(routes, r);
    if Clashes(routes, r, true) {
      var i :| 0 <= i < |routes| && Refuses(routes[i], r, true);
      var j := if Named(routes, r.name) then NamedAt(routes, r.name) else |routes|;
      assert after[i] == routes[i] && after[j] == r;
    }
  }

  ghost function NamedAt(routes: seq<Route>, name: string): (i: int)
    requires Named(routes, name)
    ensures 0 <= i < |routes| && routes[i].name == name
  {
    var i :| 0 <= i < |routes| && routes[i].name == name;
    i
  }

  function PutAll(routes: seq<Route>, batch: seq<Route>): seq<Route>
    decreases |batch|
  {
    if batch == [] then routes else PutAll(Put(routes, batch[0]), batch[1..])
  }

  lemma {:induction false} AddBatchKeepsUnique(routes: seq<Route>, batch: seq<Route>, replace: bool)
    requires Unique(routes) && AddBatch(routes, batch, replace).Some?
    ensures Unique(AddBatch(routes, batch, replace).value) && AddBatch(routes, batch, replace).value == PutAll(routes, batch)
    decreases |batch|
  {
    if batch != [] {
      PutUniqueIff(routes, batch[0]);
      AddBatchKeepsUnique(Put(routes, batch[0]), batch[1..], replace);
    }
  }

  /** CREATE OR REPLACE of a batch succeeds exactly when no prefix of it would leave duplicates behind. */
  lemma {:induction false} ReplaceSucceedsIff(routes: seq<Route>, batch: seq<Route>)
    requires Unique(routes)
    ensures AddBatch(routes, batch, true).Some? <==> forall k | 0 <= k <= |batch| :: Unique(PutAll(routes, batch[..k]))
    decreases |batch|
  {
    if batch != [] {
      PutUniqueIff(routes, batch[0]);
      var next := Put(routes, batch[0]);
      forall k | 0 < k <= |batch| ensures PutAll(routes, batch[..k]) == PutAll(next, batch[1..][..k - 1]) {
        assert batch[..k][1..] == batch[1..][..k - 1];
      }
      assert PutAll(routes, batch[..1]) == next by { assert batch[..1][1..] == []; }
      assert PutAll(routes, batch[..0]) == routes;
      if Unique(next) {
        ReplaceSucceedsIff(next, batch[1..]);
        if forall k | 0 <= k <= |batch| :: Unique(PutAll(routes, batch[..k])) {
          forall k | 0 <= k <= |batch[1..]| ensures Unique(PutAll(next, batch[1..][..k])) {
            assert PutAll(next, batch[1..][..k]) == PutAll(routes, batch[..k + 1]);
          }
        }
      }
    }
  }

  lemma UniqueAppend(routes: seq<Route>, r: Route, rest: seq<Route>)
    requires Unique(routes + ([r] + rest))
    ensures Unique(routes + [r]) && !Named(routes, r.name)
  {
    var all := routes + ([r] + rest);
    assert forall i | 0 <= i < |routes| :: all[i] == routes[i];
    assert forall i | 0 <= i <= |routes| :: all[i] == (routes + [r])[i];
    assert all[|routes|] == r;
  }

  /** Plain CREATE of a batch succeeds exactly when the names and endpoints are all new and all different, and then
      the batch is appended as it is. */
  lemma {:induction false} CreateSucceedsIff(routes: seq<Route>, batch: seq<Route>)
    requires Unique(routes)
    ensures AddBatch(routes, batch, false) == if Unique(routes + batch) then Some(routes + batch) else None
    decreases |batch|
  {
    if batch == [] {
      assert routes + batch == routes;
    } else {
      var r, rest := batch[0], batch[1..];
      assert batch == [r] + rest;
      assert routes + batch == (routes + [r]) + rest;
      PutUniqueIff(routes, r);
      if Unique(routes + batch) { UniqueAppend(routes, r, rest); }
      if !Clashes(routes, r, false) { CreateSucceedsIff(routes + [r], rest); }
    }
  }

  /** The route found under a name. */
  function Lookup(routes: seq<Route>, name: string): Option<Route> {
    if routes == [] then None
    else if routes[|routes| - 1].name == name then Some(routes[|routes| - 1])
    else Lookup(routes[..|routes| - 1], name)
  }

  lemma {:induction false} LookupIs(routes: seq<Route>, name: string)
    ensures Lookup(routes, name).None? <==> !Named(routes, name)
    ensures Lookup(routes, name).Some? ==> exists i | 0 <= i < |routes| :: routes[i].name == name && Lookup(routes, name) == Some(routes[i])
  {
    if routes != [] && routes[|routes| - 1].name != name {
      LookupIs(routes[..|routes| - 1], name);
      assert forall i | 0 <= i < |routes| - 1 :: routes[..|routes| - 1][i] == routes[i];
    }
  }

  lemma LookupPut(routes: seq<Route>, r: Route, name: string)
    requires Unique(routes)
    ensures Lookup(Put(routes, r), name) == if name == r.name then Some(r) else Lookup(routes, name)
  {
    var after := Put(routes, r);
    if !Named(routes, r.name) {
      assert after[..|routes|] == routes;
    } else {
      LookupIs(after, name);
      LookupIs(routes, name);
      var j := NamedAt(routes, r.name);
      assert after[j] == r;
      assert forall i | 0 <= i < |routes| :: after[i].name == routes[i].name;
    }
  }

  /** After a batch each name has the last definition the batch gives it, or else the one it had. */
  lemma {:induction false} BatchIsLastWins(routes: seq<Route>, batch: seq<Route>, replace: bool, name: string)
    requires Unique(routes) && AddBatch(routes, batch, replace).Some?
    ensures Lookup(AddBatch(routes, batch, replace).value, name)
      == if Named(batch, name) then Lookup(batch, name) else Lookup(routes, name)
    decreases |batch|
  {
    if batch != [] {
      var next := Put(routes, batch[0]);
      PutUniqueIff(routes, batch[0]);
      LookupPut(routes, batch[0], name);
      BatchIsLastWins(next, batch[1..], replace, name);
      LookupCons(batch, name);
    }
  }

  lemma {:induction false} LookupCons(batch: seq<Route>, name: string)
    requires batch != []
    ensures Named(batch, name) <==> batch[0].name == name || Named(batch[1..], name)
    ensures Lookup(batch, name) ==
      if Named(batch[1..], name) then Lookup(batch[1..], name)
      else if batch[0].name == name then Some(batch[0]) else None
  {
    LookupIs(batch, name);
    LookupIs(batch[1..], name);
    assert forall i | 0 < i < |batch| :: batch[i] == batch[1..][i - 1];
    if |batch| > 1 && batch[|batch| - 1].name != name {
      var front := batch[..|batch| - 1];
      assert front[1..] == batch[1..][..|batch| - 2];
      LookupCons(front, name);
      LookupIs(front[1..], name);
    }
  }

  /** A batch moves nothing: what was registered stays at its place under its name, and what is new comes behind. */
  lemma {:induction false} BatchKeepsPlaces(routes: seq<Route>, batch: seq<Route>, replace: bool)
    requires AddBatch(routes, batch, replace).Some?
    ensures var after := AddBatch(routes, batch, replace).value;
      && |routes| <= |after|
      && (forall i | 0 <= i < |routes| :: after[i].name == routes[i].name)
      && (forall i | 0 <= i < |routes| && !Named(batch, routes[i].name) :: after[i] == routes[i])
    decreases |batch|
  {
    if batch != [] {
      var next := Put(routes, batch[0]);
      BatchKeepsPlaces(next, batch[1..], replace);
      forall i | 0 <= i < |routes| && !Named(batch, routes[i].name) ensures !Named(batch[1..], routes[i].name) && next[i] == routes[i] {
        assert forall j | 0 < j < |batch| :: batch[j] == batch[1..][j - 1];
        assert batch[0].name != routes[i].name;
      }
    }
  }

  lemma UniqueTail(routes: seq<Route>)
    requires routes != [] && Unique(routes)
    ensures Unique(routes[1..])
    ensures forall r | r in routes[1..] :: r.name != routes[0].name && !SameEndpoint(routes[0], r)
  {
    var rest := routes[1..];
    assert forall i | 0 <= i < |rest| :: rest[i] == routes[i + 1];
  }

  lemma {:induction false} DropMembers(routes: seq<Route>, name: string)
    requires Unique(routes)
    ensures forall r :: r in Drop(routes, name) <==> r in routes && r.name != name
  {
    if routes != [] {
      UniqueTail(routes);
      HeadTail(routes);
      if routes[0].name != name { DropMembers(routes[1..], name); }
    }
  }

  lemma UniqueCons(r: Route, rest: seq<Route>)
    requires Unique(rest) && forall o | o in rest :: r.name != o.name && !SameEndpoint(r, o)
    ensures Unique([r] + rest)
  {
    var all := [r] + rest;
    assert forall i | 0 < i < |all| :: all[i] == rest[i - 1];
    assert forall i | 0 <= i < |rest| :: rest[i] in rest;
  }

  lemma {:induction false} DropKeepsUnique(routes: seq<Route>, name: string)
    requires Unique(routes)
    ensures Unique(Drop(routes, name)) && !Named(Drop(routes, name), name)
    ensures forall r :: r in Drop(routes, name) <==> r in routes && r.name != name
  {
    DropMembers(routes, name);
    if routes != [] {
      UniqueTail(routes);
      if routes[0].name != name {
        DropKeepsUnique(routes[1..], name);
        UniqueCons(routes[0], Drop(routes[1..], name));
      }
    }
    var d := Drop(routes, name);
    assert forall i | 0 <= i < |d| :: d[i] in d;
  }

  /** Once registered anew or dropped, a route inherits no spent window; other routes keep theirs. */
  lemma {:induction false} BatchForgetsWindows(t: RL.Table, batch: seq<Route>, route: string, client: string)
    ensures RL.BucketKey(route, client) in ClearBatch(t, batch) <==> RL.BucketKey(route, client) in t && !Named(batch, route)
    ensures RL.BucketKey(route, client) in ClearBatch(t, batch) ==>
      ClearBatch(t, batch)[RL.BucketKey(route, client)] == t[RL.BucketKey(route, client)]
    decreases |batch|
  {
    if batch != [] {
      RL.ClearRemovesExactlyTheRoute(t, batch[0].name, route, client);
      BatchForgetsWindows(RL.ClearRoute(t, batch[0].name), batch[1..], route, client);
      LookupCons(batch, route);
    }
  }

  // ---------------------------------------------------------------- runs

  datatype State = State(routes: seq<Route>, live: Option<seq<Route>>, limits: RL.Table)

  datatype Ddl =
    | CreateRoutes(batch: seq<Route>, replace: bool)
    | DropRoute(name: string)
    | LiveRoutes
    | Request(route: string, client: string, limit: int, perSec: int, now: int)

  datatype Reply = Done | Refused

  function Apply(s: State, d: Ddl): (State, Reply) {
    match d
    case CreateRoutes(batch, replace) =>
      (match AddBatch(s.routes, batch, replace)
       case Some(after) => (State(after, Some(after), ClearBatch(s.limits, batch)), Done)
       case None => (s, Refused))
    case DropRoute(name) =>
      if Named(s.routes, name) then
        var after := Drop(s.routes, name);
        (State(after, Some(after), RL.ClearRoute(s.limits, name)), Done)
      else (s, Refused)
    case LiveRoutes => (s.(live := Some(if s.live.Some? then s.live.value else s.routes)), Done)
    case Request(route, client, limit, perSec, now) =>
      (s.(limits := RL.Allow(s.limits, RL.BucketKey(route, client), limit, perSec, now).0), Done)
  }

  /** Servers see the registry as it is. */
  ghost predicate Consistent(s: State) {
    Unique(s.routes) && (s.live.Some? ==> s.live.value == s.routes)
  }

  lemma ApplyKeepsConsistent(s: State, d: Ddl)
    requires Consistent(s)
    ensures Consistent(Apply(s, d).0)
    ensures Apply(s, d).1.Refused? ==> Apply(s, d).0 == s
    ensures d.LiveRoutes? ==> Apply(s, d).0.live == Some(s.routes)
  {
    match d
    case CreateRoutes(batch, replace) =>
      if AddBatch(s.routes, batch, replace).Some? { AddBatchKeepsUnique(s.routes, batch, replace); }
    case DropRoute(name) => DropKeepsUnique(s.routes, name);
    case LiveRoutes =>
    case Request(_, _, _, _, _) =>
  }

  function RunAll(s: State, ddl: seq<Ddl>): State {
    if ddl == [] then s else Apply(RunAll(s, ddl[..|ddl| - 1]), ddl[|ddl| - 1]).0
  }

  /** After any sequence of statements from an empty registry, names and endpoints are unique and the published
      snapshot is the registry. */
  lemma {:induction false} RegistryStaysUnique(ddl: seq<Ddl>)
    ensures Consistent(RunAll(State([], None, map[]), ddl))
  {
    if ddl != [] {
      RegistryStaysUnique(ddl[..|ddl| - 1]);
      ApplyKeepsConsistent(RunAll(State([], None, map[]), ddl[..|ddl| - 1]), ddl[|ddl| - 1]);
    }
  }

  // ---------------------------------------------------------------- the registry itself

  class Registry {
    var routes: seq<Route>
    var live: Option<seq<Route>>
    const limiter: RL.RateLimiter

    ghost function Contents(): State
      reads this, limiter
    {
      State(routes, live, limiter.entries)
    }

    constructor ()
      ensures Contents() == State([], None, map[]) && Consistent(Contents()) && fresh(limiter)
    {
      routes, live := [], None;
      limiter := new RL.RateLimiter();
    }

    method PublishRoutes()
      modifies this`live
      ensures live == Some(routes)
    {
      live := Some(routes);
    }

    /** Looks through the proposal for the route to replace; `ok` is false where the source throws. */
    method FindExisting(proposed: seq<Route>, route: Route, replace: bool) returns (ok: bool, existing: Option<nat>)
      ensures ok <==> !Clashes(proposed, route, replace)
      ensures ok ==> (existing.Some? <==> Named(proposed, route.name))
      ensures ok && existing.Some? ==> existing.value < |proposed| && proposed[existing.value].name == route.name
    {
      existing := None;
      for i := 0 to |proposed|
        invariant forall j | 0 <= j < i :: !Refuses(proposed[j], route, replace)
        invariant existing.None? ==> forall j | 0 <= j < i :: proposed[j].name != route.name
        invariant existing.Some? ==> existing.value < i && proposed[existing.value].name == route.name
      {
        if proposed[i].name == route.name {
          existing := Some(i);
          if !replace { return false, None; }
        } else if SameEndpoint(proposed[i], route) {
          return false, None;
        }
      }
      ok := true;
    }

    method AddRoutes(batch: seq<Route>, replace: bool) returns (reply: Reply)
      requires Consistent(Contents())
      modifies this, limiter
      ensures (Contents(), reply) == Apply(old(Contents()), CreateRoutes(batch, replace))
      ensures Consistent(Contents())
    {
      var proposed := routes;
      assert batch[0..] == batch;
      for i := 0 to |batch|
        invariant Unique(proposed)
        invariant AddBatch(routes, batch, replace) == AddBatch(proposed, batch[i..], replace)
        invariant Contents() == old(Contents())
      {
        assert batch[i..][0] == batch[i] && batch[i..][1..] == batch[i + 1..];
        PutUniqueIff(proposed, batch[i]);
        var ok, existing := FindExisting(proposed, batch[i], replace);
        if !ok { return Refused; }
        ghost var before := proposed;
        if existing.None? {
          proposed := proposed + [batch[i]];
        } else {
          proposed := proposed[existing.value := batch[i]];
        }
        assert proposed == Put(before, batch[i]);
      }
      assert batch[|batch|..] == [];
      routes := proposed;
      PublishRoutes();
      ClearLimits(batch);
      reply := Done;
    }

    method ClearLimits(batch: seq<Route>)
      modifies limiter
      ensures limiter.entries == ClearBatch(old(limiter.entries), batch)
    {
      assert batch[0..] == batch;
      for i := 0 to |batch|
        invariant ClearBatch(old(limiter.entries), batch) == ClearBatch(limiter.entries, batch[i..])
      {
        assert batch[i..][0] == batch[i] && batch[i..][1..] == batch[i + 1..];
        limiter.ClearRouteRateLimit(batch[i].name);
      }
    }

    method DropRoute(name: string) returns (found: bool)
      requires Consistent(Contents())
      modifies this, limiter
      ensures found <==> Named(old(routes), name)
      ensures Contents() == Apply(old(Contents()), Ddl.DropRoute(name)).0
      ensures Consistent(Contents())
    {
      ApplyKeepsConsistent(Contents(), Ddl.DropRoute(name));
      for i := 0 to |routes|
        invariant Contents() == old(Contents())
        invariant forall j | 0 <= j < i :: routes[j].name != name
      {
        if routes[i].name == name {
          DropAt(routes, i, name);
          routes := routes[..i] + routes[i + 1..];
          PublishRoutes();
          limiter.ClearRouteRateLimit(name);
          return true;
        }
      }
      return false;
    }

    /** What a server reads: the whole registry, as one value that later statements do not touch. */
    method LiveRoutes() returns (snapshot: seq<Route>)
      requires Consistent(Contents())
      modifies this`live
      ensures snapshot == routes && Contents() == Apply(old(Contents()), Ddl.LiveRoutes).0 && Consistent(Contents())
    {
      if live.None? { PublishRoutes(); }
      snapshot := live.value;
    }
  }

  lemma {:induction false} DropAt(routes: seq<Route>, i: nat, name: string)
    requires i < |routes| && routes[i].name == name && (forall j | 0 <= j < i :: routes[j].name != name)
    ensures Drop(routes, name) == routes[..i] + routes[i + 1..]
  {
    if i > 0 {
      assert routes[1..][i - 1] == routes[i];
      DropAt(routes[1..], i - 1, name);
      assert routes[1..][i..] == routes[i + 1..];
    }
  }
}
