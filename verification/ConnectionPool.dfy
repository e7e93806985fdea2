/** The pool of idle outbound connections, one pair of free lists per host. */
module ConnectionPool {
  import opened Collections

  const MaxIdlePerHost: nat := 64
  const MaxIdleTotal: nat := 256
  const MaxHosts: nat := 256

  /** Five minutes, in nanoseconds. */
  const IdleTtl: int := 300_000_000_000

  datatype Kind = Plain | Util

  /** A connection: the number it was dialed as, and the host and protocol it was dialed for. */
  datatype Client = Client(id: nat, key: string, kind: Kind)

  datatype Host = Host(plain: seq<Client>, util: seq<Client>, dialed: nat, reused: nat, lastUsed: int)

  type Hosts = map<string, Host>

  function List(h: Host, kind: Kind): seq<Client> {
    if kind.Plain? then h.plain else h.util
  }

  function WithList(h: Host, kind: Kind, list: seq<Client>): Host {
    if kind.Plain? then h.(plain := list) else h.(util := list)
  }

  // ---------------------------------------------------------------- the operations

  function Unexpired(hosts: Hosts, now: int): Hosts {
    map k | k in hosts && now - hosts[k].lastUsed <= IdleTtl :: hosts[k]
  }

  predicate Full(hosts: Hosts, key: string) {
    key !in hosts && |hosts| >= MaxHosts
  }

  predicate LeastRecentlyUsed(hosts: Hosts, k: string) {
    k in hosts && forall other | other in hosts :: hosts[k].lastUsed <= hosts[other].lastUsed
  }

  /** A table with room for the key: a full one gives up `victim`. */
  function WithRoom(hosts: Hosts, key: string, victim: string): Hosts {
    if Full(hosts, key) then hosts - {victim} else hosts
  }

  function Touched(hosts: Hosts, key: string, now: int): Hosts {
    hosts[key := (if key in hosts then hosts[key] else Host([], [], 0, 0, now)).(lastUsed := now)]
  }

  function Prepared(hosts: Hosts, key: string, now: int, victim: string): (r: Hosts)
    ensures key in r
  {
    Touched(WithRoom(Unexpired(hosts, now), key, victim), key, now)
  }

  predicate FairVictim(hosts: Hosts, key: string, now: int, victim: string) {
    Full(Unexpired(hosts, now), key) ==> LeastRecentlyUsed(Unexpired(hosts, now), victim)
  }

  /** Takes the client that was returned last, if there is one. */
  function Take(hosts: Hosts, key: string, kind: Kind): (Hosts, Option<Client>)
    requires key in hosts
  {
    var h := hosts[key];
    var list := List(h, kind);
    if list == [] then (hosts[key := h.(dialed := h.dialed + 1)], None)
    else (hosts[key := WithList(h, kind, list[..|list| - 1]).(reused := h.reused + 1)], Some(list[|list| - 1]))
  }

  function Size(h: Host): nat {
    |h.plain| + |h.util|
  }

  ghost function AnyHost(hosts: Hosts): (k: string)
    requires |hosts| > 0
    ensures k in hosts
  {
    var k: string :| k in hosts;
    k
  }

  ghost function TotalIdle(hosts: Hosts): nat
    decreases |hosts|
  {
    if |hosts| == 0 then 0
    else Size(hosts[AnyHost(hosts)]) + TotalIdle(hosts - {AnyHost(hosts)})
  }

  /** Keeps a returned client if both its free list and the pool have room; otherwise it is closed. */
  ghost function Give(hosts: Hosts, key: string, kind: Kind, client: Client): Hosts
    requires key in hosts
  {
    if |List(hosts[key], kind)| < MaxIdlePerHost && TotalIdle(hosts) < MaxIdleTotal then
      hosts[key := WithList(hosts[key], kind, List(hosts[key], kind) + [client])]
    else hosts
  }

  // ---------------------------------------------------------------- the total

  lemma {:induction false} TotalOfRest(hosts: Hosts, k: string)
    requires k in hosts
    ensures TotalIdle(hosts) == Size(hosts[k]) + TotalIdle(hosts - {k})
    decreases |hosts|
  {
    var c := AnyHost(hosts);
    if c != k {
      var without, other := hosts - {c}, hosts - {k};
      TotalOfRest(without, k);
      TotalOfRest(other, c);
      assert without - {k} == other - {c};
    }
  }

  /** The total counts both lists of every host, whatever the order in which hosts are visited. */
  lemma TotalWithout(hosts: Hosts, k: string)
    requires k in hosts
    ensures TotalIdle(hosts) == |hosts[k].plain| + |hosts[k].util| + TotalIdle(hosts - {k})
  {
    TotalOfRest(hosts, k);
  }

  lemma TotalUpdate(hosts: Hosts, k: string, h: Host)
    ensures TotalIdle(hosts[k := h]) == Size(h) + TotalIdle(hosts - {k})
    ensures k !in hosts ==> hosts - {k} == hosts
  {
    TotalOfRest(hosts[k := h], k);
    assert hosts[k := h] - {k} == hosts - {k};
  }

  lemma {:induction false} TotalSubset(part: Hosts, hosts: Hosts)
    requires forall k | k in part :: k in hosts && hosts[k] == part[k]
    ensures TotalIdle(part) <= TotalIdle(hosts)
    decreases |part|
  {
    if |part| > 0 {
      var k: string :| k in part;
      TotalOfRest(part, k);
      TotalOfRest(hosts, k);
      TotalSubset(part - {k}, hosts - {k});
    }
  }

  // ---------------------------------------------------------------- bounds

  ghost predicate Bounded(hosts: Hosts) {
    && |hosts| <= MaxHosts && TotalIdle(hosts) <= MaxIdleTotal
    && forall k | k in hosts :: |hosts[k].plain| <= MaxIdlePerHost && |hosts[k].util| <= MaxIdlePerHost
  }

  lemma RoomBounded(hosts: Hosts, key: string, now: int, victim: string)
    requires Bounded(hosts) && FairVictim(hosts, key, now, victim)
    ensures var room := WithRoom(Unexpired(hosts, now), key, victim);
      Bounded(room) && (key !in room ==> |room| < MaxHosts)
  {
    var live := Unexpired(hosts, now);
    var room := WithRoom(live, key, victim);
    SubsetSize(live.Keys, hosts.Keys);
    TotalSubset(room, hosts);
    if Full(live, key) { assert room.Keys == live.Keys - {victim}; }
  }

  lemma PreparedBounded(hosts: Hosts, key: string, now: int, victim: string)
    requires Bounded(hosts) && FairVictim(hosts, key, now, victim)
    ensures Bounded(Prepared(hosts, key, now, victim))
  {
    RoomBounded(hosts, key, now, victim);
    var room := WithRoom(Unexpired(hosts, now), key, victim);
    var h := Prepared(hosts, key, now, victim)[key];
    TotalUpdate(room, key, h);
    UpdateSize(room, key, h);
    if key in room { TotalOfRest(room, key); }
  }

  lemma TakeBounded(hosts: Hosts, key: string, kind: Kind)
    requires Bounded(hosts) && key in hosts
    ensures Bounded(Take(hosts, key, kind).0)
  {
    var h := Take(hosts, key, kind).0[key];
    TotalUpdate(hosts, key, h);
    TotalOfRest(hosts, key);
    UpdateSize(hosts, key, h);
  }

  lemma GiveBounded(hosts: Hosts, key: string, kind: Kind, client: Client)
    requires Bounded(hosts) && key in hosts
    ensures Bounded(Give(hosts, key, kind, client))
  {
    var h := WithList(hosts[key], kind, List(hosts[key], kind) + [client]);
    TotalUpdate(hosts, key, h);
    TotalOfRest(hosts, key);
    UpdateSize(hosts, key, h);
  }

  // ---------------------------------------------------------------- calls

  /** An outbound call between its checkout and its end; `client` is what it holds. */
  datatype Call = Call(key: string, kind: Kind, client: Option<Client>)

  /** `next` is the number of the next dial. */
  datatype System = System(hosts: Hosts, calls: map<nat, Call>, next: nat)

  /** Checkouts and returns are each one critical section; a call dials, or has its client replaced by the HTTP
      utility, outside it. A call that fails or throws ends unhealthy. */
  datatype Step =
    | Checkout(call: nat, key: string, kind: Kind, now: int, victim: string)
    | Dial(call: nat)
    | End(call: nat, healthy: bool, now: int, victim: string)
    | Reset

  predicate Enabled(s: System, step: Step) {
    match step
    case Checkout(call, key, kind, now, victim) => call !in s.calls && FairVictim(s.hosts, key, now, victim)
    case Dial(call) => call in s.calls && (s.calls[call].kind.Plain? ==> s.calls[call].client.None?)
    case End(call, healthy, now, victim) => call in s.calls && FairVictim(s.hosts, s.calls[call].key, now, victim)
    case Reset => true
  }

  ghost function Next(s: System, step: Step): System
    requires Enabled(s, step)
  {
    match step
    case Checkout(call, key, kind, now, victim) =>
      var (hosts, client) := Take(Prepared(s.hosts, key, now, victim), key, kind);
      System(hosts, s.calls[call := Call(key, kind, client)], s.next)
    case Dial(call) =>
      var c := s.calls[call];
      System(s.hosts, s.calls[call := c.(client := Some(Client(s.next, c.key, c.kind)))], s.next + 1)
    case End(call, healthy, now, victim) =>
      var c := s.calls[call];
      if c.client.Some? && healthy then
        System(Give(Prepared(s.hosts, c.key, now, victim), c.key, c.kind, c.client.value), s.calls - {call}, s.next)
      else s.(calls := s.calls - {call})
    case Reset => s.(hosts := map[])
  }

  // ---------------------------------------------------------------- where clients are

  datatype Place = Idle(key: string, kind: Kind, index: nat) | Held(call: nat)

  predicate Occupied(s: System, p: Place) {
    match p
    case Idle(key, kind, index) => key in s.hosts && index < |List(s.hosts[key], kind)|
    case Held(call) => call in s.calls && s.calls[call].client.Some?
  }

  function At(s: System, p: Place): Client
    requires Occupied(s, p)
  {
    match p
    case Idle(key, kind, index) => List(s.hosts[key], kind)[index]
    case Held(call) => s.calls[call].client.value
  }

  /** The host and protocol a place is for. */
  predicate AtHome(s: System, p: Place)
    requires Occupied(s, p)
  {
    match p
    case Idle(key, kind, _) => At(s, p).key == key && At(s, p).kind == kind
    case Held(call) => At(s, p).key == s.calls[call].key && At(s, p).kind == s.calls[call].kind
  }

  ghost predicate Live(s: System, id: nat) {
    exists p :: Occupied(s, p) && At(s, p).id == id
  }

  /** No connection is in two places, and each is where requests of its own host look for it. */
  ghost predicate Sound(s: System) {
    && (forall p | Occupied(s, p) :: AtHome(s, p) && At(s, p).id < s.next)
    && (forall p, q | Occupied(s, p) && Occupied(s, q) && At(s, p).id == At(s, q).id :: p == q)
  }

  /** Every client of `t` was in `s` at the same place, except that one may have moved from `from` to `to`. */
  ghost predicate MovedOnly(s: System, t: System, from: Place, to: Place) {
    forall p | Occupied(t, p) ::
      var q := if p == to then from else p;
      Occupied(s, q) && At(s, q) == At(t, p)
  }

  lemma MoveKeepsSound(s: System, t: System, from: Place, to: Place)
    requires Sound(s) && s.next <= t.next && MovedOnly(s, t, from, to) && (from != to ==> !Occupied(t, from))
    requires forall p | Occupied(t, p) :: AtHome(t, p)
    ensures Sound(t) && forall id | Live(t, id) :: Live(s, id)
  {
    forall p, q | Occupied(t, p) && Occupied(t, q) && At(t, p).id == At(t, q).id ensures p == q {
      var p0, q0 := if p == to then from else p, if q == to then from else q;
      assert Occupied(s, p0) && Occupied(s, q0) && At(s, p0).id == At(s, q0).id;
    }
    forall id | Live(t, id) ensures Live(s, id) {
      var p :| Occupied(t, p) && At(t, p).id == id;
      assert Occupied(s, if p == to then from else p);
    }
  }

  lemma PreparedMovesNothing(s: System, key: string, now: int, victim: string)
    requires Sound(s)
    ensures var t := s.(hosts := Prepared(s.hosts, key, now, victim));
      Sound(t) && forall id | Live(t, id) :: Live(s, id)
  {
    var t := s.(hosts := Prepared(s.hosts, key, now, victim));
    forall p | Occupied(t, p) ensures Occupied(s, p) && At(s, p) == At(t, p) && AtHome(t, p) {
      if p.Idle? { assert t.hosts[p.key] == s.hosts[p.key].(lastUsed := t.hosts[p.key].lastUsed); }
      assert Occupied(s, p) && At(s, p) == At(t, p) && AtHome(s, p);
    }
    assert MovedOnly(s, t, Held(0), Held(0));
    MoveKeepsSound(s, t, Held(0), Held(0));
  }

  lemma TakeMovesOne(s: System, call: nat, key: string, kind: Kind)
    requires Sound(s) && key in s.hosts && call !in s.calls
    ensures var (hosts, client) := Take(s.hosts, key, kind);
      var t := System(hosts, s.calls[call := Call(key, kind, client)], s.next);
      Sound(t) && forall id | Live(t, id) :: Live(s, id)
  {
    var (hosts, client) := Take(s.hosts, key, kind);
    var t := System(hosts, s.calls[call := Call(key, kind, client)], s.next);
    var list := List(s.hosts[key], kind);
    if list == [] {
      forall p | Occupied(t, p) ensures Occupied(s, p) && At(s, p) == At(t, p) && AtHome(t, p) {
        assert Occupied(s, p) && At(s, p) == At(t, p) && AtHome(s, p);
      }
      MoveKeepsSound(s, t, Held(call), Held(call));
    } else {
      var from, to := Idle(key, kind, |list| - 1), Held(call);
      assert Occupied(s, from) && AtHome(s, from);
      forall p | Occupied(t, p)
        ensures var q := if p == to then from else p; Occupied(s, q) && At(s, q) == At(t, p) && AtHome(t, p)
      {
        var q := if p == to then from else p;
        assert Occupied(s, q) && At(s, q) == At(t, p) && AtHome(s, q);
      }
      MoveKeepsSound(s, t, from, to);
    }
  }

  lemma GiveMovesOne(s: System, call: nat)
    requires Sound(s) && call in s.calls && s.calls[call].client.Some? && s.calls[call].key in s.hosts
    ensures var c := s.calls[call];
      var t := System(Give(s.hosts, c.key, c.kind, c.client.value), s.calls - {call}, s.next);
      Sound(t) && forall id | Live(t, id) :: Live(s, id)
  {
    var c := s.calls[call];
    var t := System(Give(s.hosts, c.key, c.kind, c.client.value), s.calls - {call}, s.next);
    var from, to := Held(call), Idle(c.key, c.kind, |List(s.hosts[c.key], c.kind)|);
    assert Occupied(s, from) && AtHome(s, from);
    forall p | Occupied(t, p)
      ensures var q := if p == to then from else p; Occupied(s, q) && At(s, q) == At(t, p) && AtHome(t, p)
    {
      var q := if p == to then from else p;
      assert Occupied(s, q) && At(s, q) == At(t, p) && AtHome(s, q);
    }
    MoveKeepsSound(s, t, from, to);
  }

  /** Forgetting clients, in the pool or in a call, moves none. */
  lemma DropMovesNothing(s: System, t: System)
    requires Sound(s) && t.next == s.next
    requires forall k | k in t.hosts :: k in s.hosts && t.hosts[k] == s.hosts[k]
    requires forall c | c in t.calls :: c in s.calls && t.calls[c] == s.calls[c]
    ensures Sound(t) && forall id | Live(t, id) :: Live(s, id)
  {
    forall p | Occupied(t, p) ensures Occupied(s, p) && At(s, p) == At(t, p) && AtHome(t, p) {
      assert Occupied(s, p) && At(s, p) == At(t, p) && AtHome(s, p);
    }
    MoveKeepsSound(s, t, Held(0), Held(0));
  }

  lemma DialAddsOne(s: System, call: nat)
    requires Sound(s) && Enabled(s, Dial(call))
    ensures Sound(Next(s, Dial(call))) && forall id | Live(Next(s, Dial(call)), id) :: Live(s, id) || id == s.next
  {
    var t := Next(s, Dial(call));
    forall p | Occupied(t, p) ensures p == Held(call) || (Occupied(s, p) && At(s, p) == At(t, p) && AtHome(t, p)) {
      if p != Held(call) { assert Occupied(s, p) && At(s, p) == At(t, p) && AtHome(s, p); }
    }
    forall id | Live(t, id) ensures Live(s, id) || id == s.next {
      var p :| Occupied(t, p) && At(t, p).id == id;
      assert p != Held(call) ==> Occupied(s, p);
    }
  }

  // ---------------------------------------------------------------- runs

  ghost predicate Good(s: System) {
    Bounded(s.hosts) && Sound(s)
  }

  lemma StepKeepsGood(s: System, step: Step)
    requires Good(s) && Enabled(s, step)
    ensures Good(Next(s, step)) && s.next <= Next(s, step).next
    ensures forall id | Live(Next(s, step), id) :: Live(s, id) || id == s.next < Next(s, step).next
  {
    match step
    case Checkout(call, key, kind, now, victim) =>
      var mid := s.(hosts := Prepared(s.hosts, key, now, victim));
      PreparedBounded(s.hosts, key, now, victim);
      TakeBounded(mid.hosts, key, kind);
      PreparedMovesNothing(s, key, now, victim);
      TakeMovesOne(mid, call, key, kind);
    case Dial(call) => DialAddsOne(s, call);
    case End(call, healthy, now, victim) =>
      var c := s.calls[call];
      if c.client.Some? && healthy {
        var mid := s.(hosts := Prepared(s.hosts, c.key, now, victim));
        PreparedBounded(s.hosts, c.key, now, victim);
        GiveBounded(mid.hosts, c.key, c.kind, c.client.value);
        PreparedMovesNothing(s, c.key, now, victim);
        GiveMovesOne(mid, call);
      } else {
        DropMovesNothing(s, Next(s, step));
      }
    case Reset =>
      DropMovesNothing(s, Next(s, step));
  }

  ghost predicate Run(states: seq<System>, steps: seq<Step>) {
    && |states| == |steps| + 1 && states[0] == System(map[], map[], 0)
    && forall i | 0 <= i < |steps| :: Enabled(states[i], steps[i]) && states[i + 1] == Next(states[i], steps[i])
  }

  /** Over every interleaving of calls: at most 256 hosts, 256 idle clients in all and 64 in a free list, each live
      client in exactly one place, and that place is for the host it was dialed for. */
  lemma {:induction false} PoolIsSound(states: seq<System>, steps: seq<Step>, i: nat)
    requires Run(states, steps) && i < |states|
    ensures Good(states[i])
  {
    if i > 0 {
      PoolIsSound(states, steps, i - 1);
      StepKeepsGood(states[i - 1], steps[i - 1]);
    }
  }

  /** A connection that is gone, once it was dialed, is gone for good. */
  lemma {:induction false} GoneForever(states: seq<System>, steps: seq<Step>, i: nat, j: nat, id: nat)
    requires Run(states, steps) && i <= j < |states| && id < states[i].next && !Live(states[i], id)
    ensures !Live(states[j], id) && id < states[j].next
    decreases j
  {
    if i < j {
      GoneForever(states, steps, i, j - 1, id);
      PoolIsSound(states, steps, j - 1);
      StepKeepsGood(states[j - 1], steps[j - 1]);
    }
  }

  /** A connection whose call did not end healthy is never handed out again. */
  lemma BrokenNeverReused(states: seq<System>, steps: seq<Step>, i: nat, j: nat)
    requires Run(states, steps) && i < j < |states|
    requires steps[i].End? && !steps[i].healthy && states[i].calls[steps[i].call].client.Some?
    ensures !Live(states[j], states[i].calls[steps[i].call].client.value.id)
  {
    var s, t, call := states[i], states[i + 1], steps[i].call;
    var id := s.calls[call].client.value.id;
    PoolIsSound(states, steps, i);
    assert Occupied(s, Held(call)) && At(s, Held(call)).id == id;
    forall p | Occupied(t, p) ensures At(t, p).id != id {
      assert Occupied(s, p) && At(s, p) == At(t, p) && p != Held(call);
    }
    GoneForever(states, steps, i + 1, j, id);
  }

  /** A checkout hands out an idle connection of the very host and protocol asked for, and no other call has it. */
  lemma CheckoutIsExclusive(states: seq<System>, steps: seq<Step>, i: nat, other: nat)
    requires Run(states, steps) && i < |steps| && steps[i].Checkout?
    requires states[i + 1].calls[steps[i].call].client.Some? && Occupied(states[i + 1], Held(other)) && other != steps[i].call
    ensures var c := states[i + 1].calls[steps[i].call].client.value;
      c.key == steps[i].key && c.kind == steps[i].kind && states[i + 1].calls[other].client.value.id != c.id
  {
    PoolIsSound(states, steps, i + 1);
    var t, call := states[i + 1], steps[i].call;
    assert Occupied(t, Held(call)) && AtHome(t, Held(call));
    assert At(t, Held(call)) == t.calls[call].client.value && At(t, Held(other)) == t.calls[other].client.value;
  }

  // ---------------------------------------------------------------- what single operations do

  /** The bounds in numbers. */
  lemma PoolBounds(states: seq<System>, steps: seq<Step>, i: nat, k: string)
    requires Run(states, steps) && i < |states|
    ensures |states[i].hosts| <= 256 && TotalIdle(states[i].hosts) <= 256 && TotalIdle(map[]) == 0
    ensures k in states[i].hosts ==> |states[i].hosts[k].plain| <= 64 && |states[i].hosts[k].util| <= 64
  {
    PoolIsSound(states, steps, i);
  }

  /** Making room for a host: every host unused for over five minutes goes; if 256 others are left and this one is not
      among them, one that was not used later than any goes too; all else stays, and the host's own entry is stamped. */
  lemma PreparedIs(hosts: Hosts, key: string, now: int, victim: string)
    requires FairVictim(hosts, key, now, victim)
    ensures var after := Prepared(hosts, key, now, victim);
      && key in after && after[key].lastUsed == now
      && (key in hosts && now - hosts[key].lastUsed <= 300_000_000_000 ==> after[key] == hosts[key].(lastUsed := now))
      && (key !in hosts || now - hosts[key].lastUsed > 300_000_000_000 ==> after[key] == Host([], [], 0, 0, now))
      && (forall k | k in after && k != key :: k in hosts && after[k] == hosts[k] && now - hosts[k].lastUsed <= 300_000_000_000)
      && (forall k | k in hosts && k != key && k !in after && now - hosts[k].lastUsed <= 300_000_000_000 ::
            && k == victim && |Unexpired(hosts, now)| >= 256 && !(key in hosts && now - hosts[key].lastUsed <= 300_000_000_000)
            && forall o | o in hosts && now - hosts[o].lastUsed <= 300_000_000_000 :: hosts[k].lastUsed <= hosts[o].lastUsed)
      && (|Unexpired(hosts, now)| >= 256 && !(key in hosts && now - hosts[key].lastUsed <= 300_000_000_000) ==> victim == key || victim !in after)
  {
    assert Full(Unexpired(hosts, now), key) ==> victim in Unexpired(hosts, now);
  }

  /** A checkout takes the client that was returned last, and counts as a reuse; without one it counts as a dial. */
  lemma TakeIs(hosts: Hosts, key: string, kind: Kind)
    requires key in hosts
    ensures var (after, client) := Take(hosts, key, kind);
      && after.Keys == hosts.Keys && (forall k | k in hosts && k != key :: after[k] == hosts[k])
      && var h, g := hosts[key], after[key];
      && g.lastUsed == h.lastUsed
      && (kind.Plain? ==> g.util == h.util) && (kind.Util? ==> g.plain == h.plain)
      && var was, list := if kind.Plain? then h.plain else h.util, if kind.Plain? then g.plain else g.util;
      && (was == [] ==> client == None && list == [] && g.dialed == h.dialed + 1 && g.reused == h.reused)
      && (was != [] ==> client.Some? && was == list + [client.value] && g.reused == h.reused + 1 && g.dialed == h.dialed)
  {
  }

  /** A returned client goes to the end of its free list if that has fewer than 64 and the pool fewer than 256; otherwise
      nothing changes. */
  lemma GiveIs(hosts: Hosts, key: string, kind: Kind, client: Client)
    requires key in hosts
    ensures var after := Give(hosts, key, kind, client);
      && after.Keys == hosts.Keys && (forall k | k in hosts && k != key :: after[k] == hosts[k])
      && var list := if kind.Plain? then hosts[key].plain else hosts[key].util;
      && (|list| >= 64 || TotalIdle(hosts) >= 256 ==> after == hosts)
      && (|list| < 64 && TotalIdle(hosts) < 256 ==>
            after[key] == if kind.Plain? then hosts[key].(plain := list + [client]) else hosts[key].(util := list + [client]))
  {
  }

  // ---------------------------------------------------------------- the time of last use

  /** A step uses a host: it checks out for it, or returns a client to it. */
  predicate Uses(s: System, step: Step, k: string) {
    match step
    case Checkout(_, key, _, _, _) => key == k
    case End(call, healthy, _, _) => healthy && call in s.calls && s.calls[call].client.Some? && s.calls[call].key == k
    case _ => false
  }

  function TimeOf(step: Step): int {
    if step.Checkout? || step.End? then step.now else 0
  }

  lemma StepStamps(s: System, step: Step, k: string)
    requires Enabled(s, step) && k in Next(s, step).hosts
    ensures Uses(s, step, k) ==> Next(s, step).hosts[k].lastUsed == TimeOf(step)
    ensures !Uses(s, step, k) ==> k in s.hosts && Next(s, step).hosts[k].lastUsed == s.hosts[k].lastUsed
  {
    match step
    case Checkout(_, key, kind, now, victim) =>
      PreparedIs(s.hosts, key, now, victim);
      TakeIs(Prepared(s.hosts, key, now, victim), key, kind);
    case End(call, healthy, now, victim) =>
      var c := s.calls[call];
      if healthy && c.client.Some? {
        PreparedIs(s.hosts, c.key, now, victim);
        GiveIs(Prepared(s.hosts, c.key, now, victim), c.key, c.kind, c.client.value);
      }
    case _ =>
  }

  /** The step j is the last before i to use a host. */
  ghost predicate LastUse(states: seq<System>, steps: seq<Step>, j: nat, i: nat, k: string)
    requires |states| == |steps| + 1 && i < |states|
  {
    j < i && Uses(states[j], steps[j], k) && forall m | j < m < i :: !Uses(states[m], steps[m], k)
  }

  /** The stamp of a host is the time of the last step that used it. */
  lemma {:induction false} StampIsLastUse(states: seq<System>, steps: seq<Step>, i: nat, k: string) returns (j: nat)
    requires Run(states, steps) && i < |states| && k in states[i].hosts
    ensures LastUse(states, steps, j, i, k) && states[i].hosts[k].lastUsed == TimeOf(steps[j])
    decreases i
  {
    var s, step := states[i - 1], steps[i - 1];
    StepStamps(s, step, k);
    j := i - 1;
    if !Uses(s, step, k) { j := StampIsLastUse(states, steps, i - 1, k); }
  }

  /** A host leaves the pool only by a reset, because it has not been used for five minutes, or, when 256 other hosts are
      pooled, because none of them was used earlier. */
  lemma HostLeaves(s: System, step: Step, k: string)
    requires Enabled(s, step) && k in s.hosts && k !in Next(s, step).hosts
    ensures step.Reset? || step.Checkout? || (step.End? && step.healthy)
    ensures !step.Reset? ==>
      var now := TimeOf(step);
      || now - s.hosts[k].lastUsed > 300_000_000_000
      || (|Unexpired(s.hosts, now)| >= 256
          && forall o | o in s.hosts && now - s.hosts[o].lastUsed <= 300_000_000_000 :: s.hosts[k].lastUsed <= s.hosts[o].lastUsed)
  {
    match step
    case Checkout(_, key, kind, now, victim) =>
      PreparedIs(s.hosts, key, now, victim);
      TakeIs(Prepared(s.hosts, key, now, victim), key, kind);
    case End(call, healthy, now, victim) =>
      var c := s.calls[call];
      if healthy && c.client.Some? {
        PreparedIs(s.hosts, c.key, now, victim);
        GiveIs(Prepared(s.hosts, c.key, now, victim), c.key, c.kind, c.client.value);
      }
    case _ =>
  }

  // ---------------------------------------------------------------- the pool itself

  class Pool {
    var hosts: Hosts

    constructor ()
      ensures hosts == map[]
    {
      hosts := map[];
    }

    method EraseExpired(now: int)
      modifies this
      ensures hosts == Unexpired(old(hosts), now)
    {
      var todo := hosts.Keys;
      while todo != {}
        invariant todo <= hosts.Keys
        invariant hosts.Keys <= old(hosts.Keys) && forall k | k in hosts :: hosts[k] == old(hosts)[k]
        invariant forall k | k in hosts && k !in todo :: now - hosts[k].lastUsed <= IdleTtl
        invariant forall k | k in old(hosts) && k !in hosts :: now - old(hosts)[k].lastUsed > IdleTtl
        decreases |todo|
      {
        var k: string :| k in todo;
        todo := todo - {k};
        if now - hosts[k].lastUsed > IdleTtl { hosts := hosts - {k}; }
      }
    }

    /** Visits the hosts in any order. */
    method Oldest() returns (oldest: string)
      requires |hosts| > 0
      ensures LeastRecentlyUsed(hosts, oldest)
    {
      var todo := hosts.Keys;
      assert todo != {};
      oldest :| oldest in todo;
      while todo != {}
        invariant todo <= hosts.Keys && oldest in hosts
        invariant forall k | k in hosts && k !in todo :: hosts[oldest].lastUsed <= hosts[k].lastUsed
        decreases |todo|
      {
        var k: string :| k in todo;
        todo := todo - {k};
        if hosts[k].lastUsed < hosts[oldest].lastUsed { oldest := k; }
      }
    }

    method PoolHost(key: string, now: int) returns (victim: string)
      modifies this
      ensures FairVictim(old(hosts), key, now, victim) && hosts == Prepared(old(hosts), key, now, victim)
    {
      victim := "";
      EraseExpired(now);
      if key !in hosts && |hosts| >= MaxHosts {
        victim := Oldest();
        hosts := hosts - {victim};
      }
      if key !in hosts { hosts := hosts[key := Host([], [], 0, 0, now)]; }
      hosts := hosts[key := hosts[key].(lastUsed := now)];
    }

    method TotalIdleClients() returns (count: nat)
      ensures count == TotalIdle(hosts)
    {
      count := 0;
      var todo := hosts;
      while |todo| > 0
        invariant count + TotalIdle(todo) == TotalIdle(hosts)
        decreases |todo|
      {
        var k: string :| k in todo;
        TotalOfRest(todo, k);
        count := count + |todo[k].plain| + |todo[k].util|;
        todo := todo - {k};
      }
    }

    /** The first critical section of a call. */
    method TakeClient(key: string, kind: Kind, now: int) returns (client: Option<Client>, victim: string)
      requires Bounded(hosts)
      modifies this
      ensures FairVictim(old(hosts), key, now, victim) && Bounded(hosts)
      ensures (hosts, client) == Take(Prepared(old(hosts), key, now, victim), key, kind)
    {
      victim := PoolHost(key, now);
      PreparedBounded(old(hosts), key, now, victim);
      TakeBounded(hosts, key, kind);
      var h := hosts[key];
      var list := List(h, kind);
      if list != [] {
        client := Some(list[|list| - 1]);
        hosts := hosts[key := WithList(h, kind, list[..|list| - 1]).(reused := h.reused + 1)];
      } else {
        client := None;
        hosts := hosts[key := h.(dialed := h.dialed + 1)];
      }
    }

    /** The second, which only a healthy call enters. */
    method ReturnClient(key: string, kind: Kind, client: Client, now: int) returns (victim: string)
      requires Bounded(hosts)
      modifies this
      ensures FairVictim(old(hosts), key, now, victim) && Bounded(hosts)
      ensures hosts == Give(Prepared(old(hosts), key, now, victim), key, kind, client)
    {
      victim := PoolHost(key, now);
      PreparedBounded(old(hosts), key, now, victim);
      GiveBounded(hosts, key, kind, client);
      var h := hosts[key];
      if |List(h, kind)| < MaxIdlePerHost {
        var idle := TotalIdleClients();
        if idle < MaxIdleTotal { hosts := hosts[key := WithList(h, kind, List(h, kind) + [client])]; }
      }
    }

    method ResetPool()
      modifies this
      ensures hosts == map[]
    {
      hosts := map[];
    }
  }
}
