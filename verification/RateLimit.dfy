/** The in-process rate limiter: one window per route and client. */
module RateLimit {
  import opened Collections
  import opened Decimals

  const MaxEntries: nat := 100000

  /** Times are nanoseconds. */
  const Second: int := 1_000_000_000

  datatype Entry = Entry(count: int, expires: int)

  type Table = map<string, Entry>

  // ---------------------------------------------------------------- bucket keys

  function RoutePrefix(route: string): string {
    Decimal(|route|) + (":" + (route + "|"))
  }

  function BucketKey(route: string, client: string): string {
    Decimal(|route|) + (":" + (route + ("|" + client)))
  }

  /** The first colon ends the length. */
  lemma SplitAtColon(d1: string, x1: string, d2: string, x2: string)
    requires ':' !in d1 && ':' !in d2 && d1 + (":" + x1) <= d2 + (":" + x2)
    ensures d1 == d2 && x1 <= x2
  {
    var s1, s2 := d1 + (":" + x1), d2 + (":" + x2);
    assert forall i | 0 <= i < |s1| :: s1[i] == s2[i];
    assert s1[|d1|] == ':' && s2[|d2|] == ':';
    assert forall i | 0 <= i < |d1| :: s1[i] == d1[i] && s1[i] in d1;
    assert forall i | 0 <= i < |d2| :: s2[i] == d2[i] && s2[i] in d2;
    assert |d1| == |d2|;
    assert d1 == s1[..|d1|] == s2[..|d1|] == d2;
    assert x1 == s1[|d1| + 1..] && x2 == s2[|d2| + 1..];
  }

  /** A bucket carries the prefix of a route exactly when it was made for that route, whatever characters the
      names contain. */
  lemma PrefixIffRoute(route: string, other: string, client: string)
    ensures RoutePrefix(route) <= BucketKey(other, client) <==> route == other
  {
    if route == other {
      assert BucketKey(route, client) == RoutePrefix(route) + client;
    }
    if RoutePrefix(route) <= BucketKey(other, client) {
      DecimalHasNoColon(|route|);
      DecimalHasNoColon(|other|);
      SplitAtColon(Decimal(|route|), route + "|", Decimal(|other|), other + ("|" + client));
      DecimalInjective(|route|, |other|);
      assert route == (route + "|")[..|route|] == (other + ("|" + client))[..|other|] == other;
    }
  }

  lemma BucketKeyInjective(r1: string, c1: string, r2: string, c2: string)
    requires BucketKey(r1, c1) == BucketKey(r2, c2)
    ensures r1 == r2 && c1 == c2
  {
    assert BucketKey(r1, c1) == RoutePrefix(r1) + c1 && BucketKey(r2, c2) == RoutePrefix(r2) + c2;
    PrefixIffRoute(r1, r2, c2);
    assert c1 == BucketKey(r1, c1)[|RoutePrefix(r1)|..] == c2;
  }

  // ---------------------------------------------------------------- the operations

  function Sweep(t: Table, now: int): Table {
    map k | k in t && t[k].expires > now :: t[k]
  }

  function Max(a: int, b: int): int {
    if a < b then b else a
  }

  datatype Answer = Answer(allowed: bool, retryAfter: int)

  /** The entry that a request finds or makes; none when the table is full of live ones. */
  function Found(t: Table, key: string, perSec: int, now: int): (Table, bool) {
    if key in t then (t, true)
    else
      var swept := if |t| >= MaxEntries then Sweep(t, now) else t;
      if |swept| >= MaxEntries then (swept, false)
      else (swept[key := Entry(0, now + perSec * Second)], true)
  }

  function Renewed(e: Entry, perSec: int, now: int): Entry {
    if e.expires <= now then Entry(0, now + perSec * Second) else e
  }

  function Allow(t: Table, key: string, limit: int, perSec: int, now: int): (Table, Answer) {
    var (t1, ok) := Found(t, key, perSec, now);
    if !ok || key !in t1 then (t1, Answer(false, Max(1, perSec)))
    else
      var e := Renewed(t1[key], perSec, now);
      var retry := Max(1, (e.expires - now) / Second + 1);
      if e.count >= limit then (t1[key := e], Answer(false, retry))
      else (t1[key := e.(count := e.count + 1)], Answer(true, retry))
  }

  function ClearRoute(t: Table, route: string): Table {
    map k | k in t && !(RoutePrefix(route) <= k) :: t[k]
  }

  /** Clearing a route removes its buckets and no others. */
  lemma ClearRemovesExactlyTheRoute(t: Table, route: string, other: string, client: string)
    ensures BucketKey(other, client) in ClearRoute(t, route) <==> BucketKey(other, client) in t && other != route
    ensures BucketKey(other, client) in ClearRoute(t, route) ==>
      ClearRoute(t, route)[BucketKey(other, client)] == t[BucketKey(other, client)]
  {
    PrefixIffRoute(route, other, client);
  }

  // ---------------------------------------------------------------- runs, seen from one bucket

  datatype Event =
    | Request(route: string, client: string, limit: int, perSec: int, now: int)
    | Clear(route: string)

  /** `clock` is the largest reading so far. `admitted` are the readings of the watched bucket's requests that were
      let through, in the order in which the mutex was taken. `window` is that bucket's entry, or the last one it had
      if that has expired and been swept away. */
  datatype System = System(table: Table, clock: int, admitted: seq<int>, window: Entry)

  /** The bucket that is watched, with its fixed limit and period. */
  datatype Watch = Watch(route: string, client: string, limit: nat, perSec: int)

  function WatchedKey(w: Watch): string {
    BucketKey(w.route, w.client)
  }

  function Period(w: Watch): int {
    w.perSec * Second
  }

  predicate Watched(w: Watch, e: Event) {
    e.Request? && e.route == w.route && e.client == w.client
  }

  /** A request reads the clock before it takes the mutex, so its reading can be up to `slack` below an earlier one's.
      The route's limit is what it was, and the route is not registered anew. */
  predicate Allowed(w: Watch, slack: nat, s: System, e: Event) {
    match e
    case Request(_, _, limit, perSec, now) =>
      s.clock - slack <= now && (Watched(w, e) ==> limit == w.limit && perSec == w.perSec)
    case Clear(route) => route != w.route
  }

  function Next(w: Watch, s: System, e: Event): System {
    match e
    case Request(route, client, limit, perSec, now) =>
      var (t, a) := Allow(s.table, BucketKey(route, client), limit, perSec, now);
      System(t, Max(s.clock, now), if Watched(w, e) && a.allowed then s.admitted + [now] else s.admitted,
             if WatchedKey(w) in t then t[WatchedKey(w)] else s.window)
    case Clear(route) => s.(table := ClearRoute(s.table, route))
  }

  function Initial(clock: int, slack: nat): System {
    System(map[], clock, [], Entry(0, clock - slack))
  }

  ghost predicate Run(w: Watch, slack: nat, states: seq<System>, events: seq<Event>) {
    && |states| == |events| + 1 && states[0] == Initial(states[0].clock, slack)
    && forall i | 0 <= i < |events| ::
      Allowed(w, slack, states[i], events[i]) && states[i + 1] == Next(w, states[i], events[i])
  }

  /** The table is never full, so nothing is ever swept. */
  ghost predicate Roomy(states: seq<System>) {
    forall i | 0 <= i < |states| :: |states[i].table| < MaxEntries
  }

  /** Windows follow each other. `loss` is how far one can begin before the window ahead of it is over: the slack if
      that one may have been swept away, and nothing if it was found and renewed. `before` is the end of the window
      ahead. The last `count` admissions are in this window, all earlier ones end before it, and all but the `limit`
      before those a period earlier. */
  ghost predicate GoodWindow(w: Watch, loss: nat, admitted: seq<int>, e: Entry, before: int) {
    var n := |admitted|;
    && 0 <= e.count <= n && e.count <= w.limit && before + Period(w) - loss <= e.expires
    && (forall i | 0 <= i < n :: admitted[i] < e.expires)
    && (forall i | 0 <= i < n - e.count :: admitted[i] < before)
    && (forall i | 0 <= i < n - e.count - w.limit :: admitted[i] < before - Period(w) + loss)
  }

  /** Admissions that are 2 * limit apart in order are further apart in time than `gap`. */
  ghost predicate Bounded(w: Watch, gap: int, admitted: seq<int>) {
    forall i, j | 0 <= i && i + 2 * w.limit <= j < |admitted| :: admitted[j] - admitted[i] > gap
  }

  ghost predicate Good(w: Watch, slack: nat, loss: nat, s: System) {
    && Bounded(w, Period(w) - loss - slack, s.admitted)
    && (exists before :: before <= s.clock && GoodWindow(w, loss, s.admitted, s.window, before))
    && (WatchedKey(w) in s.table ==> s.table[WatchedKey(w)] == s.window)
    && (WatchedKey(w) !in s.table ==> s.window.expires <= s.clock - slack + loss)
  }

  // ---------------------------------------------------------------- the invariant

  /** A new window, for a bucket that was found expired or made anew. */
  lemma OpenKeepsWindow(w: Watch, loss: nat, admitted: seq<int>, e: Entry, before: int, now: int)
    requires GoodWindow(w, loss, admitted, e, before) && e.expires <= now + loss && 0 <= loss <= Period(w)
    ensures GoodWindow(w, loss, admitted, Entry(0, now + Period(w)), e.expires)
  {
  }

  lemma AdmitKeepsWindow(w: Watch, slack: nat, loss: nat, admitted: seq<int>, e: Entry, before: int, now: int)
    requires GoodWindow(w, loss, admitted, e, before) && e.count < w.limit && before - slack <= now < e.expires
    requires Bounded(w, Period(w) - loss - slack, admitted)
    ensures GoodWindow(w, loss, admitted + [now], e.(count := e.count + 1), before)
    ensures Bounded(w, Period(w) - loss - slack, admitted + [now])
  {
  }

  lemma SweepShrinks(t: Table, now: int)
    ensures |Sweep(t, now)| <= |t|
  {
    var s := Sweep(t, now);
    assert s.Keys <= t.Keys;
    SubsetSize(s.Keys, t.Keys);
  }

  lemma FoundStaysBounded(t: Table, key: string, perSec: int, now: int)
    requires |t| <= MaxEntries
    ensures |Found(t, key, perSec, now).0| <= MaxEntries
  {
    SweepShrinks(t, now);
    var swept := if |t| >= MaxEntries then Sweep(t, now) else t;
    UpdateSize(swept, key, Entry(0, now + perSec * Second));
  }

  lemma TableStaysBounded(t: Table, key: string, limit: int, perSec: int, now: int)
    requires |t| <= MaxEntries
    ensures |Allow(t, key, limit, perSec, now).0| <= MaxEntries
  {
    FoundStaysBounded(t, key, perSec, now);
    var t1 := Found(t, key, perSec, now).0;
    var t' := Allow(t, key, limit, perSec, now).0;
    assert t' == t1 || (key in t1 && key in t' && t' == t1[key := t'[key]]);
    if key in t1 && key in t' { UpdateSize(t1, key, t'[key]); }
  }

  /** A request for another bucket leaves this one alone, unless it sweeps it away expired. */
  lemma OtherBucketKept(t: Table, key: string, k: string, limit: int, perSec: int, now: int)
    requires key != k
    ensures var t' := Allow(t, key, limit, perSec, now).0;
      && (k in t' ==> k in t && t'[k] == t[k])
      && (k in t && k !in t' ==> t[k].expires <= now)
  {
  }

  /** The entry a request counts in: the bucket's own if its window is not over, or a new one. */
  function Counted(t: Table, key: string, perSec: int, now: int): Entry {
    if key in t && t[key].expires > now then t[key] else Entry(0, now + perSec * Second)
  }

  function Charged(e: Entry, limit: int): Entry {
    if e.count < limit then e.(count := e.count + 1) else e
  }

  /** What a request does to a table that has its bucket or room for it. */
  lemma OwnBucket(t: Table, key: string, limit: int, perSec: int, now: int)
    requires key in t || |t| < MaxEntries
    ensures var e := Counted(t, key, perSec, now); var (t', a) := Allow(t, key, limit, perSec, now);
      t' == t[key := Charged(e, limit)] && (a.allowed <==> e.count < limit)
    requires 0 < perSec
  {
    var e := Counted(t, key, perSec, now);
    var fresh_ := Entry(0, now + perSec * Second);
    assert t[key := fresh_][key := Charged(e, limit)] == t[key := Charged(e, limit)];
  }

  /** And to one that is full without it: nothing is admitted unless the sweep makes room. */
  lemma OwnBucketSwept(t: Table, key: string, limit: int, perSec: int, now: int)
    requires 0 < perSec && key !in t
    ensures var e := Entry(0, now + perSec * Second); var (t', a) := Allow(t, key, limit, perSec, now);
      if key in t' then t'[key] == Charged(e, limit) && (a.allowed <==> e.count < limit) else !a.allowed
  {
  }

  lemma WatchedWindow(w: Watch, slack: nat, loss: nat, s: System, now: int, before: int) returns (ahead: int)
    requires 0 < w.perSec && loss <= Period(w) && loss <= slack && s.clock - slack <= now
    requires Good(w, slack, loss, s) && before <= s.clock && GoodWindow(w, loss, s.admitted, s.window, before)
    ensures var e := Counted(s.table, WatchedKey(w), w.perSec, now);
      && ahead <= Max(s.clock, now) && GoodWindow(w, loss, s.admitted, e, ahead)
      && (e.count < w.limit ==>
            && GoodWindow(w, loss, s.admitted + [now], e.(count := e.count + 1), ahead)
            && Bounded(w, Period(w) - loss - slack, s.admitted + [now]))
  {
    var e := Counted(s.table, WatchedKey(w), w.perSec, now);
    ahead := before;
    if !(WatchedKey(w) in s.table && s.window.expires > now) {
      ahead := s.window.expires;
      OpenKeepsWindow(w, loss, s.admitted, s.window, before, now);
    }
    if e.count < w.limit { AdmitKeepsWindow(w, slack, loss, s.admitted, e, ahead, now); }
  }

  lemma WatchedRequest(w: Watch, slack: nat, loss: nat, s: System, e: Event)
    requires Good(w, slack, loss, s) && 0 < w.perSec && loss <= Period(w) && loss <= slack
    requires Watched(w, e) && Allowed(w, slack, s, e)
    ensures Good(w, slack, loss, Next(w, s, e))
  {
    var key := WatchedKey(w);
    var before :| before <= s.clock && GoodWindow(w, loss, s.admitted, s.window, before);
    var ahead := WatchedWindow(w, slack, loss, s, e.now, before);
    if key in s.table { OwnBucket(s.table, key, w.limit, w.perSec, e.now); }
    else { OwnBucketSwept(s.table, key, w.limit, w.perSec, e.now); }
    var t := Next(w, s, e);
    assert key in t.table ==> GoodWindow(w, loss, t.admitted, t.window, ahead);
    assert key !in t.table ==> GoodWindow(w, loss, t.admitted, t.window, before);
  }

  /** Without a sweep no bucket is lost. */
  lemma RoomyKept(t: Table, key: string, k: string, limit: int, perSec: int, now: int)
    requires key != k && |t| < MaxEntries && k in t
    ensures k in Allow(t, key, limit, perSec, now).0
  {
  }

  lemma OtherRequest(w: Watch, slack: nat, loss: nat, s: System, e: Event)
    requires Good(w, slack, loss, s) && e.Request? && !Watched(w, e) && Allowed(w, slack, s, e)
    requires loss == slack || (loss == 0 && |s.table| < MaxEntries)
    ensures Good(w, slack, loss, Next(w, s, e))
  {
    var key, k := BucketKey(e.route, e.client), WatchedKey(w);
    if key == k { BucketKeyInjective(e.route, e.client, w.route, w.client); }
    OtherBucketKept(s.table, key, k, e.limit, e.perSec, e.now);
    if k in s.table && |s.table| < MaxEntries { RoomyKept(s.table, key, k, e.limit, e.perSec, e.now); }
    var before :| before <= s.clock && GoodWindow(w, loss, s.admitted, s.window, before);
    assert before <= Next(w, s, e).clock;
  }

  lemma {:induction false} RunIsGood(w: Watch, slack: nat, loss: nat, states: seq<System>, events: seq<Event>, i: nat)
    requires Run(w, slack, states, events) && 0 < w.perSec && i < |states| && loss <= Period(w)
    requires loss == slack || (loss == 0 && Roomy(states))
    ensures Good(w, slack, loss, states[i])
  {
    if i == 0 {
      var s := states[0];
      assert GoodWindow(w, loss, s.admitted, s.window, s.clock - slack - Period(w));
    } else {
      RunIsGood(w, slack, loss, states, events, i - 1);
      var s, e := states[i - 1], events[i - 1];
      match e
      case Request(_, _, _, _, _) =>
        if Watched(w, e) { WatchedRequest(w, slack, loss, s, e); } else { OtherRequest(w, slack, loss, s, e); }
      case Clear(route) =>
        ClearRemovesExactlyTheRoute(s.table, route, w.route, w.client);
    }
  }

  // ---------------------------------------------------------------- the theorems

  /** The admissions in the closed interval from `start` to `start + length`. */
  ghost function AdmittedDuring(admitted: seq<int>, start: int, length: int): set<int> {
    set i | 0 <= i < |admitted| && start <= admitted[i] <= start + length
  }

  ghost function Range(lo: int, hi: int): (r: set<int>)
    requires lo <= hi
    ensures |r| == hi - lo && forall i :: i in r <==> lo <= i < hi
    decreases hi - lo
  {
    if lo == hi then {} else Range(lo, hi - 1) + {hi - 1}
  }

  lemma {:induction false} FirstOf(s: set<int>) returns (first: int)
    requires |s| > 0
    ensures first in s && forall x | x in s :: first <= x
    decreases |s|
  {
    var x := Element(s);
    if s == {x} {
      first := x;
    } else {
      var y := FirstOf(s - {x});
      assert s == (s - {x}) + {x};
      first := if x < y then x else y;
    }
  }

  lemma FewTogether(w: Watch, gap: int, admitted: seq<int>, start: int, length: int)
    requires Bounded(w, gap, admitted) && length <= gap
    ensures |AdmittedDuring(admitted, start, length)| <= 2 * w.limit
  {
    var during := AdmittedDuring(admitted, start, length);
    if |during| > 0 {
      var lo := FirstOf(during);
      assert forall k | k in during :: k < lo + 2 * w.limit;
      SubsetSize(during, Range(lo, lo + 2 * w.limit));
    }
  }

  /** Over every run, whatever other buckets and routes do: with readings at most `slack` out of order, any interval
      that is two slacks shorter than the period admits at most 2 * limit requests of a bucket. */
  lemma AtMostTwiceTheLimit(w: Watch, slack: nat, states: seq<System>, events: seq<Event>, i: nat, start: int, length: int)
    requires Run(w, slack, states, events) && 0 < w.perSec && i < |states| && length <= Period(w) - 2 * slack
    ensures |AdmittedDuring(states[i].admitted, start, length)| <= 2 * w.limit
  {
    if length < 0 {
      assert AdmittedDuring(states[i].admitted, start, length) == {};
    } else {
      RunIsGood(w, slack, slack, states, events, i);
      FewTogether(w, Period(w) - 2 * slack, states[i].admitted, start, length);
    }
  }

  /** One slack shorter is enough as long as the table is never full. */
  lemma AtMostTwiceTheLimitRoomy(w: Watch, slack: nat, states: seq<System>, events: seq<Event>, i: nat, start: int, length: int)
    requires Run(w, slack, states, events) && Roomy(states) && 0 < w.perSec && i < |states|
    requires length <= Period(w) - slack
    ensures |AdmittedDuring(states[i].admitted, start, length)| <= 2 * w.limit
  {
    RunIsGood(w, slack, 0, states, events, i);
    FewTogether(w, Period(w) - slack, states[i].admitted, start, length);
  }

  /** The table never has more than 100000 entries, whatever the limits and periods. */
  lemma {:induction false} TableNeverOverfull(w: Watch, slack: nat, states: seq<System>, events: seq<Event>, i: nat)
    requires Run(w, slack, states, events) && i < |states|
    ensures |states[i].table| <= 100000
  {
    if i > 0 {
      TableNeverOverfull(w, slack, states, events, i - 1);
      var t := states[i - 1].table;
      match events[i - 1]
      case Request(route, client, limit, perSec, now) =>
        TableStaysBounded(t, BucketKey(route, client), limit, perSec, now);
      case Clear(route) =>
        SubsetSize(ClearRoute(t, route).Keys, t.Keys);
    }
  }

  /** The bucket a refusal leaves behind expires before the promised time. */
  lemma RefusalNamesExpiry(t: Table, key: string, limit: int, perSec: int, now: int)
    requires 0 < perSec && !Allow(t, key, limit, perSec, now).1.allowed && key in Allow(t, key, limit, perSec, now).0
    ensures var (t', a) := Allow(t, key, limit, perSec, now);
      t'[key].expires < now + a.retryAfter * Second && 1 <= a.retryAfter
  {
    var (t', a) := Allow(t, key, limit, perSec, now);
    var left := t'[key].expires - now;
    assert left < (left / Second + 1) * Second;
  }

  /** Retry-After is the whole second in which the window ends, and not one later; for a table full of live buckets it is
      the period. */
  lemma RetryAfterIsTight(t: Table, key: string, limit: int, perSec: int, now: int)
    requires 0 < perSec && !Allow(t, key, limit, perSec, now).1.allowed
    ensures var (t', a) := Allow(t, key, limit, perSec, now);
      && (key in t' ==>
            now < t'[key].expires && now + (a.retryAfter - 1) * 1_000_000_000 <= t'[key].expires < now + a.retryAfter * 1_000_000_000)
      && (key !in t' ==> a.retryAfter == perSec)
  {
    var (t', a) := Allow(t, key, limit, perSec, now);
    if key in t' {
      var left := t'[key].expires - now;
      assert left / Second * Second <= left < (left / Second + 1) * Second;
    }
  }

  /** With fewer than 100000 entries a new client is let in, and its window ends a period later. */
  lemma NewClientIsAdmitted(t: Table, key: string, limit: int, perSec: int, now: int)
    requires 0 < perSec && 0 < limit && key !in t && |t| < 100000
    ensures var (t', a) := Allow(t, key, limit, perSec, now);
      a.allowed && t' == t[key := Entry(1, now + perSec * 1_000_000_000)]
  {
    OwnBucket(t, key, limit, perSec, now);
  }

  /** Until its next request a bucket keeps the entry it had, or loses it. */
  lemma {:induction false} EntryKept(w: Watch, slack: nat, states: seq<System>, events: seq<Event>, i: nat, j: nat)
    requires Run(w, slack, states, events) && i <= j < |states| && (forall k | i <= k < j :: !Watched(w, events[k]))
    ensures WatchedKey(w) in states[j].table ==>
      WatchedKey(w) in states[i].table && states[j].table[WatchedKey(w)] == states[i].table[WatchedKey(w)]
    decreases j
  {
    if i < j {
      EntryKept(w, slack, states, events, i, j - 1);
      var s, e := states[j - 1], events[j - 1];
      if e.Request? {
        if BucketKey(e.route, e.client) == WatchedKey(w) { BucketKeyInjective(e.route, e.client, w.route, w.client); }
        OtherBucketKept(s.table, BucketKey(e.route, e.client), WatchedKey(w), e.limit, e.perSec, e.now);
      }
    }
  }

  /** A caller refused on count that comes back after Retry-After, with no request of its bucket in between, is
      admitted, unless its bucket is gone and the table is full of live ones. */
  lemma RetryAfterIsEnough(w: Watch, slack: nat, states: seq<System>, events: seq<Event>, i: nat, j: nat)
    requires Run(w, slack, states, events) && 0 < w.perSec && 0 < w.limit && i < j < |events|
    requires Watched(w, events[i]) && Watched(w, events[j]) && (forall k | i < k < j :: !Watched(w, events[k]))
    requires var a := Allow(states[i].table, WatchedKey(w), w.limit, w.perSec, events[i].now).1;
      && !a.allowed && WatchedKey(w) in states[i + 1].table
      && events[i].now + a.retryAfter * Second <= events[j].now
    ensures var r := Allow(states[j].table, WatchedKey(w), w.limit, w.perSec, events[j].now);
      r.1.allowed || (WatchedKey(w) !in states[j].table && |Found(states[j].table, WatchedKey(w), w.perSec, events[j].now).0| >= MaxEntries)
  {
    RefusalNamesExpiry(states[i].table, WatchedKey(w), w.limit, w.perSec, events[i].now);
    EntryKept(w, slack, states, events, i + 1, j);
  }

  // ---------------------------------------------------------------- the limiter itself

  class RateLimiter {
    var entries: Table

    constructor ()
      ensures entries == map[]
    {
      entries := map[];
    }

    /** Visits the keys in any order and erases those whose window is over. */
    method EraseExpired(now: int)
      modifies this
      ensures entries == Sweep(old(entries), now)
    {
      var todo := entries.Keys;
      while todo != {}
        invariant todo <= entries.Keys
        invariant entries.Keys <= old(entries.Keys) && forall k | k in entries :: entries[k] == old(entries)[k]
        invariant forall k | k in entries && k !in todo :: entries[k].expires > now
        invariant forall k | k in old(entries) && k !in entries :: old(entries)[k].expires <= now
        decreases |todo|
      {
        var k :| k in todo;
        todo := todo - {k};
        if entries[k].expires <= now { entries := entries - {k}; }
      }
    }

    method AllowRateLimit(route: string, client: string, limit: int, perSec: int, now: int)
      returns (allowed: bool, retryAfter: int)
      modifies this
      ensures (entries, Answer(allowed, retryAfter)) == Allow(old(entries), BucketKey(route, client), limit, perSec, now)
    {
      var key := BucketKey(route, client);
      retryAfter := Max(1, perSec);
      if key !in entries {
        if |entries| >= MaxEntries { EraseExpired(now); }
        if |entries| >= MaxEntries { return false, retryAfter; }
        entries := entries[key := Entry(0, now + perSec * Second)];
      }
      ghost var found := entries;
      if entries[key].expires <= now { entries := entries[key := Entry(0, now + perSec * Second)]; }
      var e := entries[key];
      assert entries == found[key := e];
      retryAfter := Max(1, (e.expires - now) / Second + 1);
      if e.count >= limit { return false, retryAfter; }
      assert found[key := e][key := e.(count := e.count + 1)] == found[key := e.(count := e.count + 1)];
      entries := entries[key := e.(count := e.count + 1)];
      return true, retryAfter;
    }

    method ClearRouteRateLimit(route: string)
      modifies this
      ensures entries == ClearRoute(old(entries), route)
    {
      var prefix := RoutePrefix(route);
      var todo := entries.Keys;
      while todo != {}
        invariant todo <= entries.Keys
        invariant entries.Keys <= old(entries.Keys) && forall k | k in entries :: entries[k] == old(entries)[k]
        invariant forall k | k in entries && k !in todo :: !(prefix <= k)
        invariant forall k | k in old(entries) && k !in entries :: prefix <= k
        decreases |todo|
      {
        var k :| k in todo;
        todo := todo - {k};
        if prefix <= k { entries := entries - {k}; }
      }
    }
  }
}
