/** How long an interval may be for the limiter's bound to hold: exactly as long as the disorder of its clock
    readings allows. */
module RateLimitExact {
  import opened Collections
  import opened Decimals
  import opened RateLimit

  /** A state of some run whose readings are at most `slack` out of order; `roomy` if its table is never full. */
  ghost predicate Reachable(w: Watch, slack: nat, roomy: bool, s: System) {
    exists states: seq<System>, events: seq<Event> ::
      Run(w, slack, states, events) && (roomy ==> Roomy(states)) && states[|events|] == s
  }

  /** Any interval of that length admits at most 2 * limit requests. */
  ghost predicate TwiceTheLimitHolds(w: Watch, slack: nat, roomy: bool, length: int) {
    forall s, start | Reachable(w, slack, roomy, s) :: |AdmittedDuring(s.admitted, start, length)| <= 2 * w.limit
  }

  // ---------------------------------------------------------------- building runs

  lemma ReachStart(w: Watch, slack: nat, roomy: bool)
    ensures Reachable(w, slack, roomy, Initial(0, slack))
  {
    var states, events := [Initial(0, slack)], [];
    assert Run(w, slack, states, events) && Roomy(states);
  }

  lemma ReachNext(w: Watch, slack: nat, roomy: bool, s: System, e: Event)
    requires Reachable(w, slack, roomy, s) && Allowed(w, slack, s, e) && (roomy ==> |Next(w, s, e).table| < MaxEntries)
    ensures Reachable(w, slack, roomy, Next(w, s, e))
  {
    var states, events :| Run(w, slack, states, events) && (roomy ==> Roomy(states)) && states[|events|] == s;
    var states', events' := states + [Next(w, s, e)], events + [e];
    assert Run(w, slack, states', events');
    assert states'[|events'|] == Next(w, s, e);
    assert roomy ==> Roomy(states');
  }

  function Hit(w: Watch, s: System, now: int): System {
    var e := Counted(s.table, WatchedKey(w), w.perSec, now);
    System(s.table[WatchedKey(w) := Charged(e, w.limit)], Max(s.clock, now),
           if e.count < w.limit then s.admitted + [now] else s.admitted, Charged(e, w.limit))
  }

  /** A request of the watched bucket. */
  lemma ReachHit(w: Watch, slack: nat, roomy: bool, s: System, now: int)
    requires Reachable(w, slack, roomy, s) && s.clock - slack <= now && 0 < w.perSec
    requires WatchedKey(w) in s.table || |s.table| < MaxEntries
    requires roomy ==> |s.table| < MaxEntries - 1
    ensures Reachable(w, slack, roomy, Hit(w, s, now))
  {
    var e := Request(w.route, w.client, w.limit, w.perSec, now);
    OwnBucket(s.table, WatchedKey(w), w.limit, w.perSec, now);
    UpdateSize(s.table, WatchedKey(w), Hit(w, s, now).window);
    assert Next(w, s, e) == Hit(w, s, now);
    ReachNext(w, slack, roomy, s, e);
  }

  function Repeat(x: int, n: nat): seq<int> {
    seq(n, i => x)
  }

  /** The state after `n` more requests in a window that has room for them. */
  function Burst(w: Watch, s: System, now: int, n: nat): System
    requires WatchedKey(w) in s.table
  {
    var e := s.table[WatchedKey(w)];
    var after := e.(count := e.count + n);
    System(s.table[WatchedKey(w) := after], if n == 0 then s.clock else Max(s.clock, now), s.admitted + Repeat(now, n), after)
  }

  lemma BurstStep(w: Watch, s: System, now: int, n: nat)
    requires n > 0 && WatchedKey(w) in s.table && s.table[WatchedKey(w)] == s.window
    requires now < s.window.expires && s.window.count + n <= w.limit
    ensures Hit(w, Burst(w, s, now, n - 1), now) == Burst(w, s, now, n)
  {
    assert Repeat(now, n) == Repeat(now, n - 1) + [now];
    Assoc(s.admitted, Repeat(now, n - 1), [now]);
  }

  lemma {:induction false} ReachBurst(w: Watch, slack: nat, roomy: bool, s: System, now: int, n: nat)
    requires Reachable(w, slack, roomy, s) && s.clock - slack <= now && 0 < w.perSec
    requires WatchedKey(w) in s.table && s.table[WatchedKey(w)] == s.window
    requires now < s.window.expires && s.window.count + n <= w.limit
    requires roomy ==> |s.table| < MaxEntries - 1
    ensures Reachable(w, slack, roomy, Burst(w, s, now, n))
    decreases n
  {
    if n == 0 {
      assert s.admitted + Repeat(now, 0) == s.admitted;
      assert Burst(w, s, now, 0) == s;
    } else {
      ReachBurst(w, slack, roomy, s, now, n - 1);
      var mid := Burst(w, s, now, n - 1);
      UpdateSize(s.table, WatchedKey(w), mid.window);
      ReachHit(w, slack, roomy, mid, now);
      BurstStep(w, s, now, n);
    }
  }

  /** `after` goes on from `before` with a window opened at one reading and filled at another. */
  predicate Filled(before: seq<int>, after: seq<int>, first: int, then_: int, n: nat) {
    var m := |before|;
    && |after| == m + n + 1 && after[m] == first
    && (forall i | 0 <= i < m :: after[i] == before[i])
    && (forall i | m < i <= m + n :: after[i] == then_)
  }

  /** Opens a window with one request, and fills it with the rest at another reading. */
  lemma OpenAndFill(w: Watch, slack: nat, roomy: bool, s: System, first: int, then_: int) returns (t: System)
    requires Reachable(w, slack, roomy, s) && 0 < w.perSec && 0 < w.limit
    requires WatchedKey(w) in s.table || |s.table| < MaxEntries
    requires WatchedKey(w) in s.table ==> s.table[WatchedKey(w)].expires <= first
    requires s.clock - slack <= first && Max(s.clock, first) - slack <= then_ < first + Period(w)
    requires roomy ==> |s.table| < MaxEntries - 2
    ensures Reachable(w, slack, roomy, t) && t.window == Entry(w.limit, first + Period(w))
    ensures t.table == s.table[WatchedKey(w) := t.window]
    ensures Filled(s.admitted, t.admitted, first, then_, w.limit - 1)
    ensures t.clock <= Max(Max(s.clock, first), then_)
  {
    ReachHit(w, slack, roomy, s, first);
    var h := Hit(w, s, first);
    UpdateSize(s.table, WatchedKey(w), h.window);
    ReachBurst(w, slack, roomy, h, then_, w.limit - 1);
    t := Burst(w, h, then_, w.limit - 1);
    assert t.table == s.table[WatchedKey(w) := t.window];
  }

  /** The admissions of three windows in a row. */
  predicate Three(admitted: seq<int>, a: int, a': int, b: int, b': int, c: int, c': int, n: nat) {
    && |admitted| == 3 * n + 3 && admitted[0] == a && admitted[n + 1] == b && admitted[2 * n + 2] == c
    && (forall i | 0 < i <= n :: admitted[i] == a')
    && (forall i | n + 1 < i <= 2 * n + 1 :: admitted[i] == b')
    && (forall i | 2 * n + 2 < i <= 3 * n + 2 :: admitted[i] == c')
  }

  lemma ThreeFilled(o: seq<int>, x: seq<int>, y: seq<int>, z: seq<int>, a: int, a': int, b: int, b': int, c: int, c': int, n: nat)
    requires o == [] && Filled(o, x, a, a', n) && Filled(x, y, b, b', n) && Filled(y, z, c, c', n)
    ensures Three(z, a, a', b, b', c, c', n)
  {
    assert forall i | 0 <= i < |x| :: z[i] == x[i];
  }

  /** The admissions that fill the three windows are 3 * n. */
  lemma ThreeTogether(admitted: seq<int>, a: int, a': int, b: int, b': int, c: int, c': int, n: nat, start: int, length: int)
    requires Three(admitted, a, a', b, b', c, c', n)
    requires start <= a' <= start + length && start <= b' <= start + length && start <= c' <= start + length
    ensures |AdmittedDuring(admitted, start, length)| >= 3 * n + if start <= b <= start + length then 1 else 0
  {
    var during := AdmittedDuring(admitted, start, length);
    var inside := start <= b <= start + length;
    var x, y, z := Range(1, n + 1), Range(if inside then n + 1 else n + 2, 2 * n + 2), Range(2 * n + 3, 3 * n + 3);
    assert x <= during;
    assert y <= during;
    assert z <= during;
    ApartSizes(x, y, z, during);
  }

  lemma ApartSizes(x: set<int>, y: set<int>, z: set<int>, all: set<int>)
    requires x <= all && y <= all && z <= all && x !! y && x !! z && y !! z
    ensures |x| + |y| + |z| <= |all|
  {
    SubsetSize(x + y + z, all);
  }

  // ---------------------------------------------------------------- the table never full

  /** The first window is filled in its last nanosecond and the second when it opens. A reading that is `d` late goes
      to the third, although the second was not over. */
  lemma LateReading(w: Watch, slack: nat, d: nat) returns (s: System)
    requires 0 < w.perSec && 0 < w.limit && d <= slack && d <= Period(w)
    ensures var p := Period(w);
      Reachable(w, slack, true, s) && Three(s.admitted, 0, p - 1, p, p, 2 * p, 2 * p - d, w.limit - 1)
  {
    var p := Period(w);
    ReachStart(w, slack, true);
    var s0 := Initial(0, slack);
    var s1 := OpenAndFill(w, slack, true, s0, 0, p - 1);
    UpdateSize(s0.table, WatchedKey(w), s1.window);
    var s2 := OpenAndFill(w, slack, true, s1, p, p);
    UpdateSize(s1.table, WatchedKey(w), s2.window);
    s := OpenAndFill(w, slack, true, s2, 2 * p, 2 * p - d);
    ThreeFilled(s0.admitted, s1.admitted, s2.admitted, s.admitted, 0, p - 1, p, p, 2 * p, 2 * p - d, w.limit - 1);
  }

  /** As long as the table is never full, the bound holds for intervals up to one slack shorter than the period, and
      for no longer ones. */
  lemma RoomyIff(w: Watch, slack: nat, length: int)
    requires 0 < w.perSec && 3 <= w.limit && 0 < length
    ensures TwiceTheLimitHolds(w, slack, true, length) <==> length <= Period(w) - slack
  {
    var p := Period(w);
    if length <= p - slack {
      forall s, start | Reachable(w, slack, true, s) ensures |AdmittedDuring(s.admitted, start, length)| <= 2 * w.limit {
        var states, events :| Run(w, slack, states, events) && Roomy(states) && states[|events|] == s;
        AtMostTwiceTheLimitRoomy(w, slack, states, events, |events|, start, length);
      }
    } else {
      var d := if slack <= p then slack else p;
      var s := LateReading(w, slack, d);
      ThreeTogether(s.admitted, 0, p - 1, p, p, 2 * p, 2 * p - d, w.limit - 1, p - 1, length);
    }
  }

  /** 2 * limit per period holds over all runs exactly when readings come in the order of the mutex. */
  lemma TwicePerPeriodIff(w: Watch, slack: nat)
    requires 0 < w.perSec && 3 <= w.limit
    ensures TwiceTheLimitHolds(w, slack, false, Period(w)) <==> slack == 0
  {
    var p := Period(w);
    if slack == 0 {
      forall s, start | Reachable(w, slack, false, s) ensures |AdmittedDuring(s.admitted, start, p)| <= 2 * w.limit {
        var states, events :| Run(w, slack, states, events) && states[|events|] == s;
        AtMostTwiceTheLimit(w, slack, states, events, |events|, start, p);
      }
    } else {
      var s := LateReading(w, slack, 1);
      assert Reachable(w, slack, false, s);
      ThreeTogether(s.admitted, 0, p - 1, p, p, 2 * p, 2 * p - 1, w.limit - 1, p - 1, p);
    }
  }

  /** For all limits and periods together, likewise. */
  lemma AllLimitsIff(slack: nat)
    ensures (forall w: Watch | 0 < w.perSec :: TwiceTheLimitHolds(w, slack, false, Period(w))) <==> slack == 0
  {
    if slack == 0 {
      forall w: Watch | 0 < w.perSec ensures TwiceTheLimitHolds(w, slack, false, Period(w)) {
        forall s, start | Reachable(w, slack, false, s) ensures |AdmittedDuring(s.admitted, start, Period(w))| <= 2 * w.limit {
          var states, events :| Run(w, slack, states, events) && states[|events|] == s;
          AtMostTwiceTheLimit(w, slack, states, events, |events|, start, Period(w));
        }
      }
    } else {
      TwicePerPeriodIff(Watch("", "", 3, 1), slack);
    }
  }

  // ---------------------------------------------------------------- a full table

  function OtherRoute(w: Watch): string {
    w.route + "x"
  }

  function OtherKey(w: Watch, i: nat): string {
    BucketKey(OtherRoute(w), Decimal(i))
  }

  function OtherPeriod(w: Watch, i: nat): int {
    if i == 0 then w.perSec else 3 * w.perSec
  }

  /** `n` other buckets made at time 0, of which the first is over when the watched one is. */
  function Others(w: Watch, n: nat): Table {
    if n == 0 then map[] else Others(w, n - 1)[OtherKey(w, n - 1) := Entry(1, OtherPeriod(w, n - 1) * Second)]
  }

  lemma OtherKeyIsOther(w: Watch, i: nat, j: nat)
    ensures OtherKey(w, i) != WatchedKey(w)
    ensures OtherKey(w, i) == OtherKey(w, j) ==> i == j
  {
    assert |OtherRoute(w)| != |w.route|;
    if OtherKey(w, i) == WatchedKey(w) { BucketKeyInjective(OtherRoute(w), Decimal(i), w.route, w.client); }
    if OtherKey(w, i) == OtherKey(w, j) {
      BucketKeyInjective(OtherRoute(w), Decimal(i), OtherRoute(w), Decimal(j));
      DecimalInjective(i, j);
    }
  }

  lemma {:induction false} OthersAre(w: Watch, n: nat, m: nat)
    requires n <= m
    ensures |Others(w, n)| == n && WatchedKey(w) !in Others(w, n) && OtherKey(w, m) !in Others(w, n)
    ensures 0 < n ==> OtherKey(w, 0) in Others(w, n) && Others(w, n)[OtherKey(w, 0)] == Entry(1, Period(w))
  {
    if n > 0 {
      OthersAre(w, n - 1, n - 1);
      OthersAre(w, n - 1, m);
      OtherKeyIsOther(w, n - 1, m);
      OtherKeyIsOther(w, n - 1, 0);
      UpdateSize(Others(w, n - 1), OtherKey(w, n - 1), Entry(1, OtherPeriod(w, n - 1) * Second));
    }
  }

  lemma {:induction false} ReachOthers(w: Watch, slack: nat, n: nat)
    requires n < MaxEntries && 0 < w.perSec
    ensures Reachable(w, slack, false, Initial(0, slack).(table := Others(w, n)))
    decreases n
  {
    if n == 0 {
      ReachStart(w, slack, false);
      assert Initial(0, slack).(table := Others(w, 0)) == Initial(0, slack);
    } else {
      ReachOthers(w, slack, n - 1);
      var s := Initial(0, slack).(table := Others(w, n - 1));
      var e := Request(OtherRoute(w), Decimal(n - 1), 1, OtherPeriod(w, n - 1), 0);
      OthersAre(w, n - 1, n - 1);
      OthersAre(w, n, n);
      OwnBucket(s.table, OtherKey(w, n - 1), 1, OtherPeriod(w, n - 1), 0);
      assert Next(w, s, e) == Initial(0, slack).(table := Others(w, n));
      ReachNext(w, slack, false, s, e);
    }
  }

  /** A new bucket in a full table sweeps away the watched one and another, both over. */
  lemma ReachSweep(w: Watch, slack: nat, s: System, now: int) returns (t: System)
    requires Reachable(w, slack, false, s) && s.clock <= now && 0 < w.perSec
    requires |s.table| == MaxEntries && OtherKey(w, MaxEntries) !in s.table
    requires WatchedKey(w) in s.table && s.table[WatchedKey(w)].expires <= now && s.table[WatchedKey(w)] == s.window
    requires OtherKey(w, 0) in s.table && s.table[OtherKey(w, 0)].expires <= now
    ensures Reachable(w, slack, false, t) && WatchedKey(w) !in t.table && |t.table| < MaxEntries
    ensures t.clock == now && t.admitted == s.admitted
  {
    var key, k, o := OtherKey(w, MaxEntries), WatchedKey(w), OtherKey(w, 0);
    var e := Request(OtherRoute(w), Decimal(MaxEntries), 1, w.perSec, now);
    OtherKeyIsOther(w, MaxEntries, 0);
    OtherKeyIsOther(w, 0, 0);
    t := Next(w, s, e);
    var swept := Sweep(s.table, now);
    assert swept.Keys <= s.table.Keys - {k, o};
    assert |s.table.Keys - {k, o}| == MaxEntries - 2;
    SubsetSize(swept.Keys, s.table.Keys - {k, o});
    AllowAfterSweep(s.table, key, 1, w.perSec, now);
    ReachNext(w, slack, false, s, e);
  }

  lemma AllowAfterSweep(t: Table, key: string, limit: int, perSec: int, now: int)
    requires key !in t && |t| >= MaxEntries && |Sweep(t, now)| < MaxEntries - 1 && 0 < perSec
    ensures var t' := Allow(t, key, limit, perSec, now).0;
      |t'| < MaxEntries && forall k | k in t' && k != key :: k in Sweep(t, now)
  {
    var e := Entry(0, now + perSec * Second);
    var swept := Sweep(t, now);
    var t' := Allow(t, key, limit, perSec, now).0;
    UpdateSize(swept, key, Charged(e, limit));
    assert t' == swept[key := Charged(e, limit)];
  }

  /** As `LateReading`, but the first window is swept away when it is over, so that a late reading opens the second
      before that time; the third then also comes earlier. */
  lemma LateAfterSweep(w: Watch, slack: nat, d: nat) returns (s: System)
    requires 0 < w.perSec && 0 < w.limit && d <= slack && 2 * d <= Period(w)
    ensures var p := Period(w);
      Reachable(w, slack, false, s) && Three(s.admitted, 0, p - 1, p - d, p, 2 * p - d, 2 * p - 2 * d, w.limit - 1)
  {
    var p, n := Period(w), MaxEntries - 1;
    ReachOthers(w, slack, n);
    OthersAre(w, n, MaxEntries);
    OtherKeyIsOther(w, MaxEntries, 0);
    OtherKeyIsOther(w, 0, 0);
    var s0 := Initial(0, slack).(table := Others(w, n));
    var s1 := OpenAndFill(w, slack, false, s0, 0, p - 1);
    UpdateSize(s0.table, WatchedKey(w), s1.window);
    var s2 := ReachSweep(w, slack, s1, p);
    var s3 := OpenAndFill(w, slack, false, s2, p - d, p);
    s := OpenAndFill(w, slack, false, s3, 2 * p - d, 2 * p - 2 * d);
    ThreeFilled(s0.admitted, s1.admitted, s3.admitted, s.admitted, 0, p - 1, p - d, p, 2 * p - d, 2 * p - 2 * d, w.limit - 1);
  }

  /** Over all runs the bound holds for intervals up to two slacks shorter than the period, and for no longer ones. */
  lemma TwiceTheLimitIff(w: Watch, slack: nat, length: int)
    requires 0 < w.perSec && 4 <= w.limit && 0 < length
    ensures TwiceTheLimitHolds(w, slack, false, length) <==> length <= Period(w) - 2 * slack
  {
    var p := Period(w);
    if length <= p - 2 * slack {
      forall s, start | Reachable(w, slack, false, s) ensures |AdmittedDuring(s.admitted, start, length)| <= 2 * w.limit {
        var states, events :| Run(w, slack, states, events) && states[|events|] == s;
        AtMostTwiceTheLimit(w, slack, states, events, |events|, start, length);
      }
    } else {
      var half := w.perSec * 500_000_000;
      assert p == 2 * half;
      var d := if slack <= half then slack else half;
      var s := LateAfterSweep(w, slack, d);
      ThreeTogether(s.admitted, 0, p - 1, p - d, p, 2 * p - d, 2 * p - 2 * d, w.limit - 1, p - 1, length);
    }
  }
}
