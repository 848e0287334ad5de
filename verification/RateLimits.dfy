/**
 The sliding-window limiter of incoming connections, by source address. It forgets lazily and
 sweeps now and then; it is compared with a naive limiter that remembers every acceptance for ever.
 */
module RateLimits {
  import opened Basics

  datatype IpAddr = IpAddr(octets: seq<byte>)

  datatype Limits = Limits(maxPerWindow: nat, window: nat, maxTrackedIps: nat)

  datatype Table = Table(hits: map<IpAddr, seq<nat>>, exempt: set<IpAddr>, lastSweep: nat)

  /** Drops the leading instants older than the window. */
  function Prune(hits: seq<nat>, now: nat, window: nat): seq<nat> {
    if hits != [] && SaturatingSub(now, hits[0]) > window then Prune(hits[1..], now, window) else hits
  }

  function SweptHits(hits: map<IpAddr, seq<nat>>, now: nat, window: nat): map<IpAddr, seq<nat>> {
    map ip | ip in hits && Prune(hits[ip], now, window) != [] :: Prune(hits[ip], now, window)
  }

  function Sweep(c: Limits, t: Table, now: nat): Table {
    t.(hits := SweptHits(t.hits, now, c.window), lastSweep := now)
  }

  /** The periodic sweep, when it is due. */
  function Refresh(c: Limits, t: Table, now: nat): Table {
    if SaturatingSub(now, t.lastSweep) >= c.window then Sweep(c, t, now) else t
  }

  function HitsOf(t: Table, ip: IpAddr): seq<nat> {
    if ip in t.hits then t.hits[ip] else []
  }

  /** No room for the untracked address `ip`. */
  predicate Full(c: Limits, t: Table, ip: IpAddr) {
    ip !in t.hits && |t.hits| >= c.maxTrackedIps
  }

  /** Counts the attempt against what is left of the address's own window. */
  function Tally(c: Limits, t: Table, ip: IpAddr, now: nat): (Table, bool) {
    var kept := Prune(HitsOf(t, ip), now, c.window);
    var admitted := |kept| < c.maxPerWindow;
    (t.(hits := t.hits[ip := if admitted then kept + [now] else kept]), admitted)
  }

  function AllowAt(c: Limits, t: Table, ip: IpAddr, now: nat): (Table, bool) {
    if ip in t.exempt then (t, true)
    else
      var t1 := Refresh(c, t, now);
      var t2 := if Full(c, t1, ip) then Sweep(c, t1, now) else t1;
      if Full(c, t2, ip) then (t2, false) else Tally(c, t2, ip, now)
  }

  // ---- Runs and the log of acceptances -----------------------------------------------------------

  datatype Call = Attempt(ip: IpAddr, now: nat) | Exempt(ip: IpAddr)

  /** The instants at which each address was accepted and counted, for ever. */
  type Log = map<IpAddr, seq<nat>>

  function Times(log: Log, ip: IpAddr): seq<nat> {
    if ip in log then log[ip] else []
  }

  function After(c: Limits, start: nat, calls: seq<Call>): (Table, Log) {
    if calls == [] then (Table(map[], {}, start), map[])
    else
      var (t, log) := After(c, start, calls[..|calls| - 1]);
      match calls[|calls| - 1]
      case Exempt(ip) => (t.(exempt := t.exempt + {ip}), log)
      case Attempt(ip, now) =>
        var (t', ok) := AllowAt(c, t, ip, now);
        (t', if ok && ip !in t.exempt then log[ip := Times(log, ip) + [now]] else log)
  }

  /** The instant of the last attempt, or the creation of the limiter. */
  function Clock(start: nat, calls: seq<Call>): nat {
    if calls == [] then start
    else if calls[|calls| - 1].Attempt? then calls[|calls| - 1].now
    else Clock(start, calls[..|calls| - 1])
  }

  /** The clock does not run backwards. */
  ghost predicate Monotone(start: nat, calls: seq<Call>) {
    calls != [] ==>
      var before := calls[..|calls| - 1];
      && Monotone(start, before)
      && (calls[|calls| - 1].Attempt? ==> Clock(start, before) <= calls[|calls| - 1].now)
  }

  /** How many of the instants lie in the closed interval from `lo` to `hi`. */
  function Count(f: seq<nat>, lo: int, hi: int): nat {
    if f == [] then 0
    else Count(f[..|f| - 1], lo, hi) + if lo <= f[|f| - 1] <= hi then 1 else 0
  }

  /** The naive limiter: fewer than the maximum were accepted within the last window. */
  predicate NaiveAllows(c: Limits, log: Log, ip: IpAddr, now: nat) {
    Count(Times(log, ip), now - c.window, now) < c.maxPerWindow
  }

  /** The addresses with an acceptance within the last window. */
  function Active(c: Limits, log: Log, now: nat): set<IpAddr> {
    set ip | ip in log && Count(log[ip], now - c.window, now) > 0
  }

  // ---- Instants in order -----------------------------------------------------------------------

  ghost predicate Sorted(f: seq<nat>) {
    forall i, j | 0 <= i < j < |f| :: f[i] <= f[j]
  }

  lemma {:induction false} CountSplit(f: seq<nat>, g: seq<nat>, lo: int, hi: int)
    ensures Count(f + g, lo, hi) == Count(f, lo, hi) + Count(g, lo, hi)
  {
    if g == [] {
      assert f + g == f;
    } else {
      CountSplit(f, g[..|g| - 1], lo, hi);
      assert (f + g)[..|f + g| - 1] == f + g[..|g| - 1];
    }
  }

  lemma {:induction false} CountAll(f: seq<nat>, lo: int, hi: int)
    ensures Count(f, lo, hi) <= |f|
    ensures (forall i | 0 <= i < |f| :: lo <= f[i] <= hi) ==> Count(f, lo, hi) == |f|
    ensures (forall i | 0 <= i < |f| :: !(lo <= f[i] <= hi)) ==> Count(f, lo, hi) == 0
  {
    if f != [] {
      var front := f[..|f| - 1];
      CountAll(front, lo, hi);
      assert forall i | 0 <= i < |front| :: front[i] == f[i];
    }
  }

  /** Pruning keeps a suffix: exactly the instants within the window, when they are in order. */
  lemma {:induction false} PruneExact(f: seq<nat>, now: nat, window: nat)
    requires Sorted(f)
    ensures var k := Prune(f, now, window);
            && |k| <= |f| && k == f[|f| - |k|..]
            && (forall i | 0 <= i < |f| - |k| :: f[i] + window < now)
            && (forall i | |f| - |k| <= i < |f| :: now <= f[i] + window)
  {
    if f != [] && SaturatingSub(now, f[0]) > window {
      PruneExact(f[1..], now, window);
      var k := Prune(f[1..], now, window);
      assert forall i | 1 <= i < |f| :: f[i] == f[1..][i - 1];
    }
  }

  /** Only a suffix of the instants lies in the interval. */
  lemma CountSuffix(f: seq<nat>, d: nat, lo: int, hi: int)
    requires d <= |f|
    requires forall i | 0 <= i < d :: f[i] < lo
    requires forall i | d <= i < |f| :: lo <= f[i] <= hi
    ensures Count(f, lo, hi) == |f| - d
  {
    hide Count;
    CountSplit(f[..d], f[d..], lo, hi);
    CountAll(f[..d], lo, hi);
    CountAll(f[d..], lo, hi);
    assert f == f[..d] + f[d..];
  }

  lemma PruneCounts(f: seq<nat>, now: nat, window: nat)
    requires Sorted(f) && forall i | 0 <= i < |f| :: f[i] <= now
    ensures |Prune(f, now, window)| == Count(f, now - window, now)
  {
    hide Count, Prune;
    PruneExact(f, now, window);
    CountSuffix(f, |f| - |Prune(f, now, window)|, now - window, now);
  }

  // ---- What the table remembers of the log -----------------------------------------------------------

  /** `h` is `f` without some leading instants, all older than the window at `clock`. */
  ghost predicate Remembers(h: seq<nat>, f: seq<nat>, clock: nat, window: nat) {
    && |h| <= |f| && h == f[|f| - |h|..]
    && forall i | 0 <= i < |f| - |h| :: f[i] + window < clock
  }

  /** Any `maxPerWindow + 1` successive acceptances span more than a window. */
  ghost predicate Spread(c: Limits, f: seq<nat>) {
    forall i | 0 <= i && i + c.maxPerWindow < |f| :: f[i] + c.window < f[i + c.maxPerWindow]
  }

  ghost predicate GoodTimes(c: Limits, f: seq<nat>, clock: nat) {
    Sorted(f) && Spread(c, f) && forall i | 0 <= i < |f| :: f[i] <= clock
  }

  /** What holds of the table and the log at `clock`, address by address. */
  ghost predicate Faithful(c: Limits, t: Table, log: Log, clock: nat) {
    && (forall ip :: GoodTimes(c, Times(log, ip), clock))
    && (forall ip :: Remembers(HitsOf(t, ip), Times(log, ip), clock, c.window))
  }

  /** What bounds the memory. */
  ghost predicate Bounded(c: Limits, t: Table, clock: nat) {
    && |t.hits| <= c.maxTrackedIps
    && t.lastSweep <= clock
    && (forall ip | ip in t.hits :: |t.hits[ip]| <= c.maxPerWindow)
    && (forall ip, i | ip in t.hits && 0 <= i < |t.hits[ip]| :: t.lastSweep <= t.hits[ip][i] + c.window)
  }

  /** Where an ordered history splits at the window's edge is determined. */
  lemma SplitUnique(f: seq<nat>, a: nat, b: nat, now: nat, window: nat)
    requires a <= |f| && b <= |f|
    requires forall i | 0 <= i < |f| :: f[i] + window < now <==> i < a
    requires forall i | 0 <= i < |f| :: f[i] + window < now <==> i < b
    ensures a == b
  {
    assert a < |f| ==> 0 <= f[a];
    assert b < |f| ==> 0 <= f[b];
  }

  /** Pruning what is remembered is pruning the whole history. */
  lemma {:induction false} PruneRemembered(h: seq<nat>, f: seq<nat>, clock: nat, now: nat, window: nat)
    requires Sorted(f) && Remembers(h, f, clock, window) && clock <= now
    ensures Prune(h, now, window) == Prune(f, now, window)
    ensures Remembers(Prune(h, now, window), f, now, window)
  {
    PruneExact(f, now, window);
    assert forall i | 0 <= i < |h| :: h[i] == f[|f| - |h| + i];
    assert Sorted(h);
    PruneExact(h, now, window);
    hide Prune, Sorted;
    var k, l := Prune(h, now, window), Prune(f, now, window);
    SuffixSplit(h, f, |k|, clock, now, window);
    SplitUnique(f, |f| - |k|, |f| - |l|, now, window);
    assert k == f[|f| - |k|..];
  }

  /** What is split off the remembered part splits the whole history. */
  lemma SuffixSplit(h: seq<nat>, f: seq<nat>, n: nat, clock: nat, now: nat, window: nat)
    requires Remembers(h, f, clock, window) && clock <= now && n <= |h|
    requires forall i | 0 <= i < |h| - n :: h[i] + window < now
    requires forall i | |h| - n <= i < |h| :: now <= h[i] + window
    ensures forall i | 0 <= i < |f| :: f[i] + window < now <==> i < |f| - n
  {
    var d := |f| - |h|;
    forall i | 0 <= i < |f| ensures f[i] + window < now <==> i < |f| - n {
      if i >= d {
        assert h[i - d] == f[i];
      }
    }
  }

  lemma SweepFaithful(c: Limits, t: Table, log: Log, clock: nat, now: nat)
    requires Faithful(c, t, log, clock) && clock <= now
    ensures Faithful(c, Sweep(c, t, now), log, now)
    ensures Sweep(c, t, now).hits.Keys == Active(c, log, now)
  {
    var s := Sweep(c, t, now);
    forall ip
      ensures GoodTimes(c, Times(log, ip), now) && Remembers(HitsOf(s, ip), Times(log, ip), now, c.window)
      ensures ip in s.hits <==> ip in Active(c, log, now)
    {
      var f := Times(log, ip);
      assert GoodTimes(c, f, clock);
      PruneRemembered(HitsOf(t, ip), f, clock, now, c.window);
      PruneCounts(f, now, c.window);
      assert HitsOf(s, ip) == Prune(HitsOf(t, ip), now, c.window);
    }
  }

  lemma SweepBounded(c: Limits, t: Table, clock: nat, now: nat)
    requires Bounded(c, t, clock) && clock <= now && (forall ip | ip in t.hits :: Sorted(t.hits[ip]))
    ensures Bounded(c, Sweep(c, t, now), now)
  {
    var s := Sweep(c, t, now);
    assert |s.hits| == |s.hits.Keys| && |t.hits| == |t.hits.Keys|;
    SubsetCardinality(s.hits.Keys, t.hits.Keys);
    hide Prune, Sorted;
    forall ip | ip in s.hits
      ensures |s.hits[ip]| <= c.maxPerWindow && forall i | 0 <= i < |s.hits[ip]| :: now <= s.hits[ip][i] + c.window
    {
      PruneRecent(t.hits[ip], now, c.window);
    }
  }

  lemma PruneRecent(h: seq<nat>, now: nat, window: nat)
    requires Sorted(h)
    ensures var k := Prune(h, now, window);
            |k| <= |h| && forall i | 0 <= i < |k| :: now <= k[i] + window
  {
    PruneExact(h, now, window);
    hide Prune, Sorted;
    var k := Prune(h, now, window);
    forall i | 0 <= i < |k| ensures now <= k[i] + window {
      var j := |h| - |k| + i;
      assert k[i] == h[j] && |h| - |k| <= j < |h|;
    }
  }

  lemma LaterFaithful(c: Limits, t: Table, log: Log, clock: nat, now: nat)
    requires Faithful(c, t, log, clock) && clock <= now
    ensures Faithful(c, t, log, now)
  {
    forall ip
      ensures GoodTimes(c, Times(log, ip), now) && Remembers(HitsOf(t, ip), Times(log, ip), now, c.window)
    {
      assert GoodTimes(c, Times(log, ip), clock) && Remembers(HitsOf(t, ip), Times(log, ip), clock, c.window);
    }
  }

  /** What is remembered is in order, being part of an ordered history. */
  lemma HitsSorted(c: Limits, t: Table, log: Log, clock: nat, ip: IpAddr)
    requires Faithful(c, t, log, clock)
    ensures Sorted(HitsOf(t, ip)) && forall i | 0 <= i < |HitsOf(t, ip)| :: HitsOf(t, ip)[i] <= clock
  {
    var h, f := HitsOf(t, ip), Times(log, ip);
    assert GoodTimes(c, f, clock) && Remembers(h, f, clock, c.window);
    assert forall i | 0 <= i < |h| :: h[i] == f[|f| - |h| + i];
  }

  /** The table an attempt is counted against, after the sweeps it may trigger. */
  function Prepared(c: Limits, t: Table, ip: IpAddr, now: nat): Table {
    var t1 := Refresh(c, t, now);
    if Full(c, t1, ip) then Sweep(c, t1, now) else t1
  }

  lemma AllSorted(c: Limits, t: Table, log: Log, clock: nat)
    requires Faithful(c, t, log, clock)
    ensures forall ip | ip in t.hits :: Sorted(t.hits[ip])
  {
    forall ip | ip in t.hits ensures Sorted(t.hits[ip]) {
      HitsSorted(c, t, log, clock, ip);
    }
  }

  /** A sweep keeps everything, and leaves the addresses active by the log, which were tracked before. */
  lemma SweepGood(c: Limits, t: Table, log: Log, clock: nat, now: nat)
    requires Faithful(c, t, log, clock) && Bounded(c, t, clock) && clock <= now
    ensures var s := Sweep(c, t, now);
            && Faithful(c, s, log, now) && Bounded(c, s, now)
            && s.hits.Keys == Active(c, log, now) && s.hits.Keys <= t.hits.Keys && |s.hits| <= |t.hits|
            && s.exempt == t.exempt && s.lastSweep == now
  {
    hide Faithful, Active, Prune, Sorted;
    AllSorted(c, t, log, clock);
    SweepFaithful(c, t, log, clock, now);
    SweepBounded(c, t, clock, now);
    var s := Sweep(c, t, now);
    assert |s.hits| == |s.hits.Keys| && |t.hits| == |t.hits.Keys|;
    SubsetCardinality(s.hits.Keys, t.hits.Keys);
  }

  lemma RefreshGood(c: Limits, t: Table, log: Log, clock: nat, now: nat)
    requires Faithful(c, t, log, clock) && Bounded(c, t, clock) && clock <= now
    ensures var t1 := Refresh(c, t, now);
            && Faithful(c, t1, log, now) && Bounded(c, t1, now)
            && t1.exempt == t.exempt && now <= t1.lastSweep + c.window
  {
    hide Faithful, Sweep, Active;
    SweepGood(c, t, log, clock, now);
    LaterFaithful(c, t, log, clock, now);
  }

  /** After the due sweeps: everything faithful at `now`, and the room judged as the log would judge it. */
  lemma PreparedGood(c: Limits, t: Table, log: Log, clock: nat, ip: IpAddr, now: nat)
    requires Faithful(c, t, log, clock) && Bounded(c, t, clock) && clock <= now
    ensures var t2 := Prepared(c, t, ip, now);
            && Faithful(c, t2, log, now) && Bounded(c, t2, now)
            && t2.exempt == t.exempt && now <= t2.lastSweep + c.window
            && (Full(c, t2, ip) <==> ip !in Refresh(c, t, now).hits && |Active(c, log, now)| >= c.maxTrackedIps)
  {
    hide Faithful, Bounded, Sweep, Refresh, Active;
    var t1 := Refresh(c, t, now);
    RefreshGood(c, t, log, clock, now);
    SweepGood(c, t1, log, now, now);
    var s := Sweep(c, t1, now);
    assert |s.hits| == |s.hits.Keys|;
  }

  /** The instants kept for an address are those the naive limiter counts. */
  lemma {:induction false} KeptExact(c: Limits, h: seq<nat>, f: seq<nat>, now: nat)
    requires GoodTimes(c, f, now) && Remembers(h, f, now, c.window)
    ensures var kept := Prune(h, now, c.window);
            && |kept| == Count(f, now - c.window, now)
            && kept == Prune(f, now, c.window) && Remembers(kept, f, now, c.window)
  {
    hide Prune, Count, Remembers, Sorted, Spread;
    PruneRemembered(h, f, now, now, c.window);
    PruneCounts(f, now, c.window);
  }

  /** Faithfulness is kept by an update at one address that keeps it there. */
  lemma UpdateFaithful(c: Limits, t: Table, log: Log, t': Table, log': Log, ip: IpAddr, now: nat)
    requires Faithful(c, t, log, now)
    requires forall a | a != ip :: HitsOf(t', a) == HitsOf(t, a) && Times(log', a) == Times(log, a)
    requires GoodTimes(c, Times(log', ip), now) && Remembers(HitsOf(t', ip), Times(log', ip), now, c.window)
    ensures Faithful(c, t', log', now)
  {
    hide GoodTimes, Remembers, HitsOf, Times;
    forall a ensures GoodTimes(c, Times(log', a), now) && Remembers(HitsOf(t', a), Times(log', a), now, c.window) {
      if a != ip {
        assert HitsOf(t', a) == HitsOf(t, a) && Times(log', a) == Times(log, a);
      }
    }
  }

  lemma FaithfulAt(c: Limits, t: Table, log: Log, clock: nat, ip: IpAddr)
    requires Faithful(c, t, log, clock)
    ensures GoodTimes(c, Times(log, ip), clock) && Remembers(HitsOf(t, ip), Times(log, ip), clock, c.window)
  {
    hide GoodTimes, Remembers;
  }

  lemma {:induction false} CountFaithful(c: Limits, t: Table, log: Log, ip: IpAddr, now: nat)
    requires Faithful(c, t, log, now)
    ensures var (t', ok) := Tally(c, t, ip, now);
            var log' := if ok then log[ip := Times(log, ip) + [now]] else log;
            Faithful(c, t', log', now) && (ok <==> NaiveAllows(c, log, ip, now))
  {
    hide Prune, Count, GoodTimes, Remembers, Faithful;
    var h, f := HitsOf(t, ip), Times(log, ip);
    var (t', ok) := Tally(c, t, ip, now);
    var kept := Prune(h, now, c.window);
    FaithfulAt(c, t, log, now, ip);
    KeptExact(c, h, f, now);
    if ok {
      AppendGood(c, kept, f, now);
      UpdateFaithful(c, t, log, t', log[ip := f + [now]], ip, now);
    } else {
      UpdateFaithful(c, t, log, t', log, ip, now);
    }
  }

  /** Counting an attempt keeps everything, whether it is accepted or not, and decides as the naive limiter. */
  lemma {:induction false} CountGood(c: Limits, t: Table, log: Log, ip: IpAddr, now: nat)
    requires Faithful(c, t, log, now) && Bounded(c, t, now) && !Full(c, t, ip)
    ensures var (t', ok) := Tally(c, t, ip, now);
            var log' := if ok then log[ip := Times(log, ip) + [now]] else log;
            && Faithful(c, t', log', now) && Bounded(c, t', now)
            && t'.exempt == t.exempt && t'.lastSweep == t.lastSweep
            && (ok <==> NaiveAllows(c, log, ip, now))
  {
    hide Faithful, Prune;
    CountFaithful(c, t, log, ip, now);
    HitsSorted(c, t, log, now, ip);
    CountBounded(c, t, ip, now);
  }

  lemma AppendGood(c: Limits, kept: seq<nat>, f: seq<nat>, now: nat)
    requires GoodTimes(c, f, now) && kept == Prune(f, now, c.window) && |kept| < c.maxPerWindow
    requires Remembers(kept, f, now, c.window)
    ensures GoodTimes(c, f + [now], now)
    ensures Remembers(kept + [now], f + [now], now, c.window)
  {
    var g := f + [now];
    PruneExact(f, now, c.window);
    forall i | 0 <= i && i + c.maxPerWindow < |g| ensures g[i] + c.window < g[i + c.maxPerWindow] {
      if i + c.maxPerWindow == |f| {
        assert i < |f| - |kept|;
      }
    }
    assert g[|g| - |kept| - 1..] == kept + [now];
  }

  lemma CountBounded(c: Limits, t: Table, ip: IpAddr, now: nat)
    requires Bounded(c, t, now) && !Full(c, t, ip) && Sorted(HitsOf(t, ip))
    ensures Bounded(c, Tally(c, t, ip, now).0, now)
  {
    hide Prune, Sorted;
    PruneRecent(HitsOf(t, ip), now, c.window);
    var t' := Tally(c, t, ip, now).0;
    assert t'.hits.Keys == t.hits.Keys + {ip};
    assert |t'.hits| == |t'.hits.Keys| && |t.hits| == |t.hits.Keys|;
    assert |t'.hits[ip]| <= c.maxPerWindow;
    assert forall i | 0 <= i < |t'.hits[ip]| :: t.lastSweep <= t'.hits[ip][i] + c.window;
  }

  lemma {:induction false} RunGood(c: Limits, start: nat, calls: seq<Call>)
    requires Monotone(start, calls)
    ensures var (t, log) := After(c, start, calls);
            Faithful(c, t, log, Clock(start, calls)) && Bounded(c, t, Clock(start, calls))
  {
    if calls != [] {
      var before, last := calls[..|calls| - 1], calls[|calls| - 1];
      RunGood(c, start, before);
      var (t, log) := After(c, start, before);
      var clock := Clock(start, before);
      match last
      case Exempt(ip) =>
        var t' := t.(exempt := t.exempt + {ip});
        assert forall a :: HitsOf(t', a) == HitsOf(t, a);
      case Attempt(ip, now) =>
        AttemptGood(c, t, log, clock, ip, now);
    }
  }

  lemma {:induction false} AttemptGood(c: Limits, t: Table, log: Log, clock: nat, ip: IpAddr, now: nat)
    requires Faithful(c, t, log, clock) && Bounded(c, t, clock) && clock <= now
    ensures var (t', ok) := AllowAt(c, t, ip, now);
            var log' := if ok && ip !in t.exempt then log[ip := Times(log, ip) + [now]] else log;
            && Faithful(c, t', log', now) && Bounded(c, t', now)
            && (ip !in t.exempt ==> now <= t'.lastSweep + c.window)
            && (ip !in t.exempt ==>
                  (ok <==> NaiveAllows(c, log, ip, now)
                           && !(ip !in Refresh(c, t, now).hits && |Active(c, log, now)| >= c.maxTrackedIps)))
  {
    if ip in t.exempt {
      LaterFaithful(c, t, log, clock, now);
    } else {
      var t2 := Prepared(c, t, ip, now);
      PreparedGood(c, t, log, clock, ip, now);
      assert AllowAt(c, t, ip, now) == if Full(c, t2, ip) then (t2, false) else Tally(c, t2, ip, now);
      if !Full(c, t2, ip) {
        CountGood(c, t2, log, ip, now);
      }
    }
  }

  // ---- The main results ------------------------------------------------------------------------

  /**
   After any calls, the limiter decides the next attempt of a non-exempt address as the naive
   limiter does on the log of its acceptances, with one exception: the address is not tracked and,
   with everything stale forgotten, at least `maxTrackedIps` addresses were accepted within the
   last window. So it never accepts what the naive limiter refuses.
   */
  lemma {:induction false} LimiterMatchesNaive(c: Limits, start: nat, calls: seq<Call>, ip: IpAddr, now: nat)
    requires Monotone(start, calls) && Clock(start, calls) <= now
    requires ip !in After(c, start, calls).0.exempt
    ensures var (t, log) := After(c, start, calls);
            AllowAt(c, t, ip, now).1 <==>
            && Count(Times(log, ip), now - c.window, now) < c.maxPerWindow
            && !(ip !in Refresh(c, t, now).hits && |Active(c, log, now)| >= c.maxTrackedIps)
  {
    hide AllowAt, After, Monotone, Clock, Active, Refresh, Count, Faithful, Bounded;
    RunGood(c, start, calls);
    var (t, log) := After(c, start, calls);
    AttemptGood(c, t, log, Clock(start, calls), ip, now);
  }

  /**
   An address is exempt from the call that exempts it on. From then on every attempt of it is
   admitted, and neither counted nor logged nor a reason to sweep.
   */
  lemma {:induction false} ExemptAlwaysAdmitted(c: Limits, start: nat, calls: seq<Call>, ip: IpAddr, now: nat)
    ensures ip in After(c, start, calls).0.exempt <==> Exempt(ip) in calls
    ensures Exempt(ip) in calls ==>
              && AllowAt(c, After(c, start, calls).0, ip, now) == (After(c, start, calls).0, true)
              && After(c, start, calls + [Attempt(ip, now)]) == After(c, start, calls)
  {
    hide Refresh, Full, Sweep, Tally;
    assert (calls + [Attempt(ip, now)])[..|calls|] == calls;
    if calls != [] {
      var before, last := calls[..|calls| - 1], calls[|calls| - 1];
      ExemptAlwaysAdmitted(c, start, before, ip, now);
      assert calls == before + [last];
      if last.Attempt? {
        ExemptKept(c, After(c, start, before).0, last.ip, last.now);
      }
    }
  }

  /** The attempts of `ip` that were accepted at an instant of the closed interval. */
  function AcceptedIn(c: Limits, start: nat, calls: seq<Call>, ip: IpAddr, lo: int, hi: int): nat {
    if calls == [] then 0
    else
      var before, last := calls[..|calls| - 1], calls[|calls| - 1];
      AcceptedIn(c, start, before, ip, lo, hi)
      + if last.Attempt? && last.ip == ip && lo <= last.now <= hi
           && AllowAt(c, After(c, start, before).0, ip, last.now).1
        then 1 else 0
  }

  lemma {:induction false} AcceptedIsLogged(c: Limits, start: nat, calls: seq<Call>, ip: IpAddr, lo: int, hi: int)
    requires ip !in After(c, start, calls).0.exempt
    ensures AcceptedIn(c, start, calls, ip, lo, hi) == Count(Times(After(c, start, calls).1, ip), lo, hi)
  {
    if calls != [] {
      var before, last := calls[..|calls| - 1], calls[|calls| - 1];
      assert ip !in After(c, start, before).0.exempt by {
        if last.Attempt? {
          ExemptKept(c, After(c, start, before).0, last.ip, last.now);
        }
      }
      AcceptedIsLogged(c, start, before, ip, lo, hi);
      var f := Times(After(c, start, before).1, ip);
      if last.Attempt? && last.ip == ip {
        assert (f + [last.now])[..|f|] == f;
      }
    }
  }

  lemma ExemptKept(c: Limits, t: Table, ip: IpAddr, now: nat)
    ensures AllowAt(c, t, ip, now).0.exempt == t.exempt
  {
  }

  /** When the last instant lies in the interval, the earlier ones in it are fewer than the maximum. */
  lemma WindowEnd(c: Limits, f: seq<nat>, lo: int)
    requires Sorted(f) && Spread(c, f) && |f| > c.maxPerWindow
    requires lo <= f[|f| - 1] <= lo + c.window
    ensures Count(f, lo, lo + c.window) <= c.maxPerWindow
  {
    hide Count, Sorted, Spread;
    var d := |f| - c.maxPerWindow;
    var old', recent := f[..d], f[d..];
    BeforeWindow(c, f, lo);
    CountAll(old', lo, lo + c.window);
    CountAll(recent, lo, lo + c.window);
    assert f == old' + recent;
    CountSplit(old', recent, lo, lo + c.window);
  }

  lemma BeforeWindow(c: Limits, f: seq<nat>, lo: int)
    requires Sorted(f) && Spread(c, f) && |f| > c.maxPerWindow && f[|f| - 1] <= lo + c.window
    ensures forall i | 0 <= i < |f| - c.maxPerWindow :: f[i] < lo
  {
    var d := |f| - c.maxPerWindow;
    assert f[d - 1] + c.window < f[d - 1 + c.maxPerWindow];
    assert forall i | 0 <= i < d :: f[i] <= f[d - 1];
  }

  lemma {:induction false} WindowCount(c: Limits, f: seq<nat>, lo: int)
    requires Sorted(f) && Spread(c, f)
    ensures Count(f, lo, lo + c.window) <= c.maxPerWindow
  {
    if |f| <= c.maxPerWindow {
      CountAll(f, lo, lo + c.window);
    } else if lo <= f[|f| - 1] <= lo + c.window {
      WindowEnd(c, f, lo);
    } else {
      WindowCount(c, f[..|f| - 1], lo);
    }
  }

  /**
   In any run with a clock that does not run backwards, in every closed interval as long as the
   window, an address that is not exempt is accepted at most `maxPerWindow` times, whatever was
   swept, forgotten and tracked anew in between.
   */
  lemma SlidingWindowSafety(c: Limits, start: nat, calls: seq<Call>, ip: IpAddr, lo: int)
    requires Monotone(start, calls) && ip !in After(c, start, calls).0.exempt
    ensures AcceptedIn(c, start, calls, ip, lo, lo + c.window) <= c.maxPerWindow
  {
    RunGood(c, start, calls);
    var f := Times(After(c, start, calls).1, ip);
    assert GoodTimes(c, f, Clock(start, calls));
    AcceptedIsLogged(c, start, calls, ip, lo, lo + c.window);
    WindowCount(c, f, lo);
  }

  /**
   The memory bound after any run: at most `maxTrackedIps` addresses, each with at most
   `maxPerWindow` instants in order; and when the last call was an attempt of an address that is
   not exempt, no instant kept is older than twice the window.
   */
  lemma MemoryBound(c: Limits, start: nat, calls: seq<Call>, ip: IpAddr)
    requires Monotone(start, calls)
    ensures var t := After(c, start, calls).0;
            && |t.hits| <= c.maxTrackedIps
            && |HitsOf(t, ip)| <= c.maxPerWindow && Sorted(HitsOf(t, ip))
            && (calls != [] && calls[|calls| - 1].Attempt? && calls[|calls| - 1].ip !in t.exempt ==>
                  forall i | 0 <= i < |HitsOf(t, ip)| :: calls[|calls| - 1].now <= HitsOf(t, ip)[i] + 2 * c.window)
  {
    hide AllowAt, Sorted;
    RunGood(c, start, calls);
    var (t, log) := After(c, start, calls);
    HitsSorted(c, t, log, Clock(start, calls), ip);
    if calls != [] && calls[|calls| - 1].Attempt? {
      var before, last := calls[..|calls| - 1], calls[|calls| - 1];
      RunGood(c, start, before);
      var (u, log') := After(c, start, before);
      AttemptGood(c, u, log', Clock(start, before), last.ip, last.now);
      ExemptKept(c, u, last.ip, last.now);
    }
  }

  // ---- The object ------------------------------------------------------------------------------

  class RateLimiter {
    const limits: Limits
    var hits: map<IpAddr, seq<nat>>
    var exempt: set<IpAddr>
    var lastSweep: nat

    ghost function Model(): Table
      reads this
    {
      Table(hits, exempt, lastSweep)
    }

    constructor (limits: Limits, now: nat)
      ensures this.limits == limits && Model() == After(limits, now, []).0
    {
      this.limits := limits;
      hits := map[];
      exempt := {};
      lastSweep := now;
    }

    method AddExemption(ip: IpAddr)
      modifies this`exempt
      ensures Model() == old(Model()).(exempt := old(exempt) + {ip})
    {
      exempt := exempt + {ip};
    }

    method PruneHits(recorded: seq<nat>, now: nat) returns (kept: seq<nat>)
      ensures kept == Prune(recorded, now, limits.window)
    {
      kept := recorded;
      while kept != [] && SaturatingSub(now, kept[0]) > limits.window
        invariant Prune(kept, now, limits.window) == Prune(recorded, now, limits.window)
        decreases |kept|
      {
        kept := kept[1..];
      }
    }

    method SweepAll(now: nat)
      modifies this`hits, this`lastSweep
      ensures Model() == Sweep(limits, old(Model()), now)
    {
      ghost var before := Model();
      var unseen := hits.Keys;
      var retained: map<IpAddr, seq<nat>> := map[];
      while unseen != {}
        invariant Model() == before && unseen <= hits.Keys
        invariant forall ip :: ip in retained <==>
                    ip in hits && ip !in unseen && Prune(hits[ip], now, limits.window) != []
        invariant forall ip | ip in retained :: retained[ip] == Prune(hits[ip], now, limits.window)
        decreases unseen
      {
        var ip :| ip in unseen;
        unseen := unseen - {ip};
        var kept := PruneHits(hits[ip], now);
        if kept != [] {
          retained := retained[ip := kept];
        }
      }
      assert retained.Keys == SweptHits(hits, now, limits.window).Keys;
      assert retained == SweptHits(hits, now, limits.window);
      hits := retained;
      lastSweep := now;
    }

    method Allow(ip: IpAddr, now: nat) returns (admitted: bool)
      modifies this`hits, this`lastSweep
      ensures ip in exempt ==> admitted && Model() == old(Model())
      ensures (Model(), admitted) == AllowAt(limits, old(Model()), ip, now)
    {
      if ip in exempt {
        return true;
      }
      if SaturatingSub(now, lastSweep) >= limits.window {
        SweepAll(now);
      }
      if ip !in hits && |hits| >= limits.maxTrackedIps {
        SweepAll(now);
        if |hits| >= limits.maxTrackedIps {
          assert ip !in hits;
          return false;
        }
      }
      var kept := PruneHits(if ip in hits then hits[ip] else [], now);
      if |kept| >= limits.maxPerWindow {
        hits := hits[ip := kept];
        return false;
      }
      hits := hits[ip := kept + [now]];
      admitted := true;
    }
  }
}
