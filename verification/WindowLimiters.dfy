/**
 The gateway's fixed-window limiter: two shared atomics, and callers whose loads, stores and
 additions interleave in any order.
 */
module WindowLimiters {
  import opened Basics

  /** `count` is a 32-bit atomic. */
  const WRAP: nat := 0x1_0000_0000

  datatype Limits = Limits(maxPerWindow: nat, windowSecs: nat)

  // ---- Interleaved atomic steps ------------------------------------------------------------------

  /** What a caller has done: read the clock; found the window over; stored the new start; neither or both. */
  datatype Caller = Clocked(now: nat) | Expired(now: nat) | Zeroing | Counting

  datatype Shared = Shared(windowStart: nat, count: nat, callers: map<nat, Caller>)

  datatype Event =
    | Enter(caller: nat, now: nat)
    | LoadStart(caller: nat)
    | StoreStart(caller: nat)
    | StoreCount(caller: nat)
    | FetchAdd(caller: nat)

  predicate Enabled(s: Shared, e: Event) {
    match e
    case Enter(t, _) => t !in s.callers
    case LoadStart(t) => t in s.callers && s.callers[t].Clocked?
    case StoreStart(t) => t in s.callers && s.callers[t].Expired?
    case StoreCount(t) => t in s.callers && s.callers[t].Zeroing?
    case FetchAdd(t) => t in s.callers && s.callers[t].Counting?
  }

  function Step(c: Limits, s: Shared, e: Event): Shared
    requires Enabled(s, e)
  {
    match e
    case Enter(t, now) => s.(callers := s.callers[t := Clocked(now)])
    case LoadStart(t) =>
      var now := s.callers[t].now;
      s.(callers := s.callers[t :=
        if SaturatingSub(now, s.windowStart) >= c.windowSecs then Expired(now) else Counting])
    case StoreStart(t) => s.(windowStart := s.callers[t].now, callers := s.callers[t := Zeroing])
    case StoreCount(t) => s.(count := 0, callers := s.callers[t := Counting])
    case FetchAdd(t) => s.(count := (s.count + 1) % WRAP, callers := s.callers - {t})
  }

  /** The addition of `e` admits its caller. */
  predicate Admits(c: Limits, s: Shared, e: Event) {
    e.FetchAdd? && s.count < c.maxPerWindow
  }

  /** `e` puts the counter back to zero: a store, or an addition that wraps around. */
  predicate Zeroes(s: Shared, e: Event) {
    e.StoreCount? || (e.FetchAdd? && s.count == WRAP - 1)
  }

  datatype Run = Run(states: seq<Shared>, events: seq<Event>)

  ghost predicate Behaves(c: Limits, r: Run) {
    && c.maxPerWindow < WRAP
    && |r.states| == |r.events| + 1
    && r.states[0].count == 0 && r.states[0].callers == map[]
    && forall i | 0 <= i < |r.events| ::
         Enabled(r.states[i], r.events[i]) && r.states[i + 1] == Step(c, r.states[i], r.events[i])
  }

  function Admissions(c: Limits, r: Run, n: nat): nat
    requires n <= |r.events| < |r.states|
  {
    if n == 0 then 0
    else Admissions(c, r, n - 1) + if Admits(c, r.states[n - 1], r.events[n - 1]) then 1 else 0
  }

  /** Admissions since the counter was last put back to zero. */
  function AdmissionsSinceZero(c: Limits, r: Run, n: nat): nat
    requires n <= |r.events| < |r.states|
  {
    if n == 0 || Zeroes(r.states[n - 1], r.events[n - 1]) then 0
    else AdmissionsSinceZero(c, r, n - 1) + if Admits(c, r.states[n - 1], r.events[n - 1]) then 1 else 0
  }

  function Zeroings(r: Run, n: nat): nat
    requires n <= |r.events| < |r.states|
  {
    if n == 0 then 0
    else Zeroings(r, n - 1) + if Zeroes(r.states[n - 1], r.events[n - 1]) then 1 else 0
  }

  function Min(a: nat, b: nat): nat { if a <= b then a else b }

  /**
   Under every interleaving, since the counter was last zeroed exactly as many callers were admitted
   as the counter says, up to the cap; so a caller is refused only after a whole cap of admissions
   since then.
   */
  lemma {:induction false} CountExact(c: Limits, r: Run, n: nat)
    requires Behaves(c, r) && n <= |r.events|
    ensures r.states[n].count < WRAP
    ensures AdmissionsSinceZero(c, r, n) == Min(r.states[n].count, c.maxPerWindow)
    ensures n < |r.events| && r.events[n].FetchAdd? ==>
              (Admits(c, r.states[n], r.events[n]) <==> AdmissionsSinceZero(c, r, n) < c.maxPerWindow)
  {
    hide Step;
    if n > 0 {
      CountExact(c, r, n - 1);
      CountStep(c, r.states[n - 1], r.events[n - 1]);
    }
  }

  lemma CountStep(c: Limits, s: Shared, e: Event)
    requires Enabled(s, e) && s.count < WRAP && c.maxPerWindow < WRAP
    ensures var s' := Step(c, s, e);
            && s'.count < WRAP
            && Min(s'.count, c.maxPerWindow)
               == if Zeroes(s, e) then 0 else Min(s.count, c.maxPerWindow) + if Admits(c, s, e) then 1 else 0
  {
  }

  /** The counter is a 32-bit one: every addition adds one, but for the one that turns its largest value into zero. */
  lemma CounterWidth(c: Limits, r: Run, n: nat)
    requires Behaves(c, r) && n < |r.events| && r.events[n].FetchAdd?
    ensures r.states[n].count <= 0xFFFF_FFFF
    ensures r.states[n + 1].count == if r.states[n].count == 0xFFFF_FFFF then 0 else r.states[n].count + 1
  {
    CountExact(c, r, n);
  }

  lemma NextMultiple(z: nat, m: nat)
    ensures (z + 1) * m == z * m + m
  {
  }

  /** Under every interleaving, admissions stay within one cap for each zeroing of the counter and one more. */
  lemma {:induction false} InterleavedBound(c: Limits, r: Run, n: nat)
    requires Behaves(c, r) && n <= |r.events|
    ensures Admissions(c, r, n) <= Zeroings(r, n) * c.maxPerWindow + AdmissionsSinceZero(c, r, n)
    ensures Admissions(c, r, n) <= (Zeroings(r, n) + 1) * c.maxPerWindow
  {
    hide Step;
    CountExact(c, r, n);
    if n > 0 {
      InterleavedBound(c, r, n - 1);
      CountExact(c, r, n - 1);
      NextMultiple(Zeroings(r, n - 1), c.maxPerWindow);
    }
    NextMultiple(Zeroings(r, n), c.maxPerWindow);
  }

  /** Admissions since a window start was last stored, or since the beginning. */
  function AdmissionsSinceStart(c: Limits, r: Run, n: nat): nat
    requires n <= |r.events| < |r.states|
  {
    if n == 0 || r.events[n - 1].StoreStart? then 0
    else AdmissionsSinceStart(c, r, n - 1) + if Admits(c, r.states[n - 1], r.events[n - 1]) then 1 else 0
  }

  /** The counter when a window start was last stored. */
  function CountAtStart(r: Run, n: nat): nat
    requires n <= |r.events| < |r.states|
  {
    if n == 0 then 0
    else if r.events[n - 1].StoreStart? then r.states[n - 1].count
    else CountAtStart(r, n - 1)
  }

  /** The counter was zeroed after a window start was last stored. */
  predicate ZeroedSinceStart(r: Run, n: nat)
    requires n <= |r.events| < |r.states|
  {
    && n > 0 && !r.events[n - 1].StoreStart?
    && (Zeroes(r.states[n - 1], r.events[n - 1]) || ZeroedSinceStart(r, n - 1))
  }

  lemma {:induction false} SinceStartAndZero(c: Limits, r: Run, n: nat)
    requires Behaves(c, r) && n <= |r.events|
    ensures ZeroedSinceStart(r, n) ==> AdmissionsSinceStart(c, r, n) >= AdmissionsSinceZero(c, r, n)
    ensures !ZeroedSinceStart(r, n) ==>
              AdmissionsSinceZero(c, r, n) == AdmissionsSinceStart(c, r, n) + Min(CountAtStart(r, n), c.maxPerWindow)
  {
    CountExact(c, r, n);
    if n > 0 {
      SinceStartAndZero(c, r, n - 1);
      CountExact(c, r, n - 1);
    }
  }

  /**
   When the cap is one per window. A caller is refused after a whole cap of admissions since the
   window start was stored if and only if the counter was zeroed after that store, or held zero at
   it, or the cap is zero. Otherwise it is refused for what was admitted in the window before.
   */
  lemma RefusalExact(c: Limits, r: Run, n: nat)
    requires Behaves(c, r) && n < |r.events| && r.events[n].FetchAdd? && !Admits(c, r.states[n], r.events[n])
    ensures AdmissionsSinceStart(c, r, n) >= c.maxPerWindow <==>
            ZeroedSinceStart(r, n) || CountAtStart(r, n) == 0 || c.maxPerWindow == 0
  {
    CountExact(c, r, n);
    SinceStartAndZero(c, r, n);
  }

  /** Admissions since a window start was last stored and before the last zeroing after it; none without one. */
  function BeforeLastZero(c: Limits, r: Run, n: nat): nat
    requires n <= |r.events| < |r.states|
  {
    if n == 0 || r.events[n - 1].StoreStart? then 0
    else if Zeroes(r.states[n - 1], r.events[n - 1]) then AdmissionsSinceStart(c, r, n)
    else BeforeLastZero(c, r, n - 1)
  }

  lemma {:induction false} BeforeAndAfterZero(c: Limits, r: Run, n: nat)
    requires Behaves(c, r) && n <= |r.events| && ZeroedSinceStart(r, n)
    ensures AdmissionsSinceStart(c, r, n) == BeforeLastZero(c, r, n) + AdmissionsSinceZero(c, r, n)
  {
    if !Zeroes(r.states[n - 1], r.events[n - 1]) {
      BeforeAndAfterZero(c, r, n - 1);
    }
  }

  /**
   When a window admits more than its cap. A caller is admitted on top of a whole cap in the window
   if and only if the counter was zeroed after the store of its start, and what had been admitted
   between that store and the last zeroing makes up, with the counter, a whole cap. So a window
   whose counter is not zeroed again never exceeds its cap.
   */
  lemma {:induction false} ExcessExact(c: Limits, r: Run, n: nat)
    requires Behaves(c, r) && n <= |r.events|
    ensures n < |r.events| && r.events[n].FetchAdd? && Admits(c, r.states[n], r.events[n]) ==>
              (AdmissionsSinceStart(c, r, n) >= c.maxPerWindow
               <==> ZeroedSinceStart(r, n) && BeforeLastZero(c, r, n) + r.states[n].count >= c.maxPerWindow)
    ensures !ZeroedSinceStart(r, n) ==> AdmissionsSinceStart(c, r, n) <= c.maxPerWindow
  {
    CountExact(c, r, n);
    SinceStartAndZero(c, r, n);
    if ZeroedSinceStart(r, n) {
      BeforeAndAfterZero(c, r, n);
    }
  }

  function Extend(c: Limits, r: Run, e: Event): Run
    requires r.states != [] && Enabled(r.states[|r.states| - 1], e)
  {
    Run(r.states + [Step(c, r.states[|r.states| - 1], e)], r.events + [e])
  }

  lemma ExtendBehaves(c: Limits, r: Run, e: Event) returns (x: Run)
    requires Behaves(c, r) && Enabled(r.states[|r.events|], e)
    ensures Behaves(c, x) && x == Extend(c, r, e)
    ensures |x.events| == |r.events| + 1 && x.events[|r.events|] == e && x.events[..|r.events|] == r.events
    ensures x.states[|x.events|] == Step(c, r.states[|r.events|], e)
    ensures AdmissionsSinceStart(c, x, |x.events|)
            == if e.StoreStart? then 0
               else AdmissionsSinceStart(c, r, |r.events|) + if Admits(c, r.states[|r.events|], e) then 1 else 0
    ensures Admissions(c, x, |x.events|)
            == Admissions(c, r, |r.events|) + if Admits(c, r.states[|r.events|], e) then 1 else 0
    ensures Zeroings(x, |x.events|) == Zeroings(r, |r.events|) + if Zeroes(r.states[|r.events|], e) then 1 else 0
  {
    hide Step;
    x := Extend(c, r, e);
    forall i | 0 <= i < |x.events|
      ensures Enabled(x.states[i], x.events[i]) && x.states[i + 1] == Step(c, x.states[i], x.events[i])
    {
      if i < |r.events| {
        assert x.states[i] == r.states[i] && x.states[i + 1] == r.states[i + 1] && x.events[i] == r.events[i];
      }
    }
    assert x.states[0] == r.states[0];
    SamePrefix(c, r, x, |r.events|);
  }

  lemma {:induction false} SamePrefix(c: Limits, r: Run, x: Run, n: nat)
    requires n <= |r.events| < |r.states| && n <= |x.events| < |x.states|
    requires forall i | 0 <= i < n :: r.events[i] == x.events[i] && r.states[i] == x.states[i]
    ensures AdmissionsSinceStart(c, r, n) == AdmissionsSinceStart(c, x, n)
    ensures Admissions(c, r, n) == Admissions(c, x, n) && Zeroings(r, n) == Zeroings(x, n)
  {
    if n > 0 {
      SamePrefix(c, r, x, n - 1);
    }
  }

  /** A window of one is used up, it ends, and caller 1 has stored the next start but not the count. */
  lemma BetweenStores(c: Limits) returns (r: Run)
    requires c == Limits(1, 1)
    ensures Behaves(c, r) && |r.events| == 6
    ensures r.states[6] == Shared(1, 1, map[1 := Zeroing])
    ensures AdmissionsSinceStart(c, r, 6) == 0
  {
    hide Behaves, AdmissionsSinceStart;
    r := Start(c);
    r := ExtendBehaves(c, r, Enter(0, 0));
    r := ExtendBehaves(c, r, LoadStart(0));
    r := ExtendBehaves(c, r, FetchAdd(0));
    assert r.states[3].callers == map[];
    r := ExtendBehaves(c, r, Enter(1, 1));
    r := ExtendBehaves(c, r, LoadStart(1));
    r := ExtendBehaves(c, r, StoreStart(1));
  }

  /**
   It does happen: between the two stores of caller 1, caller 2 enters the window that starts at 1
   and is refused, although nobody has been admitted in it.
   */
  lemma RefusedOnOldCount() returns (c: Limits, r: Run)
    ensures Behaves(c, r) && |r.events| == 8 && c == Limits(1, 1)
    ensures var s := r.states[8];
            && s.windowStart == 1 && Enabled(s, FetchAdd(2)) && !Admits(c, s, FetchAdd(2))
            && 1 in s.callers && s.callers[1] == Zeroing
    ensures r.events[6] == Enter(2, 1)
    ensures AdmissionsSinceStart(c, r, 8) == 0
  {
    hide Behaves, AdmissionsSinceStart;
    c := Limits(1, 1);
    r := BetweenStores(c);
    r := ExtendBehaves(c, r, Enter(2, 1));
    var before := r;
    r := ExtendBehaves(c, r, LoadStart(2));
    assert r.events[6] == before.events[6];
  }

  lemma Start(c: Limits) returns (r: Run)
    requires c.maxPerWindow < WRAP
    ensures Behaves(c, r) && r == Run([Shared(0, 0, map[])], []) && AdmissionsSinceStart(c, r, 0) == 0
  {
    r := Run([Shared(0, 0, map[])], []);
  }

  // ---- How much a race lets through ----------------------------------------------------------------

  /** Where a run stands: its last state, admissions in all and since the last stored start, zeroings. */
  ghost predicate Stands(c: Limits, r: Run, s: Shared, admitted: nat, sinceStart: nat, zeroed: nat) {
    && Behaves(c, r) && r.states[|r.events|] == s
    && Admissions(c, r, |r.events|) == admitted
    && AdmissionsSinceStart(c, r, |r.events|) == sinceStart
    && Zeroings(r, |r.events|) == zeroed
  }

  lemma Go(c: Limits, r: Run, e: Event, s: Shared, admitted: nat, sinceStart: nat, zeroed: nat) returns (x: Run)
    requires Stands(c, r, s, admitted, sinceStart, zeroed) && Enabled(s, e)
    ensures var one := if Admits(c, s, e) then 1 else 0;
            Stands(c, x, Step(c, s, e), admitted + one, if e.StoreStart? then 0 else sinceStart + one,
                   zeroed + if Zeroes(s, e) then 1 else 0)
  {
    hide Step, Admits, Zeroes;
    x := ExtendBehaves(c, r, e);
  }

  lemma Begin(c: Limits) returns (r: Run)
    requires c.maxPerWindow < WRAP
    ensures Stands(c, r, Shared(0, 0, map[]), 0, 0, 0)
  {
    r := Start(c);
  }

  /** A caller that comes while the window is open and the counter below the cap. */
  lemma OneServed(c: Limits, r: Run, s: Shared, a: nat, b: nat, z: nat, t: nat, now: nat) returns (x: Run)
    requires Stands(c, r, s, a, b, z) && t !in s.callers
    requires SaturatingSub(now, s.windowStart) < c.windowSecs && s.count < c.maxPerWindow < WRAP
    ensures Stands(c, x, s.(count := s.count + 1), a + 1, b + 1, z)
  {
    hide Stands;
    var s1 := Step(c, s, Enter(t, now));
    x := Go(c, r, Enter(t, now), s, a, b, z);
    var s2 := Step(c, s1, LoadStart(t));
    x := Go(c, x, LoadStart(t), s1, a, b, z);
    x := Go(c, x, FetchAdd(t), s2, a, b, z);
    assert s2.callers - {t} == s.callers;
  }

  lemma {:induction false} Fill(c: Limits, r: Run, s: Shared, a: nat, b: nat, z: nat, t: nat, now: nat, m: nat)
    returns (x: Run)
    requires Stands(c, r, s, a, b, z) && t !in s.callers
    requires SaturatingSub(now, s.windowStart) < c.windowSecs && s.count + m <= c.maxPerWindow < WRAP
    ensures Stands(c, x, s.(count := s.count + m), a + m, b + m, z)
  {
    hide Stands;
    if m == 0 {
      x := r;
    } else {
      x := Fill(c, r, s, a, b, z, t, now, m - 1);
      x := OneServed(c, x, s.(count := s.count + m - 1), a + m - 1, b + m - 1, z, t, now);
    }
  }

  /** The callers from `lo` to `hi`, all at the same point. */
  function Row(lo: nat, hi: nat, at: Caller): map<nat, Caller> {
    map t | lo <= t < hi && Within(lo, t, hi) :: at
  }

  predicate Within(lo: nat, t: nat, hi: nat) { lo <= t < hi }

  /** Callers 0 to `n` that all find the window over before any of them stores the new start. */
  lemma {:induction false} AllExpire(c: Limits, r: Run, s: Shared, a: nat, b: nat, z: nat, now: nat, n: nat)
    returns (x: Run)
    requires Stands(c, r, s, a, b, z) && s.callers == map[] && SaturatingSub(now, s.windowStart) >= c.windowSecs
    ensures Stands(c, x, s.(callers := Row(0, n, Expired(now))), a, b, z)
  {
    hide Stands;
    if n == 0 {
      x := r;
      assert Row(0, 0, Expired(now)) == map[];
    } else {
      var t := n - 1;
      x := AllExpire(c, r, s, a, b, z, now, t);
      var s0 := s.(callers := Row(0, t, Expired(now)));
      var s1 := Step(c, s0, Enter(t, now));
      x := Go(c, x, Enter(t, now), s0, a, b, z);
      x := Go(c, x, LoadStart(t), s1, a, b, z);
      assert s0.callers[t := Clocked(now)][t := Expired(now)] == Row(0, n, Expired(now));
    }
  }

  /** They all store the new start; the first `m` have. */
  lemma {:induction false} AllStore(c: Limits, r: Run, s: Shared, a: nat, b: nat, z: nat, now: nat, n: nat, m: nat)
    returns (x: Run)
    requires Stands(c, r, s, a, b, z) && m <= n && s.callers == Row(0, n, Expired(now))
    ensures Stands(c, x,
                   s.(windowStart := if m == 0 then s.windowStart else now,
                      callers := Row(0, m, Zeroing) + Row(m, n, Expired(now))),
                   a, if m == 0 then b else 0, z)
  {
    hide Stands;
    if m == 0 {
      x := r;
      assert Row(0, 0, Zeroing) + Row(0, n, Expired(now)) == s.callers;
    } else {
      var t := m - 1;
      x := AllStore(c, r, s, a, b, z, now, n, t);
      var s0 := s.(windowStart := if t == 0 then s.windowStart else now,
                   callers := Row(0, t, Zeroing) + Row(t, n, Expired(now)));
      x := Go(c, x, StoreStart(t), s0, a, if t == 0 then b else 0, z);
      assert s0.callers[t := Zeroing] == Row(0, m, Zeroing) + Row(m, n, Expired(now));
    }
  }

  /** One after the other they zero the counter, and each time a whole cap is admitted; `m` times so far. */
  lemma {:induction false} AllZero(c: Limits, r: Run, s: Shared, a: nat, b: nat, z: nat, n: nat, m: nat)
    returns (x: Run)
    requires Stands(c, r, s, a, b, z) && m <= n && s.callers == Row(0, n, Zeroing)
    requires 0 < c.maxPerWindow < WRAP && c.windowSecs > 0
    ensures Stands(c, x, s.(count := if m == 0 then s.count else c.maxPerWindow, callers := Row(m, n, Zeroing)),
                   a + m * c.maxPerWindow, b + m * c.maxPerWindow, z + m)
  {
    hide Stands;
    if m == 0 {
      x := r;
    } else {
      var t, cap := m - 1, c.maxPerWindow;
      x := AllZero(c, r, s, a, b, z, n, t);
      var s0 := s.(count := if t == 0 then s.count else cap, callers := Row(t, n, Zeroing));
      var a', b' := a + t * cap, b + t * cap;
      var s1 := Step(c, s0, StoreCount(t));
      x := Go(c, x, StoreCount(t), s0, a', b', z + t);
      x := Go(c, x, FetchAdd(t), s1, a', b', z + t + 1);
      var s2 := s.(count := 1, callers := Row(m, n, Zeroing));
      assert s0.callers[t := Counting] - {t} == Row(m, n, Zeroing);
      x := Fill(c, x, s2, a' + 1, b' + 1, z + m, n, s.windowStart, cap - 1);
      NextMultiple(t, cap);
    }
  }

  /**
   A race is not worth a few requests: when `n` callers find the window over before the first of
   them stores the new start, `n` whole caps are admitted in the window that begins there. With the
   cap of the window before, this reaches the bound on interleavings.
   */
  lemma RaceReachesBound(c: Limits, n: nat) returns (r: Run)
    requires 0 < c.maxPerWindow < WRAP && c.windowSecs > 0 && n > 0
    ensures Behaves(c, r) && Zeroings(r, |r.events|) == n
    ensures r.states[|r.events|].windowStart == c.windowSecs
    ensures AdmissionsSinceStart(c, r, |r.events|) == n * c.maxPerWindow
    ensures Admissions(c, r, |r.events|) == (n + 1) * c.maxPerWindow
  {
    hide Behaves, Admissions, AdmissionsSinceStart, Zeroings;
    var cap, now := c.maxPerWindow, c.windowSecs;
    r := Begin(c);
    r := Fill(c, r, Shared(0, 0, map[]), 0, 0, 0, 0, 0, cap);
    r := AllExpire(c, r, Shared(0, cap, map[]), cap, cap, 0, now, n);
    r := AllStore(c, r, Shared(0, cap, Row(0, n, Expired(now))), cap, cap, 0, now, n, n);
    assert Row(0, n, Zeroing) + Row(n, n, Expired(now)) == Row(0, n, Zeroing);
    r := AllZero(c, r, Shared(now, cap, Row(0, n, Zeroing)), cap, 0, 0, n, n);
    NextMultiple(n, cap);
  }

  // ---- One caller at a time ------------------------------------------------------------------------

  datatype Window = Window(start: nat, count: nat)

  /** `allow`, uninterrupted. */
  function AllowAt(c: Limits, w: Window, now: nat): (Window, bool) {
    var current := if SaturatingSub(now, w.start) >= c.windowSecs then Window(now, 0) else w;
    (Window(current.start, (current.count + 1) % WRAP), current.count < c.maxPerWindow)
  }

  /** The atomic steps of one caller, taken without interruption, are `allow`. */
  lemma UninterruptedSteps(c: Limits, s: Shared, t: nat, now: nat) returns (r: Run)
    requires t !in s.callers
    ensures 3 <= |r.events| <= 5 && |r.states| == |r.events| + 1 && r.states[0] == s
    ensures forall i | 0 <= i < |r.events| ::
              Enabled(r.states[i], r.events[i]) && r.states[i + 1] == Step(c, r.states[i], r.events[i])
    ensures r.events[0] == Enter(t, now) && r.events[|r.events| - 1] == FetchAdd(t)
    ensures var s', (w, admitted) := r.states[|r.events|], AllowAt(c, Window(s.windowStart, s.count), now);
            && s' == Shared(w.start, w.count, s.callers)
            && (Admits(c, r.states[|r.events| - 1], FetchAdd(t)) <==> admitted)
  {
    var s1 := Step(c, s, Enter(t, now));
    var s2 := Step(c, s1, LoadStart(t));
    if s2.callers[t].Expired? {
      var s3 := Step(c, s2, StoreStart(t));
      var s4 := Step(c, s3, StoreCount(t));
      var s5 := Step(c, s4, FetchAdd(t));
      r := Run([s, s1, s2, s3, s4, s5], [Enter(t, now), LoadStart(t), StoreStart(t), StoreCount(t), FetchAdd(t)]);
      assert s5.callers == s.callers;
    } else {
      var s3 := Step(c, s2, FetchAdd(t));
      r := Run([s, s1, s2, s3], [Enter(t, now), LoadStart(t), FetchAdd(t)]);
      assert s3.callers == s.callers;
    }
  }

  function After(c: Limits, start: nat, calls: seq<nat>): Window {
    if calls == [] then Window(start, 0)
    else AllowAt(c, After(c, start, calls[..|calls| - 1]), calls[|calls| - 1]).0
  }

  function Clock(start: nat, calls: seq<nat>): nat {
    if calls == [] then start else calls[|calls| - 1]
  }

  /** The calls come at non-decreasing instants, and none of them wraps the counter around. */
  ghost predicate Orderly(c: Limits, start: nat, calls: seq<nat>) {
    calls != [] ==>
      var before := calls[..|calls| - 1];
      && Orderly(c, start, before)
      && Clock(start, before) <= calls[|calls| - 1]
      && After(c, start, calls).count != 0
  }

  /** The calls admitted at instants from `lo` inclusive to `hi` exclusive. */
  function AdmittedIn(c: Limits, start: nat, calls: seq<nat>, lo: int, hi: int): nat {
    if calls == [] then 0
    else
      var before, now := calls[..|calls| - 1], calls[|calls| - 1];
      AdmittedIn(c, start, before, lo, hi)
      + if lo <= now < hi && AllowAt(c, After(c, start, before), now).1 then 1 else 0
  }

  lemma {:induction false} BurstInvariant(c: Limits, start: nat, calls: seq<nat>, lo: int)
    requires Orderly(c, start, calls) && c.maxPerWindow < WRAP
    ensures var w := After(c, start, calls);
            var a := AdmittedIn(c, start, calls, lo, lo + c.windowSecs);
            && w.start <= Clock(start, calls) && w.count < WRAP
            && (Clock(start, calls) < lo ==> a == 0)
            && a <= 2 * c.maxPerWindow
            && (w.start < lo ==> a <= Min(w.count, c.maxPerWindow))
            && (lo <= w.start < lo + c.windowSecs ==> a <= c.maxPerWindow + Min(w.count, c.maxPerWindow))
  {
    if calls != [] {
      var before, now := calls[..|calls| - 1], calls[|calls| - 1];
      BurstInvariant(c, start, before, lo);
    }
  }

  /** Fixed windows: any interval as long as one admits at most twice the cap, when calls are sequential. */
  lemma SequentialBound(c: Limits, start: nat, calls: seq<nat>, lo: int)
    requires Orderly(c, start, calls) && c.maxPerWindow < WRAP
    ensures AdmittedIn(c, start, calls, lo, lo + c.windowSecs) <= 2 * c.maxPerWindow
  {
    BurstInvariant(c, start, calls, lo);
  }

  function Burst(n: nat, now: nat): (calls: seq<nat>)
    ensures |calls| == n
  {
    if n == 0 then [] else Burst(n - 1, now) + [now]
  }

  /** A call in a window that is still open, with the counter below the cap, is admitted. */
  lemma NextInWindow(c: Limits, start: nat, calls: seq<nat>, now: nat, lo: int, hi: int)
    requires Orderly(c, start, calls) && Clock(start, calls) <= now && lo <= now < hi
    requires var w := After(c, start, calls);
             w.start <= now < w.start + c.windowSecs && w.count < c.maxPerWindow < WRAP
    ensures var all, w := calls + [now], After(c, start, calls);
            && Orderly(c, start, all) && Clock(start, all) == now
            && After(c, start, all) == Window(w.start, w.count + 1)
            && AdmittedIn(c, start, all, lo, hi) == AdmittedIn(c, start, calls, lo, hi) + 1
  {
    assert (calls + [now])[..|calls|] == calls;
    var w := After(c, start, calls);
    assert (w.count + 1) % WRAP == w.count + 1;
  }

  lemma {:induction false} BurstInWindow(c: Limits, start: nat, calls: seq<nat>, n: nat, now: nat, lo: int, hi: int)
    requires Orderly(c, start, calls) && Clock(start, calls) <= now && lo <= now < hi
    requires var w := After(c, start, calls);
             w.start <= now < w.start + c.windowSecs && w.count + n <= c.maxPerWindow < WRAP
    ensures var all, w := calls + Burst(n, now), After(c, start, calls);
            && Orderly(c, start, all) && Clock(start, all) <= now
            && After(c, start, all) == Window(w.start, w.count + n)
            && AdmittedIn(c, start, all, lo, hi) == AdmittedIn(c, start, calls, lo, hi) + n
  {
    hide After, Orderly, AdmittedIn, Clock;
    if n == 0 {
      assert calls + Burst(n, now) == calls;
    } else {
      BurstInWindow(c, start, calls, n - 1, now, lo, hi);
      NextInWindow(c, start, calls + Burst(n - 1, now), now, lo, hi);
      assert calls + Burst(n, now) == calls + Burst(n - 1, now) + [now];
    }
  }

  /** A call after the end of the window opens the next one, and is admitted. */
  lemma FirstOfWindow(c: Limits, start: nat, calls: seq<nat>, now: nat, lo: int, hi: int)
    requires Orderly(c, start, calls) && Clock(start, calls) <= now && lo <= now < hi
    requires After(c, start, calls).start + c.windowSecs <= now && 0 < c.maxPerWindow < WRAP
    ensures var all := calls + [now];
            && Orderly(c, start, all) && Clock(start, all) == now && After(c, start, all) == Window(now, 1)
            && AdmittedIn(c, start, all, lo, hi) == AdmittedIn(c, start, calls, lo, hi) + 1
  {
    assert (calls + [now])[..|calls|] == calls;
  }

  /** Twice the cap is reached: a full burst at the end of a window and another at the start of the next. */
  lemma DoubleBurst(c: Limits, start: nat) returns (calls: seq<nat>)
    requires c.windowSecs >= 2 && 0 < c.maxPerWindow < WRAP
    ensures Orderly(c, start, calls)
    ensures var lo := start + c.windowSecs - 1;
            AdmittedIn(c, start, calls, lo, lo + c.windowSecs) == 2 * c.maxPerWindow
  {
    hide AdmittedIn, Orderly;
    var lo, n := start + c.windowSecs - 1, c.maxPerWindow;
    EmptyOrderly(c, start, lo, lo + c.windowSecs);
    BurstInWindow(c, start, [], n, lo, lo, lo + c.windowSecs);
    calls := [] + Burst(n, lo);
    FirstOfWindow(c, start, calls, lo + 1, lo, lo + c.windowSecs);
    calls := calls + [lo + 1];
    BurstInWindow(c, start, calls, n - 1, lo + 1, lo, lo + c.windowSecs);
    calls := calls + Burst(n - 1, lo + 1);
  }

  lemma EmptyOrderly(c: Limits, start: nat, lo: int, hi: int)
    ensures Orderly(c, start, []) && AdmittedIn(c, start, [], lo, hi) == 0
  {
  }

  // ---- The object ------------------------------------------------------------------------------

  class WindowLimiter {
    const limits: Limits
    var windowStart: nat
    var count: nat

    ghost function Model(): Window
      reads this
    {
      Window(windowStart, count)
    }

    constructor (limits: Limits, now: nat)
      ensures this.limits == limits && Model() == After(limits, now, [])
    {
      this.limits := limits;
      windowStart := now;
      count := 0;
    }

    method Allow(now: nat) returns (admitted: bool)
      modifies this
      ensures (Model(), admitted) == AllowAt(limits, old(Model()), now)
    {
      var start := windowStart;
      if SaturatingSub(now, start) >= limits.windowSecs {
        windowStart := now;
        count := 0;
      }
      admitted := count < limits.maxPerWindow;
      count := (count + 1) % WRAP;
    }
  }
}
