/**
 What the daily energy of a counter series means: bounds that hold of every
 series, exact energy across counter resets, agreement with the rollup's
 end-minus-start, and insensitivity to isolated glitches.
 */
module EnergyTheorems {
  import opened Options
  import opened CounterSeries

  // ---------- bounds for every series ----------

  lemma {:induction false} RisesCoverTheNetGain(s: seq<real>)
    requires |s| >= 1
    ensures Rises(s) >= s[|s| - 1] - s[0]
    decreases |s|
  {
    if |s| > 1 {
      RisesCoverTheNetGain(s[1..]);
    }
  }

  /** Replacing the start `b` of a series by `a` and filtering costs at most the step from `a` to `b`. */
  lemma {:induction false} KeepBound(a: real, b: real, t: seq<real>)
    ensures Rises([a] + Keep(Some(b), t)) <= Rise(a, b) + Rises([b] + t)
    decreases |t|
  {
    if t == [] {
      assert [a] + Keep(Some(b), t) == [a];
    } else {
      var t0, rest := t[0], t[1..];
      assert ([b] + t)[1..] == [t0] + rest;
      if |t| >= 2 && IsDip(b, t0, t[1]) {
        KeepBound(a, t0, rest);
        assert Keep(Some(b), t) == Keep(Some(t0), rest);
      } else {
        KeepBound(t0, t0, rest);
        var kept := [a] + Keep(Some(b), t);
        assert kept[1..] == [t0] + Keep(Some(t0), rest);
      }
    }
  }

  /** Filtering never raises the sum of positive steps. */
  lemma FilteringNeverAddsEnergy(s: seq<real>)
    ensures DailyEnergy(s) <= Rises(s)
  {
    if |s| >= 1 {
      KeepBound(s[0], s[0], s[1..]);
      assert s == [s[0]] + s[1..];
    }
  }

  /** A day's energy is never below its net gain, and never negative. */
  lemma EnergyCoversTheNetGain(s: seq<real>)
    requires |s| >= 1
    ensures DailyEnergy(s) >= 0.0 && DailyEnergy(s) >= s[|s| - 1] - s[0]
  {
    FilterKeepsEnds(s);
    RisesCoverTheNetGain(Filtered(s));
  }

  // ---------- days without a descent ----------

  lemma {:induction false} KeepOfMonotone(prev: Option<real>, s: seq<real>)
    requires NonNegative(s) && NonDecreasing(s)
    requires prev.Some? && s != [] ==> 0.0 <= prev.value <= s[0]
    ensures Keep(prev, s) == s
    decreases |s|
  {
    if s != [] {
      KeepOfMonotone(Some(s[0]), s[1..]);
    }
  }

  lemma {:induction false} RisesOfMonotone(s: seq<real>)
    requires |s| >= 1 && NonDecreasing(s)
    ensures Rises(s) == s[|s| - 1] - s[0]
    decreases |s|
  {
    if |s| > 1 {
      RisesOfMonotone(s[1..]);
    }
  }

  /** `lo` and `hi` are the least and the greatest reading, the two columns of the daily rollup. */
  predicate MinMax(s: seq<real>, lo: real, hi: real) {
    && lo in s && hi in s
    && (forall i :: 0 <= i < |s| ==> lo <= s[i] <= hi)
  }

  lemma EndsAreExtreme(s: seq<real>, lo: real, hi: real)
    requires NonDecreasing(s) && MinMax(s, lo, hi)
    ensures s != [] && lo == s[0] && hi == s[|s| - 1]
  {
    var i :| 0 <= i < |s| && s[i] == lo;
    var j :| 0 <= j < |s| && s[j] == hi;
    assert s[0] <= s[i] && s[j] <= s[|s| - 1];
  }

  /** The fast form (rollup end minus start) equals the slow form on every day whose readings never descend. */
  lemma FastEqualsSlow(s: seq<real>, lo: real, hi: real)
    requires NonNegative(s) && NonDecreasing(s) && MinMax(s, lo, hi)
    ensures hi - lo == DailyEnergy(s)
  {
    hide NonNegative, NonDecreasing, MinMax, Keep, Rises;
    EndsAreExtreme(s, lo, hi);
    KeepOfMonotone(None, s);
    RisesOfMonotone(s);
  }

  // ---------- counter resets within the day ----------

  predicate Segment(seg: seq<real>) {
    |seg| >= 2 && NonNegative(seg) && NonDecreasing(seg)
  }

  function Last(s: seq<real>): real
    requires |s| >= 1
  {
    s[|s| - 1]
  }

  /** Climbing segments, each of which starts strictly below the reading before it; `p` precedes the first. */
  predicate ResetsFrom(p: real, segs: seq<seq<real>>)
    decreases |segs|
  {
    segs != [] ==>
      && Segment(segs[0])
      && segs[0][0] < p
      && ResetsFrom(Last(segs[0]), segs[1..])
  }

  predicate ResetDay(segs: seq<seq<real>>) {
    segs != [] && Segment(segs[0]) && ResetsFrom(Last(segs[0]), segs[1..])
  }

  /** The filter mistakes the first reading after some reset for a glitch. */
  predicate GlitchLikeReset(p: real, segs: seq<seq<real>>)
    requires ResetsFrom(p, segs)
    decreases |segs|
  {
    && segs != []
    && (IsDip(p, segs[0][0], segs[0][1]) || GlitchLikeReset(Last(segs[0]), segs[1..]))
  }

  /** The second reading after each reset is still below 0.9 of the value before it. */
  predicate StaysLow(p: real, segs: seq<seq<real>>)
    requires ResetsFrom(p, segs)
    decreases |segs|
  {
    segs != [] ==> segs[0][1] < p * 0.9 && StaysLow(Last(segs[0]), segs[1..])
  }

  function Flatten(segs: seq<seq<real>>): seq<real> {
    if segs == [] then [] else segs[0] + Flatten(segs[1..])
  }

  function TotalClimb(segs: seq<seq<real>>): real {
    if segs == [] then 0.0
    else (if segs[0] == [] then 0.0 else Last(segs[0]) - segs[0][0]) + TotalClimb(segs[1..])
  }

  /** The readings of a climbing segment are never dips, whatever follows. */
  lemma {:induction false} KeepOfClimb(prev: Option<real>, seg: seq<real>, rest: seq<real>)
    requires |seg| >= 1 && NonNegative(seg) && NonDecreasing(seg)
    requires prev.Some? ==> prev.value <= seg[0]
    ensures Keep(prev, seg + rest) == seg + Keep(Some(Last(seg)), rest)
    decreases |seg|
  {
    assert (seg + rest)[1..] == seg[1..] + rest;
    assert seg[0] >= 0.0;
    if |seg| > 1 {
      KeepOfClimb(Some(seg[0]), seg[1..], rest);
    }
  }

  lemma {:induction false} RisesOfConcat(a: seq<real>, b: seq<real>)
    requires |a| >= 1
    ensures Rises(a + b) == Rises(a) + Rises([Last(a)] + b)
    decreases |a|
  {
    if |a| == 1 {
      assert a == [Last(a)];
    } else {
      assert (a + b)[1..] == a[1..] + b;
      RisesOfConcat(a[1..], b);
    }
  }

  lemma {:induction false} EnergyAfterResets(p: real, segs: seq<seq<real>>)
    requires ResetsFrom(p, segs)
    ensures var e := Rises([p] + Keep(Some(p), Flatten(segs)));
            if GlitchLikeReset(p, segs) then e < TotalClimb(segs) else e == TotalClimb(segs)
    decreases |segs|
  {
    if segs != [] {
      var seg, rest := segs[0], Flatten(segs[1..]);
      EnergyAfterResets(Last(seg), segs[1..]);
      EnergyOfOneReset(p, seg, rest);
    }
  }

  lemma EnergyOfOneReset(p: real, seg: seq<real>, rest: seq<real>)
    requires Segment(seg) && seg[0] < p
    ensures var e := Rises([p] + Keep(Some(p), seg + rest));
            var after := Last(seg) - seg[0] + Rises([Last(seg)] + Keep(Some(Last(seg)), rest));
            if IsDip(p, seg[0], seg[1]) then e < after else e == after
  {
    var climb, tail := seg[1..], Keep(Some(Last(seg)), rest);
    KeepOfClimb(Some(seg[0]), climb, rest);
    assert seg + rest == [seg[0]] + (climb + rest);
    assert (seg + rest)[1..] == climb + rest;
    assert Last(climb) == Last(seg);
    RisesOfConcat(climb, tail);
    RisesOfMonotone(climb);
    assert ([seg[0]] + (climb + tail))[1..] == climb + tail;
    var kept := Keep(Some(p), seg + rest);
    assert ([p] + kept)[1..] == kept;
    if IsDip(p, seg[0], seg[1]) {
      assert kept == climb + tail;
    } else {
      assert kept == [seg[0]] + (climb + tail);
    }
  }

  /**
   The slow form is exact across counter resets: the day's energy is the sum of
   the segments' own climbs if and only if no reset looks like a glitch;
   otherwise it falls short.
   */
  lemma ResetDayEnergy(segs: seq<seq<real>>)
    requires ResetDay(segs)
    ensures DailyEnergy(Flatten(segs)) == TotalClimb(segs) <==> !GlitchLikeReset(Last(segs[0]), segs[1..])
    ensures DailyEnergy(Flatten(segs)) <= TotalClimb(segs)
  {
    var seg, rest := segs[0], Flatten(segs[1..]);
    KeepOfClimb(None, seg, rest);
    EnergyAfterResets(Last(seg), segs[1..]);
    RisesOfConcat(seg, Keep(Some(Last(seg)), rest));
    RisesOfMonotone(seg);
  }

  lemma {:induction false} StayingLowIsNoGlitch(p: real, segs: seq<seq<real>>)
    requires ResetsFrom(p, segs) && StaysLow(p, segs)
    ensures !GlitchLikeReset(p, segs)
    decreases |segs|
  {
    if segs != [] {
      StayingLowIsNoGlitch(Last(segs[0]), segs[1..]);
    }
  }

  /** A genuine reset, one that stays low for two readings, loses no energy. */
  lemma GenuineResetsLoseNothing(segs: seq<seq<real>>)
    requires ResetDay(segs) && StaysLow(Last(segs[0]), segs[1..])
    ensures DailyEnergy(Flatten(segs)) == TotalClimb(segs)
  {
    StayingLowIsNoGlitch(Last(segs[0]), segs[1..]);
    ResetDayEnergy(segs);
  }

  // ---------- isolated glitches ----------

  /** `s` with an optional extra reading `g[i]` between `s[i]` and `s[i + 1]`. */
  function Inserted(s: seq<real>, g: seq<Option<real>>): seq<real>
    requires |s| == |g| + 1
  {
    if |s| == 1 then s
    else [s[0]] + Singleton(g[0]) + Inserted(s[1..], g[1..])
  }

  /** Every extra reading is a glitch: below half of both its neighbours, the right one at least 0.9 of the left. */
  predicate AllGlitches(s: seq<real>, g: seq<Option<real>>)
    requires |s| == |g| + 1
  {
    forall i :: 0 <= i < |g| && g[i].Some? ==>
      g[i].value + g[i].value < s[i] && g[i].value + g[i].value < s[i + 1] && s[i + 1] >= s[i] * 0.9
  }

  /** From position `k` on, no glitch sits beside a reading that the filter was dropping already. */
  predicate NoGlitchBesideADrop(s: seq<real>, g: seq<Option<real>>, k: nat)
    requires |s| == |g| + 1
  {
    forall i :: k <= i < |g| && DipAt(s, i) ==> g[i - 1].None? && g[i].None?
  }

  function Before<T>(xs: seq<T>, k: nat): Option<T>
    requires k <= |xs|
  {
    if k == 0 then None else Some(xs[k - 1])
  }

  function GlitchBefore(g: seq<Option<real>>, k: nat): Option<real>
    requires k <= |g|
  {
    if k == 0 then None else g[k - 1]
  }

  /** One reading `x` with its optional glitches: it is dropped only if it was before and no glitch is beside it. */
  lemma InsertedStep(prev: Option<real>, gp: Option<real>, x: real, gap: Option<real>, tail: seq<real>, base: seq<real>)
    requires tail != [] && base != [] && tail[0] == base[0]
    requires x >= 0.0
    requires gp.Some? ==> gp.value + gp.value < x
    requires gap.Some? ==> IsDip(x, gap.value, base[0])
    ensures var was := prev.Some? && IsDip(prev.value, x, base[0]);
            && Keep(prev, [x] + base) == (if was then [] else [x]) + Keep(Some(x), base)
            && Keep(Or(gp, prev), [x] + Singleton(gap) + tail)
               == (if was && gp.None? && gap.None? then [] else [x]) + Keep(Or(gap, Some(x)), tail)
  {
    assert ([x] + base)[1..] == base;
    var rest := Singleton(gap) + tail;
    assert [x] + Singleton(gap) + tail == [x] + rest;
    assert ([x] + rest)[1..] == rest;
    if gap.Some? {
      assert rest[1..] == tail;
      assert Keep(Some(x), rest) == Keep(gap, tail);
    } else {
      assert rest == tail;
    }
  }

  function Or(a: Option<real>, b: Option<real>): Option<real> {
    if a.Some? then a else b
  }

  function Singleton(a: Option<real>): seq<real> {
    if a.Some? then [a.value] else []
  }

  lemma InsertedFrom(s: seq<real>, g: seq<Option<real>>, k: nat)
    requires |s| == |g| + 1 && k < |g|
    ensures s[k..] == [s[k]] + s[k + 1..]
    ensures Inserted(s[k..], g[k..]) == [s[k]] + Singleton(g[k]) + Inserted(s[k + 1..], g[k + 1..])
  {
    assert s[k..][1..] == s[k + 1..] && g[k..][1..] == g[k + 1..];
  }

  lemma BesideFrom(s: seq<real>, g: seq<Option<real>>, k: nat)
    requires |s| == |g| + 1 && k < |g|
    ensures var was := Before(s, k).Some? && IsDip(Before(s, k).value, s[k], s[k + 1]);
            NoGlitchBesideADrop(s, g, k) <==> NoGlitchBesideADrop(s, g, k + 1) && (was ==> GlitchBefore(g, k).None? && g[k].None?)
  {
    assert DipAt(s, k) <==> Before(s, k).Some? && IsDip(Before(s, k).value, s[k], s[k + 1]);
  }

  lemma {:induction false} InsertedKeeps(s: seq<real>, g: seq<Option<real>>, k: nat)
    requires |s| == |g| + 1 && k <= |g|
    requires NonNegative(s) && AllGlitches(s, g)
    ensures var with := Keep(Or(GlitchBefore(g, k), Before(s, k)), Inserted(s[k..], g[k..]));
            var without := Keep(Before(s, k), s[k..]);
            if NoGlitchBesideADrop(s, g, k) then with == without else |with| > |without|
    decreases |s| - k
  {
    if k == |g| {
      assert s[k..] == [s[k]];
    } else {
      InsertedKeeps(s, g, k + 1);
      InsertedFrom(s, g, k);
      BesideFrom(s, g, k);
      var tail := Inserted(s[k + 1..], g[k + 1..]);
      InsertedStep(Before(s, k), GlitchBefore(g, k), s[k], g[k], tail, s[k + 1..]);
      hide Keep, Inserted, AllGlitches, NonNegative, NoGlitchBesideADrop, IsDip;
    }
  }

  /**
   Isolated glitches are invisible: inserting one into each of any set of gaps
   leaves the filtered series, and hence the day's energy, unchanged exactly
   when none of them sits beside a reading that was dropped already.
   */
  lemma GlitchesAreInvisible(s: seq<real>, g: seq<Option<real>>)
    requires |s| == |g| + 1 && NonNegative(s) && AllGlitches(s, g)
    ensures Filtered(Inserted(s, g)) == Filtered(s) <==> NoGlitchBesideADrop(s, g, 0)
    ensures NoGlitchBesideADrop(s, g, 0) ==> DailyEnergy(Inserted(s, g)) == DailyEnergy(s)
  {
    InsertedKeeps(s, g, 0);
    assert s[0..] == s && g[0..] == g;
  }
}
