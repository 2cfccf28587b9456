/** The autofocus search: a coarse pass over the whole range and an authoritative fine pass
    around its best sample. */
module Autofocus {
  import opened Ini

  const INT_MIN := -0x8000_0000
  const INT_MAX := 0x7fff_ffff

  predicate IsInt(x: int) { INT_MIN <= x <= INT_MAX }

  datatype Sample = Sample(position: int, score: nat)

  /** The lens driver behind `ca_autofocus_ops`. Which moves work and what each measurement reads
      is arbitrary: a reading may depend on how many were taken before it. */
  class Lens {
    const moveWorks: nat -> bool
    const reading: (nat, int) -> Option<nat>
    var position: int
    var moves: seq<int>
    var measures: nat
    var samples: seq<Sample>

    constructor (moveWorks: nat -> bool, reading: (nat, int) -> Option<nat>, position: int)
      ensures this.moveWorks == moveWorks && this.reading == reading && this.position == position
      ensures moves == [] && measures == 0 && samples == []
    {
      this.moveWorks, this.reading, this.position := moveWorks, reading, position;
      moves, measures, samples := [], 0, [];
    }

    method Move(target: int) returns (ok: bool)
      modifies this
      ensures ok == moveWorks(|old(moves)|) && moves == old(moves) + [target]
      ensures position == if ok then target else old(position)
      ensures measures == old(measures) && samples == old(samples)
    {
      ok := moveWorks(|moves|);
      moves := moves + [target];
      if ok { position := target; }
    }

    method Measure() returns (score: Option<nat>)
      modifies this
      ensures score == reading(old(measures), position) && measures == old(measures) + 1
      ensures samples == old(samples) + if score.Some? then [Sample(position, score.value)] else []
      ensures moves == old(moves) && position == old(position)
    {
      score := reading(measures, position);
      measures := measures + 1;
      if score.Some? { samples := samples + [Sample(position, score.value)]; }
    }
  }

  // ---------- the best sample ----------

  function Distance(a: int, b: int): (d: nat)
    ensures d == a - b || d == b - a
  {
    if a < b then b - a else a - b
  }

  /** better() */
  predicate Better(s: Sample, best: Option<Sample>, initial: int)
  {
    best.None? || s.score > best.value.score ||
    (s.score == best.value.score && Distance(s.position, initial) < Distance(best.value.position, initial))
  }

  /** The running best over samples, oldest first. */
  function BestOf(ss: seq<Sample>, initial: int): Option<Sample>
  {
    if ss == [] then None
    else
      var best := BestOf(ss[..|ss| - 1], initial);
      var s := ss[|ss| - 1];
      if Better(s, best, initial) then Some(s) else best
  }

  /** Sample i has the highest score; ties go to the nearest to the initial position, then to the first. */
  predicate IsBest(ss: seq<Sample>, initial: int, i: nat)
    requires i < |ss|
  {
    forall j :: 0 <= j < |ss| ==>
      && ss[j].score <= ss[i].score
      && (ss[j].score == ss[i].score ==> Distance(ss[j].position, initial) >= Distance(ss[i].position, initial))
      && (ss[j].score == ss[i].score && j < i ==> Distance(ss[j].position, initial) > Distance(ss[i].position, initial))
  }

  lemma {:induction false} BestOfIsBest(ss: seq<Sample>, initial: int) returns (i: nat)
    requires ss != []
    ensures i < |ss| && BestOf(ss, initial) == Some(ss[i]) && IsBest(ss, initial, i)
  {
    var last := |ss| - 1;
    if last == 0 {
      assert ss[..0] == [];
      i := 0;
    } else {
      var init := ss[..last];
      i := BestOfIsBest(init, initial);
      assert forall j :: 0 <= j < last ==> init[j] == ss[j];
      if Better(ss[last], Some(ss[i]), initial) { i := last; }
    }
  }

  // ---------- the positions visited ----------

  /** The coarse positions from one on: a step apart, and always ending at the maximum. */
  function Coarse(position: int, maximum: int, step: int): seq<int>
    requires position <= maximum && step >= 1
    decreases maximum - position
  {
    if position == maximum then [position]
    else [position] + Coarse(if maximum - position <= step then maximum else position + step, maximum, step)
  }

  function Range(lo: int, hi: int): seq<int>
    requires lo <= hi + 1
    decreases hi + 1 - lo
  {
    if lo > hi then [] else [lo] + Range(lo + 1, hi)
  }

  function Positions(ss: seq<Sample>): seq<int>
  {
    if ss == [] then [] else Positions(ss[..|ss| - 1]) + [ss[|ss| - 1].position]
  }

  function Max(a: int, b: int): int { if a < b then b else a }
  function Min(a: int, b: int): int { if a < b then a else b }

  /** The window of the fine pass. */
  function Fine(minimum: int, maximum: int, step: int, best: int): seq<int>
    requires minimum <= best <= maximum && step >= 1
  {
    Range(Max(best - step, minimum), Min(best + step, maximum))
  }

  predicate Within(ps: seq<int>, lo: int, hi: int) { forall p :: p in ps ==> lo <= p <= hi }

  lemma CoarseFacts(position: int, maximum: int, step: int)
    requires position <= maximum && step >= 1
    ensures var ps := Coarse(position, maximum, step);
            && |ps| >= 1 && ps[0] == position && ps[|ps| - 1] == maximum && Within(ps, position, maximum)
            && (forall i :: 0 <= i < |ps| - 1 ==> ps[i] < ps[i + 1] <= ps[i] + step)
            && maximum - position <= (|ps| - 1) * step
            && (position < maximum ==> (|ps| - 2) * step < maximum - position)
    ensures position == maximum ==> |Coarse(position, maximum, step)| == 1
  {
    hide Coarse, Within;
    CoarseOrder(position, maximum, step);
    CoarseCount(position, maximum, step);
  }

  lemma {:induction false} CoarseOrder(position: int, maximum: int, step: int)
    requires position <= maximum && step >= 1
    ensures var ps := Coarse(position, maximum, step);
            && |ps| >= 1 && ps[0] == position && ps[|ps| - 1] == maximum && Within(ps, position, maximum)
            && (forall i :: 0 <= i < |ps| - 1 ==> ps[i] < ps[i + 1] <= ps[i] + step)
    decreases maximum - position
  {
    if position < maximum {
      var next := if maximum - position <= step then maximum else position + step;
      CoarseOrder(next, maximum, step);
      OrderCons(position, Coarse(next, maximum, step), maximum, step);
    }
  }

  lemma OrderCons(position: int, rest: seq<int>, maximum: int, step: int)
    requires |rest| >= 1 && rest[|rest| - 1] == maximum && position < rest[0] <= position + step
    requires Within(rest, rest[0], maximum)
    requires forall i :: 0 <= i < |rest| - 1 ==> rest[i] < rest[i + 1] <= rest[i] + step
    ensures var ps := [position] + rest;
            && ps[|ps| - 1] == maximum && Within(ps, position, maximum)
            && forall i :: 0 <= i < |ps| - 1 ==> ps[i] < ps[i + 1] <= ps[i] + step
  {
    var ps := [position] + rest;
    assert rest[0] in rest;
    assert forall p :: p in ps ==> p == position || p in rest;
    forall i | 0 <= i < |ps| - 1 ensures ps[i] < ps[i + 1] <= ps[i] + step {
      assert ps[i + 1] == rest[i] && (i > 0 ==> ps[i] == rest[i - 1]);
      if i > 0 { assert rest[i - 1] < rest[i - 1 + 1] <= rest[i - 1] + step; }
    }
  }

  /** As few positions as steps of this size allow. */
  lemma {:induction false} CoarseCount(position: int, maximum: int, step: int)
    requires position <= maximum && step >= 1
    ensures var n := |Coarse(position, maximum, step)|;
            && n >= 1 && maximum - position <= (n - 1) * step
            && (position < maximum ==> n >= 2 && (n - 2) * step < maximum - position)
            && (position == maximum ==> n == 1)
    decreases maximum - position
  {
    if position < maximum {
      var next := if maximum - position <= step then maximum else position + step;
      CoarseCount(next, maximum, step);
      var n := |Coarse(next, maximum, step)|;
      assert |Coarse(position, maximum, step)| == n + 1;
      OneStep(n, step);
    }
  }

  lemma OneStep(n: int, step: int)
    ensures n * step == (n - 1) * step + step && (n - 1) * step == (n - 2) * step + step
  {
  }

  lemma {:induction false} RangeFacts(lo: int, hi: int)
    requires lo <= hi + 1
    ensures |Range(lo, hi)| == hi + 1 - lo
    ensures forall i :: 0 <= i < |Range(lo, hi)| ==> Range(lo, hi)[i] == lo + i
    decreases hi + 1 - lo
  {
    if lo <= hi { RangeFacts(lo + 1, hi); }
  }

  /** The fine pass visits every position within a step of the best coarse one, in order and once. */
  lemma FineExactly(minimum: int, maximum: int, step: int, best: int)
    requires minimum <= best <= maximum && step >= 1
    ensures var ps := Fine(minimum, maximum, step, best);
            && (forall p :: p in ps <==> minimum <= p <= maximum && best - step <= p <= best + step)
            && forall i :: 0 <= i < |ps| - 1 ==> ps[i + 1] == ps[i] + 1
  {
    hide Range;
    var lo, hi := Max(best - step, minimum), Min(best + step, maximum);
    RangeFacts(lo, hi);
    forall p | lo <= p <= hi ensures p in Range(lo, hi) { assert Range(lo, hi)[p - lo] == p; }
  }

  // ---------- the search ----------

  datatype Result = Invalid | Failed | Found(position: int, score: nat, samples: nat)

  /** The arguments the search refuses with EINVAL. */
  predicate GoodArguments(minimum: int, maximum: int, initial: int, step: int)
  {
    minimum <= initial <= maximum && 1 <= step && step <= maximum - minimum + 1 && step <= INT_MAX
  }

  /** No intermediate position leaves the int range. */
  predicate Headroom(minimum: int, maximum: int, step: int)
  {
    maximum - minimum <= INT_MAX && INT_MIN <= minimum - step && maximum + step <= INT_MAX
  }

  /** The sample is something the lens read at that position. */
  ghost predicate Genuine(lens: Lens, s: Sample)
  {
    exists k: nat :: lens.reading(k, s.position) == Some(s.score)
  }

  ghost predicate AllGenuine(lens: Lens, before: seq<Sample>, after: seq<Sample>)
  {
    forall i :: |before| <= i < |after| ==> Genuine(lens, after[i])
  }

  /** One of these moves did not work, or one of these measurements, at a position moved to, gave nothing. */
  ghost predicate Fault(lens: Lens, m0: nat, m1: nat, k0: nat, k1: nat, ps: seq<int>)
  {
    (exists m: nat :: m0 <= m < m1 && !lens.moveWorks(m)) ||
    (exists k: nat, p :: k0 <= k < k1 && p in ps && lens.reading(k, p).None?)
  }

  lemma FaultWider(lens: Lens, m0: nat, m1: nat, k0: nat, k1: nat, ps: seq<int>, m0': nat, m1': nat, k0': nat, k1': nat,
                   qs: seq<int>)
    requires Fault(lens, m0, m1, k0, k1, ps) && m0' <= m0 && m1 <= m1' && k0' <= k0 && k1 <= k1'
    requires forall p :: p in ps ==> p in qs
    ensures Fault(lens, m0', m1', k0', k1', qs)
  {
  }

  lemma LastMoveFailed(lens: Lens, m0: nat, m: nat, k0: nat, k1: nat, ps: seq<int>)
    requires m0 <= m && !lens.moveWorks(m)
    ensures Fault(lens, m0, m + 1, k0, k1, ps)
  {
  }

  /** All these moves worked. */
  ghost predicate MovesWorked(lens: Lens, m0: nat, m1: nat)
  {
    forall m: nat :: m0 <= m < m1 ==> lens.moveWorks(m)
  }

  lemma MovesOn(lens: Lens, m0: nat, m1: nat, m2: nat)
    requires MovesWorked(lens, m0, m1) && MovesWorked(lens, m1, m2)
    ensures MovesWorked(lens, m0, m2)
  {
  }

  lemma NoMoves(lens: Lens, m: nat)
    ensures MovesWorked(lens, m, m)
  {
  }

  lemma OneMove(lens: Lens, m: nat)
    requires lens.moveWorks(m)
    ensures MovesWorked(lens, m, m + 1)
  {
  }

  /** sample_position() */
  method SamplePosition(lens: Lens, position: int, initial: int, best: Option<Sample>)
    returns (ok: bool, best': Option<Sample>)
    modifies lens
    ensures lens.moves == old(lens.moves) + [position]
    ensures ok ==> lens.measures == old(lens.measures) + 1 && lens.reading(old(lens.measures), position).Some?
    ensures ok ==> |lens.samples| == |old(lens.samples)| + 1 && Genuine(lens, lens.samples[|old(lens.samples)|])
    ensures ok ==> var s := Sample(position, lens.reading(old(lens.measures), position).value);
                   lens.samples == old(lens.samples) + [s]
                         && best' == if Better(s, best, initial) then Some(s) else best
    ensures !ok ==> lens.samples == old(lens.samples)
    ensures lens.measures >= old(lens.measures)
    ensures if ok then lens.moveWorks(|old(lens.moves)|)
            else Fault(lens, |old(lens.moves)|, |lens.moves|, old(lens.measures), lens.measures, [position])
  {
    best' := best;
    ok := lens.Move(position);
    if !ok { return; }
    var score := lens.Measure();
    if score.None? { return false, best; }
    if Better(Sample(position, score.value), best, initial) { best' := Some(Sample(position, score.value)); }
  }

  /** One pass over these positions: the best of the new samples, one per position. */
  ghost predicate Passed(before: seq<Sample>, after: seq<Sample>, ps: seq<int>, initial: int, best: Option<Sample>)
  {
    && |before| <= |after| && after[..|before|] == before
    && Positions(after[|before|..]) == ps && best == BestOf(after[|before|..], initial)
  }

  lemma PassOne(before: seq<Sample>, middle: seq<Sample>, ps: seq<int>, initial: int, best: Option<Sample>, s: Sample)
    requires Passed(before, middle, ps, initial, best)
    ensures Passed(before, middle + [s], ps + [s.position], initial,
                   if Better(s, best, initial) then Some(s) else best)
  {
    var added := middle[|before|..];
    assert (middle + [s])[|before|..] == added + [s];
    assert (added + [s])[..|added|] == added;
  }

  lemma PassedNone(ss: seq<Sample>, initial: int)
    ensures Passed(ss, ss, [], initial, None)
  {
    assert ss[|ss|..] == [];
  }

  lemma {:induction false} PositionsLength(ss: seq<Sample>)
    ensures |Positions(ss)| == |ss| && forall i :: 0 <= i < |ss| ==> Positions(ss)[i] == ss[i].position
  {
    if ss != [] { PositionsLength(ss[..|ss| - 1]); }
  }

  /** The coarse loop. */
  method CoarsePass(lens: Lens, minimum: int, maximum: int, initial: int, step: int)
    returns (ok: bool, best: Option<Sample>, samples: nat, ghost done: seq<int>)
    requires minimum <= maximum && step >= 1 && IsInt(minimum) && IsInt(maximum) && Headroom(minimum, maximum, step)
    modifies lens
    ensures lens.moves == old(lens.moves) + done && done <= Coarse(minimum, maximum, step)
    ensures ok ==> done == Coarse(minimum, maximum, step) && samples == |done|
                   && Passed(old(lens.samples), lens.samples, done, initial, best)
                   && AllGenuine(lens, old(lens.samples), lens.samples)
    ensures lens.measures >= old(lens.measures)
    ensures ok ==> MovesWorked(lens, |old(lens.moves)|, |lens.moves|)
    ensures !ok ==> Fault(lens, |old(lens.moves)|, |lens.moves|, old(lens.measures), lens.measures, done)
  {
    hide Passed, Better, Headroom, Coarse, Genuine, Fault, AllGenuine, MovesWorked;
    best, samples, done := None, 0, [];
    ghost var s0, m0, k0, whole := lens.samples, lens.moves, lens.measures, Coarse(minimum, maximum, step);
    PassedNone(s0, initial);
    NoneGenuine(lens, s0);
    NoMoves(lens, |m0|);
    var position := minimum;
    while true
      invariant minimum <= position <= maximum
      invariant samples == |done| && lens.moves == m0 + done && whole == done + Coarse(position, maximum, step)
      invariant Passed(s0, lens.samples, done, initial, best) && AllGenuine(lens, s0, lens.samples)
      invariant lens.measures >= k0 && MovesWorked(lens, |m0|, |lens.moves|)
      decreases maximum - position
    {
      assert IsInt(position) && IsInt(maximum - position) by { InRange(minimum, maximum, step, position); }
      ghost var before, was, d, m, k := lens.samples, best, done, |lens.moves|, lens.measures;
      ok, best := SamplePosition(lens, position, initial, best);
      done := done + [position];
      CoarseStep(whole, d, position, maximum, step);
      if !ok {
        FaultLast(lens, |m0|, m, |lens.moves|, k0, k, lens.measures, d, position);
        return;
      }
      samples := samples + 1;
      SampleTaken(lens, s0, before, d, initial, was, lens.samples[|before|], |m0|, m);
      if position == maximum { return; }
      position := if maximum - position <= step then maximum else position + step;
    }
  }

  lemma CoarseStep(whole: seq<int>, done: seq<int>, position: int, maximum: int, step: int)
    requires position <= maximum && step >= 1 && whole == done + Coarse(position, maximum, step)
    ensures done + [position] <= whole
    ensures position == maximum ==> whole == done + [position]
    ensures position < maximum ==>
              whole == done + [position]
                       + Coarse(if maximum - position <= step then maximum else position + step, maximum, step)
  {
  }

  lemma InRange(minimum: int, maximum: int, step: int, position: int)
    requires IsInt(minimum) && IsInt(maximum) && Headroom(minimum, maximum, step) && minimum <= position <= maximum
    ensures IsInt(position) && IsInt(maximum - position)
  {
  }

  /** The fine loop. */
  method FinePass(lens: Lens, lo: int, hi: int, initial: int)
    returns (ok: bool, best: Option<Sample>, samples: nat, ghost done: seq<int>)
    requires lo <= hi && IsInt(lo) && IsInt(hi) && hi < INT_MAX
    modifies lens
    ensures lens.moves == old(lens.moves) + done && done <= Range(lo, hi)
    ensures ok ==> done == Range(lo, hi) && samples == |done|
                   && Passed(old(lens.samples), lens.samples, done, initial, best)
                   && AllGenuine(lens, old(lens.samples), lens.samples)
    ensures lens.measures >= old(lens.measures)
    ensures ok ==> MovesWorked(lens, |old(lens.moves)|, |lens.moves|)
    ensures !ok ==> Fault(lens, |old(lens.moves)|, |lens.moves|, old(lens.measures), lens.measures, done)
  {
    hide Passed, Better, Genuine, Fault, Range, AllGenuine, MovesWorked;
    best, samples, done, ok := None, 0, [], true;
    ghost var s0, m0, k0, whole := lens.samples, lens.moves, lens.measures, Range(lo, hi);
    PassedNone(s0, initial);
    NoneGenuine(lens, s0);
    NoMoves(lens, |m0|);
    var position := lo;
    while position <= hi
      invariant lo <= position <= hi + 1 && IsInt(position)
      invariant samples == |done| && lens.moves == m0 + done && whole == done + Range(position, hi)
      invariant Passed(s0, lens.samples, done, initial, best) && AllGenuine(lens, s0, lens.samples)
      invariant lens.measures >= k0 && MovesWorked(lens, |m0|, |lens.moves|)
    {
      ghost var before, was, d, m, k := lens.samples, best, done, |lens.moves|, lens.measures;
      RangeStep(position, hi);
      ok, best := SamplePosition(lens, position, initial, best);
      done := done + [position];
      assert whole == done + Range(position + 1, hi);
      if !ok {
        FaultLast(lens, |m0|, m, |lens.moves|, k0, k, lens.measures, d, position);
        return;
      }
      samples := samples + 1;
      SampleTaken(lens, s0, before, d, initial, was, lens.samples[|before|], |m0|, m);
      position := position + 1;
    }
    RangeStep(position, hi);
    ok := true;
  }

  /** One more genuine sample, after one more move that worked. */
  lemma SampleTaken(lens: Lens, s0: seq<Sample>, middle: seq<Sample>, ps: seq<int>, initial: int, best: Option<Sample>,
                    s: Sample, m0: nat, m: nat)
    requires Passed(s0, middle, ps, initial, best) && AllGenuine(lens, s0, middle) && Genuine(lens, s)
    requires MovesWorked(lens, m0, m) && lens.moveWorks(m)
    ensures Passed(s0, middle + [s], ps + [s.position], initial, if Better(s, best, initial) then Some(s) else best)
    ensures AllGenuine(lens, s0, middle + [s]) && MovesWorked(lens, m0, m + 1)
  {
    hide Passed, Better, Genuine, AllGenuine, MovesWorked;
    PassOne(s0, middle, ps, initial, best, s);
    OneGenuine(lens, s0, middle, s);
    OneMove(lens, m);
    MovesOn(lens, m0, m, m + 1);
  }

  lemma FaultLast(lens: Lens, m0: nat, m: nat, m1: nat, k0: nat, k: nat, k1: nat, ps: seq<int>, p: int)
    requires Fault(lens, m, m1, k, k1, [p]) && m0 <= m && k0 <= k
    ensures Fault(lens, m0, m1, k0, k1, ps + [p])
  {
    hide Fault;
    FaultWider(lens, m, m1, k, k1, [p], m0, m1, k0, k1, ps + [p]);
  }

  lemma RangeStep(lo: int, hi: int)
    requires lo <= hi + 1
    ensures Range(lo, hi) == if lo > hi then [] else [lo] + Range(lo + 1, hi)
  {
  }

  lemma NoneGenuine(lens: Lens, ss: seq<Sample>)
    ensures AllGenuine(lens, ss, ss)
  {
  }

  lemma OneGenuine(lens: Lens, before: seq<Sample>, middle: seq<Sample>, s: Sample)
    requires AllGenuine(lens, before, middle) && Genuine(lens, s)
    ensures AllGenuine(lens, before, middle + [s])
  {
    hide Genuine;
  }

  /** A best sample after a pass is one of the visited positions. */
  lemma PassedBest(before: seq<Sample>, after: seq<Sample>, ps: seq<int>, initial: int, best: Option<Sample>)
    returns (i: nat)
    requires Passed(before, after, ps, initial, best) && ps != []
    ensures i < |ps| == |after| - |before| && best == Some(after[|before| + i]) && best.value.position == ps[i]
    ensures IsBest(after[|before|..], initial, i)
  {
    var added := after[|before|..];
    PositionsLength(added);
    i := BestOfIsBest(added, initial);
    assert added[i] == after[|before| + i];
  }

  /** What a completed search did: both passes, then a move to the best fine sample. */
  ghost predicate Completed(before: seq<Sample>, after: seq<Sample>, moves: seq<int>, minimum: int, maximum: int,
                            initial: int, step: int, r: Result)
    requires GoodArguments(minimum, maximum, initial, step) && r.Found?
  {
    var coarse := Coarse(minimum, maximum, step);
    && |before| + |coarse| <= |after|
    && var mid, c := after[..|before| + |coarse|], BestOf(after[|before|..|before| + |coarse|], initial);
       && Passed(before, mid, coarse, initial, c)
       && c.Some? && minimum <= c.value.position <= maximum
       && var fine := Fine(minimum, maximum, step, c.value.position);
          && Passed(mid, after, fine, initial, Some(Sample(r.position, r.score)))
          && moves == coarse + fine + [r.position]
          && r.samples == |coarse| + |fine|
  }

  /** ca_autofocus_search() */
  method Search(lens: Lens, minimum: int, maximum: int, initial: int, step: int) returns (r: Result)
    requires IsInt(minimum) && IsInt(maximum) && IsInt(initial) && 0 <= step
    requires GoodArguments(minimum, maximum, initial, step) ==> Headroom(minimum, maximum, step)
    modifies lens
    ensures r == Invalid <==> minimum > maximum || initial < minimum || initial > maximum || step == 0
                              || step > maximum - minimum + 1 || step > 0x7fff_ffff
    ensures r == Invalid ==> lens.moves == old(lens.moves)
    ensures old(lens.moves) <= lens.moves
    ensures r != Invalid ==> Within(lens.moves[|old(lens.moves)|..], minimum, maximum)
    ensures r == Failed ==> |old(lens.moves)| < |lens.moves| && lens.moves[|lens.moves| - 1] == initial
    ensures r == Failed ==> Fault(lens, |old(lens.moves)|, |lens.moves| - 1, old(lens.measures), lens.measures,
                                  lens.moves[|old(lens.moves)|..])
    ensures r.Found? ==> MovesWorked(lens, |old(lens.moves)|, |lens.moves|)
    ensures r.Found? ==> old(lens.samples) <= lens.samples && lens.position == r.position
    ensures r.Found? ==> Completed(old(lens.samples), lens.samples, lens.moves[|old(lens.moves)|..],
                                   minimum, maximum, initial, step, r)
    ensures r.Found? ==> AllGenuine(lens, old(lens.samples), lens.samples)
  {
    hide Passed, Coarse, Range, Genuine, BestOf, Completed, IsBest, Within, AllGenuine, Fault, MovesWorked;
    if !GoodArguments(minimum, maximum, initial, step) { return Invalid; }
    ghost var m0 := lens.moves;
    var ok, best, samples, done := BothPasses(lens, minimum, maximum, initial, step);
    if ok {
      ghost var m := |lens.moves|;
      ok := lens.Move(best.value.position);
      if ok {
        OneMove(lens, m);
        MovesOn(lens, |m0|, m, m + 1);
      } else {
        LastMoveFailed(lens, |m0|, m, old(lens.measures), lens.measures, done + [best.value.position]);
      }
      done := done + [best.value.position];
      WithinMore(m0, done, best.value.position, initial, minimum, maximum);
    }
    assert lens.moves == m0 + done && lens.moves[|m0|..] == done;
    WithinMore(m0, done + [initial], initial, initial, minimum, maximum);
    if !ok {
      ghost var m1, k1 := |lens.moves|, lens.measures;
      ok := lens.Move(initial);
      assert lens.moves[|m0|..] == done + [initial];
      FaultWider(lens, |m0|, m1, old(lens.measures), k1, done, |m0|, m1, old(lens.measures), k1, done + [initial]);
      return Failed;
    }
    r := Found(best.value.position, best.value.score, samples);
  }

  lemma WithinMore(m0: seq<int>, done: seq<int>, last: int, initial: int, lo: int, hi: int)
    requires done != [] && done[|done| - 1] == last && Within(done[..|done| - 1], lo, hi) && lo <= last <= hi
    ensures Within(done, lo, hi)
  {
    assert done == done[..|done| - 1] + [last];
  }

  /** The coarse pass, the window around its best sample, the fine pass. */
  method BothPasses(lens: Lens, minimum: int, maximum: int, initial: int, step: int)
    returns (ok: bool, best: Option<Sample>, samples: nat, ghost done: seq<int>)
    requires IsInt(minimum) && IsInt(maximum) && GoodArguments(minimum, maximum, initial, step)
    requires Headroom(minimum, maximum, step)
    modifies lens
    ensures lens.moves == old(lens.moves) + done && Within(done, minimum, maximum)
    ensures ok ==> best.Some? && minimum <= best.value.position <= maximum && old(lens.samples) <= lens.samples
    ensures ok ==> Completed(old(lens.samples), lens.samples, done + [best.value.position],
                             minimum, maximum, initial, step,
                             Found(best.value.position, best.value.score, samples))
    ensures ok ==> AllGenuine(lens, old(lens.samples), lens.samples)
    ensures lens.measures >= old(lens.measures)
    ensures ok ==> MovesWorked(lens, |old(lens.moves)|, |lens.moves|)
    ensures !ok ==> Fault(lens, |old(lens.moves)|, |lens.moves|, old(lens.measures), lens.measures, done)
  {
    hide Passed, Coarse, Range, Genuine, BestOf, Completed, IsBest, Within, AllGenuine, Fault, MovesWorked;
    ghost var before, m0, k0 := lens.samples, |lens.moves|, lens.measures;
    ok, best, samples, done := CoarsePass(lens, minimum, maximum, initial, step);
    ghost var coarse := Coarse(minimum, maximum, step);
    CoarseFacts(minimum, maximum, step);
    WithinPrefix(done, coarse, minimum, maximum);
    if !ok { return; }
    ghost var mid, c := lens.samples, best;
    ghost var i := PassedBest(before, mid, coarse, initial, best);
    WithinAt(coarse, minimum, maximum, i);
    var lo, hi := best.value.position - step, best.value.position + step;
    if lo < minimum { lo := minimum; }
    if hi > maximum { hi := maximum; }
    ghost var fine := Fine(minimum, maximum, step, best.value.position);
    RangeWithin(lo, hi, minimum, maximum);
    var more;
    ghost var done';
    ghost var m, k := |lens.moves|, lens.measures;
    ok, best, more, done' := FinePass(lens, lo, hi, initial);
    WithinPrefix(done', fine, minimum, maximum);
    WithinConcat(coarse, done', minimum, maximum);
    samples, done := samples + more, done + done';
    if !ok {
      FaultWider(lens, m, |lens.moves|, k, lens.measures, done', m0, |lens.moves|, k0, lens.measures, done);
      return;
    }
    MovesOn(lens, m0, m, |lens.moves|);
    ghost var j := PassedBest(mid, lens.samples, fine, initial, best);
    WithinAt(fine, minimum, maximum, j);
    PassedPositions(mid, lens.samples, fine, initial, best);
    GenuineSteps(lens, before, mid, lens.samples);
    CompletedBy(before, mid, lens.samples, coarse, fine, minimum, maximum, initial, step, c,
                Found(best.value.position, best.value.score, samples));
  }

  lemma WithinPrefix(a: seq<int>, b: seq<int>, lo: int, hi: int)
    requires a <= b && Within(b, lo, hi)
    ensures Within(a, lo, hi)
  {
    assert forall p :: p in a ==> p in b;
  }

  lemma GenuineSteps(lens: Lens, before: seq<Sample>, mid: seq<Sample>, after: seq<Sample>)
    requires AllGenuine(lens, before, mid) && AllGenuine(lens, mid, after)
    requires |mid| <= |after| && after[..|mid|] == mid
    ensures AllGenuine(lens, before, after)
  {
    hide Genuine;
    assert forall i :: 0 <= i < |mid| ==> after[i] == mid[i];
  }

  /** If the lens always reads the same score at a position, so do the samples. */
  lemma FixedScore(lens: Lens, before: seq<Sample>, after: seq<Sample>, score: int -> nat)
    requires |before| <= |after| && AllGenuine(lens, before, after)
    requires forall k: nat, p :: lens.reading(k, p).Some? ==> lens.reading(k, p).value == score(p)
    ensures Reads(after[|before|..], score)
  {
    forall i | 0 <= i < |after| - |before|
      ensures after[|before|..][i].score == score(after[|before|..][i].position)
    {
      var s := after[|before| + i];
      assert Genuine(lens, s);
      var k: nat :| lens.reading(k, s.position) == Some(s.score);
    }
  }

  lemma WithinAt(ps: seq<int>, lo: int, hi: int, i: nat)
    requires Within(ps, lo, hi) && i < |ps|
    ensures lo <= ps[i] <= hi
  {
    assert ps[i] in ps;
  }

  lemma WithinConcat(a: seq<int>, b: seq<int>, lo: int, hi: int)
    ensures Within(a, lo, hi) && Within(b, lo, hi) ==> Within(a + b, lo, hi)
  {
  }

  lemma RangeWithin(lo: int, hi: int, minimum: int, maximum: int)
    requires minimum <= lo <= hi <= maximum
    ensures Within(Range(lo, hi), minimum, maximum) && Range(lo, hi) != []
  {
    RangeFacts(lo, hi);
  }

  lemma CompletedBy(before: seq<Sample>, mid: seq<Sample>, after: seq<Sample>, coarse: seq<int>, fine: seq<int>,
                    minimum: int, maximum: int, initial: int, step: int, c: Option<Sample>, r: Result)
    requires GoodArguments(minimum, maximum, initial, step) && r.Found?
    requires coarse == Coarse(minimum, maximum, step) && Passed(before, mid, coarse, initial, c)
    requires c.Some? && minimum <= c.value.position <= maximum && fine == Fine(minimum, maximum, step, c.value.position)
    requires Passed(mid, after, fine, initial, Some(Sample(r.position, r.score))) && r.samples == |coarse| + |fine|
    ensures before <= after
    ensures Completed(before, after, coarse + fine + [r.position], minimum, maximum, initial, step, r)
  {
    PositionsLength(mid[|before|..]);
    assert |mid| == |before| + |coarse| && after[..|mid|] == mid;
    assert after[|before|..|mid|] == mid[|before|..];
    assert mid == before + mid[|before|..] && after == mid + after[|mid|..];
  }

  // ---------- what a completed search found ----------

  /** The result is the best sample of the fine pass, ties going to the nearest to the initial position. */
  lemma FineIsAuthoritative(before: seq<Sample>, after: seq<Sample>, moves: seq<int>, minimum: int, maximum: int,
                            initial: int, step: int, r: Result) returns (fine: seq<Sample>, i: nat)
    requires GoodArguments(minimum, maximum, initial, step) && r.Found?
    requires Completed(before, after, moves, minimum, maximum, initial, step, r)
    ensures i < |fine| <= |after| && fine == after[|after| - |fine|..]
    ensures IsBest(fine, initial, i) && fine[i] == Sample(r.position, r.score)
    ensures |fine| <= 2 * step + 1
  {
    hide Passed, BestOf;
    var coarse := Coarse(minimum, maximum, step);
    var mid := after[..|before| + |coarse|];
    var c := BestOf(after[|before|..|before| + |coarse|], initial);
    var ps := Fine(minimum, maximum, step, c.value.position);
    RangeFacts(Max(c.value.position - step, minimum), Min(c.value.position + step, maximum));
    i := PassedBest(mid, after, ps, initial, Some(Sample(r.position, r.score)));
    fine := after[|mid|..];
    assert fine[i] == after[|mid| + i];
  }

  /** Both passes together stay within the promised number of samples: one per coarse step
      (rounded up) and one, and at most twice the step and one. */
  lemma SampleBound(before: seq<Sample>, after: seq<Sample>, moves: seq<int>, minimum: int, maximum: int,
                    initial: int, step: int, r: Result)
    requires GoodArguments(minimum, maximum, initial, step) && r.Found?
    requires Completed(before, after, moves, minimum, maximum, initial, step, r)
    ensures r.samples <= ((maximum - minimum + step - 1) / step + 1) + (2 * step + 1)
  {
    hide Passed, BestOf;
    var coarse := Coarse(minimum, maximum, step);
    var c := BestOf(after[|before|..|before| + |coarse|], initial);
    CoarseFacts(minimum, maximum, step);
    RangeFacts(Max(c.value.position - step, minimum), Min(c.value.position + step, maximum));
    if minimum < maximum { CeilBound(|coarse| - 2, maximum - minimum, step); }
  }

  lemma CeilBound(n: int, span: int, step: int)
    requires step >= 1 && span >= 1 && n * step < span
    ensures n < (span + step - 1) / step
  {
    var q := (span + step - 1) / step;
    assert q * step >= span;
    assert n >= q ==> n * step >= q * step;
  }

  // ---------- a fixed score with one peak ----------

  /** The score rises strictly up to the peak and falls strictly after it. */
  ghost predicate Unimodal(score: int -> nat, lo: int, hi: int, peak: int)
  {
    && lo <= peak <= hi
    && (forall x, y :: lo <= x < y <= peak ==> score(x) < score(y))
    && (forall x, y :: peak <= x < y <= hi ==> score(x) > score(y))
  }

  /** Every sample reads the score of its position. */
  predicate Reads(ss: seq<Sample>, score: int -> nat)
  {
    forall i :: 0 <= i < |ss| ==> ss[i].score == score(ss[i].position)
  }

  /** Some coarse position is within a step below the peak, and the next, if any, above it. */
  lemma {:induction false} Bracket(ps: seq<int>, peak: int, step: int) returns (k: nat)
    requires |ps| >= 1 && ps[0] <= peak <= ps[|ps| - 1]
    requires forall i :: 0 <= i < |ps| - 1 ==> ps[i] < ps[i + 1] <= ps[i] + step
    ensures k < |ps| && ps[k] <= peak && (k + 1 < |ps| ==> peak <= ps[k + 1]) && (k + 1 == |ps| ==> ps[k] == peak)
  {
    k := 0;
    while k + 1 < |ps| && ps[k + 1] <= peak
      invariant k < |ps| && ps[k] <= peak
    {
      k := k + 1;
    }
  }

  lemma {:induction false} Increasing(ps: seq<int>, step: int, i: nat, j: nat)
    requires i <= j < |ps|
    requires forall i :: 0 <= i < |ps| - 1 ==> ps[i] < ps[i + 1] <= ps[i] + step
    ensures ps[i] <= ps[j] && (i < j ==> ps[i] < ps[j])
  {
    if i < j { Increasing(ps, step, i, j - 1); }
  }

  /** The best coarse sample is next to the peak, so the fine window holds it. */
  lemma CoarseNearPeak(ps: seq<int>, ss: seq<Sample>, score: int -> nat, lo: int, hi: int, peak: int, step: int,
                       initial: int, b: nat)
    requires |ps| >= 1 && ps[0] == lo && ps[|ps| - 1] == hi && step >= 1
    requires forall i :: 0 <= i < |ps| - 1 ==> ps[i] < ps[i + 1] <= ps[i] + step
    requires Positions(ss) == ps && Reads(ss, score) && Unimodal(score, lo, hi, peak)
    requires b < |ss| && IsBest(ss, initial, b)
    ensures b < |ps| && ps[b] - step <= peak <= ps[b] + step
  {
    PositionsLength(ss);
    if !(ps[b] - step <= peak <= ps[b] + step) {
      var m := HigherNeighbour(ps, score, lo, hi, peak, step, b);
      assert false;
    }
  }

  /** A coarse position further than a step from the peak is beaten by one next to it. */
  lemma HigherNeighbour(ps: seq<int>, score: int -> nat, lo: int, hi: int, peak: int, step: int, b: nat)
    returns (m: nat)
    requires |ps| >= 1 && ps[0] == lo && ps[|ps| - 1] == hi && step >= 1
    requires forall i :: 0 <= i < |ps| - 1 ==> ps[i] < ps[i + 1] <= ps[i] + step
    requires Unimodal(score, lo, hi, peak) && b < |ps| && !(ps[b] - step <= peak <= ps[b] + step)
    ensures m < |ps| && score(ps[m]) > score(ps[b])
  {
    var k := Bracket(ps, peak, step);
    Increasing(ps, step, 0, b);
    Increasing(ps, step, b, |ps| - 1);
    if b < k {
      Increasing(ps, step, b, k);
      m := k;
    } else {
      assert b > k;
      Increasing(ps, step, k, b);
      Increasing(ps, step, k + 1, b);
      m := k + 1;
    }
  }

  /** For any fixed strictly unimodal score the search returns the global peak. */
  lemma FindsThePeak(before: seq<Sample>, after: seq<Sample>, moves: seq<int>, minimum: int, maximum: int,
                     initial: int, step: int, r: Result, score: int -> nat, peak: int)
    requires GoodArguments(minimum, maximum, initial, step) && r.Found?
    requires Completed(before, after, moves, minimum, maximum, initial, step, r)
    requires Reads(after[if |before| <= |after| then |before| else |after|..], score)
    requires Unimodal(score, minimum, maximum, peak)
    ensures r.position == peak && r.score == score(peak)
  {
    hide BestOf, Coarse, Range, Unimodal, IsBest, Passed, Reads;
    var coarse := Coarse(minimum, maximum, step);
    var mid := after[..|before| + |coarse|];
    var first := after[|before|..|before| + |coarse|];
    var c := BestOf(first, initial);
    PeakInside(score, minimum, maximum, peak);
    ReadsParts(before, after, |coarse|, score);
    assert mid[|before|..] == first;
    PeakInWindow(before, mid, c, score, minimum, maximum, peak, step, initial);
    var ps := Fine(minimum, maximum, step, c.value.position);
    RangeFacts(Max(c.value.position - step, minimum), Min(c.value.position + step, maximum));
    var i := PassedBest(mid, after, ps, initial, Some(Sample(r.position, r.score)));
    assert after[|mid|..][i] == after[|mid| + i];
    PassedPositions(mid, after, ps, initial, Some(Sample(r.position, r.score)));
    PeakWins(after[|mid|..], ps, Max(c.value.position - step, minimum), score, minimum, maximum, peak, initial, i);
  }

  /** The running search with such a lens: if it succeeds, the lens stands at the global peak. */
  method SearchPeak(lens: Lens, minimum: int, maximum: int, initial: int, step: int,
                    ghost score: int -> nat, ghost peak: int) returns (r: Result)
    requires IsInt(minimum) && IsInt(maximum) && IsInt(initial) && 0 <= step
    requires GoodArguments(minimum, maximum, initial, step) ==> Headroom(minimum, maximum, step)
    requires forall k: nat, p :: lens.reading(k, p).Some? ==> lens.reading(k, p).value == score(p)
    requires Unimodal(score, minimum, maximum, peak)
    modifies lens
    ensures r.Found? ==> r.position == peak && r.score == score(peak) && lens.position == peak
  {
    hide Unimodal, Completed, AllGenuine, Within;
    ghost var before, moved := lens.samples, |lens.moves|;
    r := Search(lens, minimum, maximum, initial, step);
    if r.Found? {
      FixedScore(lens, before, lens.samples, score);
      FindsThePeak(before, lens.samples, lens.moves[moved..], minimum, maximum, initial, step, r, score, peak);
    }
  }

  lemma PassedPositions(before: seq<Sample>, after: seq<Sample>, ps: seq<int>, initial: int, best: Option<Sample>)
    requires Passed(before, after, ps, initial, best)
    ensures |before| <= |after| && after[..|before|] == before && Positions(after[|before|..]) == ps
  {
  }

  lemma ReadsParts(before: seq<Sample>, after: seq<Sample>, n: nat, score: int -> nat)
    requires |before| + n <= |after| && Reads(after[|before|..], score)
    ensures Reads(after[..|before| + n][|before|..], score) && Reads(after[|before| + n..], score)
  {
    var all, first, rest := after[|before|..], after[..|before| + n][|before|..], after[|before| + n..];
    assert forall i :: 0 <= i < |first| ==> first[i] == all[i];
    assert forall i :: 0 <= i < |rest| ==> rest[i] == all[n + i];
  }

  /** The coarse pass leaves the peak inside the window it hands on. */
  lemma PeakInWindow(before: seq<Sample>, mid: seq<Sample>, c: Option<Sample>, score: int -> nat,
                     minimum: int, maximum: int, peak: int, step: int, initial: int)
    requires GoodArguments(minimum, maximum, initial, step) && c.Some?
    requires Passed(before, mid, Coarse(minimum, maximum, step), initial, c)
    requires |before| <= |mid| && Reads(mid[|before|..], score) && Unimodal(score, minimum, maximum, peak)
    ensures c.value.position - step <= peak <= c.value.position + step
  {
    hide BestOf, Coarse, Unimodal, IsBest, Passed, Reads;
    var coarse := Coarse(minimum, maximum, step);
    CoarseFacts(minimum, maximum, step);
    var b := PassedBest(before, mid, coarse, initial, c);
    PassedPositions(before, mid, coarse, initial, c);
    assert mid[|before|..][b] == mid[|before| + b];
    CoarseNearPeak(coarse, mid[|before|..], score, minimum, maximum, peak, step, initial, b);
  }

  lemma PeakInside(score: int -> nat, lo: int, hi: int, peak: int)
    requires Unimodal(score, lo, hi, peak)
    ensures lo <= peak <= hi
  {
  }

  lemma PeakWins(fine: seq<Sample>, ps: seq<int>, lo: int, score: int -> nat, minimum: int, maximum: int, peak: int,
                 initial: int, i: nat)
    requires Positions(fine) == ps && Reads(fine, score) && Unimodal(score, minimum, maximum, peak)
    requires i < |fine| && IsBest(fine, initial, i)
    requires |ps| > peak - lo >= 0 && forall j :: 0 <= j < |ps| ==> ps[j] == lo + j
    requires minimum <= lo && lo + |ps| - 1 <= maximum
    ensures fine[i].position == peak && fine[i].score == score(peak)
  {
    hide IsBest, Unimodal;
    PositionsLength(fine);
    var k := peak - lo;
    assert fine[k].position == peak && fine[k].score == score(peak);
    BestAtLeast(fine, initial, i, k);
    assert fine[i].position == lo + i && fine[i].score == score(fine[i].position);
    OnlyThePeak(score, minimum, maximum, peak, fine[i].position);
  }

  lemma BestAtLeast(ss: seq<Sample>, initial: int, i: nat, k: nat)
    requires i < |ss| && k < |ss| && IsBest(ss, initial, i)
    ensures ss[k].score <= ss[i].score
  {
  }

  /** No other position scores as high as the peak. */
  lemma OnlyThePeak(score: int -> nat, lo: int, hi: int, peak: int, x: int)
    requires Unimodal(score, lo, hi, peak) && lo <= x <= hi && score(x) >= score(peak)
    ensures x == peak
  {
  }
}
