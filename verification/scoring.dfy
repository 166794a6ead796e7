/** Scoring and retirement of pipes.

    One scoring pass walks the stream in insertion order. A half that is not
    yet passed and whose centre is left of the bird's centre earns the points
    its rule grants and marks as passed every half that shares its centre
    (its twin, in a well-formed stream). The walk sees the flags as earlier
    steps left them. Afterwards every half whose right edge is left of the
    screen is retired.

    Two rules are modelled. `BottomHalfOnly` is the rule of the source: only
    the bottom half earns the point. Because the top half is visited first and
    marks its twin, that rule never scores on a stream of whole pairs
    (AsWrittenNeverScores). `FirstHalfVisited` is the corrected rule: the first
    unpassed half of a pair earns the point; it scores each crossed pair once
    (CorrectedScoresEachCrossedPair). The game loop is parameterised by the
    rule, so both the program as written and the corrected one are modelled.
 */
module Scoring {
  import opened Geometry
  import opened Pipes

  datatype Rule = BottomHalfOnly | FirstHalfVisited

  /** Points earned by visiting the unpassed, crossed half `p`. */
  function Gain(p: Pipe, rule: Rule): nat {
    if rule == FirstHalfVisited || !p.isTop then 1 else 0
  }

  /** `b` is `a` with the same halves in the same places, flags possibly raised. */
  predicate FlagsGrow(a: seq<Pipe>, b: seq<Pipe>) {
    |a| == |b| &&
    forall k :: 0 <= k < |a| ==>
      b[k].rect == a[k].rect && b[k].isTop == a[k].isTop && (a[k].passed ==> b[k].passed)
  }

  /** Marks every half whose centre is `cx` as passed and leaves all else alone. */
  function MarkPassed(ps: seq<Pipe>, cx: int): (r: seq<Pipe>)
    ensures FlagsGrow(ps, r)
    ensures forall k :: 0 <= k < |ps| ==> (r[k].passed <==> ps[k].passed || ps[k].CenterX() == cx)
  {
    seq(|ps|, k requires 0 <= k < |ps| =>
      if ps[k].CenterX() == cx then ps[k].(passed := true) else ps[k])
  }

  datatype Tally = Tally(pipes: seq<Pipe>, score: int)

  /** The scoring walk from position `i` on, with the flags as they stand. */
  function Sweep(ps: seq<Pipe>, birdCx: int, i: nat, score: int, rule: Rule): (t: Tally)
    requires i <= |ps|
    ensures FlagsGrow(ps, t.pipes)
    ensures score <= t.score
    decreases |ps| - i
  {
    if i == |ps| then Tally(ps, score)
    else
      var p := ps[i];
      if !p.passed && p.CenterX() < birdCx then
        Sweep(MarkPassed(ps, p.CenterX()), birdCx, i + 1, score + Gain(p, rule), rule)
      else
        Sweep(ps, birdCx, i + 1, score, rule)
  }

  /** The walk raises the flag of every half from `i` on whose centre is left of
      the bird, and of no half whose centre is not. */
  lemma {:induction false} SweepMarksExactlyCrossed(ps: seq<Pipe>, birdCx: int, i: nat, score: int, rule: Rule)
    requires i <= |ps|
    ensures var t := Sweep(ps, birdCx, i, score, rule);
      forall k :: 0 <= k < |ps| && t.pipes[k].passed ==> ps[k].passed || ps[k].CenterX() < birdCx
    ensures var t := Sweep(ps, birdCx, i, score, rule);
      forall k :: i <= k < |ps| && ps[k].CenterX() < birdCx ==> t.pipes[k].passed
    decreases |ps| - i
  {
    if i < |ps| {
      var p := ps[i];
      if !p.passed && p.CenterX() < birdCx {
        SweepMarksExactlyCrossed(MarkPassed(ps, p.CenterX()), birdCx, i + 1, score + Gain(p, rule), rule);
      } else {
        SweepMarksExactlyCrossed(ps, birdCx, i + 1, score, rule);
      }
    }
  }

  /** Removes every half whose right edge is left of the screen; the others stay, in order. */
  function Retire(ps: seq<Pipe>): (r: seq<Pipe>)
    ensures |r| <= |ps|
    ensures forall p :: p in r ==> 0 <= p.rect.Right()
    decreases |ps|
  {
    if |ps| == 0 then []
    else
      (if ps[0].rect.Right() < 0 then [] else [ps[0]]) + Retire(ps[1..])
  }

  /** Retirement keeps every half whose right edge is on or right of the screen's
      left edge, as many times as it occurs, and nothing else. */
  lemma {:induction false} RetireKeepsExactlyTheLive(ps: seq<Pipe>)
    ensures forall p :: multiset(Retire(ps))[p] == (if 0 <= p.rect.Right() then multiset(ps)[p] else 0)
    decreases |ps|
  {
    if |ps| > 0 {
      assert ps == [ps[0]] + ps[1..];
      RetireKeepsExactlyTheLive(ps[1..]);
    }
  }

  /** Retirement depends only on geometry, so it keeps the same positions of two
      streams that differ only in raised flags. */
  lemma {:induction false} RetireFlagsGrow(a: seq<Pipe>, b: seq<Pipe>)
    requires FlagsGrow(a, b)
    ensures FlagsGrow(Retire(a), Retire(b))
    decreases |a|
  {
    if |a| > 0 {
      var ra, rb := Retire(a[1..]), Retire(b[1..]);
      assert FlagsGrow(a[1..], b[1..]);
      RetireFlagsGrow(a[1..], b[1..]);
      if a[0].rect.Right() < 0 {
        assert Retire(a) == ra && Retire(b) == rb;
      } else {
        assert Retire(a) == [a[0]] + ra && Retire(b) == [b[0]] + rb;
        assert FlagsGrow([a[0]], [b[0]]);
        FlagsGrowAppend([a[0]], ra, [b[0]], rb);
      }
    }
  }

  lemma FlagsGrowAppend(a1: seq<Pipe>, a2: seq<Pipe>, b1: seq<Pipe>, b2: seq<Pipe>)
    requires FlagsGrow(a1, b1) && FlagsGrow(a2, b2)
    ensures FlagsGrow(a1 + a2, b1 + b2)
  {
    var a, b := a1 + a2, b1 + b2;
    forall k | 0 <= k < |a|
      ensures b[k].rect == a[k].rect && b[k].isTop == a[k].isTop && (a[k].passed ==> b[k].passed)
    {
      if k >= |a1| {
        assert a[k] == a2[k - |a1|] && b[k] == b2[k - |a1|];
      }
    }
  }

  lemma {:induction false} RetireAppend(a: seq<Pipe>, b: seq<Pipe>)
    ensures Retire(a + b) == Retire(a) + Retire(b)
    decreases |a|
  {
    if |a| > 0 {
      assert (a + b)[1..] == a[1..] + b;
      RetireAppend(a[1..], b);
    } else {
      assert a + b == b;
    }
  }

  /** Both halves of a pair share their right edge, so they go together. */
  lemma RetirePair(t: Pipe, b: Pipe)
    requires IsPair(t, b)
    ensures Retire([t, b]) == [] || Retire([t, b]) == [t, b]
  {
    assert [t, b][1..] == [b];
    assert [b][1..] == [];
  }

  lemma DropPairWellFormed(ps: seq<Pipe>)
    requires WellFormed(ps) && 2 <= |ps|
    ensures WellFormed(ps[2..])
  {
    var rest := ps[2..];
    forall k | 0 <= k < |rest| / 2
      ensures PairedAt(rest, k)
    {
      assert PairedAt(ps, k + 1);
    }
  }

  /** A pair is retired as a whole: the stream stays made of whole pairs. */
  lemma {:induction false} RetireWellFormed(ps: seq<Pipe>)
    requires WellFormed(ps)
    ensures WellFormed(Retire(ps))
    decreases |ps|
  {
    if |ps| > 0 {
      assert PairedAt(ps, 0);
      var head, rest := [ps[0], ps[1]], ps[2..];
      assert ps == head + rest;
      DropPairWellFormed(ps);
      RetireWellFormed(rest);
      RetireAppend(head, rest);
      RetirePair(ps[0], ps[1]);
      assert WellFormed(Retire(head)) by {
        if Retire(head) == head {
          assert PairedAt(head, 0);
        }
      }
      ConcatWellFormed(Retire(head), Retire(rest));
    }
  }

  /** Marking by centre raises both flags of a pair or neither. */
  lemma MarkPassedWellFormed(ps: seq<Pipe>, cx: int)
    requires WellFormed(ps)
    ensures WellFormed(MarkPassed(ps, cx))
  {
    var r := MarkPassed(ps, cx);
    forall k | 0 <= k < |r| / 2
      ensures PairedAt(r, k)
    {
      assert PairedAt(ps, k);
    }
  }

  lemma {:induction false} SweepWellFormed(ps: seq<Pipe>, birdCx: int, i: nat, score: int, rule: Rule)
    requires i <= |ps| && WellFormed(ps)
    ensures WellFormed(Sweep(ps, birdCx, i, score, rule).pipes)
    decreases |ps| - i
  {
    if i < |ps| {
      var p := ps[i];
      if !p.passed && p.CenterX() < birdCx {
        MarkPassedWellFormed(ps, p.CenterX());
        SweepWellFormed(MarkPassed(ps, p.CenterX()), birdCx, i + 1, score + Gain(p, rule), rule);
      } else {
        SweepWellFormed(ps, birdCx, i + 1, score, rule);
      }
    }
  }

  // ---------------------------------------------------------------------------
  // At most one point per eligible half over its lifetime

  /** Number of halves unpassed in `before`, passed in `after`, that the rule lets score. */
  function Flipped(before: seq<Pipe>, after: seq<Pipe>, rule: Rule): nat
    requires |before| == |after|
    decreases |before|
  {
    if |before| == 0 then 0
    else
      (if !before[0].passed && after[0].passed && Gain(before[0], rule) > 0 then 1 else 0)
      + Flipped(before[1..], after[1..], rule)
  }

  lemma {:induction false} FlippedGrows(base: seq<Pipe>, a: seq<Pipe>, b: seq<Pipe>, rule: Rule)
    requires FlagsGrow(base, a) && FlagsGrow(a, b)
    ensures Flipped(base, a, rule) <= Flipped(base, b, rule)
    decreases |base|
  {
    if |base| > 0 {
      FlippedGrows(base[1..], a[1..], b[1..], rule);
    }
  }

  lemma {:induction false} FlippedGrowsStrictly(base: seq<Pipe>, a: seq<Pipe>, b: seq<Pipe>, i: nat, rule: Rule)
    requires FlagsGrow(base, a) && FlagsGrow(a, b)
    requires i < |base| && !a[i].passed && b[i].passed && Gain(base[i], rule) > 0
    ensures Flipped(base, a, rule) + 1 <= Flipped(base, b, rule)
    decreases i
  {
    if i == 0 {
      FlippedGrows(base[1..], a[1..], b[1..], rule);
    } else {
      FlippedGrowsStrictly(base[1..], a[1..], b[1..], i - 1, rule);
    }
  }

  lemma {:induction false} FlippedNone(ps: seq<Pipe>, rule: Rule)
    ensures Flipped(ps, ps, rule) == 0
    decreases |ps|
  {
    if |ps| > 0 {
      FlippedNone(ps[1..], rule);
    }
  }

  /** Marking the visited half raises the count of flipped eligible halves by at
      least the points the visit earns. */
  lemma MarkFlips(base: seq<Pipe>, ps: seq<Pipe>, i: nat, rule: Rule)
    requires i < |ps| && FlagsGrow(base, ps) && !ps[i].passed
    ensures FlagsGrow(base, MarkPassed(ps, ps[i].CenterX()))
    ensures Flipped(base, ps, rule) + Gain(ps[i], rule)
            <= Flipped(base, MarkPassed(ps, ps[i].CenterX()), rule)
  {
    var ps' := MarkPassed(ps, ps[i].CenterX());
    if Gain(ps[i], rule) > 0 {
      FlippedGrowsStrictly(base, ps, ps', i, rule);
    } else {
      FlippedGrows(base, ps, ps', rule);
    }
  }

  lemma {:induction false} SweepGainBoundedFrom(base: seq<Pipe>, ps: seq<Pipe>, birdCx: int, i: nat, score: int, rule: Rule)
    requires i <= |ps| && FlagsGrow(base, ps)
    ensures FlagsGrow(base, Sweep(ps, birdCx, i, score, rule).pipes)
    ensures Sweep(ps, birdCx, i, score, rule).score - score + Flipped(base, ps, rule)
            <= Flipped(base, Sweep(ps, birdCx, i, score, rule).pipes, rule)
    decreases |ps| - i
  {
    if i < |ps| {
      var p := ps[i];
      if !p.passed && p.CenterX() < birdCx {
        MarkFlips(base, ps, i, rule);
        SweepGainBoundedFrom(base, MarkPassed(ps, p.CenterX()), birdCx, i + 1, score + Gain(p, rule), rule);
      } else {
        SweepGainBoundedFrom(base, ps, birdCx, i + 1, score, rule);
      }
    }
  }

  /** A pass earns no more points than the number of eligible halves whose flag
      it raises. Flags are never lowered, so an eligible half earns at most
      once in its lifetime, and a half already passed earns nothing. */
  lemma SweepGainBounded(ps: seq<Pipe>, birdCx: int, score: int, rule: Rule)
    ensures Sweep(ps, birdCx, 0, score, rule).score - score
            <= Flipped(ps, Sweep(ps, birdCx, 0, score, rule).pipes, rule)
  {
    FlippedNone(ps, rule);
    SweepGainBoundedFrom(ps, ps, birdCx, 0, score, rule);
  }

  // ---------------------------------------------------------------------------
  // The two rules on a stream of whole pairs

  /** Two steps of the walk over a half that marks its twin, then the twin. */
  lemma SweepMarksTwin(ps: seq<Pipe>, birdCx: int, i: nat, score: int, rule: Rule)
    requires i + 1 < |ps| && !ps[i].passed && ps[i].CenterX() < birdCx
    requires MarkPassed(ps, ps[i].CenterX())[i + 1].passed
    ensures Sweep(ps, birdCx, i, score, rule)
         == Sweep(MarkPassed(ps, ps[i].CenterX()), birdCx, i + 2, score + Gain(ps[i], rule), rule)
  {
  }

  /** Two steps of the walk over two halves that are both passed or both not crossed. */
  lemma SweepSkipsTwo(ps: seq<Pipe>, birdCx: int, i: nat, score: int, rule: Rule)
    requires i + 1 < |ps|
    requires ps[i].passed || birdCx <= ps[i].CenterX()
    requires ps[i + 1].passed || birdCx <= ps[i + 1].CenterX()
    ensures Sweep(ps, birdCx, i, score, rule) == Sweep(ps, birdCx, i + 2, score, rule)
  {
  }

  /** The walk over a crossed, unpassed pair: its top half is met first, earns
      what the rule grants a top half, and marks its twin, which is then skipped. */
  lemma CrossPair(ps: seq<Pipe>, birdCx: int, k: nat, score: int, rule: Rule)
    requires WellFormed(ps) && k < |ps| / 2
    requires !ps[2 * k].passed && PairCenter(ps, k) < birdCx
    ensures WellFormed(MarkPassed(ps, PairCenter(ps, k)))
    ensures Gain(ps[2 * k], rule) == (if rule == FirstHalfVisited then 1 else 0)
    ensures Sweep(ps, birdCx, 2 * k, score, rule)
         == Sweep(MarkPassed(ps, PairCenter(ps, k)), birdCx, 2 * k + 2, score + Gain(ps[2 * k], rule), rule)
  {
    MarksTwin(ps, k);
    SweepMarksTwin(ps, birdCx, 2 * k, score, rule);
  }

  /** Marking a pair's centre marks both its halves and keeps the stream in whole pairs. */
  lemma MarksTwin(ps: seq<Pipe>, k: nat)
    requires WellFormed(ps) && k < |ps| / 2
    ensures ps[2 * k].isTop
    ensures WellFormed(MarkPassed(ps, PairCenter(ps, k)))
    ensures MarkPassed(ps, PairCenter(ps, k))[2 * k + 1].passed
  {
    assert PairedAt(ps, k);
    PairSharesCenter(ps, k);
    MarkPassedWellFormed(ps, PairCenter(ps, k));
  }

  /** The walk over a pair that is passed or not yet crossed earns nothing and changes nothing. */
  lemma SkipPair(ps: seq<Pipe>, birdCx: int, k: nat, score: int, rule: Rule)
    requires WellFormed(ps) && k < |ps| / 2
    requires ps[2 * k].passed || birdCx <= PairCenter(ps, k)
    ensures Sweep(ps, birdCx, 2 * k, score, rule) == Sweep(ps, birdCx, 2 * k + 2, score, rule)
  {
    assert PairedAt(ps, k);
    PairSharesCenter(ps, k);
    SweepSkipsTwo(ps, birdCx, 2 * k, score, rule);
  }

  /** With the source's rule, the walk from the k-th pair on never scores. */
  lemma {:induction false} AsWrittenSweepFrom(ps: seq<Pipe>, birdCx: int, k: nat, score: int)
    requires WellFormed(ps) && k <= |ps| / 2
    ensures Sweep(ps, birdCx, 2 * k, score, BottomHalfOnly).score == score
    decreases |ps| / 2 - k
  {
    if k < |ps| / 2 {
      if !ps[2 * k].passed && PairCenter(ps, k) < birdCx {
        CrossPair(ps, birdCx, k, score, BottomHalfOnly);
        AsWrittenSweepFrom(MarkPassed(ps, PairCenter(ps, k)), birdCx, k + 1, score);
      } else {
        SkipPair(ps, birdCx, k, score, BottomHalfOnly);
        AsWrittenSweepFrom(ps, birdCx, k + 1, score);
      }
    }
  }

  /** Number of pairs from the k-th on that are unpassed with their centre left of the bird. */
  function CrossedPairs(ps: seq<Pipe>, birdCx: int, k: nat): nat
    decreases |ps| / 2 - k
  {
    if |ps| / 2 <= k then 0
    else
      (if !ps[2 * k].passed && PairCenter(ps, k) < birdCx then 1 else 0)
      + CrossedPairs(ps, birdCx, k + 1)
  }

  lemma {:induction false} CrossedPairsFrame(a: seq<Pipe>, b: seq<Pipe>, birdCx: int, k: nat)
    requires |a| == |b|
    requires forall m :: 2 * k <= m < |a| ==> a[m] == b[m]
    ensures CrossedPairs(a, birdCx, k) == CrossedPairs(b, birdCx, k)
    decreases |a| / 2 - k
  {
    if k < |a| / 2 {
      CrossedPairsFrame(a, b, birdCx, k + 1);
    }
  }

  /** With distinct pair centres, marking the k-th pair's centre touches that pair only. */
  lemma MarkPairOnly(ps: seq<Pipe>, k: nat)
    requires WellFormed(ps) && DistinctPairs(ps) && k < |ps| / 2
    ensures forall m :: 0 <= m < |ps| && m / 2 != k ==> MarkPassed(ps, PairCenter(ps, k))[m] == ps[m]
  {
    var r := MarkPassed(ps, PairCenter(ps, k));
    forall m | 0 <= m < |ps| && m / 2 != k
      ensures r[m] == ps[m]
    {
      var j := m / 2;
      PairSharesCenter(ps, j);
      assert ps[m].CenterX() == PairCenter(ps, j);
      if j < k {
        assert PairCenter(ps, j) != PairCenter(ps, k);
      } else {
        assert PairCenter(ps, k) != PairCenter(ps, j);
      }
    }
  }

  /** Crossing the k-th pair of a stream with distinct centres leaves distinct
      centres and the later pairs as they were. */
  lemma MarkPairStep(ps: seq<Pipe>, birdCx: int, k: nat)
    requires WellFormed(ps) && DistinctPairs(ps) && k < |ps| / 2
    ensures DistinctPairs(MarkPassed(ps, PairCenter(ps, k)))
    ensures CrossedPairs(MarkPassed(ps, PairCenter(ps, k)), birdCx, k + 1) == CrossedPairs(ps, birdCx, k + 1)
  {
    var ps' := MarkPassed(ps, PairCenter(ps, k));
    MarkPairOnly(ps, k);
    forall j | 0 <= j < |ps'| / 2
      ensures PairCenter(ps', j) == PairCenter(ps, j)
    {
    }
    CrossedPairsFrame(ps', ps, birdCx, k + 1);
  }

  /** With the corrected rule, the walk from the k-th pair on scores once per
      crossed, unpassed pair. */
  lemma {:induction false} CorrectedSweepFrom(ps: seq<Pipe>, birdCx: int, k: nat, score: int)
    requires WellFormed(ps) && DistinctPairs(ps) && k <= |ps| / 2
    ensures Sweep(ps, birdCx, 2 * k, score, FirstHalfVisited).score == score + CrossedPairs(ps, birdCx, k)
    decreases |ps| / 2 - k
  {
    if k < |ps| / 2 {
      if !ps[2 * k].passed && PairCenter(ps, k) < birdCx {
        CrossPair(ps, birdCx, k, score, FirstHalfVisited);
        MarkPairStep(ps, birdCx, k);
        CorrectedSweepFrom(MarkPassed(ps, PairCenter(ps, k)), birdCx, k + 1, score + 1);
      } else {
        SkipPair(ps, birdCx, k, score, FirstHalfVisited);
        CorrectedSweepFrom(ps, birdCx, k + 1, score);
      }
    }
  }

  // ---------------------------------------------------------------------------
  // One scoring step of a frame: the pass, then retirement

  /** The scoring step the game uses (corrected rule). */
  function UpdateScore(ps: seq<Pipe>, birdCx: int, score: int): (r: Tally)
    ensures score <= r.score
    ensures forall p :: p in r.pipes ==> 0 <= p.rect.Right()
    ensures FlagsGrow(Retire(ps), r.pipes)
    ensures WellFormed(ps) ==> WellFormed(r.pipes)
    ensures WellFormed(ps) && DistinctPairs(ps) ==> r.score == score + CrossedPairs(ps, birdCx, 0)
  {
    var t := Sweep(ps, birdCx, 0, score, FirstHalfVisited);
    RetireFlagsGrow(ps, t.pipes);
    assert WellFormed(ps) ==> WellFormed(Retire(t.pipes)) by {
      if WellFormed(ps) {
        SweepWellFormed(ps, birdCx, 0, score, FirstHalfVisited);
        RetireWellFormed(t.pipes);
      }
    }
    assert WellFormed(ps) && DistinctPairs(ps) ==> t.score == score + CrossedPairs(ps, birdCx, 0) by {
      if WellFormed(ps) && DistinctPairs(ps) {
        CorrectedSweepFrom(ps, birdCx, 0, score);
      }
    }
    Tally(Retire(t.pipes), t.score)
  }

  /** The scoring step exactly as the source writes it (bottom half only). */
  function UpdateScoreAsWritten(ps: seq<Pipe>, birdCx: int, score: int): (r: Tally)
    ensures score <= r.score
    ensures forall p :: p in r.pipes ==> 0 <= p.rect.Right()
    ensures FlagsGrow(Retire(ps), r.pipes)
    ensures WellFormed(ps) ==> WellFormed(r.pipes)
    ensures WellFormed(ps) ==> r.score == score
  {
    var t := Sweep(ps, birdCx, 0, score, BottomHalfOnly);
    RetireFlagsGrow(ps, t.pipes);
    assert WellFormed(ps) ==> t.score == score && WellFormed(Retire(t.pipes)) by {
      if WellFormed(ps) {
        AsWrittenSweepFrom(ps, birdCx, 0, score);
        SweepWellFormed(ps, birdCx, 0, score, BottomHalfOnly);
        RetireWellFormed(t.pipes);
      }
    }
    Tally(Retire(t.pipes), t.score)
  }

  /** On any stream of whole pairs the source's rule never scores, whatever
      pairs the bird has crossed. */
  lemma AsWrittenNeverScores(ps: seq<Pipe>, birdCx: int, score: int)
    requires WellFormed(ps)
    ensures UpdateScoreAsWritten(ps, birdCx, score).score == score
  {
  }

  /** With the corrected rule each crossed, unpassed pair scores exactly one point. */
  lemma CorrectedScoresEachCrossedPair(ps: seq<Pipe>, birdCx: int, score: int)
    requires WellFormed(ps) && DistinctPairs(ps)
    ensures UpdateScore(ps, birdCx, score).score == score + CrossedPairs(ps, birdCx, 0)
  {
  }

  /** A fresh pair scrolled until its centre is left of the bird (centre x 150):
      the source's rule leaves the score at 0, the corrected rule gives 1. */
  lemma CrossedPairExample()
    ensures UpdateScoreAsWritten(ScrolledPair(), 150, 0).score == 0
    ensures UpdateScore(ScrolledPair(), 150, 0).score == 1
  {
    var ps := ScrolledPair();
    assert WellFormed(ps) by {
      assert PairedAt(ps, 0);
    }
    assert DistinctPairs(ps);
    assert CrossedPairs(ps, 150, 0) == 1 by {
      assert CrossedPairs(ps, 150, 1) == 0;
    }
  }

  /** A pair with gap centre 300 whose halves have their left edge at x = 60 (centre 100). */
  function ScrolledPair(): seq<Pipe> {
    var pair := PipePair(300);
    [pair[0].(rect := pair[0].rect.(x := 60)), pair[1].(rect := pair[1].rect.(x := 60))]
  }
}
