/** Pipes: the two halves of an obstacle and the ordered stream of live halves.

    Each pair is stored as two consecutive entries, top half first, exactly
    as the pair is inserted into the sprite group; the stream is kept in
    insertion order because scoring depends on it. The `passed` flag, which
    the source attaches on first use, is an ordinary field that starts false.
 */
module Pipes {
  import opened Config
  import opened Geometry

  datatype Pipe = Pipe(rect: Rect, isTop: bool, passed: bool) {
    function CenterX(): int { rect.CenterX() }
  }

  /** Gap centres a pipe pair can be built from. */
  type GapY = g: int | MinGapY <= g <= MaxGapY witness MinGapY

  /** One half of a pair. The top half hangs from the top of the screen down to
      90 px above the gap centre; the bottom half stands from 90 px below the
      gap centre down to the bottom of the screen. Both sizes must be
      non-negative for the half's surface to exist. */
  function MakePipe(x: int, isTop: bool, gapY: int): (p: Pipe)
    requires HalfGap <= gapY <= ScreenHeight - HalfGap
    ensures p.isTop == isTop && !p.passed
    ensures p.rect.x == x && p.rect.w == PipeWidth
    ensures isTop ==> p.rect.y == 0 && p.rect.Bottom() == gapY - HalfGap
    ensures !isTop ==> p.rect.y == gapY + HalfGap && p.rect.Bottom() == ScreenHeight
  {
    if isTop then
      var height := gapY - HalfGap;
      Pipe(WithBottom(Rect(x, 0, PipeWidth, height), gapY - HalfGap), true, false)
    else
      var height := ScreenHeight - (gapY + HalfGap);
      Pipe(Rect(x, gapY + HalfGap, PipeWidth, height), false, false)
  }

  /** The two halves built for one spawn, top half first, just beyond the right edge. */
  function PipePair(gapY: GapY): (pair: seq<Pipe>)
    ensures |pair| == 2 && pair[0].isTop && !pair[1].isTop
    ensures pair[0].rect.x == PipeSpawnX && pair[1].rect.x == PipeSpawnX
    ensures !pair[0].passed && !pair[1].passed
  {
    [MakePipe(PipeSpawnX, true, gapY), MakePipe(PipeSpawnX, false, gapY)]
  }

  /** A pair's halves tile the screen column around a gap of exactly 180 px
      centred on `gapY`, and each half is at least 110 px tall. */
  lemma PairGeometry(gapY: GapY)
    ensures PipePair(gapY)[0].rect.y == 0
    ensures PipePair(gapY)[1].rect.Bottom() == ScreenHeight
    ensures PipePair(gapY)[1].rect.y - PipePair(gapY)[0].rect.Bottom() == PipeGapSize
    ensures PipePair(gapY)[0].rect.Bottom() + PipePair(gapY)[1].rect.y == 2 * gapY
    ensures PipePair(gapY)[0].rect.h >= 110 && PipePair(gapY)[1].rect.h >= 110
    ensures PipePair(gapY)[0].CenterX() == PipePair(gapY)[1].CenterX()
  {
  }

  /** One frame of scrolling: the half moves exactly 4 px left and nothing else changes. */
  function Scroll(p: Pipe): (r: Pipe)
    ensures r.rect.x == p.rect.x - 4
    ensures r.rect.y == p.rect.y && r.rect.w == p.rect.w && r.rect.h == p.rect.h
    ensures r.isTop == p.isTop && r.passed == p.passed
  {
    p.(rect := p.rect.(x := p.rect.x + PipeSpeed))
  }

  /** Every live half scrolls once per frame, in place. */
  function ScrollAll(ps: seq<Pipe>): (r: seq<Pipe>)
    ensures |r| == |ps|
    ensures forall k :: 0 <= k < |ps| ==> r[k] == Scroll(ps[k])
  {
    seq(|ps|, k requires 0 <= k < |ps| => Scroll(ps[k]))
  }

  /** `t` and `b` are the top and bottom half of one pair: same column, same flag. */
  predicate IsPair(t: Pipe, b: Pipe) {
    t.isTop && !b.isTop && t.rect.x == b.rect.x && t.rect.w == b.rect.w && t.passed == b.passed
  }

  /** The k-th pair of a stream sits at positions 2k and 2k+1. */
  predicate PairedAt(ps: seq<Pipe>, k: int)
    requires 0 <= k < |ps| / 2
  {
    IsPair(ps[2 * k], ps[2 * k + 1])
  }

  /** The stream is a sequence of whole pairs, each top half first. */
  predicate WellFormed(ps: seq<Pipe>) {
    |ps| % 2 == 0 && forall k :: 0 <= k < |ps| / 2 ==> PairedAt(ps, k)
  }

  /** The horizontal centre of the k-th pair (that of its top half). */
  function PairCenter(ps: seq<Pipe>, k: int): int
    requires 0 <= k < |ps| / 2
  {
    ps[2 * k].CenterX()
  }

  /** No two pairs of the stream share a horizontal centre. */
  predicate DistinctPairs(ps: seq<Pipe>) {
    forall j, k :: 0 <= j < k < |ps| / 2 ==> PairCenter(ps, j) != PairCenter(ps, k)
  }

  /** The two halves of a pair share their horizontal centre. */
  lemma PairSharesCenter(ps: seq<Pipe>, k: int)
    requires WellFormed(ps) && 0 <= k < |ps| / 2
    ensures ps[2 * k].CenterX() == ps[2 * k + 1].CenterX()
    ensures ps[2 * k].rect.Right() == ps[2 * k + 1].rect.Right()
  {
    assert PairedAt(ps, k);
  }

  /** Appending a freshly built pair keeps the stream well formed. */
  lemma AppendPairWellFormed(ps: seq<Pipe>, gapY: GapY)
    requires WellFormed(ps)
    ensures WellFormed(ps + PipePair(gapY))
  {
    var r := ps + PipePair(gapY);
    forall k | 0 <= k < |r| / 2
      ensures PairedAt(r, k)
    {
      if k < |ps| / 2 {
        assert PairedAt(ps, k);
      } else {
        assert k == |ps| / 2;
      }
    }
  }

  /** Scrolling keeps the stream well formed. */
  lemma ScrollAllWellFormed(ps: seq<Pipe>)
    requires WellFormed(ps)
    ensures WellFormed(ScrollAll(ps))
  {
    var r := ScrollAll(ps);
    forall k | 0 <= k < |r| / 2
      ensures PairedAt(r, k)
    {
      assert PairedAt(ps, k);
    }
  }

  /** Two well-formed streams, one after the other, form a well-formed stream. */
  lemma ConcatWellFormed(a: seq<Pipe>, b: seq<Pipe>)
    requires WellFormed(a) && WellFormed(b)
    ensures WellFormed(a + b)
  {
    var r := a + b;
    forall k | 0 <= k < |r| / 2
      ensures PairedAt(r, k)
    {
      if k < |a| / 2 {
        assert PairedAt(a, k);
      } else {
        assert PairedAt(b, k - |a| / 2);
        assert r[2 * k] == b[2 * (k - |a| / 2)];
      }
    }
  }
}
