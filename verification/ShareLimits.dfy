/** How many options the fold of the rounding residual serves (`normalizeDistribution` of
    src/decision/jev.js). */
module ShareLimits {
  import opened Integers
  import opened Reals
  import opened Rounding
  import opened ShareRounding
  import opened Distributions

  predicate NonNegative(r: seq<int>) {
    forall i :: 0 <= i < |r| ==> r[i] >= 0
  }

  predicate Distinct(options: seq<string>) {
    forall i, j :: 0 <= i < j < |options| ==> options[i] != options[j]
  }

  // ---- weights that push the first entry below zero -----------------------------------------

  /** 1012 shares of 706.5 millionths, 404 of 705.5, and nothing for the rest. */
  function Piece(i: nat): real {
    if i < 1012 then 706.5 else if i < 1416 then 705.5 else 0.0
  }

  function Pieces(n: nat): (w: seq<real>)
    ensures |w| == n && forall i :: 0 <= i < n ==> w[i] == Piece(i)
  {
    if n == 0 then [] else Pieces(n - 1) + [Piece(n - 1)]
  }

  function RoundedPiece(i: nat): int {
    if i < 1012 then 707 else if i < 1416 then 706 else 0
  }

  function RoundedPieces(n: nat): (r: seq<int>)
    ensures |r| == n && forall i :: 0 <= i < n ==> r[i] == RoundedPiece(i)
  {
    if n == 0 then [] else RoundedPieces(n - 1) + [RoundedPiece(n - 1)]
  }

  lemma PieceRounds(i: nat)
    ensures Nearest(Piece(i) / 1000000.0 * 1000000.0) == RoundedPiece(i)
  {
    NearestUnique(Piece(i), RoundedPiece(i));
  }

  /** The pieces sum to a million; rounded, 708 more. */
  lemma {:induction false} PieceTotals(n: nat)
    ensures Sum(Pieces(n)) ==
      if n <= 1012 then n as real * 706.5 else if n <= 1416 then 714978.0 + (n - 1012) as real * 705.5 else 1000000.0
    ensures Total(RoundedPieces(n)) ==
      if n <= 1012 then n * 707 else if n <= 1416 then 715484 + (n - 1012) * 706 else 1000708
  {
    hide Pieces, RoundedPieces, Sum, Total;
    NextPiece(n);
    if n > 0 {
      PieceTotals(n - 1);
    }
  }

  lemma NextPiece(n: nat)
    ensures n == 0 ==> Sum(Pieces(n)) == 0.0 && Total(RoundedPieces(n)) == 0
    ensures n > 0 ==>
      && Sum(Pieces(n)) == Sum(Pieces(n - 1)) + Piece(n - 1)
      && Total(RoundedPieces(n)) == Total(RoundedPieces(n - 1)) + RoundedPiece(n - 1)
  {
    hide Piece, RoundedPiece;
    if n > 0 {
      assert Pieces(n)[..n - 1] == Pieces(n - 1) && RoundedPieces(n)[..n - 1] == RoundedPieces(n - 1);
    }
  }

  lemma PiecesRound(n: nat)
    ensures Millionths(Shares(Pieces(n), 1000000.0)) == RoundedPieces(n)
  {
    hide Millionths, Shares, Pieces, RoundedPieces, Nearest, Piece, RoundedPiece;
    var s := Shares(Pieces(n), 1000000.0);
    forall i | 0 <= i < n ensures Millionths(s)[i] == RoundedPieces(n)[i] {
      ShareAt(Pieces(n), 1000000.0, i);
      PieceRounds(i);
    }
  }

  lemma PiecesGoNegative(n: nat)
    requires n >= 1416
    ensures Sum(Pieces(n)) == 1000000.0
    ensures Fold(Millionths(Shares(Pieces(n), 1000000.0)))[0] == -1
  {
    PieceTotals(n);
    PiecesRound(n);
    hide Pieces, RoundedPieces, Millionths, Shares, Sum, Total, Top;
    assert Top(RoundedPieces(n), n) == 0 by {
      assert RoundedPieces(n)[0] == 707;
    }
  }

  /** Each option has its own weight. */
  function DistOf(options: seq<string>, w: seq<real>): map<string, real>
    requires |w| == |options|
  {
    if options == [] then map[]
    else DistOf(options[..|options| - 1], w[..|w| - 1])[options[|options| - 1] := w[|w| - 1]]
  }

  lemma {:induction false} DistOfGives(options: seq<string>, w: seq<real>, i: nat)
    requires |w| == |options| && Distinct(options) && i < |options|
    ensures options[i] in DistOf(options, w) && DistOf(options, w)[options[i]] == w[i]
  {
    if i < |options| - 1 {
      DistOfGives(options[..|options| - 1], w[..|w| - 1], i);
    }
  }

  lemma WeightsOfDist(options: seq<string>, w: seq<real>)
    requires |w| == |options| && Distinct(options) && forall i :: 0 <= i < |w| ==> w[i] >= 0.0
    ensures Weights(DistOf(options, w), options) == w
  {
    hide DistOf, Weights;
    forall i | 0 <= i < |w| ensures Weight(DistOf(options, w), options[i]) == w[i] {
      DistOfGives(options, w, i);
    }
  }

  // ---- the exact limit ----------------------------------------------------------------------

  /** Whatever the weights, no entry is negative: exactly for up to 1415 options. */
  lemma NonNegativeIffFew(options: seq<string>)
    requires options != [] && Distinct(options)
    ensures (forall dist :: NonNegative(Normalized(dist, options))) <==> |options| <= 1415
  {
    var n := |options|;
    if n <= 1415 {
      forall dist ensures NonNegative(Normalized(dist, options)) {
        FewStayNonNegative(dist, options);
      }
    } else {
      var dist := DistOf(options, Pieces(n));
      WeightsOfDist(options, Pieces(n));
      PiecesGoNegative(n);
      assert Normalized(dist, options)[0] == -1 by {
        hide Pieces, Millionths, Shares, Fold, Sum, Weights, DistOf;
      }
      assert !NonNegative(Normalized(dist, options));
    }
  }

  lemma FewStayNonNegative(dist: map<string, real>, options: seq<string>)
    requires 1 <= |options| <= 1415
    ensures NonNegative(Normalized(dist, options))
  {
    hide Normalized, Effective, Weights, Shares, Sum, Total;
    NormalizedIsExact(dist, options);
  }
}
