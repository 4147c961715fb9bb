/** `PARTITION(num, divisor)`: `num` cut into pieces of `divisor`, the last
    piece holding what is left. */
module Partition {
  import opened JsString

  function Sum(xs: seq<int>): int {
    if xs == [] then 0 else xs[0] + Sum(xs[1..])
  }

  /** The pieces, taken from the front while something is left. A
      positive `num` with a divisor that is not positive never runs out,
      so the pieces are defined only when one of the two holds. */
  function Pieces(num: int, divisor: int): seq<int>
    requires num <= 0 || divisor > 0
    decreases if num > 0 then num else 0
  {
    if num <= 0 then []
    else
      var piece := if divisor < num then divisor else num;
      [piece] + Pieces(num - piece, divisor)
  }

  lemma MulSucc(n: int, d: int)
    ensures (n + 1) * d == n * d + d
  {
  }

  lemma {:induction false} PiecesSum(num: int, divisor: int)
    requires num > 0 && divisor > 0
    ensures Sum(Pieces(num, divisor)) == num
    decreases num
  {
    if divisor < num {
      PiecesSum(num - divisor, divisor);
      assert Pieces(num, divisor)[1..] == Pieces(num - divisor, divisor);
    } else {
      assert Pieces(num, divisor)[1..] == [];
    }
  }

  /** Every piece lies in 1..divisor and all but the last are whole. */
  predicate WellCut(r: seq<int>, divisor: int) {
    && (forall k | 0 <= k < |r| :: 0 < r[k] <= divisor)
    && (forall k | 0 <= k < |r| - 1 :: r[k] == divisor)
  }

  lemma {:induction false} PiecesBounds(num: int, divisor: int)
    requires num > 0 && divisor > 0
    ensures WellCut(Pieces(num, divisor), divisor)
    decreases num
  {
    var r := Pieces(num, divisor);
    if divisor < num {
      var rest := Pieces(num - divisor, divisor);
      PiecesBounds(num - divisor, divisor);
      assert r == [divisor] + rest;
      forall k | 0 <= k < |r| ensures 0 < r[k] <= divisor && (k < |r| - 1 ==> r[k] == divisor) {
        if k > 0 { assert r[k] == rest[k - 1]; }
      }
    } else {
      assert r == [num] + Pieces(0, divisor);
    }
  }

  lemma {:induction false} PiecesCount(num: int, divisor: int)
    requires num > 0 && divisor > 0
    ensures (|Pieces(num, divisor)| - 1) * divisor < num <= |Pieces(num, divisor)| * divisor
    decreases num
  {
    if divisor < num {
      var n := |Pieces(num - divisor, divisor)|;
      PiecesCount(num - divisor, divisor);
      assert |Pieces(num, divisor)| == n + 1;
      MulSucc(n, divisor);
      MulSucc(n - 1, divisor);
    } else {
      assert |Pieces(num, divisor)| == 1;
    }
  }

  /** The pieces add up to `num`; each lies in 1..divisor, every one but
      the last is a whole divisor, and there are `num / divisor` of them
      rounded up: `(n - 1) * divisor < num <= n * divisor`. */
  lemma PiecesShape(num: int, divisor: int)
    requires num > 0 && divisor > 0
    ensures var r := Pieces(num, divisor);
      && Sum(r) == num
      && WellCut(r, divisor)
      && (|r| - 1) * divisor < num <= |r| * divisor
  {
    PiecesSum(num, divisor);
    PiecesBounds(num, divisor);
    PiecesCount(num, divisor);
  }

  /** The source's loop: take `min(divisor, remaining)` until nothing is
      left. */
  method Partition(num: int, divisor: int) returns (parts: seq<int>)
    requires num <= 0 || divisor > 0
    ensures parts == Pieces(num, divisor)
  {
    parts := [];
    var remaining := num;
    while remaining > 0
      invariant remaining <= 0 || divisor > 0
      invariant remaining <= num || remaining <= 0
      invariant parts + Pieces(remaining, divisor) == Pieces(num, divisor)
      decreases if remaining > 0 then remaining else 0
    {
      var part := if divisor < remaining then divisor else remaining;
      assert Pieces(remaining, divisor) == [part] + Pieces(remaining - part, divisor);
      parts := parts + [part];
      remaining := remaining - part;
    }
    assert Pieces(remaining, divisor) == [];
    assert parts + [] == parts;
  }

  /** The pieces as text, joined with `;`. */
  function PiecesText(parts: seq<int>): (r: string)
    ensures parts == [] ==> r == []
  {
    Join(seq(|parts|, k requires 0 <= k < |parts| => DecimalString(parts[k])), ";")
  }
}
