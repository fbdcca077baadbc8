/** The wire side of IEC 60958-1 as the receiver model sees it: a stream of
    half-cell symbols, '1' where the line changes level and '0' where it
    holds. A data bit occupies one cell of two half cells: the first always
    starts with a transition, the second starts with one iff the bit is 1
    (biphase-mark). Each subframe starts with one of three 8-half-cell
    preambles that data cells cannot produce. */
module Biphase {
  import opened Results
  import opened Bits
  import opened Frames

  /** PREAMBLE_Z, PREAMBLE_X and PREAMBLE_Y in transition form: the standard's
      B (block start), M (first channel) and W (second channel) preambles. */
  const PreambleZ: string := "10011100"
  const PreambleX: string := "10010011"
  const PreambleY: string := "10010110"

  function Pattern(p: Preamble): (r: string)
    ensures |r| == 8
  {
    match p
    case Z => PreambleZ
    case X => PreambleX
    case Y => PreambleY
  }

  predicate IsPreamble(w: string) {
    w == PreambleZ || w == PreambleX || w == PreambleY
  }

  /** The eight symbols of `s` from position m form a preamble. */
  predicate PreambleAt(s: string, m: nat)
    requires m + 8 <= |s|
  {
    IsPreamble(s[m..m + 8])
  }

  /** The preambles in the order on_high tests them. */
  const Preambles: seq<Preamble> := [Z, X, Y]

  /** The first candidate whose pattern is `head`. */
  function FirstMatch(head: string, candidates: seq<Preamble>): Option<Preamble> {
    if |candidates| == 0 then None
    else if Pattern(candidates[0]) == head then Some(candidates[0])
    else FirstMatch(head, candidates[1..])
  }

  /** The preamble a window head shows, if any: on_high's test against Z, then X, then Y. */
  function Recognize(head: string): Option<Preamble> {
    FirstMatch(head, Preambles)
  }

  /** A head is recognised exactly when it is a preamble, and then as the
      preamble it spells. */
  lemma RecognizeSpec(head: string)
    ensures Recognize(head).Some? <==> IsPreamble(head)
    ensures forall p :: Pattern(p) == head ==> Recognize(head) == Some(p)
  {
    assert Preambles[1..] == [X, Y] && [X, Y][1..] == [Y] && [Y][1..] == [];
    assert FirstMatch(head, [Y]) == if PreambleY == head then Some(Y) else None;
    assert FirstMatch(head, [X, Y]) == if PreambleX == head then Some(X) else FirstMatch(head, [Y]);
  }

  /** The three preambles are told apart, and each holds two half cells without
      a transition in a row, which biphase-mark data never does. */
  lemma PreamblesDistinct(p: Preamble, q: Preamble)
    ensures Pattern(p) == Pattern(q) <==> p == q
    ensures IsPreamble(Pattern(p))
    ensures Pattern(p)[0] == '1' && Pattern(p)[1] == '0' && Pattern(p)[2] == '0'
  {
  }

  /** The data cells of a field: each bit becomes "1" followed by the bit. */
  function Cells(field: string): (r: string)
    ensures |r| == 2 * |field|
    ensures forall k :: 0 <= k < |field| ==> r[2 * k] == '1' && r[2 * k + 1] == field[k]
  {
    if |field| == 0 then []
    else
      var rest := Cells(field[1..]);
      var r := ['1', field[0]] + rest;
      assert forall k :: 0 <= k < |field| ==> r[2 * k] == '1' && r[2 * k + 1] == field[k] by {
        forall k | 1 <= k < |field|
          ensures r[2 * k] == '1' && r[2 * k + 1] == field[k]
        {
          var j := k - 1;
          assert r[2 * k] == rest[2 * j] && r[2 * k + 1] == rest[2 * j + 1];
          assert field[k] == field[1..][j];
        }
      }
      r
  }

  /** One subframe on the wire: the preamble, then the field's cells. */
  function Encode(p: Preamble, field: string): (r: string)
    ensures |r| == 8 + 2 * |field|
    ensures r[..8] == Pattern(p)
    ensures forall k :: 0 <= k < |field| ==> r[8 + 2 * k] == '1' && r[9 + 2 * k] == field[k]
  {
    var r := Pattern(p) + Cells(field);
    assert forall k :: 0 <= k < 2 * |field| ==> r[8 + k] == Cells(field)[k];
    r
  }

  /** A binary field goes on the wire as binary symbols. */
  lemma EncodeBinary(p: Preamble, field: string)
    requires IsBinary(field)
    ensures IsBinary(Encode(p, field))
  {
    var r := Encode(p, field);
    assert IsBinary(Pattern(p));
    forall k | 0 <= k < |r|
      ensures r[k] == '0' || r[k] == '1'
    {
      if k < 8 {
        assert r[k] == r[..8][k];
      } else {
        var j := (k - 8) / 2;
        assert k == 8 + 2 * j || k == 9 + 2 * j;
      }
    }
  }

  /** A sequence of subframes on the wire, in order. */
  function Transmit(sfs: seq<Subframe>): (r: string)
    ensures (forall k :: 0 <= k < |sfs| ==> |sfs[k].field| == 28) ==> |r| == 64 * |sfs|
  {
    if |sfs| == 0 then [] else Encode(sfs[0].preamble, sfs[0].field) + Transmit(sfs[1..])
  }

  /** The line level after one half cell. */
  function Toggle(pin: int, symbol: char): (r: int)
    ensures r != pin <==> symbol == '1'
  {
    if symbol == '1' then (if pin == 0 then 1 else 0) else pin
  }

  /** The line levels a symbol stream produces, one per half cell, starting
      from level `start`. */
  function Pins(start: int, symbols: string): (r: seq<int>)
    decreases |symbols|
    ensures |r| == |symbols|
    ensures |symbols| > 0 ==> (r[0] != start <==> symbols[0] == '1')
    ensures forall k :: 0 < k < |symbols| ==> (r[k] != r[k - 1] <==> symbols[k] == '1')
  {
    if |symbols| == 0 then []
    else
      var t := Toggle(start, symbols[0]);
      var rest := Pins(t, symbols[1..]);
      assert |rest| > 0 ==> (rest[0] != t <==> symbols[1] == '1');
      [t] + rest
  }

  /** The line level after the whole symbol stream. */
  function LastPin(start: int, symbols: string): int
    decreases |symbols|
  {
    if |symbols| == 0 then start else LastPin(Toggle(start, symbols[0]), symbols[1..])
  }

  lemma {:induction false} PinsAppend(start: int, a: string, b: string)
    ensures Pins(start, a + b) == Pins(start, a) + Pins(LastPin(start, a), b)
    ensures LastPin(start, a + b) == LastPin(LastPin(start, a), b)
    decreases |a|
  {
    if |a| == 0 {
      assert a + b == b;
    } else {
      assert (a + b)[0] == a[0] && (a + b)[1..] == a[1..] + b;
      PinsAppend(Toggle(start, a[0]), a[1..], b);
    }
  }

  lemma PinsSplit(start: int, s: string, n: nat)
    requires n <= |s|
    ensures Pins(start, s) == Pins(start, s[..n]) + Pins(LastPin(start, s[..n]), s[n..])
    ensures LastPin(start, s) == LastPin(LastPin(start, s[..n]), s[n..])
  {
    assert s[..n] + s[n..] == s;
    PinsAppend(start, s[..n], s[n..]);
  }

  /** No eight consecutive symbols inside data cells form a preamble. */
  lemma DataIsNotPreamble(field: string, m: nat)
    requires m + 8 <= |Cells(field)|
    ensures !IsPreamble(Cells(field)[m..m + 8])
  {
    var c := Cells(field);
    var even := if (m + 1) % 2 == 0 then m + 1 else m + 2;
    assert c[2 * (even / 2)] == '1';
    assert c[m..m + 8][even - m] == '1';
  }

  /** Two consecutive subframes on the wire hold a preamble only at their
      starts: every window straddling a preamble and data, or two subframes,
      fails to match. */
  lemma NoFalseLock(p1: Preamble, f1: string, p2: Preamble, f2: string, m: nat)
    requires |f1| == 28 && |f2| == 28
    requires 1 <= m <= 63
    ensures !PreambleAt(Encode(p1, f1) + Encode(p2, f2), m)
  {
    if m <= 6 {
      NoLockInPreamble(p1, f1, p2, f2, m);
    } else {
      NoLockInData(p1, f1, p2, f2, m);
    }
  }

  /** Eight symbols that differ from each preamble somewhere are none of them. */
  lemma Mismatch(w: string, a: nat, b: nat, c: nat)
    requires |w| == 8 && a < 8 && b < 8 && c < 8
    requires w[a] != PreambleZ[a] && w[b] != PreambleX[b] && w[c] != PreambleY[c]
    ensures !IsPreamble(w)
  {
  }

  /** A window starting at 7..63 holds a cell-boundary transition at its
      second or third symbol, where every preamble has a '0'. */
  lemma NoLockInData(p1: Preamble, f1: string, p2: Preamble, f2: string, m: nat)
    requires |f1| == 28 && |f2| == 28
    requires 7 <= m <= 63
    ensures !PreambleAt(Encode(p1, f1) + Encode(p2, f2), m)
  {
    var e1, e2 := Encode(p1, f1), Encode(p2, f2);
    var w := (e1 + e2)[m..m + 8];
    if m <= 61 {
      var even := if (m + 1) % 2 == 0 then m + 1 else m + 2;
      assert e1[8 + 2 * ((even - 8) / 2)] == '1';
      CellBoundary(w, even - m);
    } else {
      assert w[64 - m] == e2[..8][0] == Pattern(p2)[0];
      PreamblesDistinct(p2, p2);
      CellBoundary(w, 64 - m);
    }
  }

  /** A transition at the second or third symbol rules out every preamble. */
  lemma CellBoundary(w: string, pos: nat)
    requires |w| == 8 && (pos == 1 || pos == 2) && w[pos] == '1'
    ensures !IsPreamble(w)
  {
    Mismatch(w, pos, pos, pos);
  }

  /** A window starting inside the first preamble ends in its first cells,
      whose cell-boundary transitions sit where no preamble has one. */
  lemma NoLockInPreamble(p1: Preamble, f1: string, p2: Preamble, f2: string, m: nat)
    requires |f1| == 28 && |f2| == 28
    requires 1 <= m <= 6
    ensures !PreambleAt(Encode(p1, f1) + Encode(p2, f2), m)
  {
    var e1 := Encode(p1, f1);
    var w := (e1 + Encode(p2, f2))[m..m + 8];
    if m <= 2 {
      assert w[0] == e1[..8][m] == Pattern(p1)[m];
      PreamblesDistinct(p1, p1);
      Mismatch(w, 0, 0, 0);
    } else {
      NoLockInCells(e1, w, m);
    }
  }

  /** The cell-boundary half of a window starting at 3..6 in the first preamble. */
  lemma NoLockInCells(e1: string, w: string, m: nat)
    requires 3 <= m <= 6 && |e1| >= 16 && |w| == 8
    requires e1[8] == '1' && e1[10] == '1' && e1[12] == '1'
    requires forall t :: 8 - m <= t < 8 ==> w[t] == e1[m + t]
    ensures !IsPreamble(w)
  {
    if m == 3 {
      assert w[5] == e1[8] && w[7] == e1[10];
      Mismatch(w, 7, 5, 7);
    } else if m == 4 {
      assert w[4] == e1[8] && w[6] == e1[10];
      Mismatch(w, 6, 4, 4);
    } else if m == 5 {
      assert w[5] == e1[10] && w[7] == e1[12];
      Mismatch(w, 7, 5, 7);
    } else {
      assert w[2] == e1[8];
      Mismatch(w, 2, 2, 2);
    }
  }
}
