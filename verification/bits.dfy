/** Bit strings as the S/PDIF test model renders them: text made of '0' and '1',
    plus the Python string formatting the model relies on ("{:0Nb}", str(n),
    str.lower(), s[start::2], s.count('1')). */
module Bits {

  /** The character a bit is rendered as. */
  function BitChar(b: bool): char {
    if b then '1' else '0'
  }

  /** Every character is '0' or '1'. */
  predicate IsBinary(s: string) {
    forall k :: 0 <= k < |s| ==> s[k] == '0' || s[k] == '1'
  }

  lemma BinaryAppend(a: string, b: string)
    ensures IsBinary(a) && IsBinary(b) ==> IsBinary(a + b)
  {
    assert forall k :: 0 <= k < |a + b| ==> (a + b)[k] == if k < |a| then a[k] else b[k - |a|];
  }

  /** n copies of '0'. */
  function Zeros(n: nat): (r: string)
    ensures |r| == n && IsBinary(r)
    ensures forall k :: 0 <= k < n ==> r[k] == '0'
  {
    seq(n, _ => '0')
  }

  /** n copies of '1'. */
  function Ones(n: nat): (r: string)
    ensures |r| == n && IsBinary(r)
    ensures forall k :: 0 <= k < n ==> r[k] == '1'
  {
    seq(n, _ => '1')
  }

  function Pow2(n: nat): (r: nat)
    ensures r >= 1
  {
    if n == 0 then 1 else 2 * Pow2(n - 1)
  }

  /** Number of '1' characters, as Python's s.count('1'). */
  function CountOnes(s: string): nat {
    if |s| == 0 then 0 else (if s[0] == '1' then 1 else 0) + CountOnes(s[1..])
  }

  lemma {:induction false} CountOnesAppend(a: string, b: string)
    ensures CountOnes(a + b) == CountOnes(a) + CountOnes(b)
  {
    if |a| == 0 {
      assert a + b == b;
    } else {
      assert (a + b)[1..] == a[1..] + b;
      CountOnesAppend(a[1..], b);
    }
  }

  /** Value of a bit string read most significant bit first. */
  function MsbValue(s: string): nat {
    if |s| == 0 then 0 else 2 * MsbValue(s[..|s| - 1]) + (if s[|s| - 1] == '1' then 1 else 0)
  }

  /** Value of a bit string read least significant bit first. */
  function LsbValue(s: string): nat {
    if |s| == 0 then 0 else (if s[0] == '1' then 1 else 0) + 2 * LsbValue(s[1..])
  }

  function Reverse(s: string): (r: string)
    ensures |r| == |s|
    ensures forall k :: 0 <= k < |s| ==> r[k] == s[|s| - 1 - k]
  {
    if |s| == 0 then [] else Reverse(s[1..]) + [s[0]]
  }

  lemma {:induction false} LsbValueOfReverse(s: string)
    ensures LsbValue(Reverse(s)) == MsbValue(s)
  {
    if |s| > 0 {
      var r := Reverse(s);
      assert r[0] == s[|s| - 1];
      assert r[1..] == Reverse(s[..|s| - 1]);
      LsbValueOfReverse(s[..|s| - 1]);
    }
  }

  lemma {:induction false} MsbValueAppend(a: string, b: string)
    ensures MsbValue(a + b) == MsbValue(a) * Pow2(|b|) + MsbValue(b)
  {
    if |b| == 0 {
      assert a + b == a;
    } else {
      var b' := b[..|b| - 1];
      var bit := if b[|b| - 1] == '1' then 1 else 0;
      assert (a + b)[..|a + b| - 1] == a + b' && (a + b)[|a + b| - 1] == b[|b| - 1];
      assert MsbValue(a + b) == 2 * MsbValue(a + b') + bit;
      MsbValueAppend(a, b');
      assert MsbValue(b) == 2 * MsbValue(b') + bit;
      DoubleWeight(MsbValue(a), Pow2(|b'|), MsbValue(b'), bit);
    }
  }

  /** The arithmetic step of MsbValueAppend: one more low bit doubles the weight of the high part. */
  lemma DoubleWeight(m: nat, p: nat, x: nat, bit: nat)
    ensures 2 * (m * p + x) + bit == m * (2 * p) + (2 * x + bit)
  {
  }

  lemma {:induction false} MsbValueOfZeros(n: nat)
    ensures MsbValue(Zeros(n)) == 0
  {
    if n > 0 {
      assert Zeros(n)[..n - 1] == Zeros(n - 1);
      MsbValueOfZeros(n - 1);
    }
  }

  /** Binary digits of n, most significant first, without leading zeros
      ("0" for zero), as Python's "{:b}" renders a non-negative integer. */
  function Binary(n: nat): (r: string)
    ensures 1 <= |r| && IsBinary(r)
    ensures MsbValue(r) == n
    ensures |r| > 1 ==> r[0] == '1'
  {
    if n < 2 then [BitChar(n == 1)]
    else
      var high := Binary(n / 2);
      var r := high + [BitChar(n % 2 == 1)];
      assert r[..|r| - 1] == high && r[0] == high[0];
      r
  }

  lemma {:induction false} BinaryFits(n: nat, w: nat)
    ensures 1 <= w && n < Pow2(w) ==> |Binary(n)| <= w
  {
    if 1 <= w && n < Pow2(w) && n >= 2 {
      BinaryFits(n / 2, w - 1);
    }
  }

  /** Python's "{:0wb}".format(n) for n >= 0: the binary digits of n, padded
      on the left with '0' up to width w (never truncated). */
  function FormatBin(n: nat, w: nat): (r: string)
    ensures IsBinary(r) && MsbValue(r) == n
    ensures |r| >= w && |r| >= 1
    ensures 1 <= w && n < Pow2(w) ==> |r| == w
    ensures |r| > w && |r| > 1 ==> r[0] == '1'
  {
    var digits := Binary(n);
    var pad := if |digits| < w then w - |digits| else 0;
    MsbValueAppend(Zeros(pad), digits);
    MsbValueOfZeros(pad);
    BinaryFits(n, w);
    Zeros(pad) + digits
  }

  /** Decimal digits of n, as Python's str(n) for n >= 0. */
  function Decimal(n: nat): (r: string)
    ensures 1 <= |r|
    ensures IsDecimal(r) && DecimalValue(r) == n
    ensures |r| > 1 ==> r[0] != '0'
  {
    var d := ['0' + (n % 10) as char];
    if n < 10 then d
    else
      var high := Decimal(n / 10);
      var r := high + d;
      assert r[..|r| - 1] == high && r[0] == high[0];
      r
  }

  /** Every character is a decimal digit. */
  predicate IsDecimal(s: string) {
    forall k :: 0 <= k < |s| ==> '0' <= s[k] <= '9'
  }

  /** Value of a string of decimal digits, most significant digit first. */
  function DecimalValue(s: string): nat
    requires IsDecimal(s)
  {
    if |s| == 0 then 0 else 10 * DecimalValue(s[..|s| - 1]) + (s[|s| - 1] as int - '0' as int)
  }

  /** Python's s[start::2]: the characters at start, start + 2, start + 4, ... */
  function Stride2(s: string, start: nat): (r: string)
    ensures start <= |s| ==> |r| == (|s| - start + 1) / 2
    ensures start > |s| ==> r == []
    ensures forall k :: 0 <= k < |r| ==> start + 2 * k < |s| && r[k] == s[start + 2 * k]
    decreases |s| - start
  {
    if start >= |s| then [] else [s[start]] + Stride2(s, start + 2)
  }

  /** Lower-cases the ASCII letters A-Z and leaves every other character alone. */
  function AsciiLower(s: string): (r: string)
    ensures |r| == |s|
    ensures forall k :: 0 <= k < |s| && !('A' <= s[k] <= 'Z') ==> r[k] == s[k]
    ensures forall k :: 0 <= k < |s| && 'A' <= s[k] <= 'Z' ==> r[k] as int == s[k] as int + 32
  {
    seq(|s|, k requires 0 <= k < |s| => if 'A' <= s[k] <= 'Z' then (s[k] as int + 32) as char else s[k])
  }
}
