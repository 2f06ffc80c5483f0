/**
 Bytes, fixed-width integers in both byte orders, and the two predicates the
 parsers are reasoned about with: "these bytes stand here" (`At`) and "these two
 windows agree" (`Agree`).
 */
module Bytes {
  type byte = x: int | 0 <= x < 256

  /** A 32-byte hash. */
  type Sha256 = s: seq<byte> | |s| == 32 witness seq(32, _ => 0)

  /** A 32-bit short id. 0 is the null id. */
  type ShortId = x: int | 0 <= x < 0x1_0000_0000

  const NULL_TX_SID: ShortId := 0

  function Max(a: nat, b: nat): nat {
    if a < b then b else a
  }

  function Min(a: nat, b: nat): nat {
    if a < b then a else b
  }

  /** 256 to the power n: the number of values n bytes can hold. */
  function Pow256(n: nat): (r: nat)
    ensures r >= 1
  {
    if n == 0 then 1 else 256 * Pow256(n - 1)
  }

  /** The n low-order bytes of v, least significant first. */
  function LittleEndian(v: nat, n: nat): (s: seq<byte>)
    ensures |s| == n
  {
    if n == 0 then [] else [v % 256] + LittleEndian(v / 256, n - 1)
  }

  function FromLittleEndian(s: seq<byte>): nat {
    if s == [] then 0 else s[0] + 256 * FromLittleEndian(s[1..])
  }

  /** The n low-order bytes of v, most significant first. */
  function BigEndian(v: nat, n: nat): (s: seq<byte>)
    ensures |s| == n
  {
    if n == 0 then [] else BigEndian(v / 256, n - 1) + [v % 256]
  }

  function FromBigEndian(s: seq<byte>): nat {
    if s == [] then 0 else 256 * FromBigEndian(s[..|s| - 1]) + s[|s| - 1]
  }

  lemma {:induction false} LittleEndianRoundTrip(v: nat, n: nat)
    requires v < Pow256(n)
    ensures FromLittleEndian(LittleEndian(v, n)) == v
  {
    if n > 0 {
      LittleEndianRoundTrip(v / 256, n - 1);
      assert LittleEndian(v, n)[1..] == LittleEndian(v / 256, n - 1);
    }
  }

  lemma {:induction false} LittleEndianOnto(s: seq<byte>)
    ensures FromLittleEndian(s) < Pow256(|s|)
    ensures LittleEndian(FromLittleEndian(s), |s|) == s
  {
    if s != [] {
      LittleEndianOnto(s[1..]);
      assert s == [s[0]] + s[1..];
    }
  }

  lemma {:induction false} BigEndianRoundTrip(v: nat, n: nat)
    requires v < Pow256(n)
    ensures FromBigEndian(BigEndian(v, n)) == v
  {
    if n > 0 {
      BigEndianRoundTrip(v / 256, n - 1);
      assert BigEndian(v, n)[..n - 1] == BigEndian(v / 256, n - 1);
    }
  }

  lemma {:induction false} BigEndianOnto(s: seq<byte>)
    ensures FromBigEndian(s) < Pow256(|s|)
    ensures BigEndian(FromBigEndian(s), |s|) == s
  {
    if s != [] {
      BigEndianOnto(s[..|s| - 1]);
      assert s == s[..|s| - 1] + [s[|s| - 1]];
    }
  }

  /** A big-endian number starts with a non-zero byte exactly when it needs all its bytes. */
  lemma {:induction false} BigEndianLeadingByte(s: seq<byte>)
    requires s != []
    ensures s[0] != 0 <==> FromBigEndian(s) >= Pow256(|s| - 1)
  {
    BigEndianOnto(s[..|s| - 1]);
    if |s| > 1 {
      BigEndianLeadingByte(s[..|s| - 1]);
    } else {
      assert FromBigEndian(s) == s[0];
    }
  }

  /** The powers the width checks of the source compare with. */
  lemma PowerValues()
    ensures Pow256(1) == 0x100 && Pow256(2) == 0x1_0000 && Pow256(3) == 0x100_0000
    ensures Pow256(4) == 0x1_0000_0000 && Pow256(7) == 0x100_0000_0000_0000
    ensures Pow256(8) == 0x1_0000_0000_0000_0000
  {
    assert Pow256(3) == 256 * Pow256(2);
    assert Pow256(5) == 256 * Pow256(4);
    assert Pow256(7) == 256 * Pow256(6);
  }

  /** The bytes `x` stand in `b` at offset `off`. */
  predicate At(b: seq<byte>, off: nat, x: seq<byte>) {
    off + |x| <= |b| && b[off..off + |x|] == x
  }

  lemma AtBytes(b: seq<byte>, off: nat, x: seq<byte>)
    requires At(b, off, x)
    ensures off + |x| <= |b| && b[off..off + |x|] == x
  {
  }

  lemma AtFirst(b: seq<byte>, off: nat, x: seq<byte>)
    requires At(b, off, x) && x != []
    ensures off < |b| && b[off] == x[0]
  {
    assert b[off..off + |x|][0] == b[off];
  }

  lemma AtSplit(b: seq<byte>, off: nat, x: seq<byte>, y: seq<byte>)
    requires At(b, off, x + y)
    ensures At(b, off, x) && At(b, off + |x|, y)
  {
    assert b[off..off + |x|] == b[off..off + |x + y|][..|x|];
    assert b[off + |x|..off + |x| + |y|] == b[off..off + |x + y|][|x|..];
  }

  lemma AtJoin(b: seq<byte>, off: nat, x: seq<byte>, y: seq<byte>)
    requires At(b, off, x) && At(b, off + |x|, y)
    ensures At(b, off, x + y)
  {
    assert b[off..off + |x + y|] == b[off..off + |x|] + b[off + |x|..off + |x| + |y|];
  }

  /** The window [lo, hi) of `b` reads the same as the window of `c` that starts at `lo'`. */
  predicate Agree(b: seq<byte>, lo: nat, hi: nat, c: seq<byte>, lo': nat) {
    lo <= hi <= |b| && lo' + (hi - lo) <= |c| && b[lo..hi] == c[lo'..lo' + (hi - lo)]
  }

  lemma AgreeSlice(b: seq<byte>, lo: nat, hi: nat, c: seq<byte>, lo': nat, i: nat, j: nat)
    requires Agree(b, lo, hi, c, lo') && lo <= i <= j <= hi
    ensures b[i..j] == c[i - lo + lo'..j - lo + lo']
  {
    forall k | 0 <= k < j - i
      ensures b[i..j][k] == c[i - lo + lo'..j - lo + lo'][k]
    {
      assert b[lo..hi][i - lo + k] == c[lo'..lo' + (hi - lo)][i - lo + k];
    }
  }

  lemma AgreeByte(b: seq<byte>, lo: nat, hi: nat, c: seq<byte>, lo': nat, i: nat)
    requires Agree(b, lo, hi, c, lo') && lo <= i < hi
    ensures b[i] == c[i - lo + lo']
  {
    AgreeSlice(b, lo, hi, c, lo', i, i + 1);
    assert b[i..i + 1][0] == b[i];
  }
}
