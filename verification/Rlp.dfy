/**
 Recursive length prefixes (Appendix B of the Ethereum Yellow Paper): the length prefix
 writer and reader, integers, and the splitting of a list into its items.
 */
module Rlp {
  import opened Bytes
  import opened Wrappers

  const RLP_STR_ENCODING_TYPE := 128
  const RLP_LIST_ENCODING_TYPE := 192

  datatype Kind = RlpByte | RlpString | RlpList

  // ---------------------------------------------------------------- writing prefixes

  /** How many bytes a length is written with: up to four as needed, and eight beyond that. */
  function LengthBytesSize(length: nat): (r: nat)
    ensures 1 <= r <= 8
    ensures length < 0x1_0000_0000_0000_0000 ==> length < Pow256(r)
  {
    PowerValues();
    if length < 0x100 then 1
    else if length < 0x1_0000 then 2
    else if length < 0x100_0000 then 3
    else if length < 0x1_0000_0000 then 4
    else 8
  }

  method GetLengthBytesSize(length: nat) returns (r: nat)
    ensures r == LengthBytesSize(length)
  {
    PowerValues();
    var currentMask := 0x100;
    for i := 1 to 5
      invariant currentMask == Pow256(i)
      invariant i > 1 ==> Pow256(i - 1) <= length
    {
      if length < currentMask {
        return i;
      }
      currentMask := currentMask * 0x100;
    }
    return 8;
  }

  /** The prefix of a string (base 128) or list (base 192) of a given length. */
  function Prefix(length: nat, base: nat): (r: seq<byte>)
    requires base == RLP_STR_ENCODING_TYPE || base == RLP_LIST_ENCODING_TYPE
    ensures 1 <= |r| <= 9
    ensures length < 0x1_0000_0000 ==> |r| <= 5
  {
    if length < 56 then [base + length]
    else [base + 55 + LengthBytesSize(length)] + BigEndian(length, LengthBytesSize(length))
  }

  /** The shortest big-endian form of a number; nothing for zero. */
  function MinimalBigEndian(v: nat): seq<byte> {
    if v == 0 then [] else MinimalBigEndian(v / 256) + [v % 256]
  }

  /** The prefix as the Yellow Paper defines it. */
  function CanonicalPrefix(length: nat, base: nat): seq<byte>
    requires base == RLP_STR_ENCODING_TYPE || base == RLP_LIST_ENCODING_TYPE
    requires length < 0x1_0000_0000_0000_0000
  {
    if length < 56 then [base + length]
    else
      MinimalSize(length, 8);
      [base + 55 + |MinimalBigEndian(length)|] + MinimalBigEndian(length)
  }

  lemma {:induction false} MinimalSize(v: nat, n: nat)
    requires v < Pow256(n) || (n == 8 && v < 0x1_0000_0000_0000_0000)
    ensures |MinimalBigEndian(v)| <= n
  {
    PowerValues();
    if v > 0 {
      MinimalSize(v / 256, n - 1);
    }
  }

  /** n bytes are the shortest form exactly when the leading one is not zero. */
  lemma {:induction false} MinimalExact(v: nat, n: nat)
    requires n >= 1 && v < Pow256(n)
    ensures BigEndian(v, n) == MinimalBigEndian(v) <==> Pow256(n - 1) <= v
  {
    if n > 1 {
      MinimalExact(v / 256, n - 1);
      if v > 0 {
        assert BigEndian(v, n)[..n - 1] == BigEndian(v / 256, n - 1);
        if BigEndian(v, n) == MinimalBigEndian(v) {
          var m := MinimalBigEndian(v / 256);
          assert (m + [v % 256])[..|m|] == m;
        }
      }
    } else {
      assert BigEndian(v, 1) == [v % 256];
      assert BigEndian(v / 256, 0) == [];
      assert v > 0 ==> MinimalBigEndian(v) == MinimalBigEndian(0) + [v];
    }
  }

  /** The written prefix is the canonical one exactly below 2^32 and from 2^56 on. */
  lemma PrefixCanonicalExact(length: nat, base: nat)
    requires base == RLP_STR_ENCODING_TYPE || base == RLP_LIST_ENCODING_TYPE
    requires length < 0x1_0000_0000_0000_0000
    ensures Prefix(length, base) == CanonicalPrefix(length, base)
            <==> length < 0x1_0000_0000 || length >= 0x100_0000_0000_0000
  {
    hide BigEndian, MinimalBigEndian;
    PowerValues();
    if length >= 56 {
      var n := LengthBytesSize(length);
      MinimalExact(length, n);
      assert Prefix(length, base)[1..] == BigEndian(length, n);
      MinimalSize(length, 8);
      assert CanonicalPrefix(length, base)[1..] == MinimalBigEndian(length);
    }
  }

  // ---------------------------------------------------------------- reading prefixes

  /** Length, kind and the offset of the payload. */
  datatype Consumed = Consumed(length: nat, kind: Kind, next: nat)

  /** Reads a prefix. None for a prefix the source rejects, or one that runs out of the buffer. */
  function Consume(b: seq<byte>, off: nat): Option<Consumed> {
    if off >= |b| then None
    else if b[off] < 128 then Some(Consumed(1, RlpByte, off))
    else if b[off] < 128 + 56 then
      if b[off] - 128 == 1 && (off + 1 >= |b| || b[off + 1] < 128) then None
      else Some(Consumed(b[off] - 128, RlpString, off + 1))
    else if b[off] < 192 then ConsumeLong(b, off, b[off] - 128 - 55, RlpString)
    else if b[off] < 192 + 56 then Some(Consumed(b[off] - 192, RlpList, off + 1))
    else ConsumeLong(b, off, b[off] - 192 - 55, RlpList)
  }

  /** A prefix whose length takes `ll` further bytes. */
  function ConsumeLong(b: seq<byte>, off: nat, ll: nat, kind: Kind): Option<Consumed>
    requires off < |b| && ll >= 1
  {
    if off + 1 + ll > |b| || b[off + 1] == 0 then None
    else
      var length := FromBigEndian(b[off + 1..off + 1 + ll]);
      if length < 56 then None else Some(Consumed(length, kind, off + 1 + ll))
  }

  function BaseOf(kind: Kind): nat
    requires kind != RlpByte
  {
    if kind == RlpString then RLP_STR_ENCODING_TYPE else RLP_LIST_ENCODING_TYPE
  }

  /** Reading moves on by at least one byte, prefix and payload together. */
  lemma ConsumeAdvances(b: seq<byte>, off: nat)
    requires Consume(b, off).Some?
    ensures var c := Consume(b, off).value; off <= c.next && off < c.next + c.length
  {
  }

  /** A one-byte string below 128 has no prefix, and its would-be prefix is rejected. */
  predicate PlainByte(b: seq<byte>, next: nat, length: nat, kind: Kind) {
    kind == RlpString && length == 1 && (next >= |b| || b[next] < 128)
  }

  /**
   What was written is read back exactly when the length is written without a leading
   zero and the payload is not a byte that should have stood alone.
   */
  lemma PrefixReadBackExact(b: seq<byte>, off: nat, length: nat, kind: Kind)
    requires kind != RlpByte && length < 0x1_0000_0000_0000_0000
    requires At(b, off, Prefix(length, BaseOf(kind)))
    ensures var next := off + |Prefix(length, BaseOf(kind))|;
            Consume(b, off) == Some(Consumed(length, kind, next))
            <==> (length < 0x1_0000_0000 || length >= 0x100_0000_0000_0000) && !PlainByte(b, next, length, kind)
  {
    hide BigEndian, FromBigEndian, At, ConsumeLong;
    var p := Prefix(length, BaseOf(kind));
    AtFirst(b, off, p);
    if length >= 56 {
      LongPrefixReadBack(b, off, length, kind);
    }
  }

  lemma LongPrefixReadBack(b: seq<byte>, off: nat, length: nat, kind: Kind)
    requires kind != RlpByte && 56 <= length < 0x1_0000_0000_0000_0000
    requires At(b, off, Prefix(length, BaseOf(kind)))
    ensures off < |b|
    ensures var n := LengthBytesSize(length);
            ConsumeLong(b, off, n, kind) == Some(Consumed(length, kind, off + 1 + n))
            <==> length < 0x1_0000_0000 || length >= 0x100_0000_0000_0000
  {
    hide BigEndian, FromBigEndian, At;
    PowerValues();
    var p, n := Prefix(length, BaseOf(kind)), LengthBytesSize(length);
    var s := BigEndian(length, n);
    AtSplit(b, off, [p[0]], s);
    AtFirst(b, off + 1, s);
    AtBytes(b, off + 1, s);
    BigEndianRoundTrip(length, n);
    BigEndianLeadingByte(s);
  }

  /** Every accepted prefix of a string or list shorter than 2^32 is the one that would be written. */
  lemma PrefixWrittenBack(b: seq<byte>, off: nat)
    requires Consume(b, off).Some? && Consume(b, off).value.kind != RlpByte
    requires Consume(b, off).value.length < 0x1_0000_0000
    ensures var c := Consume(b, off).value;
            off < c.next <= |b| && b[off..c.next] == Prefix(c.length, BaseOf(c.kind))
  {
    hide BigEndian, FromBigEndian;
    PowerValues();
    var c := Consume(b, off).value;
    if c.length < 56 {
      assert b[off..c.next] == [b[off]];
    } else {
      var s := b[off + 1..c.next];
      BigEndianLeadingByte(s);
      BigEndianOnto(s);
      PowMonotone(4, |s| - 1);
      LengthBytesExact(c.length, |s|);
      assert b[off..c.next] == [b[off]] + s;
    }
  }

  lemma {:induction false} PowMonotone(m: nat, n: nat)
    ensures m <= n ==> Pow256(m) <= Pow256(n)
  {
    if m < n {
      PowMonotone(m, n - 1);
    }
  }

  lemma LengthBytesExact(v: nat, n: nat)
    requires 1 <= n <= 4 && Pow256(n - 1) <= v < Pow256(n)
    ensures LengthBytesSize(v) == n
  {
    PowerValues();
  }

  // ---------------------------------------------------------------- integers

  function EncodeInt(v: nat): seq<byte> {
    (if v >= 128 then Prefix(LengthBytesSize(v), RLP_STR_ENCODING_TYPE) else []) + BigEndian(v, LengthBytesSize(v))
  }

  /** A number and the offset behind it. A payload beyond 16 bytes underflows a copy in the source: None. */
  function DecodeInt(b: seq<byte>, off: nat): Option<(nat, nat)> {
    match Consume(b, off)
    case None => None
    case Some(Consumed(length, _, next)) =>
      if length > 16 || next + length > |b| then None
      else Some((FromBigEndian(b[next..next + length]) % 0x1_0000_0000_0000_0000, next + length))
  }

  /** Every 64-bit number is read back, with the offset behind it. */
  lemma IntRoundTrip(b: seq<byte>, off: nat, v: nat)
    requires v < 0x1_0000_0000_0000_0000 && At(b, off, EncodeInt(v))
    ensures DecodeInt(b, off) == Some((v, off + |EncodeInt(v)|))
  {
    hide BigEndian, FromBigEndian;
    PowerValues();
    var n := LengthBytesSize(v);
    var s := BigEndian(v, n);
    BigEndianRoundTrip(v, n);
    if v >= 128 {
      var p := Prefix(n, RLP_STR_ENCODING_TYPE);
      AtSplit(b, off, p, s);
      AtFirst(b, off + 1, s);
      if n == 1 {
        SingleByte(v);
      }
      PrefixReadBackExact(b, off, n, RlpString);
      AtBytes(b, off + 1, s);
    } else {
      SingleByte(v);
      assert EncodeInt(v) == s;
      AtFirst(b, off, s);
      AtBytes(b, off, s);
    }
  }

  lemma SingleByte(v: nat)
    requires v < 256
    ensures BigEndian(v, 1) == [v]
  {
    assert BigEndian(v / 256, 0) == [];
  }

  /** A string with its prefix, as the source writes it. */
  function EncodeString(s: seq<byte>): seq<byte> {
    if |s| == 1 && s[0] < 128 then s else Prefix(|s|, RLP_STR_ENCODING_TYPE) + s
  }

  /** The Yellow Paper's encoding of a number: its shortest form, as a string. */
  function CanonicalInt(v: nat): seq<byte> {
    EncodeString(MinimalBigEndian(v))
  }

  /** The written number is the canonical encoding except for zero and for 2^32 up to 2^56. */
  lemma IntCanonicalExact(v: nat)
    requires v < 0x1_0000_0000_0000_0000
    ensures EncodeInt(v) == CanonicalInt(v)
            <==> v != 0 && (v < 0x1_0000_0000 || v >= 0x100_0000_0000_0000)
  {
    if v < 128 {
      SingleByte(v);
      MinimalSmall(v);
      assert EncodeInt(v) == [v];
      assert CanonicalInt(v) == if v == 0 then [128] else [v];
    } else {
      WideIntCanonicalExact(v);
    }
  }

  lemma MinimalSmall(v: nat)
    requires v < 256
    ensures MinimalBigEndian(v) == if v == 0 then [] else [v]
  {
    assert MinimalBigEndian(0) == [];
    assert v > 0 ==> MinimalBigEndian(v) == MinimalBigEndian(0) + [v];
  }

  lemma WideIntCanonicalExact(v: nat)
    requires 128 <= v < 0x1_0000_0000_0000_0000
    ensures EncodeInt(v) == CanonicalInt(v) <==> v < 0x1_0000_0000 || v >= 0x100_0000_0000_0000
  {
    hide BigEndian;
    PowerValues();
    var n, m := LengthBytesSize(v), MinimalBigEndian(v);
    var s := BigEndian(v, n);
    MinimalSize(v, 8);
    MinimalExact(v, n);
    if v < 256 {
      MinimalSmall(v);
    }
    hide MinimalBigEndian;
    assert EncodeInt(v) == [128 + n] + s;
    assert EncodeInt(v)[1..] == s;
    if |m| == 1 && m[0] < 128 {
      assert s != m ==> |EncodeInt(v)| > 1;
    } else {
      assert CanonicalInt(v)[1..] == m;
    }
  }
}
