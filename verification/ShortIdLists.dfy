/** The list of short ids that follows a compressed block: a count and so many 32-bit numbers. */
module ShortIdLists {
  import opened Bytes
  import opened Wrappers

  function ReadUint(b: seq<byte>, off: nat, width: nat): Option<nat> {
    if off + width <= |b| then Some(FromLittleEndian(b[off..off + width])) else None
  }

  function EncodeSids(sids: seq<ShortId>): (r: seq<byte>)
    ensures |r| == 4 * |sids|
  {
    if sids == [] then [] else EncodeSids(sids[..|sids| - 1]) + LittleEndian(sids[|sids| - 1], 4)
  }

  function DecodeSids(b: seq<byte>, off: nat, n: nat): (r: seq<ShortId>)
    requires off + 4 * n <= |b|
    ensures |r| == n
  {
    if n == 0 then []
    else
      LittleEndianOnto(b[off + 4 * (n - 1)..off + 4 * n]);
      PowerValues();
      DecodeSids(b, off, n - 1) + [FromLittleEndian(b[off + 4 * (n - 1)..off + 4 * n])]
  }

  /** The short id list. None when the message has no room for as many as it announces. */
  function ShortIds(b: seq<byte>, off: nat): Option<seq<ShortId>> {
    match ReadUint(b, off, 4)
    case None => None
    case Some(n) => if off + 4 + 4 * n > |b| then None else Some(DecodeSids(b, off + 4, n))
  }

  method DeserializeShortIds(b: seq<byte>, sidsOffset: nat) returns (r: Option<seq<ShortId>>)
    ensures r == ShortIds(b, sidsOffset)
  {
    var count := ReadUint(b, sidsOffset, 4);
    if count.None? || sidsOffset + 4 + 4 * count.value > |b| {
      return None;
    }
    var offset := sidsOffset + 4;
    var shortIds := [];
    for idx := 0 to count.value
      invariant offset == sidsOffset + 4 + 4 * idx
      invariant shortIds == DecodeSids(b, sidsOffset + 4, idx)
    {
      LittleEndianOnto(b[offset..offset + 4]);
      PowerValues();
      shortIds := shortIds + [FromLittleEndian(b[offset..offset + 4])];
      offset := offset + 4;
    }
    return Some(shortIds);
  }

  /** The list that was written is read back. */
  lemma {:induction false} DecodeEncodedSids(m: seq<byte>, off: nat, sids: seq<ShortId>)
    requires At(m, off, EncodeSids(sids))
    ensures DecodeSids(m, off, |sids|) == sids
  {
    hide LittleEndian;
    if sids != [] {
      var n := |sids| - 1;
      AtSplit(m, off, EncodeSids(sids[..n]), LittleEndian(sids[n], 4));
      DecodeEncodedSids(m, off, sids[..n]);
      PowerValues();
      LittleEndianRoundTrip(sids[n], 4);
      assert sids == sids[..n] + [sids[n]];
    }
  }

  lemma SidListReadBack(m: seq<byte>, off: nat, sids: seq<ShortId>)
    requires |sids| < 0x1_0000_0000
    requires At(m, off, LittleEndian(|sids|, 4)) && At(m, off + 4, EncodeSids(sids))
    ensures ShortIds(m, off) == Some(sids)
  {
    hide LittleEndian, FromLittleEndian, EncodeSids, DecodeSids;
    PowerValues();
    LittleEndianRoundTrip(|sids|, 4);
    DecodeEncodedSids(m, off + 4, sids);
  }
}
