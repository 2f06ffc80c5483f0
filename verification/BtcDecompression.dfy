/**
 Bitcoin block decompression: the markers of a compressed block are replaced by the
 transactions their short ids stand for, by sub-tasks that write into one buffer.
 */
module BtcDecompression {
  import opened Bytes
  import opened Wrappers
  import opened Buffers
  import opened BtcTx
  import opened Partition
  import opened ParallelCopy
  import opened BtcCompression
  import opened Bulks
  import opened ShortIdLists

  const BLOCK_LENGTH_OFFSET := 16

  // ---------------------------------------------------------------- the message

  /** The offset of the short id list, the number of transactions, and where they start. */
  datatype Header = Header(sidsOffset: nat, txCount: nat, start: nat)

  function ParseHeader(b: seq<byte>): Option<Header> {
    match ReadUint(b, 0, OFFSET_DIFF)
    case None => None
    case Some(sidsOffset) =>
      match GetVarint(b, OFFSET_DIFF + BLOCK_TX_COUNT_OFFSET)
      case None => None
      case Some(Read(n, start)) => Some(Header(sidsOffset, n, start))
  }

  function NextItem(b: seq<byte>, off: nat): Option<Item> {
    if off >= |b| then None
    else if b[off] == SHORT_ID_INDICATOR then Some(Item(off, off + 1, true))
    else match ParseTx(b, off)
      case None => None
      case Some(TxEnds(_, end)) => if end <= |b| then Some(Item(off, end, false)) else None
  }

  function ItemsEnd(start: nat, items: seq<Item>): nat {
    if items == [] then start else items[|items| - 1].end
  }

  function Items(b: seq<byte>, start: nat, n: nat): Option<seq<Item>> {
    if n == 0 then Some([])
    else match Items(b, start, n - 1)
      case None => None
      case Some(items) =>
        match NextItem(b, ItemsEnd(start, items))
        case None => None
        case Some(item) => Some(items + [item])
  }

  lemma {:induction false} ItemsStop(b: seq<byte>, start: nat, m: nat, n: nat)
    requires m <= n && Items(b, start, m).None?
    ensures Items(b, start, n).None?
  {
    if m < n {
      ItemsStop(b, start, m, n - 1);
    }
  }

  // ---------------------------------------------------------------- what the block expands to

  /** In a Bitcoin message the markers are the items of one byte. */
  predicate MarkersAreSingle(items: seq<Item>) {
    forall i | 0 <= i < |items| ::
      items[i].from < items[i].end && (items[i].short <==> items[i].end - items[i].from == 1)
  }

  lemma {:induction false} ItemsShape(b: seq<byte>, start: nat, n: nat)
    requires Items(b, start, n).Some?
    ensures var items := Items(b, start, n).value;
            && |items| == n && MarkersAreSingle(items)
            && forall i | 0 <= i < n :: items[i].end <= |b|
  {
    hide ParseTx;
    if n > 0 {
      ItemsShape(b, start, n - 1);
      var off := ItemsEnd(start, Items(b, start, n - 1).value);
      if b[off] != SHORT_ID_INDICATOR {
        ParseTxAdvances(b, off);
      }
    }
  }

  /** The sequential meaning of a compressed block, for a buffer of a given capacity. */
  function Decompress(b: seq<byte>, r: Receiver, capacity: nat): Outcome {
    match ParseHeader(b)
    case None => Failed
    case Some(h) =>
      match ShortIds(b, h.sidsOffset)
      case None => Failed
      case Some(sids) =>
        if !r.KnowsAll(sids) then Missing(UnknownHashes(r, sids), UnknownSids(r, sids))
        else Expand(Source(b, sids, r), h, capacity)
  }

  /** The items of the block, provided the short ids and the capacity suffice. */
  function Layout(src: Source, h: Header, capacity: nat): Option<seq<Item>>
    requires src.Valid() && OFFSET_DIFF <= h.start <= |src.b|
  {
    match Items(src.b, h.start, h.txCount)
    case None => None
    case Some(items) =>
      if Shorts(items) > |src.sids| then None
      else
        ItemsShape(src.b, h.start, h.txCount);
        if h.start - OFFSET_DIFF + |Flatten(src.Chunks(items))| > capacity then None else Some(items)
  }

  /** The expanded block. Empty contents cannot be copied, so a block that uses some fails. */
  function Expand(src: Source, h: Header, capacity: nat): Outcome
    requires src.Valid() && OFFSET_DIFF <= h.start <= |src.b|
  {
    match Layout(src, h, capacity)
    case None => Failed
    case Some(items) =>
      ItemsShape(src.b, h.start, h.txCount);
      if !NonEmpty(src.Chunks(items), 0, |items|) then Failed
      else Block(src.b[OFFSET_DIFF..h.start] + Flatten(src.Chunks(items)))
  }
}
