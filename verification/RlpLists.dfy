/** Splitting an RLP list into its items, and the string views of the items. */
module RlpLists {
  import opened Bytes
  import opened Wrappers
  import opened Rlp

  /**
   A view of one item of a buffer. `start` is where its prefix begins. `valOffset` is
   where its payload begins: counted from `start` for an item of a split list, but from
   the beginning of the buffer for an object made from a buffer and a position.
   */
  datatype Item = Item(buf: seq<byte>, length: nat, valOffset: nat, start: nat, kind: Kind)

  /** The object for the item at a position of a buffer. */
  function FromBuffer(buf: seq<byte>, start: nat): Option<Item> {
    match Consume(buf, start)
    case None => None
    case Some(Consumed(length, kind, next)) => Some(Item(buf, length, next, start, kind))
  }

  /** The items from `off` up to `end`. */
  function Split(b: seq<byte>, off: nat, end: nat): Option<seq<Item>>
    decreases end - off
  {
    if off >= end then Some([])
    else match Consume(b, off)
      case None => None
      case Some(Consumed(length, kind, next)) =>
        ConsumeAdvances(b, off);
        match Split(b, next + length, end)
        case None => None
        case Some(rest) => Some([Item(b, length, next - off, off, kind)] + rest)
  }

  /** The object as it is when its list is asked for: one without length reads its prefix again. */
  function Reread(r: Item): Option<Item> {
    if r.length > 0 then Some(r)
    else match Consume(r.buf, r.start)
      case None => None
      case Some(Consumed(length, kind, next)) => Some(r.(length := length, valOffset := next, kind := kind))
  }

  /** The items of the list an object stands for. None when a prefix is rejected. */
  function ListOf(r: Item): Option<seq<Item>> {
    match Reread(r)
    case None => None
    case Some(q) => Split(q.buf, q.valOffset, q.valOffset + q.length)
  }

  method GetRlpList(r: Item) returns (items: Option<seq<Item>>)
    ensures items == ListOf(r)
  {
    hide Split;
    var valOffset, length := r.valOffset, r.length;
    if length == 0 {
      var c := Consume(r.buf, r.start);
      if c.None? {
        return None;
      }
      valOffset, length := c.value.next, c.value.length;
    }
    items := SplitLoop(r.buf, valOffset, valOffset + length);
  }

  /** What splitting gives when `list` has been found before `off`. */
  function Found(list: seq<Item>, b: seq<byte>, off: nat, end: nat): Option<seq<Item>> {
    match Split(b, off, end)
    case None => None
    case Some(rest) => Some(list + rest)
  }

  lemma FoundNothing(b: seq<byte>, from: nat, end: nat)
    ensures Split(b, from, end) == Found([], b, from, end)
  {
    var split := Split(b, from, end);
    assert split.Some? ==> [] + split.value == split.value;
  }

  lemma FoundNext(list: seq<Item>, b: seq<byte>, off: nat, end: nat)
    requires off < end && Consume(b, off).Some?
    ensures var c := Consume(b, off).value;
            && off <= c.next && off < c.next + c.length
            && Found(list, b, off, end) == Found(list + [Item(b, c.length, c.next - off, off, c.kind)], b, c.next + c.length, end)
  {
    hide Consume;
    ConsumeAdvances(b, off);
    var c := Consume(b, off).value;
    var item := Item(b, c.length, c.next - off, off, c.kind);
    var rest := Split(b, c.next + c.length, end);
    if rest.Some? {
      assert list + ([item] + rest.value) == (list + [item]) + rest.value;
    }
  }

  method SplitLoop(b: seq<byte>, from: nat, end: nat) returns (items: Option<seq<Item>>)
    ensures items == Split(b, from, end)
  {
    hide Consume;
    var offset, list := from, [];
    FoundNothing(b, from, end);
    while offset < end
      invariant Split(b, from, end) == Found(list, b, offset, end)
      decreases end - offset
    {
      var c := Consume(b, offset);
      if c.None? {
        return None;
      }
      FoundNext(list, b, offset, end);
      list := list + [Item(b, c.value.length, c.value.next - offset, offset, c.value.kind)];
      offset := c.value.next + c.value.length;
    }
    assert list + [] == list;
    return Some(list);
  }

  /** The payload of an item. None when the source finds it outside the buffer. */
  function AsRlpString(r: Item): Option<seq<byte>> {
    if r.start + r.valOffset + r.length > |r.buf| then None
    else Some(r.buf[r.start + r.valOffset..r.start + r.valOffset + r.length])
  }

  // ---------------------------------------------------------------- encoded trees

  datatype Tree = Leaf(s: seq<byte>) | Node(kids: seq<Tree>)

  function Encode(t: Tree): seq<byte> {
    match t
    case Leaf(s) => EncodeString(s)
    case Node(kids) => Prefix(|EncodeAll(kids)|, RLP_LIST_ENCODING_TYPE) + EncodeAll(kids)
  }

  function EncodeAll(ts: seq<Tree>): seq<byte> {
    if ts == [] then [] else Encode(ts[0]) + EncodeAll(ts[1..])
  }

  function Payload(t: Tree): seq<byte> {
    match t
    case Leaf(s) => s
    case Node(kids) => EncodeAll(kids)
  }

  function KindOf(t: Tree): Kind {
    match t
    case Leaf(s) => if |s| == 1 && s[0] < 128 then RlpByte else RlpString
    case Node(_) => RlpList
  }

  /** An encoded tree is read as an item of its kind that holds its payload and ends where it ends. */
  lemma {:induction false} EncodedItem(b: seq<byte>, off: nat, t: Tree)
    requires At(b, off, Encode(t)) && |Payload(t)| < 0x1_0000_0000
    ensures var next := off + |Encode(t)| - |Payload(t)|;
            && next >= off && Consume(b, off) == Some(Consumed(|Payload(t)|, KindOf(t), next))
            && At(b, next, Payload(t))
  {
    hide Prefix, Consume, At;
    if KindOf(t) == RlpByte {
      AtBytes(b, off, t.s);
      AtFirst(b, off, t.s);
      PlainByteRead(b, off);
    } else {
      var p := Prefix(|Payload(t)|, BaseOf(KindOf(t)));
      assert Encode(t) == p + Payload(t);
      AtSplit(b, off, p, Payload(t));
      AtBytes(b, off + |p|, Payload(t));
      if |Payload(t)| == 1 {
        AtFirst(b, off + |p|, Payload(t));
      }
      PrefixReadBackExact(b, off, |Payload(t)|, KindOf(t));
    }
  }

  lemma PlainByteRead(b: seq<byte>, off: nat)
    requires off < |b| && b[off] < 128
    ensures Consume(b, off) == Some(Consumed(1, RlpByte, off))
  {
  }

  /** The items that splitting should find for the encodings of `ts`, the first one at `off`. */
  function ItemsOf(b: seq<byte>, off: nat, ts: seq<Tree>): (r: seq<Item>)
    requires forall i | 0 <= i < |ts| :: |Payload(ts[i])| <= |Encode(ts[i])|
    ensures |r| == |ts|
    decreases |ts|
  {
    if ts == [] then []
    else
      [Item(b, |Payload(ts[0])|, |Encode(ts[0])| - |Payload(ts[0])|, off, KindOf(ts[0]))]
      + ItemsOf(b, off + |Encode(ts[0])|, ts[1..])
  }

  predicate AllSmall(ts: seq<Tree>) {
    forall i | 0 <= i < |ts| :: |Payload(ts[i])| < 0x1_0000_0000
  }

  lemma PayloadInside(t: Tree)
    ensures |Payload(t)| <= |Encode(t)| && |Encode(t)| > 0
  {
  }

  /** Splitting the encoding of a list finds exactly its items, one behind the other, to the end. */
  lemma {:induction false} SplitEncoded(b: seq<byte>, off: nat, ts: seq<Tree>)
    requires At(b, off, EncodeAll(ts)) && AllSmall(ts)
    ensures forall i | 0 <= i < |ts| :: |Payload(ts[i])| <= |Encode(ts[i])|
    ensures Split(b, off, off + |EncodeAll(ts)|) == Some(ItemsOf(b, off, ts))
    decreases |ts|
  {
    hide At, Encode, Payload, Consume;
    forall i | 0 <= i < |ts|
      ensures |Payload(ts[i])| <= |Encode(ts[i])|
    {
      PayloadInside(ts[i]);
    }
    if ts != [] {
      PayloadInside(ts[0]);
      AtSplit(b, off, Encode(ts[0]), EncodeAll(ts[1..]));
      EncodedItem(b, off, ts[0]);
      SplitEncoded(b, off + |Encode(ts[0])|, ts[1..]);
    }
  }

  /** The items tile the payload: the first begins at its start, each ends where the next begins, the last at its end. */
  lemma {:induction false} ItemsTile(b: seq<byte>, off: nat, ts: seq<Tree>, i: nat)
    requires i < |ts| && forall k | 0 <= k < |ts| :: |Payload(ts[k])| <= |Encode(ts[k])|
    ensures var r := ItemsOf(b, off, ts);
            && r[0].start == off
            && r[i].start + r[i].valOffset + r[i].length
               == (if i + 1 < |ts| then r[i + 1].start else off + |EncodeAll(ts)|)
    decreases |ts|
  {
    hide Encode, Payload;
    if i > 0 {
      ItemsTile(b, off + |Encode(ts[0])|, ts[1..], i - 1);
    } else {
      assert EncodeAll(ts) == Encode(ts[0]) + EncodeAll(ts[1..]);
      if |ts| == 1 {
        assert EncodeAll(ts[1..]) == [];
      }
    }
  }

  /** Each item shows the string that was encoded. */
  lemma {:induction false} ItemsShowPayloads(b: seq<byte>, off: nat, ts: seq<Tree>, i: nat)
    requires At(b, off, EncodeAll(ts)) && AllSmall(ts) && i < |ts|
    requires forall k | 0 <= k < |ts| :: |Payload(ts[k])| <= |Encode(ts[k])|
    ensures AsRlpString(ItemsOf(b, off, ts)[i]) == Some(Payload(ts[i]))
    decreases |ts|
  {
    hide At, Encode, Payload, Consume;
    AtSplit(b, off, Encode(ts[0]), EncodeAll(ts[1..]));
    if i == 0 {
      EncodedItem(b, off, ts[0]);
      AtBytes(b, off + |Encode(ts[0])| - |Payload(ts[0])|, Payload(ts[0]));
    } else {
      ItemsShowPayloads(b, off + |Encode(ts[0])|, ts[1..], i - 1);
    }
  }

  /** The list at the beginning, or anywhere else, of a buffer splits into its items. */
  lemma ListSplits(b: seq<byte>, start: nat, kids: seq<Tree>)
    requires At(b, start, Encode(Node(kids))) && |EncodeAll(kids)| < 0x1_0000_0000 && AllSmall(kids)
    ensures FromBuffer(b, start).Some?
    ensures forall i | 0 <= i < |kids| :: |Payload(kids[i])| <= |Encode(kids[i])|
    ensures var r := FromBuffer(b, start).value;
            && r.kind == RlpList && r.length == |EncodeAll(kids)|
            && ListOf(r) == Some(ItemsOf(b, r.valOffset, kids))
  {
    hide EncodeAll, At, Consume, ItemsOf, Split;
    EncodedItem(b, start, Node(kids));
    SplitEncoded(b, FromBuffer(b, start).value.valOffset, kids);
  }

  /**
   Splitting takes the payload offset of an object for one from the beginning of the
   buffer. When it counts from the item, as in a split list, splitting again finds the
   items exactly for an item at the beginning.
   */
  lemma SplitAgainExact(b: seq<byte>, r: Item, kids: seq<Tree>)
    requires r.buf == b && kids != [] && AllSmall(kids)
    requires At(b, r.start + r.valOffset, EncodeAll(kids)) && r.length == |EncodeAll(kids)|
    ensures forall i | 0 <= i < |kids| :: |Payload(kids[i])| <= |Encode(kids[i])|
    ensures ListOf(r) == Some(ItemsOf(b, r.start + r.valOffset, kids)) <==> r.start == 0
  {
    hide Encode, At, Consume;
    SplitEncoded(b, r.start + r.valOffset, kids);
    PayloadInside(kids[0]);
    if Split(b, r.valOffset, r.valOffset + r.length).Some? {
      SplitFrom(b, r.valOffset, r.valOffset + r.length);
    }
  }

  /** So a list inside a list is split again into its items exactly if it has none, or stands at the beginning. */
  lemma NestedSplitExact(b: seq<byte>, start: nat, kids: seq<Tree>)
    requires At(b, start, Encode(Node(kids))) && |EncodeAll(kids)| < 0x1_0000_0000 && AllSmall(kids)
    ensures |EncodeAll(kids)| <= |Encode(Node(kids))|
    ensures forall i | 0 <= i < |kids| :: |Payload(kids[i])| <= |Encode(kids[i])|
    ensures var r := Item(b, |EncodeAll(kids)|, |Encode(Node(kids))| - |EncodeAll(kids)|, start, RlpList);
            ListOf(r) == Some(ItemsOf(b, start + r.valOffset, kids)) <==> start == 0 || kids == []
  {
    hide Encode, At, Consume;
    PayloadInside(Node(kids));
    EncodedItem(b, start, Node(kids));
    if kids != [] {
      SplitAgainExact(b, Item(b, |EncodeAll(kids)|, |Encode(Node(kids))| - |EncodeAll(kids)|, start, RlpList), kids);
    }
  }

  /** The first item found begins where splitting begins. */
  lemma SplitFrom(b: seq<byte>, off: nat, end: nat)
    requires off < end && Split(b, off, end).Some?
    ensures Split(b, off, end).value != [] && Split(b, off, end).value[0].start == off
  {
    hide Consume;
  }

  /**
   The string view of an encoded item is right when its payload offset counts from the
   item, as in a split list.
   */
  lemma StringViewRight(b: seq<byte>, start: nat, t: Tree)
    requires At(b, start, Encode(t)) && |Payload(t)| < 0x1_0000_0000
    ensures FromBuffer(b, start).Some? && start <= FromBuffer(b, start).value.valOffset
    ensures var r := FromBuffer(b, start).value;
            AsRlpString(r.(valOffset := r.valOffset - start)) == Some(Payload(t))
  {
    hide Encode, Payload, At;
    EncodedItem(b, start, t);
    PayloadInside(t);
    AtBytes(b, FromBuffer(b, start).value.valOffset, Payload(t));
  }

  /**
   The string view of an object made at a position counts the position twice: it shows the
   bytes that far behind the payload, and throws exactly if the buffer ends before them. So
   when the item ends the buffer, the view is right exactly at the beginning.
   */
  lemma StringViewExact(b: seq<byte>, start: nat, t: Tree)
    requires At(b, start, Encode(t)) && |Payload(t)| < 0x1_0000_0000
    ensures FromBuffer(b, start).Some?
    ensures var view, end := AsRlpString(FromBuffer(b, start).value), start + start + |Encode(t)|;
            && (view.None? <==> end > |b|)
            && (view.Some? ==> |Payload(t)| <= end && view.value == b[end - |Payload(t)|..end])
            && (start == 0 ==> view == Some(Payload(t)))
            && (|b| == start + |Encode(t)| ==> (view == Some(Payload(t)) <==> start == 0))
  {
    hide Encode, Payload, Consume;
    EncodedItem(b, start, t);
    PayloadInside(t);
    StringViewRight(b, start, t);
  }

  /** At a later position the position is counted twice: this string is then looked for behind the buffer. */
  lemma StringViewAtPositionWrong()
    ensures var b: seq<byte> := [0x80, 0x81, 0x90];
            && At(b, 1, Encode(Leaf([0x90])))
            && FromBuffer(b, 1) == Some(Item(b, 1, 2, 1, RlpString))
            && AsRlpString(Item(b, 1, 2, 1, RlpString)) == None
  {
    var b: seq<byte> := [0x80, 0x81, 0x90];
    assert Encode(Leaf([0x90])) == [0x81, 0x90];
    assert b[1..3] == [0x81, 0x90];
  }

  /** This list inside a list is split into itself. */
  lemma NestedSplitWrong()
    ensures var b: seq<byte> := [0xc3, 0xc2, 1, 2];
            var inner := Item(b, 2, 1, 1, RlpList);
            && Split(b, 1, 4) == Some([inner])
            && AsRlpString(inner) == Some([1, 2])
            && ListOf(inner) == Some([inner])
  {
    var b: seq<byte> := [0xc3, 0xc2, 1, 2];
    assert Consume(b, 1) == Some(Consumed(2, RlpList, 2));
    var inner := Item(b, 2, 1, 1, RlpList);
    assert Split(b, 4, 4) == Some([]) && Split(b, 4, 3) == Some([]);
    assert [inner] + [] == [inner];
    assert b[2..4] == [1, 2];
    assert Split(b, 1, 4) == Some([inner]) && Split(b, 1, 3) == Some([inner]);
  }
}
