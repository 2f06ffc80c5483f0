/** The two loops of the sync: the one that fills the buffer and the one that takes it apart. */
module TxSyncMessages {
  import opened Bytes
  import opened Wrappers
  import opened Buffers
  import opened ShortIdLists
  import opened ContentMaps
  import opened ServiceState
  import opened ServiceMessages
  import opened TransactionServices
  import opened TxSync

  // ---------------------------------------------------------------- a buffer with zeroed gaps

  function ByteAt(x: seq<byte>, k: nat): byte {
    if k < |x| then x[k] else 0
  }

  /** The store reads as `x` with zeros behind it, as far as it goes; what does not fit yet is zero. */
  predicate Written(store: seq<byte>, x: seq<byte>) {
    && (forall k | 0 <= k < |store| :: store[k] == ByteAt(x, k))
    && (forall k | |store| <= k < |x| :: x[k] == 0)
  }

  lemma WrittenNothing(n: nat)
    ensures Written(Zeros(n), [])
  {
  }

  /** A gap reads as zeros, whether the store reaches that far or not. */
  lemma WrittenSkip(store: seq<byte>, x: seq<byte>, n: nat)
    requires Written(store, x)
    ensures Written(store, x + Zeros(n))
  {
    forall k | 0 <= k < |store|
      ensures ByteAt(x, k) == ByteAt(x + Zeros(n), k)
    {
    }
  }

  lemma WrittenResize(b: Buffer, n: nat, x: seq<byte>)
    requires b.Valid() && Written(b.store, x)
    ensures Written(b.Resize(n).store, x)
  {
    var r := b.Resize(n);
    forall k | 0 <= k < |r.store|
      ensures r.store[k] == ByteAt(x, k)
    {
      if k < |b.store| {
        assert r.store[k] == b.store[k];
      }
    }
  }

  lemma WrittenPut(b: Buffer, x: seq<byte>, piece: seq<byte>)
    requires b.Valid() && Written(b.store, x)
    ensures Written(b.Put(piece, |x|).store, x + piece)
  {
    var r := b.Resize(Max(b.length, |x| + |piece|));
    WrittenResize(b, Max(b.length, |x| + |piece|), x);
    hide Buffer.Resize, Written;
    WrittenSplice(r.store, x, piece);
  }

  lemma WrittenSplice(store: seq<byte>, x: seq<byte>, piece: seq<byte>)
    requires Written(store, x) && |x| + |piece| <= |store|
    ensures Written(Splice(store, |x|, piece), x + piece)
  {
  }

  lemma WrittenContents(b: Buffer, x: seq<byte>)
    requires b.Valid() && Written(b.store, x)
    ensures b.Resize(|x|).Contents() == x
  {
    WrittenResize(b, |x|, x);
    var r := b.Resize(|x|);
    hide Buffer.Resize;
    assert forall k | 0 <= k < |x| :: r.store[k] == x[k];
  }

  method PutPiece(out: ByteArray, piece: seq<byte>, pos: nat, ghost x: seq<byte>) returns (end: nat)
    requires out.Valid() && Written(out.store, x) && pos == |x|
    modifies out
    ensures out.Valid() && end == pos + |piece| && Written(out.store, x + piece)
    ensures |piece| > 0 ==> out.length > 0
  {
    WrittenPut(out.State(), x, piece);
    end := out.Put(piece, pos);
  }

  /** Copies from a view; fails on an empty one. */
  method CopyPiece(out: ByteArray, src: seq<byte>, len: nat, pos: nat, ghost x: seq<byte>) returns (ok: bool, end: nat)
    requires out.Valid() && Written(out.store, x) && pos == |x| && len <= |src| && pos > 0
    requires out.length > 0
    modifies out
    ensures out.Valid() && end == pos + len && ok == (src != []) && out.length > 0
    ensures ok ==> Written(out.store, x + src[..len])
  {
    WrittenPut(out.State(), x, src[..len]);
    assert src[0..len] == src[..len];
    ok, end := out.CopyFromBuffer(src, pos, 0, len);
  }

  // ---------------------------------------------------------------- the writer

  method PutSids(out: ByteArray, sids: seq<ShortId>, pos: nat, ghost x: seq<byte>) returns (end: nat)
    requires out.Valid() && Written(out.store, x) && pos == |x|
    modifies out
    ensures out.Valid() && end == pos + 4 * |sids| && Written(out.store, x + EncodeSids(sids))
    ensures out.length >= old(out.length)
  {
    hide Written, LittleEndian, EncodeSids, Buffer.Put;
    end := pos;
    NoSids(x, sids);
    for i := 0 to |sids|
      invariant out.Valid() && end == pos + 4 * i && Written(out.store, x + EncodeSids(sids[..i]))
      invariant out.length >= old(out.length)
    {
      NextSid(x, sids, i);
      WrittenPut(out.State(), x + EncodeSids(sids[..i]), LittleEndian(sids[i], 4));
      end := out.Put(LittleEndian(sids[i], 4), end);
    }
    assert sids[..|sids|] == sids;
  }

  lemma NoSids(x: seq<byte>, sids: seq<ShortId>)
    ensures x + EncodeSids(sids[..0]) == x
  {
    assert EncodeSids([]) == [];
  }

  lemma NextSid(x: seq<byte>, sids: seq<ShortId>, i: nat)
    requires i < |sids|
    ensures x + EncodeSids(sids[..i]) + LittleEndian(sids[i], 4) == x + EncodeSids(sids[..i + 1])
  {
    hide LittleEndian;
    assert sids[..i + 1][..i] == sids[..i];
    assert EncodeSids(sids[..i + 1]) == EncodeSids(sids[..i]) + LittleEndian(sids[i], 4);
  }

  /** The short ids of a transaction; a transaction without an index entry only gets its gap. */
  method PutShortIds(service: TransactionService, out: ByteArray, h: Sha256, pos: nat, ghost x: seq<byte>)
    returns (end: nat, ghost sids: seq<ShortId>)
    requires out !in service.Repr() && out.Valid() && Written(out.store, x) && pos == |x|
    modifies out
    ensures out.Valid() && end == |x + EncodeShortIds(sids)| && Written(out.store, x + EncodeShortIds(sids))
    ensures out.length >= old(out.length)
    ensures if h in service.hashToSids.entries then Enumerates(sids, service.hashToSids.entries[h]) else sids == []
  {
    hide Written, LittleEndian, EncodeSids, Enumerates;
    if h in service.hashToSids.entries {
      var order := Meet(service.hashToSids.entries[h]);
      sids := order;
      var count := |order| % 0x1_0000;
      var word := LittleEndian(count, SHORT_IDS_COUNT_LEN);
      WrittenPut(out.State(), x, word);
      end := out.Put(word, pos);
      end := PutSids(out, order, end, x + word);
      WrittenSkip(out.store, x + word + EncodeSids(order), count * TRANSACTION_FLAG_LEN);
      end := end + count * TRANSACTION_FLAG_LEN;
      assert x + word + EncodeSids(order) + Zeros(count * TRANSACTION_FLAG_LEN) == x + EncodeShortIds(order);
    } else {
      sids := [];
      WrittenSkip(out.store, x, SHORT_IDS_COUNT_LEN);
      NoShortIds();
      end := pos + SHORT_IDS_COUNT_LEN;
    }
  }

  lemma NoShortIds()
    ensures EncodeShortIds([]) == Zeros(SHORT_IDS_COUNT_LEN)
  {
    assert LittleEndian(0, 2) == [0] + LittleEndian(0, 1);
    assert LittleEndian(0, 1) == [0] + LittleEndian(0, 0);
    assert EncodeShortIds([]) == [0, 0] + [] + [];
  }

  /** One transaction. Fails, as an index error, when its contents are to be sent and there are none. */
  method PutTx(service: TransactionService, out: ByteArray, h: Sha256, syncContent: bool, pos: nat, ghost x: seq<byte>)
    returns (ok: bool, end: nat, ghost e: TxEntry)
    requires out !in service.Repr() && out.Valid() && Written(out.store, x) && pos == |x| > 0 && out.length > 0
    requires h in service.contents.entries
    modifies out
    ensures out.Valid() && out.length > 0 && ok == (syncContent ==> service.contents.entries[h] != [])
    ensures ok ==> && e.hash == h && EntryOf(service.State(), e)
                   && Written(out.store, x + EncodeTx(e, syncContent)) && end == |x + EncodeTx(e, syncContent)|
  {
    hide Written, LittleEndian, EncodeShortIds, Enumerates;
    var content := service.contents.entries[h];
    e := TxEntry(h, content, []);
    assert h[..SHA256_LEN] == h;
    ok, end := CopyPiece(out, h, SHA256_LEN, pos, x);
    ghost var y := x + h;
    var len := if syncContent then |content| % 0x1_0000_0000 else 0;
    var word := LittleEndian(len, CONTENT_LEN);
    end := PutPiece(out, word, end, y);
    y := y + word;
    if syncContent {
      ok, end := CopyPiece(out, content, len, end, y);
      if !ok {
        return;
      }
    } else {
      assert y + content[..len] == y;
    }
    y := y + content[..len];
    assert y == x + h + EncodeContent(content, syncContent);
    WrittenSkip(out.store, y, EXPIRATION_DATE_LEN);
    end := end + EXPIRATION_DATE_LEN;
    ghost var sids;
    end, sids := PutShortIds(service, out, h, end, y + Zeros(EXPIRATION_DATE_LEN));
    e := TxEntry(h, content, sids);
    assert y + Zeros(EXPIRATION_DATE_LEN) + EncodeShortIds(sids) == x + EncodeTx(e, syncContent);
  }

  ghost predicate Met(c: Containers, es: seq<TxEntry>, rest: set<Sha256>) {
    && (forall i, j | 0 <= i < j < |es| :: es[i].hash != es[j].hash)
    && (forall i | 0 <= i < |es| :: EntryOf(c, es[i]) && es[i].hash !in rest)
    && (forall h | h in c.contents.entries && h !in rest :: exists i | 0 <= i < |es| :: es[i].hash == h)
  }

  lemma MetNext(c: Containers, es: seq<TxEntry>, rest: set<Sha256>, e: TxEntry)
    requires Met(c, es, rest) && EntryOf(c, e) && e.hash in rest
    ensures Met(c, es + [e], rest - {e.hash})
  {
    hide EntryOf;
    var all := es + [e];
    assert forall i | 0 <= i < |es| :: all[i] == es[i];
    assert all[|es|].hash == e.hash;
    forall h | h in c.contents.entries && h !in rest - {e.hash}
      ensures exists i | 0 <= i < |all| :: all[i].hash == h
    {
      if h != e.hash {
        var i :| 0 <= i < |es| && es[i].hash == h;
        assert all[i].hash == h;
      }
    }
  }

  lemma MetAll(c: Containers, es: seq<TxEntry>)
    requires Met(c, es, {})
    ensures Lists(c, es)
  {
    hide EntryOf;
  }

  lemma MetNone(c: Containers)
    ensures Met(c, [], c.contents.entries.Keys)
  {
  }

  /** Writes all transactions with contents in some order. The buffer starts zeroed, so gaps read as zeros. */
  method GetTxSyncBuffer(service: TransactionService, totalSize: nat, syncContent: bool)
    returns (ok: bool, out: ByteArray, ghost es: seq<TxEntry>)
    requires |service.contents.entries| < 0x1_0000_0000
    ensures fresh(out)
    ensures ok <==> (syncContent ==> forall h | h in service.contents.entries :: service.contents.entries[h] != [])
    ensures ok ==> Lists(service.State(), es) && out.Valid() && out.Contents() == SyncBuffer(es, syncContent)
  {
    hide Written, LittleEndian, EncodeTx, Met, EntryOf, Lists;
    ghost var c := service.State();
    var count := |service.contents.entries|;
    out := new ByteArray(totalSize);
    es := [];
    WrittenNothing(totalSize + 1);
    var word := LittleEndian(count % 0x1_0000_0000, TX_COUNT_LEN);
    var pos := PutPiece(out, word, 0, []);
    assert [] + word == word;
    assert word + EncodeTxs([], syncContent) == word;
    var rest := service.contents.entries.Keys;
    MetNone(service.State());
    while rest != {}
      invariant fresh(out) && out.Valid() && out.length > 0
      invariant rest <= service.contents.entries.Keys && |es| + |rest| == count
      invariant service.State() == c && Met(c, es, rest)
      invariant Written(out.store, word + EncodeTxs(es, syncContent)) && pos == |word + EncodeTxs(es, syncContent)|
      invariant syncContent ==> forall h | h in service.contents.entries && h !in rest :: service.contents.entries[h] != []
      decreases rest
    {
      var h :| h in rest;
      ghost var e;
      ghost var x := word + EncodeTxs(es, syncContent);
      ok, pos, e := PutTx(service, out, h, syncContent, pos, x);
      if !ok {
        return;
      }
      MetNext(service.State(), es, rest, e);
      assert (es + [e])[..|es|] == es;
      assert x + EncodeTx(e, syncContent) == word + (EncodeTxs(es, syncContent) + EncodeTx(e, syncContent));
      es := es + [e];
      rest := rest - {h};
    }
    MetAll(service.State(), es);
    WrittenContents(out.State(), word + EncodeTxs(es, syncContent));
    out.Resize(pos);
    ok := true;
  }

  // ---------------------------------------------------------------- the reader

  /** Takes the short ids of a transaction over and echoes them. Fails where the message ends. */
  method TakeSids(service: TransactionService, b: seq<byte>, h: Sha256, sidsAt: nat, count: nat, now: real,
                  out: ByteArray, pos: nat, ghost x: seq<byte>) returns (ok: bool, end: nat)
    requires service.Valid() && out !in service.Repr() && out.Valid() && At(out.store, 0, x) && pos == |x| && sidsAt <= |b|
    modifies service.Repr(), out
    ensures service.Valid() && out.Valid() && out.length >= old(out.length)
    ensures ok == (sidsAt + count * SHORT_ID_LEN <= |b|)
    ensures var n := if ok then count else (|b| - sidsAt) / SHORT_ID_LEN;
            service.State() == AssignedAll(old(service.State()), h, DecodeSids(b, sidsAt, n), now)
    ensures ok ==> var sids := b[sidsAt..sidsAt + count * SHORT_ID_LEN];
                   At(out.store, 0, x + sids) && end == |x + sids|
  {
    hide At, Assigned, FromLittleEndian, LittleEndian, TransactionService.State, TransactionService.Valid;
    ghost var was := service.State();
    assert was.Valid();
    var i := 0;
    end := pos;
    assert x + b[sidsAt..sidsAt] == x;
    while i < count
      invariant service.Valid() && out.Valid() && out.length >= old(out.length)
      invariant i <= count && sidsAt + SHORT_ID_LEN * i <= |b|
      invariant service.State() == AssignedAll(was, h, DecodeSids(b, sidsAt, i), now)
      invariant At(out.store, 0, x + b[sidsAt..sidsAt + SHORT_ID_LEN * i]) && end == |x + b[sidsAt..sidsAt + SHORT_ID_LEN * i]|
    {
      var at := sidsAt + SHORT_ID_LEN * i;
      if at + SHORT_ID_LEN > |b| {
        assert i == (|b| - sidsAt) / SHORT_ID_LEN;
        return false, 0;
      }
      SidsNext(was, b, h, sidsAt, i, now);
      end := TakeSid(service, b, h, at, now, out, end, x + b[sidsAt..at]);
      assert x + b[sidsAt..at] + b[at..at + SHORT_ID_LEN] == x + b[sidsAt..at + SHORT_ID_LEN];
      i := i + 1;
    }
    ok := true;
  }

  /** Takes one short id over, unless it is known, and echoes it. */
  method TakeSid(service: TransactionService, b: seq<byte>, h: Sha256, at: nat, now: real, out: ByteArray, pos: nat,
                 ghost x: seq<byte>) returns (end: nat)
    requires service.Valid() && out !in service.Repr() && out.Valid() && At(out.store, 0, x) && pos == |x|
    requires at + SHORT_ID_LEN <= |b|
    modifies service.Repr(), out
    ensures service.Valid() && out.Valid() && out.length >= old(out.length)
    ensures var sid: ShortId := SidAt(b, at);
            service.State() == if sid in old(service.State()).sidToHash then old(service.State())
                               else Assigned(old(service.State()), h, sid, now)
    ensures At(out.store, 0, x + b[at..at + SHORT_ID_LEN]) && end == |x + b[at..at + SHORT_ID_LEN]|
  {
    hide At, Assigned, LittleEndian, FromLittleEndian;
    var sid := ReadSid(b, at);
    end := PutNext(out, LittleEndian(sid, SHORT_ID_LEN), pos, x);
    if sid !in service.sidToHash {
      var _ := service.AssignShortId(h, sid, now);
    }
  }

  function SidAt(b: seq<byte>, at: nat): ShortId
    requires at + SHORT_ID_LEN <= |b|
  {
    LittleEndianOnto(b[at..at + SHORT_ID_LEN]);
    PowerValues();
    FromLittleEndian(b[at..at + SHORT_ID_LEN])
  }

  method ReadSid(b: seq<byte>, at: nat) returns (sid: ShortId)
    requires at + SHORT_ID_LEN <= |b|
    ensures sid == FromLittleEndian(b[at..at + SHORT_ID_LEN])
    ensures LittleEndian(sid, SHORT_ID_LEN) == b[at..at + SHORT_ID_LEN]
  {
    LittleEndianOnto(b[at..at + SHORT_ID_LEN]);
    PowerValues();
    sid := FromLittleEndian(b[at..at + SHORT_ID_LEN]);
  }

  lemma SidsNext(c: Containers, b: seq<byte>, h: Sha256, sidsAt: nat, i: nat, now: real)
    requires c.Valid() && sidsAt + SHORT_ID_LEN * (i + 1) <= |b|
    ensures var at := sidsAt + SHORT_ID_LEN * i;
            var sids := DecodeSids(b, sidsAt, i + 1);
            && sids[i] == SidAt(b, at)
            && var d := AssignedAll(c, h, DecodeSids(b, sidsAt, i), now);
               AssignedAll(c, h, sids, now) == if sids[i] in d.sidToHash then d else Assigned(d, h, sids[i], now)
  {
    hide Assigned, FromLittleEndian;
    var sids := DecodeSids(b, sidsAt, i + 1);
    assert sids[..i] == DecodeSids(b, sidsAt, i);
  }

  /** One transaction of a sync message, and its part of the reply. */
  method TakeTx(service: TransactionService, b: seq<byte>, off: nat, now: real, out: ByteArray, pos: nat, ghost x: seq<byte>)
    returns (ok: bool, next: nat, end: nat)
    requires service.Valid() && out !in service.Repr() && out.Valid() && At(out.store, 0, x) && pos == |x| > 0 && out.length > 0
    modifies service.Repr(), out
    ensures service.Valid() && out.Valid() && out.length > 0
    ensures var r := SyncTx(b, off, old(service.State()), now);
            && ok == r.Synced? && service.State() == r.c
            && (ok ==> next == r.next && At(out.store, 0, x + r.reply) && end == |x + r.reply|)
  {
    hide At, WithContents, AssignedAll, FromLittleEndian, LittleEndian, DecodeSids, SyncSids, TransactionService.State, TransactionService.Valid;
    next, end := 0, 0;
    var contentAt := off + SHA256_LEN + CONTENT_LEN;
    if contentAt > |b| {
      return false, 0, 0;
    }
    var h: Sha256 := b[off..off + SHA256_LEN];
    var len := FromLittleEndian(b[off + SHA256_LEN..contentAt]);
    if len > 0 {
      if contentAt + len > |b| {
        return false, 0, 0;
      }
      var _, _ := service.SetTransactionContents(h, b[contentAt..contentAt + len]);
    }
    ghost var y := x;
    end := PutNext(out, h, pos, y);
    y := y + h;
    end := PutNext(out, LittleEndian(len, CONTENT_LEN), end, y);
    y := y + LittleEndian(len, CONTENT_LEN);
    var countAt := contentAt + len + EXPIRATION_DATE_LEN;
    if countAt + SHORT_IDS_COUNT_LEN > |b| {
      return false, 0, 0;
    }
    ok, next, end := TakeSidsAndFlags(service, b, countAt, h, len, now, out, end, x);
  }

  method TakeSidsAndFlags(service: TransactionService, b: seq<byte>, countAt: nat, h: Sha256, len: nat, now: real,
                          out: ByteArray, pos: nat, ghost x: seq<byte>) returns (ok: bool, next: nat, end: nat)
    requires service.Valid() && out !in service.Repr() && out.Valid() && out.length > 0 && countAt + SHORT_IDS_COUNT_LEN <= |b|
    requires At(out.store, 0, x + h + LittleEndian(len, CONTENT_LEN)) && pos == |x + h + LittleEndian(len, CONTENT_LEN)|
    modifies service.Repr(), out
    ensures service.Valid() && out.Valid() && out.length > 0
    ensures var r := SyncSids(b, countAt, old(service.State()), h, len, now);
            && ok == r.Synced? && service.State() == r.c
            && (ok ==> next == r.next && At(out.store, 0, x + r.reply) && end == |x + r.reply|)
  {
    hide At, AssignedAll, FromLittleEndian, LittleEndian, DecodeSids, TransactionService.State, TransactionService.Valid;
    next, end := 0, pos;
    var count := FromLittleEndian(b[countAt..countAt + SHORT_IDS_COUNT_LEN]);
    ghost var y := x + h + LittleEndian(len, CONTENT_LEN);
    end := PutNext(out, LittleEndian(count, 4), end, y);
    y := y + LittleEndian(count, 4);
    var sidsAt := countAt + SHORT_IDS_COUNT_LEN;
    ok, end := TakeSids(service, b, h, sidsAt, count, now, out, end, y);
    if !ok {
      return;
    }
    var flagsAt := sidsAt + count * SHORT_ID_LEN;
    y := y + b[sidsAt..flagsAt];
    next := flagsAt + count * TRANSACTION_FLAG_LEN;
    if next > |b| {
      return false, 0, 0;
    }
    ok, end := EchoFlags(b, flagsAt, next, out, end, y);
    assert y + b[flagsAt..next] == x + Reply(h, len, count, b[sidsAt..flagsAt], b[flagsAt..next]);
  }

  /** Echoes the flags. Copying from the very end of the message fails, even if there are none. */
  method EchoFlags(b: seq<byte>, flagsAt: nat, next: nat, out: ByteArray, pos: nat, ghost x: seq<byte>)
    returns (ok: bool, end: nat)
    requires out.Valid() && out.length > 0 && At(out.store, 0, x) && pos == |x| && flagsAt <= next <= |b|
    modifies out
    ensures out.Valid() && out.length > 0 && ok == (flagsAt < |b|)
    ensures ok ==> At(out.store, 0, x + b[flagsAt..next]) && end == |x + b[flagsAt..next]|
  {
    hide At;
    var rest := b[flagsAt..];
    CopyKeepsAt(out.State(), rest, pos, next - flagsAt, 0, x);
    assert rest[0..next - flagsAt] == b[flagsAt..next];
    ok, end := out.CopyFromBuffer(rest, pos, 0, next - flagsAt);
    if ok {
      AtJoin(out.store, 0, x, b[flagsAt..next]);
    }
  }

  /** Takes a sync message over. The reply's buffer may grow on the way; at the end it is cut to what was written. */
  method ProcessTxSyncMessage(service: TransactionService, b: seq<byte>, now: real) returns (ok: bool, out: ByteArray)
    requires service.Valid()
    modifies service.Repr()
    ensures service.Valid() && fresh(out)
    ensures var r := SyncMessage(b, old(service.State()), now);
            && ok == r.Synced? && service.State() == r.c
            && (ok ==> out.Valid() && out.Contents() == r.reply)
  {
    hide At, FromLittleEndian, LittleEndian, SyncTxs, Buffer.Put, TransactionService.State, TransactionService.Valid;
    var at := HEADER_LENGTH + NETWORK_NUM_LEN;
    if at + TX_COUNT_LEN > |b| {
      out := new ByteArray(0);
      return false, out;
    }
    var n := FromLittleEndian(b[at..at + TX_COUNT_LEN]);
    out := new ByteArray(TX_COUNT_LEN + n * 48);
    var pos := out.Put(LittleEndian(n, TX_COUNT_LEN), 0);
    ghost var word := LittleEndian(n, TX_COUNT_LEN);
    ghost var reply;
    ok, pos, reply := TakeTxs(service, b, at + TX_COUNT_LEN, n, now, out, pos, word);
    if ok {
      ResizeKeepsAt(out.State(), pos, 0, word + reply);
      out.Resize(pos);
      WholeContents(out.State(), word + reply);
    }
  }

  /** The loop over the transactions of a sync message. */
  method TakeTxs(service: TransactionService, b: seq<byte>, off: nat, n: nat, now: real, out: ByteArray, pos: nat,
                 ghost word: seq<byte>) returns (ok: bool, end: nat, ghost reply: seq<byte>)
    requires service.Valid() && out !in service.Repr() && out.Valid() && At(out.store, 0, word)
    requires pos == |word| > 0 && out.length > 0
    modifies service.Repr(), out
    ensures service.Valid() && out.Valid()
    ensures var r := SyncTxs(b, off, n, old(service.State()), now);
            && ok == r.Synced? && service.State() == r.c
            && (ok ==> reply == r.reply && At(out.store, 0, word + reply) && end == |word + reply|)
  {
    hide At, FromLittleEndian, LittleEndian, SyncTx, TransactionService.State, TransactionService.Valid;
    reply, end := [], pos;
    ghost var was := service.State();
    assert was.Valid();
    var offset: nat := off;
    assert word + reply == word;
    for i := 0 to n
      invariant service.Valid() && out.Valid() && out.length > 0
      invariant SyncTxs(b, off, i, was, now) == Synced(service.State(), reply, offset)
      invariant At(out.store, 0, word + reply) && end == |word + reply|
    {
      ghost var step := SyncTx(b, offset, service.State(), now);
      ok, offset, end := TakeTx(service, b, offset, now, out, end, word + reply);
      if !ok {
        StoppedStays(b, off, i + 1, n, was, now);
        return;
      }
      assert word + (reply + step.reply) == (word + reply) + step.reply;
      reply := reply + step.reply;
    }
    ok := true;
  }

  lemma WholeContents(b: Buffer, x: seq<byte>)
    requires b.Valid() && At(b.store, 0, x) && b.length == |x|
    ensures b.Contents() == x
  {
  }

  /** Once stopped, the later transactions change nothing. */
  lemma {:induction false} StoppedStays(b: seq<byte>, off: nat, i: nat, n: nat, c: Containers, now: real)
    requires c.Valid() && i <= n && SyncTxs(b, off, i, c, now).Stopped?
    ensures SyncTxs(b, off, n, c, now) == SyncTxs(b, off, i, c, now)
    decreases n - i
  {
    hide SyncTx;
    if i < n {
      StoppedStays(b, off, i + 1, n, c, now);
    }
  }
}
