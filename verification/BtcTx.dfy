/**
 Bitcoin transactions on the wire: the variable-length integer, the serialization of
 legacy and segwit transactions (BIP 144), the offset parser that walks over one
 transaction, and the bytes the transaction id is computed from (BIP 141).
 */
module BtcTx {
  import opened Bytes
  import opened Wrappers

  const VARINT_BYTE_MAX_SIZE := 253
  const VARINT_SHORT_INDICATOR: byte := 0xFD
  const VARINT_INT_INDICATOR: byte := 0xFE
  const VARINT_LONG_INDICATOR: byte := 0xFF
  const TX_VERSION_SIZE := 4
  const TX_PREV_OUTPUT_SIZE := 36
  const TXIN_SEQUENCE_SIZE := 4
  const TXOUT_VALUE_SIZE := 8
  const TX_LOCK_TIME_SIZE := 4

  // ---------------------------------------------------------------- varint

  /** A number that was read, and the offset behind it. */
  datatype Read = Read(value: nat, next: nat)

  /** The varint at an offset. None when it would be read from outside the buffer. */
  function GetVarint(b: seq<byte>, off: nat): Option<Read> {
    if off >= |b| then None
    else
      var width := VarintWidth(b[off]);
      if off + 1 + width > |b| then None
      else if width == 0 then Some(Read(b[off], off + 1))
      else Some(Read(FromLittleEndian(b[off + 1..off + 1 + width]), off + 1 + width))
  }

  /** How many bytes follow the first byte of a varint. */
  function VarintWidth(typ: byte): nat {
    if typ == VARINT_LONG_INDICATOR then 8
    else if typ == VARINT_INT_INDICATOR then 4
    else if typ == VARINT_SHORT_INDICATOR then 2
    else 0
  }

  /** The bytes that stand for a 64-bit value. */
  function SetVarint(value: nat): (s: seq<byte>)
    ensures |s| >= 1
  {
    if value < VARINT_BYTE_MAX_SIZE then [value]
    else if value <= 0xFFFF then [VARINT_SHORT_INDICATOR] + LittleEndian(value, 2)
    else if value <= 0xFFFF_FFFF then [VARINT_INT_INDICATOR] + LittleEndian(value, 4)
    else [VARINT_LONG_INDICATOR] + LittleEndian(value, 8)
  }

  lemma VarintRoundTrip(b: seq<byte>, off: nat, value: nat)
    requires value < 0x1_0000_0000_0000_0000
    requires At(b, off, SetVarint(value))
    ensures GetVarint(b, off) == Some(Read(value, off + |SetVarint(value)|))
  {
    PowerValues();
    var s := SetVarint(value);
    assert b[off] == s[0] by { assert b[off..off + |s|][0] == s[0]; }
    assert b[off + 1..off + |s|] == s[1..] by { assert b[off..off + |s|][1..] == s[1..]; }
    if value >= VARINT_BYTE_MAX_SIZE {
      LittleEndianRoundTrip(value, |s| - 1);
    }
  }

  lemma VarintAdvances(b: seq<byte>, off: nat)
    requires GetVarint(b, off).Some?
    ensures off < GetVarint(b, off).value.next <= |b|
  {
  }

  /** A varint is found wherever its bytes are. */
  lemma VarintLocal(b: seq<byte>, lo: nat, hi: nat, c: seq<byte>, lo': nat, off: nat)
    requires Agree(b, lo, hi, c, lo') && lo <= off
    requires GetVarint(b, off).Some? && GetVarint(b, off).value.next <= hi
    ensures var Read(v, next) := GetVarint(b, off).value;
            off < next && GetVarint(c, off - lo + lo') == Some(Read(v, next - lo + lo'))
  {
    var end := GetVarint(b, off).value.next;
    AgreeByte(b, lo, hi, c, lo', off);
    AgreeSlice(b, lo, hi, c, lo', off + 1, end);
  }

  // ---------------------------------------------------------------- the parser

  /** Where a transaction's witness data starts, and where the transaction ends. */
  datatype TxEnds = TxEnds(witnessAt: nat, end: nat)

  /**
   The offset behind `n` fields, each of `lead` bytes, a length, that many bytes and
   `trail` bytes: inputs, outputs and witness items are all of this shape.
   */
  function SkipFields(b: seq<byte>, n: nat, lead: nat, trail: nat, off: nat): Option<nat> {
    if n == 0 then Some(off)
    else match GetVarint(b, off + lead)
      case None => None
      case Some(Read(size, next)) => SkipFields(b, n - 1, lead, trail, next + trail + size)
  }

  /** The offset behind the witness stacks of `n` inputs. */
  function SkipWitnesses(b: seq<byte>, n: nat, off: nat): Option<nat> {
    if n == 0 then Some(off)
    else match GetVarint(b, off)
      case None => None
      case Some(Read(count, next)) =>
        match SkipFields(b, count, 0, 0, next)
        case None => None
        case Some(end) => SkipWitnesses(b, n - 1, end)
  }

  predicate HasSegwitFlag(b: seq<byte>, off: nat)
    requires off + 2 <= |b|
  {
    FromBigEndian(b[off..off + 2]) == 1
  }

  lemma SegwitFlagBytes(b: seq<byte>, off: nat)
    requires off + 2 <= |b|
    ensures HasSegwitFlag(b, off) <==> b[off] == 0 && b[off + 1] == 1
  {
    var s := b[off..off + 2];
    assert s[..1][..0] == [];
    assert FromBigEndian(s[..1]) == s[0];
  }

  /** Where the counted part of the transaction at `off` starts: behind the version and the segwit marker. */
  function BodyOffset(b: seq<byte>, off: nat): nat
    requires off + TX_VERSION_SIZE + 2 <= |b|
  {
    off + TX_VERSION_SIZE + if HasSegwitFlag(b, off + TX_VERSION_SIZE) then 2 else 0
  }

  /** The inputs and outputs: the number of inputs and the offset behind the outputs. */
  function SkipInputsOutputs(b: seq<byte>, off: nat): Option<Read> {
    match GetVarint(b, off)
    case None => None
    case Some(Read(ins, next)) =>
      match SkipFields(b, ins, TX_PREV_OUTPUT_SIZE, TXIN_SEQUENCE_SIZE, next)
      case None => None
      case Some(outsAt) =>
        match GetVarint(b, outsAt)
        case None => None
        case Some(Read(outs, next')) =>
          match SkipFields(b, outs, TXOUT_VALUE_SIZE, 0, next')
          case None => None
          case Some(end) => Some(Read(ins, end))
  }

  /** One transaction. None when the walk would read outside the buffer. */
  function ParseTx(b: seq<byte>, off: nat): Option<TxEnds> {
    if off + TX_VERSION_SIZE + 2 > |b| then None
    else match SkipInputsOutputs(b, BodyOffset(b, off))
      case None => None
      case Some(Read(ins, witnessAt)) =>
        if !HasSegwitFlag(b, off + TX_VERSION_SIZE) then Some(TxEnds(witnessAt, witnessAt + TX_LOCK_TIME_SIZE))
        else match SkipWitnesses(b, ins, witnessAt)
          case None => None
          case Some(end) => Some(TxEnds(witnessAt, end + TX_LOCK_TIME_SIZE))
  }

  lemma {:induction false} SkipFieldsAdvances(b: seq<byte>, n: nat, lead: nat, trail: nat, off: nat)
    requires SkipFields(b, n, lead, trail, off).Some?
    ensures off + n <= SkipFields(b, n, lead, trail, off).value
  {
    if n > 0 {
      var Read(size, next) := GetVarint(b, off + lead).value;
      SkipFieldsAdvances(b, n - 1, lead, trail, next + trail + size);
    }
  }

  lemma {:induction false} SkipWitnessesAdvances(b: seq<byte>, n: nat, off: nat)
    requires SkipWitnesses(b, n, off).Some?
    ensures off + n <= SkipWitnesses(b, n, off).value
  {
    if n > 0 {
      var Read(count, next) := GetVarint(b, off).value;
      SkipFieldsAdvances(b, count, 0, 0, next);
      SkipWitnessesAdvances(b, n - 1, SkipFields(b, count, 0, 0, next).value);
    }
  }

  /** A transaction takes at least ten bytes, so the parser always moves on. */
  lemma ParseTxAdvances(b: seq<byte>, off: nat)
    requires ParseTx(b, off).Some?
    ensures BodyOffset(b, off) + 2 <= ParseTx(b, off).value.witnessAt
    ensures ParseTx(b, off).value.witnessAt + TX_LOCK_TIME_SIZE <= ParseTx(b, off).value.end
  {
    var Read(ins, next) := GetVarint(b, BodyOffset(b, off)).value;
    SkipFieldsAdvances(b, ins, TX_PREV_OUTPUT_SIZE, TXIN_SEQUENCE_SIZE, next);
    var outsAt := SkipFields(b, ins, TX_PREV_OUTPUT_SIZE, TXIN_SEQUENCE_SIZE, next).value;
    var Read(outs, next') := GetVarint(b, outsAt).value;
    SkipFieldsAdvances(b, outs, TXOUT_VALUE_SIZE, 0, next');
    var witnessAt := SkipFields(b, outs, TXOUT_VALUE_SIZE, 0, next').value;
    if HasSegwitFlag(b, off + TX_VERSION_SIZE) {
      SkipWitnessesAdvances(b, ins, witnessAt);
    }
  }

  // ---------------------------------------------------------------- locality

  lemma {:induction false} SkipFieldsLocal(
    b: seq<byte>, lo: nat, hi: nat, c: seq<byte>, lo': nat, n: nat, lead: nat, trail: nat, off: nat)
    requires Agree(b, lo, hi, c, lo') && lo <= off
    requires SkipFields(b, n, lead, trail, off).Some? && SkipFields(b, n, lead, trail, off).value <= hi
    ensures SkipFields(c, n, lead, trail, off - lo + lo') == Some(SkipFields(b, n, lead, trail, off).value - lo + lo')
  {
    hide GetVarint;
    if n > 0 {
      var Read(size, next) := GetVarint(b, off + lead).value;
      SkipFieldsAdvances(b, n - 1, lead, trail, next + trail + size);
      VarintLocal(b, lo, hi, c, lo', off + lead);
      SkipFieldsLocal(b, lo, hi, c, lo', n - 1, lead, trail, next + trail + size);
    }
  }

  lemma {:induction false} SkipWitnessesLocal(
    b: seq<byte>, lo: nat, hi: nat, c: seq<byte>, lo': nat, n: nat, off: nat)
    requires Agree(b, lo, hi, c, lo') && lo <= off
    requires SkipWitnesses(b, n, off).Some? && SkipWitnesses(b, n, off).value <= hi
    ensures SkipWitnesses(c, n, off - lo + lo') == Some(SkipWitnesses(b, n, off).value - lo + lo')
  {
    hide GetVarint, SkipFields;
    if n > 0 {
      var Read(count, next) := GetVarint(b, off).value;
      var end := SkipFields(b, count, 0, 0, next).value;
      SkipFieldsAdvances(b, count, 0, 0, next);
      SkipWitnessesAdvances(b, n - 1, end);
      VarintLocal(b, lo, hi, c, lo', off);
      SkipFieldsLocal(b, lo, hi, c, lo', count, 0, 0, next);
      SkipWitnessesLocal(b, lo, hi, c, lo', n - 1, end);
    }
  }

  lemma SkipInputsOutputsLocal(b: seq<byte>, lo: nat, hi: nat, c: seq<byte>, lo': nat, off: nat)
    requires Agree(b, lo, hi, c, lo') && lo <= off
    requires SkipInputsOutputs(b, off).Some? && SkipInputsOutputs(b, off).value.next <= hi
    ensures var Read(ins, end) := SkipInputsOutputs(b, off).value;
            off <= end && SkipInputsOutputs(c, off - lo + lo') == Some(Read(ins, end - lo + lo'))
  {
    hide GetVarint, SkipFields;
    var Read(ins, next) := GetVarint(b, off).value;
    var outsAt := SkipFields(b, ins, TX_PREV_OUTPUT_SIZE, TXIN_SEQUENCE_SIZE, next).value;
    var Read(outs, next') := GetVarint(b, outsAt).value;
    SkipFieldsAdvances(b, ins, TX_PREV_OUTPUT_SIZE, TXIN_SEQUENCE_SIZE, next);
    SkipFieldsAdvances(b, outs, TXOUT_VALUE_SIZE, 0, next');
    VarintAdvances(b, off);
    VarintAdvances(b, outsAt);
    VarintLocal(b, lo, hi, c, lo', off);
    SkipFieldsLocal(b, lo, hi, c, lo', ins, TX_PREV_OUTPUT_SIZE, TXIN_SEQUENCE_SIZE, next);
    VarintLocal(b, lo, hi, c, lo', outsAt);
    SkipFieldsLocal(b, lo, hi, c, lo', outs, TXOUT_VALUE_SIZE, 0, next');
  }

  lemma BodyOffsetLocal(b: seq<byte>, off: nat, hi: nat, c: seq<byte>, off': nat)
    requires Agree(b, off, hi, c, off') && off + TX_VERSION_SIZE + 2 <= hi
    ensures BodyOffset(c, off') == BodyOffset(b, off) - off + off'
  {
    SegwitFlagBytes(b, off + TX_VERSION_SIZE);
    SegwitFlagBytes(c, off' + TX_VERSION_SIZE);
    AgreeByte(b, off, hi, c, off', off + TX_VERSION_SIZE);
    AgreeByte(b, off, hi, c, off', off + TX_VERSION_SIZE + 1);
  }

  /** Parsing depends on the bytes of the transaction only, not on where they stand or what surrounds them. */
  lemma ParseTxLocal(b: seq<byte>, off: nat, c: seq<byte>, off': nat)
    requires ParseTx(b, off).Some?
    requires Agree(b, off, ParseTx(b, off).value.end, c, off')
    ensures var TxEnds(witnessAt, end) := ParseTx(b, off).value;
            && off <= witnessAt <= end
            && ParseTx(c, off') == Some(TxEnds(witnessAt - off + off', end - off + off'))
  {
    hide SkipInputsOutputs, SkipWitnesses, HasSegwitFlag;
    var TxEnds(witnessAt, end) := ParseTx(b, off).value;
    ParseTxAdvances(b, off);
    BodyOffsetLocal(b, off, end, c, off');
    SkipInputsOutputsLocal(b, off, end, c, off', BodyOffset(b, off));
    if HasSegwitFlag(b, off + TX_VERSION_SIZE) {
      SkipWitnessesLocal(b, off, end, c, off', SkipInputsOutputs(b, BodyOffset(b, off)).value.value, witnessAt);
    }
  }

  // ---------------------------------------------------------------- serialization

  /** An input, an output or a witness item: fixed bytes, a counted script, fixed bytes. */
  datatype Field = Field(lead: seq<byte>, script: seq<byte>, trail: seq<byte>) {
    predicate Shape(l: nat, t: nat) {
      |lead| == l && |trail| == t && |script| < 0x1_0000_0000_0000_0000
    }
  }

  predicate AllShape(fs: seq<Field>, l: nat, t: nat) {
    forall i | 0 <= i < |fs| :: fs[i].Shape(l, t)
  }

  /** The witness stack of one input. */
  predicate ValidStack(w: seq<Field>) {
    |w| < 0x1_0000_0000_0000_0000 && AllShape(w, 0, 0)
  }

  datatype Tx = Tx(
    version: seq<byte>, segwit: bool, ins: seq<Field>, outs: seq<Field>,
    witnesses: seq<seq<Field>>, lockTime: seq<byte>)
  {
    predicate Valid() {
      && |version| == TX_VERSION_SIZE && |lockTime| == TX_LOCK_TIME_SIZE
      && |ins| < 0x1_0000_0000_0000_0000 && |outs| < 0x1_0000_0000_0000_0000
      && AllShape(ins, TX_PREV_OUTPUT_SIZE, TXIN_SEQUENCE_SIZE)
      && AllShape(outs, TXOUT_VALUE_SIZE, 0)
      && (segwit ==> |witnesses| == |ins|)
      && (forall i | 0 <= i < |witnesses| :: ValidStack(witnesses[i]))
    }

    /** The one shape whose legacy bytes begin like a segwit marker: no inputs and a single output. */
    predicate LooksSegwit() {
      !segwit && |ins| == 0 && |outs| == 1
    }
  }

  function EncodeField(f: Field): seq<byte> {
    f.lead + SetVarint(|f.script|) + f.script + f.trail
  }

  function EncodeFields(fs: seq<Field>): seq<byte> {
    if fs == [] then [] else EncodeField(fs[0]) + EncodeFields(fs[1..])
  }

  function EncodeWitnesses(ws: seq<seq<Field>>): seq<byte> {
    if ws == [] then [] else SetVarint(|ws[0]|) + EncodeFields(ws[0]) + EncodeWitnesses(ws[1..])
  }

  function EncodeInputsOutputs(tx: Tx): seq<byte> {
    SetVarint(|tx.ins|) + EncodeFields(tx.ins) + SetVarint(|tx.outs|) + EncodeFields(tx.outs)
  }

  /** The serialization without witness data, from which the transaction id is computed. */
  function EncodeStripped(tx: Tx): seq<byte> {
    tx.version + EncodeInputsOutputs(tx) + tx.lockTime
  }

  /** The serialization in a block: with marker, flag and witness data for a segwit transaction. */
  function EncodeTx(tx: Tx): seq<byte> {
    if tx.segwit then
      tx.version + [0, 1] + EncodeInputsOutputs(tx) + EncodeWitnesses(tx.witnesses) + tx.lockTime
    else
      EncodeStripped(tx)
  }

  lemma {:induction false} FieldsParse(b: seq<byte>, fs: seq<Field>, lead: nat, trail: nat, off: nat)
    requires AllShape(fs, lead, trail)
    requires At(b, off, EncodeFields(fs))
    ensures SkipFields(b, |fs|, lead, trail, off) == Some(off + |EncodeFields(fs)|)
  {
    hide GetVarint, SetVarint, At;
    if fs != [] {
      var f := fs[0];
      var n := SetVarint(|f.script|);
      AtSplit(b, off, EncodeField(f), EncodeFields(fs[1..]));
      AtSplit(b, off, f.lead + n + f.script, f.trail);
      AtSplit(b, off, f.lead + n, f.script);
      AtSplit(b, off, f.lead, n);
      VarintRoundTrip(b, off + lead, |f.script|);
      FieldsParse(b, fs[1..], lead, trail, off + |EncodeField(f)|);
    }
  }

  lemma {:induction false} WitnessesParse(b: seq<byte>, ws: seq<seq<Field>>, off: nat)
    requires forall i | 0 <= i < |ws| :: ValidStack(ws[i])
    requires At(b, off, EncodeWitnesses(ws))
    ensures SkipWitnesses(b, |ws|, off) == Some(off + |EncodeWitnesses(ws)|)
  {
    hide GetVarint, SetVarint, At, SkipFields, EncodeFields;
    if ws != [] {
      var n := SetVarint(|ws[0]|);
      AtSplit(b, off, n + EncodeFields(ws[0]), EncodeWitnesses(ws[1..]));
      AtSplit(b, off, n, EncodeFields(ws[0]));
      VarintRoundTrip(b, off, |ws[0]|);
      FieldsParse(b, ws[0], 0, 0, off + |n|);
      WitnessesParse(b, ws[1..], off + |n + EncodeFields(ws[0])|);
    }
  }

  lemma InputsOutputsParse(b: seq<byte>, tx: Tx, off: nat)
    requires tx.Valid() && At(b, off, EncodeInputsOutputs(tx))
    ensures SkipInputsOutputs(b, off) == Some(Read(|tx.ins|, off + |EncodeInputsOutputs(tx)|))
  {
    hide GetVarint, SetVarint, At, SkipFields, EncodeFields;
    var ni, no := SetVarint(|tx.ins|), SetVarint(|tx.outs|);
    var ins, outs := EncodeFields(tx.ins), EncodeFields(tx.outs);
    AtSplit(b, off, ni + ins + no, outs);
    AtSplit(b, off, ni + ins, no);
    AtSplit(b, off, ni, ins);
    VarintRoundTrip(b, off, |tx.ins|);
    FieldsParse(b, tx.ins, TX_PREV_OUTPUT_SIZE, TXIN_SEQUENCE_SIZE, off + |ni|);
    VarintRoundTrip(b, off + |ni + ins|, |tx.outs|);
    FieldsParse(b, tx.outs, TXOUT_VALUE_SIZE, 0, off + |ni + ins + no|);
  }

  lemma SegwitFlagOfSegwit(b: seq<byte>, tx: Tx, off: nat)
    requires tx.Valid() && tx.segwit && At(b, off, EncodeTx(tx))
    ensures off + TX_VERSION_SIZE + 2 <= |b|
    ensures HasSegwitFlag(b, off + TX_VERSION_SIZE)
  {
    hide EncodeInputsOutputs, EncodeWitnesses, HasSegwitFlag, At;
    var rest := EncodeInputsOutputs(tx) + EncodeWitnesses(tx.witnesses) + tx.lockTime;
    assert EncodeTx(tx) == tx.version + ([0, 1] + rest);
    AtSplit(b, off, tx.version, [0, 1] + rest);
    AtSplit(b, off + TX_VERSION_SIZE, [0, 1], rest);
    AtBytes(b, off + TX_VERSION_SIZE, [0, 1]);
    SegwitFlagBytes(b, off + TX_VERSION_SIZE);
    assert b[off + 4] == b[off + 4..off + 6][0] && b[off + 5] == b[off + 4..off + 6][1];
  }

  lemma SegwitFlagOfLegacy(b: seq<byte>, tx: Tx, off: nat)
    requires tx.Valid() && !tx.segwit && At(b, off, EncodeStripped(tx))
    ensures off + TX_VERSION_SIZE + 2 <= |b|
    ensures HasSegwitFlag(b, off + TX_VERSION_SIZE) <==> tx.LooksSegwit()
  {
    hide HasSegwitFlag, EncodeFields, SetVarint, At;
    var ni, no := SetVarint(|tx.ins|), SetVarint(|tx.outs|);
    var tail := EncodeFields(tx.outs) + tx.lockTime;
    var rest := EncodeFields(tx.ins) + (no + tail);
    assert EncodeStripped(tx) == tx.version + (ni + rest);
    AtSplit(b, off, tx.version, ni + rest);
    AtFirst(b, off + TX_VERSION_SIZE, ni + rest);
    AtBytes(b, off, EncodeStripped(tx));
    SegwitFlagBytes(b, off + TX_VERSION_SIZE);
    VarintFirstByte(|tx.ins|);
    VarintFirstByte(|tx.outs|);
    if |tx.ins| == 0 {
      NoFields(tx.ins);
      assert rest == no + tail;
      AtSplit(b, off + TX_VERSION_SIZE, ni, rest);
      AtFirst(b, off + TX_VERSION_SIZE + 1, rest);
    }
  }

  lemma NoFields(fs: seq<Field>)
    requires |fs| == 0
    ensures EncodeFields(fs) == []
  {
  }

  lemma VarintFirstByte(value: nat)
    ensures SetVarint(value)[0] == value || (value >= VARINT_BYTE_MAX_SIZE && SetVarint(value)[0] > 1)
    ensures value == 0 ==> |SetVarint(value)| == 1
  {
  }

  /** A legacy transaction is mistaken for a segwit one exactly when it has no inputs and one output. */
  lemma SegwitFlagExact(b: seq<byte>, tx: Tx, off: nat)
    requires tx.Valid() && At(b, off, EncodeTx(tx))
    ensures off + TX_VERSION_SIZE + 2 <= |b|
    ensures HasSegwitFlag(b, off + TX_VERSION_SIZE) <==> tx.segwit || tx.LooksSegwit()
  {
    hide HasSegwitFlag;
    if tx.segwit {
      SegwitFlagOfSegwit(b, tx, off);
    } else {
      SegwitFlagOfLegacy(b, tx, off);
    }
  }

  /**
   The parser is correct on every transaction, at any position in any surrounding bytes,
   except a legacy one that looks like segwit.
   */
  lemma ParseTxCorrect(b: seq<byte>, tx: Tx, off: nat)
    requires tx.Valid() && !tx.LooksSegwit()
    requires At(b, off, EncodeTx(tx))
    ensures ParseTx(b, off).Some?
    ensures ParseTx(b, off).value.end == off + |EncodeTx(tx)|
    ensures ParseTx(b, off).value.witnessAt == BodyOffset(b, off) + |EncodeInputsOutputs(tx)|
    ensures At(b, BodyOffset(b, off), EncodeInputsOutputs(tx))
  {
    hide SkipInputsOutputs, SkipWitnesses, HasSegwitFlag, EncodeInputsOutputs, EncodeWitnesses, At;
    SegwitFlagExact(b, tx, off);
    var io := EncodeInputsOutputs(tx);
    if tx.segwit {
      var ws := EncodeWitnesses(tx.witnesses);
      AtSplit(b, off, tx.version + [0, 1] + io + ws, tx.lockTime);
      AtSplit(b, off, tx.version + [0, 1] + io, ws);
      AtSplit(b, off, tx.version + [0, 1], io);
      InputsOutputsParse(b, tx, off + 6);
      WitnessesParse(b, tx.witnesses, off + 6 + |io|);
    } else {
      AtSplit(b, off, tx.version + io, tx.lockTime);
      AtSplit(b, off, tx.version, io);
      InputsOutputsParse(b, tx, off + 4);
    }
  }

  /** The excluded shape does go wrong: this transaction of one empty output is read as segwit, beyond its end. */
  lemma LooksSegwitMisparsed()
    ensures var tx := Tx([1, 0, 0, 0], false, [], [Field([0, 0, 0, 0, 0, 0, 0, 0], [], [])], [], [9, 0, 0, 0]);
            tx.Valid() && tx.LooksSegwit() && |EncodeTx(tx)| == 19
            && ParseTx(EncodeTx(tx), 0) == Some(TxEnds(8, 12))
  {
    var tx := Tx([1, 0, 0, 0], false, [], [Field([0, 0, 0, 0, 0, 0, 0, 0], [], [])], [], [9, 0, 0, 0]);
    var b := EncodeTx(tx);
    assert EncodeFields(tx.outs) == EncodeField(tx.outs[0]) + EncodeFields(tx.outs[1..]);
    assert b == [1, 0, 0, 0, 0, 1, 0, 0, 0, 0, 0, 0, 0, 0, 0, 9, 0, 0, 0];
    SegwitFlagBytes(b, 4);
    assert BodyOffset(b, 0) == 6;
    assert GetVarint(b, 6) == Some(Read(0, 7)) && GetVarint(b, 7) == Some(Read(0, 8));
    assert SkipInputsOutputs(b, 6) == Some(Read(0, 8));
  }

  // ---------------------------------------------------------------- transaction id

  /** The bytes fed to the hash, in three updates, to compute a transaction id. */
  function TxIdPreimage(b: seq<byte>, off: nat, witnessAt: nat, end: nat): seq<byte>
    requires off + TX_VERSION_SIZE + 2 <= |b|
    requires BodyOffset(b, off) <= witnessAt && witnessAt + TX_LOCK_TIME_SIZE <= end <= |b|
  {
    b[off..off + TX_VERSION_SIZE] + b[BodyOffset(b, off)..witnessAt] + b[end - TX_LOCK_TIME_SIZE..end]
  }

  /** For every correctly parsed transaction these are its witness-free serialization. */
  lemma TxIdPreimageIsStripped(b: seq<byte>, tx: Tx, off: nat)
    requires tx.Valid() && !tx.LooksSegwit()
    requires At(b, off, EncodeTx(tx))
    ensures ParseTx(b, off).Some?
    ensures var TxEnds(witnessAt, end) := ParseTx(b, off).value;
            && BodyOffset(b, off) <= witnessAt && witnessAt + TX_LOCK_TIME_SIZE <= end <= |b|
            && TxIdPreimage(b, off, witnessAt, end) == EncodeStripped(tx)
  {
    hide EncodeInputsOutputs, EncodeWitnesses, ParseTx, HasSegwitFlag, At;
    var io := EncodeInputsOutputs(tx);
    ParseTxCorrect(b, tx, off);
    ParseTxAdvances(b, off);
    var middle := (if tx.segwit then [0, 1] else []) + io + if tx.segwit then EncodeWitnesses(tx.witnesses) else [];
    var front := tx.version + middle;
    assert EncodeTx(tx) == tx.version + (middle + tx.lockTime) == front + tx.lockTime;
    AtSplit(b, off, tx.version, middle + tx.lockTime);
    AtSplit(b, off, front, tx.lockTime);
    AtBytes(b, off + |front|, tx.lockTime);
    AtBytes(b, off, tx.version);
    AtBytes(b, BodyOffset(b, off), io);
  }

  /** The parser finds the ends of a transaction, and with them the bytes its id is computed from. */
  predicate ReadRight(b: seq<byte>, tx: Tx, off: nat) {
    && ParseTx(b, off).Some?
    && var TxEnds(witnessAt, end) := ParseTx(b, off).value;
       && end == off + |EncodeTx(tx)|
       && off + TX_VERSION_SIZE + 2 <= |b| && BodyOffset(b, off) <= witnessAt && witnessAt + TX_LOCK_TIME_SIZE <= end <= |b|
       && TxIdPreimage(b, off, witnessAt, end) == EncodeStripped(tx)
  }

  /**
   A transaction that looks like segwit may be walked to its right end by chance, but then
   its id is not computed from the right bytes.
   */
  lemma ReadRightExact(b: seq<byte>, tx: Tx, off: nat)
    requires tx.Valid() && At(b, off, EncodeTx(tx))
    ensures ReadRight(b, tx, off) <==> !tx.LooksSegwit()
  {
    hide EncodeInputsOutputs, EncodeWitnesses, ParseTx, HasSegwitFlag, At;
    if tx.LooksSegwit() {
      SegwitFlagExact(b, tx, off);
    } else {
      ParseTxCorrect(b, tx, off);
      TxIdPreimageIsStripped(b, tx, off);
    }
  }

  /** The preimage depends on the transaction's bytes only. */
  lemma TxIdPreimageLocal(b: seq<byte>, off: nat, c: seq<byte>, off': nat)
    requires ParseTx(b, off).Some?
    requires Agree(b, off, ParseTx(b, off).value.end, c, off')
    ensures ParseTx(c, off').Some?
    ensures var TxEnds(w, e) := ParseTx(b, off).value;
            var TxEnds(w', e') := ParseTx(c, off').value;
            && BodyOffset(b, off) <= w && w + TX_LOCK_TIME_SIZE <= e <= |b|
            && BodyOffset(c, off') <= w' && w' + TX_LOCK_TIME_SIZE <= e' <= |c|
            && TxIdPreimage(b, off, w, e) == TxIdPreimage(c, off', w', e')
  {
    hide ParseTx, HasSegwitFlag;
    var TxEnds(w, e) := ParseTx(b, off).value;
    assert off <= e <= |b| && off' + (e - off) <= |c|;
    hide Agree;
    ParseTxAdvances(b, off);
    ParseTxLocal(b, off, c, off');
    ParseTxAdvances(c, off');
    BodyOffsetLocal(b, off, e, c, off');
    AgreeSlice(b, off, e, c, off', off, off + TX_VERSION_SIZE);
    AgreeSlice(b, off, e, c, off', BodyOffset(b, off), w);
    AgreeSlice(b, off, e, c, off', e - TX_LOCK_TIME_SIZE, e);
  }

  // ---------------------------------------------------------------- the loops

  /** Walks over `n` fields, as each of the three loops over scripts does. */
  method SkipFieldsLoop(b: seq<byte>, n: nat, lead: nat, trail: nat, start: nat) returns (r: Option<nat>)
    ensures r == SkipFields(b, n, lead, trail, start)
  {
    var offset: nat := start;
    for idx := 0 to n
      invariant SkipFields(b, n - idx, lead, trail, offset) == SkipFields(b, n, lead, trail, start)
    {
      offset := offset + lead;
      var v := GetVarint(b, offset);
      if v.None? {
        return None;
      }
      offset := v.value.next + trail;
      offset := offset + v.value.value;
    }
    return Some(offset);
  }

  /** Walks over the inputs, the outputs and, for a segwit transaction, the witness stacks. */
  method GetTxIoCountAndOffset(b: seq<byte>, segwit: bool, start: nat) returns (r: Option<TxEnds>)
    ensures match SkipInputsOutputs(b, start)
            case None => r == None
            case Some(Read(ins, witnessAt)) =>
              if !segwit then r == Some(TxEnds(witnessAt, witnessAt))
              else match SkipWitnesses(b, ins, witnessAt)
                case None => r == None
                case Some(end) => r == Some(TxEnds(witnessAt, end))
  {
    hide GetVarint, SkipFields;
    var txInCount := GetVarint(b, start);
    if txInCount.None? {
      return None;
    }
    var o := SkipFieldsLoop(b, txInCount.value.value, TX_PREV_OUTPUT_SIZE, TXIN_SEQUENCE_SIZE, txInCount.value.next);
    if o.None? {
      return None;
    }
    var txOutCount := GetVarint(b, o.value);
    if txOutCount.None? {
      return None;
    }
    o := SkipFieldsLoop(b, txOutCount.value.value, TXOUT_VALUE_SIZE, 0, txOutCount.value.next);
    if o.None? {
      return None;
    }
    var witnessOffset := o.value;
    var offset := witnessOffset;
    if segwit {
      var n := txInCount.value.value;
      for idx := 0 to n
        invariant SkipWitnesses(b, n - idx, offset) == SkipWitnesses(b, n, witnessOffset)
      {
        var count := GetVarint(b, offset);
        if count.None? {
          return None;
        }
        o := SkipFieldsLoop(b, count.value.value, 0, 0, count.value.next);
        if o.None? {
          return None;
        }
        offset := o.value;
      }
    }
    return Some(TxEnds(witnessOffset, offset));
  }

  method GetNextTxOffset(b: seq<byte>, start: nat) returns (r: Option<TxEnds>)
    ensures r == ParseTx(b, start)
  {
    hide SkipInputsOutputs, SkipWitnesses, HasSegwitFlag;
    var offset := start + TX_VERSION_SIZE;
    if offset + 2 > |b| {
      return None;
    }
    var segwit := HasSegwitFlag(b, offset);
    if segwit {
      offset := offset + 2;
    }
    r := GetTxIoCountAndOffset(b, segwit, offset);
    if r.Some? {
      r := Some(r.value.(end := r.value.end + TX_LOCK_TIME_SIZE));
    }
  }
}
