/**
 The growable output buffer.

 A `Buffer` is the state of one: a backing store, of which the first `length` bytes
 are the contents, and the capacity the store was last grown to. Shrinking the length
 keeps the bytes behind it, so the store may hold stale data, and a later, longer
 length uncovers it again. `ByteArray` is the object; each of its methods is proved
 against the function of the same name on its state.
 */
module Buffers {
  import opened Bytes
  import opened Wrappers

  function Zeros(n: nat): (s: seq<byte>)
    ensures |s| == n && forall i :: 0 <= i < n ==> s[i] == 0
  {
    seq(n, _ => 0)
  }

  /** `s` with `data` written over it at `off`. */
  function Splice(s: seq<byte>, off: nat, data: seq<byte>): (r: seq<byte>)
    requires off + |data| <= |s|
    ensures |r| == |s|
    ensures r[..off] == s[..off]
    ensures r[off..off + |data|] == data
    ensures r[off + |data|..] == s[off + |data|..]
  {
    s[..off] + data + s[off + |data|..]
  }

  /** A window that a write does not touch reads as before. */
  lemma SpliceElsewhere(s: seq<byte>, off: nat, data: seq<byte>, lo: nat, hi: nat)
    requires off + |data| <= |s| && lo <= hi <= |s|
    requires hi <= off || off + |data| <= lo
    ensures Splice(s, off, data)[lo..hi] == s[lo..hi]
  {
  }

  datatype Buffer = Buffer(store: seq<byte>, length: nat, capacity: nat) {

    predicate Valid() {
      length <= capacity && (|store| == capacity + 1 || (store == [] && capacity == 0))
    }

    function Contents(): seq<byte>
      requires Valid()
    {
      store[..length]
    }

    /** Room for `n` bytes. Never shrinks; new room is zeroed. */
    function Reserve(n: nat): (r: Buffer)
      requires Valid()
      ensures r.Valid() && r.capacity == Max(capacity, n) && r.length == length
      ensures store <= r.store
      ensures forall i :: |store| <= i < |r.store| ==> r.store[i] == 0
      ensures n <= capacity ==> r == this
    {
      if capacity < n then Buffer(store + Zeros(n + 1 - |store|), length, n) else this
    }

    /** Sets the length, growing the store if it has to; bytes are never erased. */
    function Resize(n: nat): (r: Buffer)
      requires Valid()
      ensures r.Valid() && r.length == n && r.capacity == Max(capacity, n)
      ensures store <= r.store
      ensures forall i :: |store| <= i < |r.store| ==> r.store[i] == 0
    {
      Reserve(n).(length := n)
    }

    /** Overwrites bytes that the store already has room for. */
    function Write(off: nat, data: seq<byte>): (r: Buffer)
      requires Valid() && off + |data| <= length
      ensures r.Valid() && r.length == length && r.capacity == capacity
      ensures At(r.store, off, data)
    {
      this.(store := Splice(store, off, data))
    }

    /** Copies from a vector. The length afterwards is the end of the copy, even if it was longer. */
    function CopyFromArray(src: seq<byte>, off: nat, from: nat, len: nat): (r: Buffer)
      requires Valid() && from + len <= |src|
      ensures r.Valid() && r.length == off + len && r.capacity == Max(capacity, off + len)
      ensures At(r.store, off, src[from..from + len])
    {
      Resize(off + len).Write(off, src[from..from + len])
    }

    /** What `CopyFromBuffer` needs in order not to raise an index error. */
    predicate CanCopy(src: seq<byte>, off: nat, from: nat, len: nat) {
      from < |src| && Max(length, off + len) > 0
    }

    /** Copies from a view. The length grows if the copy ends behind it, and is kept otherwise. */
    function CopyFromBuffer(src: seq<byte>, off: nat, from: nat, len: nat): (r: Buffer)
      requires Valid() && from + len <= |src|
      ensures r.Valid() && r.length == Max(length, off + len) && r.capacity == Max(capacity, off + len)
      ensures At(r.store, off, src[from..from + len])
    {
      Resize(Max(length, off + len)).Write(off, src[from..from + len])
    }

    /** Stores the bytes of a fixed-width integer, growing the length if needed. */
    function Put(data: seq<byte>, off: nat): (r: Buffer)
      requires Valid()
      ensures r.Valid() && r.length == Max(length, off + |data|) && r.capacity == Max(capacity, off + |data|)
      ensures At(r.store, off, data)
    {
      Resize(Max(length, off + |data|)).Write(off, data)
    }
  }

  /** Growing a buffer keeps what a window of its store reads. */
  lemma ResizeKeeps(b: Buffer, n: nat, lo: nat, hi: nat)
    requires b.Valid() && lo <= hi <= |b.store|
    ensures b.Resize(n).store[lo..hi] == b.store[lo..hi]
  {
    assert b.Resize(n).store[..|b.store|] == b.store;
  }

  /** A copy leaves every window of the old store that lies outside its target alone. */
  lemma CopyElsewhere(b: Buffer, src: seq<byte>, off: nat, from: nat, len: nat, lo: nat, hi: nat)
    requires b.Valid() && from + len <= |src| && lo <= hi <= |b.store|
    requires hi <= off || off + len <= lo
    ensures b.CopyFromBuffer(src, off, from, len).store[lo..hi] == b.store[lo..hi]
    ensures b.CopyFromArray(src, off, from, len).store[lo..hi] == b.store[lo..hi]
  {
    var d := src[from..from + len];
    SpliceElsewhere(b.Resize(Max(b.length, off + len)).store, off, d, lo, hi);
    SpliceElsewhere(b.Resize(off + len).store, off, d, lo, hi);
    ResizeKeeps(b, Max(b.length, off + len), lo, hi);
    ResizeKeeps(b, off + len, lo, hi);
  }

  /** The same for a fixed-width store. */
  lemma PutElsewhere(b: Buffer, data: seq<byte>, off: nat, lo: nat, hi: nat)
    requires b.Valid() && lo <= hi <= |b.store|
    requires hi <= off || off + |data| <= lo
    ensures b.Put(data, off).store[lo..hi] == b.store[lo..hi]
  {
    SpliceElsewhere(b.Resize(Max(b.length, off + |data|)).store, off, data, lo, hi);
    ResizeKeeps(b, Max(b.length, off + |data|), lo, hi);
  }

  lemma AppendPut(b: Buffer, data: seq<byte>)
    requires b.Valid()
    ensures b.Put(data, b.length).Contents() == b.Contents() + data
  {
    var r := b.Put(data, b.length);
    PutElsewhere(b, data, b.length, 0, b.length);
    assert r.Contents() == r.store[..b.length] + r.store[b.length..b.length + |data|];
  }

  lemma AppendCopy(b: Buffer, src: seq<byte>, from: nat, len: nat)
    requires b.Valid() && from + len <= |src|
    ensures b.CopyFromBuffer(src, b.length, from, len).Contents() == b.Contents() + src[from..from + len]
  {
    var r := b.CopyFromBuffer(src, b.length, from, len);
    CopyElsewhere(b, src, b.length, from, len, 0, b.length);
    assert r.Contents() == r.store[..b.length] + r.store[b.length..b.length + len];
  }

  /** Putting bytes over the beginning replaces just these. */
  lemma PutFront(b: Buffer, data: seq<byte>)
    requires b.Valid() && |data| <= b.length
    ensures b.Put(data, 0).Contents() == data + b.Contents()[|data|..]
  {
    var r := b.Put(data, 0);
    PutElsewhere(b, data, 0, |data|, b.length);
    assert r.Contents() == r.store[0..|data|] + r.store[|data|..b.length];
    assert b.Contents()[|data|..] == b.store[|data|..b.length];
  }

  /** Copying into an empty buffer behind a gap: the gap keeps stale bytes, the rest is the copy. */
  lemma CopyBehindGap(b: Buffer, src: seq<byte>, gap: nat, len: nat)
    requires b.Valid() && b.length == 0 && len <= |src|
    ensures b.CopyFromBuffer(src, gap, 0, len).Contents()[gap..] == src[..len]
  {
    var r := b.CopyFromBuffer(src, gap, 0, len);
    assert r.Contents()[gap..] == r.store[gap..gap + len];
  }

  /** A buffer that is exactly two pieces. */
  lemma ContentsOf(b: Buffer, x: seq<byte>, y: seq<byte>)
    requires b.Valid() && b.length == |x| + |y|
    requires At(b.store, 0, x) && At(b.store, |x|, y)
    ensures b.Contents() == x + y
  {
    assert b.store[..b.length] == b.store[0..|x|] + b.store[|x|..|x| + |y|];
  }

  /** What stands outside the target of an operation still stands there afterwards. */
  lemma ResizeKeepsAt(b: Buffer, n: nat, off: nat, x: seq<byte>)
    requires b.Valid() && At(b.store, off, x)
    ensures At(b.Resize(n).store, off, x)
  {
    ResizeKeeps(b, n, off, off + |x|);
  }

  lemma CopyKeepsAt(b: Buffer, src: seq<byte>, at: nat, len: nat, off: nat, x: seq<byte>)
    requires b.Valid() && len <= |src| && At(b.store, off, x)
    requires off + |x| <= at || at + len <= off
    ensures At(b.CopyFromBuffer(src, at, 0, len).store, off, x)
    ensures At(b.CopyFromArray(src, at, 0, len).store, off, x)
  {
    CopyElsewhere(b, src, at, 0, len, off, off + |x|);
  }

  lemma PutKeepsAt(b: Buffer, data: seq<byte>, at: nat, off: nat, x: seq<byte>)
    requires b.Valid() && At(b.store, off, x)
    requires off + |x| <= at || at + |data| <= off
    ensures At(b.Put(data, at).store, off, x)
  {
    PutElsewhere(b, data, at, off, off + |x|);
  }

  /** `x` stands at `off`; nothing is asked of a store too short to reach `off` if there is no `x` yet. */
  predicate Placed(store: seq<byte>, off: nat, x: seq<byte>) {
    x != [] ==> At(store, off, x)
  }

  lemma PlacedJoin(store: seq<byte>, off: nat, x: seq<byte>, y: seq<byte>)
    requires Placed(store, off, x) && At(store, off + |x|, y)
    ensures At(store, off, x + y)
  {
    if x == [] {
      assert x + y == y;
    } else {
      AtJoin(store, off, x, y);
    }
  }

  lemma CopyKeepsPlaced(b: Buffer, src: seq<byte>, at: nat, len: nat, off: nat, x: seq<byte>)
    requires b.Valid() && len <= |src| && Placed(b.store, off, x)
    requires off + |x| <= at || at + len <= off
    ensures Placed(b.CopyFromArray(src, at, 0, len).store, off, x)
  {
    if x != [] {
      CopyKeepsAt(b, src, at, len, off, x);
    }
  }

  lemma PutKeepsPlaced(b: Buffer, data: seq<byte>, at: nat, off: nat, x: seq<byte>)
    requires b.Valid() && Placed(b.store, off, x)
    requires off + |x| <= at || at + |data| <= off
    ensures Placed(b.Put(data, at).store, off, x)
  {
    if x != [] {
      PutKeepsAt(b, data, at, off, x);
    }
  }

  class ByteArray {
    var store: seq<byte>
    var length: nat
    var capacity: nat

    function State(): Buffer
      reads this
    {
      Buffer(store, length, capacity)
    }

    predicate Valid()
      reads this
    {
      State().Valid()
    }

    function Contents(): seq<byte>
      requires Valid()
      reads this
    {
      store[..length]
    }

    /** An empty buffer with room for `n` zeroed bytes (and one spare). */
    constructor (n: nat)
      ensures Valid() && State() == Buffer(Zeros(n + 1), 0, n)
    {
      store, length, capacity := Zeros(n + 1), 0, n;
    }

    method Reserve(n: nat)
      requires Valid()
      modifies this
      ensures Valid() && State() == old(State()).Reserve(n)
    {
      if capacity < n {
        store := store + Zeros(n + 1 - |store|);
        capacity := n;
      }
    }

    method Resize(n: nat)
      requires Valid()
      modifies this
      ensures Valid() && State() == old(State()).Resize(n)
    {
      Reserve(n);
      length := n;
    }

    /** Zeroes the contents and the byte behind them; does nothing when there are none. */
    method Clear()
      requires Valid()
      modifies this`store
      ensures Valid()
      ensures length == 0 ==> store == old(store)
      ensures length > 0 ==> store == Zeros(length + 1) + old(store)[length + 1..]
    {
      if length > 0 {
        store := Zeros(length + 1) + store[length + 1..];
      }
    }

    /** Drops the contents. The clearing runs at length zero, so the store keeps its bytes. */
    method Reset()
      requires Valid()
      modifies this
      ensures Valid() && State() == old(State()).(length := 0)
    {
      Resize(0);
      Clear();
    }

    method CopyFromArray(src: seq<byte>, off: nat, from: nat, len: nat) returns (end: nat)
      requires Valid() && from + len <= |src|
      modifies this
      ensures Valid() && end == off + len
      ensures State() == old(State()).CopyFromArray(src, off, from, len)
    {
      end := off + len;
      Resize(end);
      store := Splice(store, off, src[from..from + len]);
    }

    /** Fails, as an index error, when the source position is outside the view or the buffer stays empty. */
    method CopyFromBuffer(src: seq<byte>, off: nat, from: nat, len: nat) returns (ok: bool, end: nat)
      requires Valid() && from + len <= |src|
      modifies this
      ensures Valid() && end == off + len
      ensures ok == old(State()).CanCopy(src, off, from, len)
      ensures ok ==> State() == old(State()).CopyFromBuffer(src, off, from, len)
      ensures !ok ==> State() == old(State()).Resize(Max(old(length), end))
    {
      end := off + len;
      if end > length {
        Resize(end);
      }
      ok := length > 0 && from < |src|;
      if ok {
        store := Splice(store, off, src[from..from + len]);
      }
    }

    /** Appends a view. Fails, as an index error, on an empty one. */
    method AppendView(src: seq<byte>) returns (ok: bool)
      requires Valid()
      modifies this
      ensures Valid() && ok == (src != [])
      ensures ok ==> State() == old(State()).CopyFromBuffer(src, old(length), 0, |src|)
      ensures !ok ==> State() == old(State())
    {
      var origin := length;
      Resize(origin + |src|);
      ok := src != [];
      if ok {
        store := Splice(store, origin, src);
      }
    }

    /** Makes room behind the contents and copies into it, if there is anything to copy. */
    method Extend(data: seq<byte>)
      requires Valid()
      modifies this
      ensures Valid() && State() == old(State()).Put(data, old(length))
    {
      var origin := length;
      Resize(origin + |data|);
      if |data| > 0 {
        Overwrite(origin, data);
      } else {
        assert Splice(store, origin, data) == store;
      }
    }

    /** Appends the contents of another buffer. */
    method Append(src: ByteArray)
      requires Valid() && src.Valid() && src != this
      modifies this
      ensures Valid() && Contents() == old(Contents()) + src.Contents()
    {
      var origin := length;
      var _ := CopyFromArray(src.store, length, 0, src.length);
      assert old(Contents()) == store[..origin] by {
        CopyElsewhere(old(State()), src.store, origin, 0, src.length, 0, origin);
      }
      assert store[..length] == store[..origin] + store[origin..length];
    }

    /** Overwrites a part of the contents. */
    method Overwrite(off: nat, data: seq<byte>)
      requires Valid() && off + |data| <= length
      modifies this
      ensures Valid() && State() == old(State()).Write(off, data)
    {
      store := Splice(store, off, data);
    }

    method Put(data: seq<byte>, off: nat) returns (end: nat)
      requires Valid()
      modifies this
      ensures Valid() && end == off + |data|
      ensures State() == old(State()).Put(data, off)
    {
      end := off + |data|;
      if length < end {
        Resize(end);
      }
      store := Splice(store, off, data);
    }
  }

  /** Puts a piece behind what has been written. */
  method PutNext(out: ByteArray, piece: seq<byte>, pos: nat, ghost x: seq<byte>) returns (end: nat)
    requires out.Valid() && At(out.store, 0, x) && pos == |x|
    modifies out
    ensures out.Valid() && end == |x + piece| && At(out.store, 0, x + piece)
    ensures out.length == Max(old(out.length), end) && out.capacity == Max(old(out.capacity), end)
  {
    hide At;
    PutKeepsAt(out.State(), piece, pos, 0, x);
    end := out.Put(piece, pos);
    AtJoin(out.store, 0, x, piece);
  }
}
