/**
 The perf ring: a byte ring shared with the kernel. The kernel appends records to free
 space and moves the head; the profiler copies records out and publishes the tail. The
 class drains in one go; `RingMachine` lets the kernel write between any two copies.
 */
module PerfRing {
  import opened PerfRecords

  /** The place in a ring of the given size where a running position lies. */
  function Place(pos: nat, size: nat): (off: nat)
    requires size > 0
    ensures off < size
  {
    pos % size
  }

  /** The `n` bytes from position `from` on, wrapping at the ring's end. */
  function Window(data: seq<Byte>, from: nat, n: nat): (w: seq<Byte>)
    requires |data| > 0
    ensures |w| == n && forall i :: 0 <= i < n ==> w[i] == data[Place(from + i, |data|)]
  {
    seq(n, i requires 0 <= i < n => data[Place(from + i, |data|)])
  }

  lemma WindowSplit(data: seq<Byte>, from: nat, m: nat, n: nat)
    requires |data| > 0
    ensures Window(data, from, m + n) == Window(data, from, m) + Window(data, from + m, n)
  {
    hide Place;
    var w, v := Window(data, from, m + n), Window(data, from + m, n);
    forall i | m <= i < m + n ensures w[i] == v[i - m] {
      assert from + i == from + m + (i - m);
    }
  }

  lemma MultipleBound(k: int, size: int)
    requires size >= 0
    ensures k <= 0 ==> k * size <= 0
    ensures k >= 1 ==> k * size >= size
    ensures k <= -1 ==> k * size <= -size
  {
  }

  lemma PlaceUnique(a: nat, q: int, r: nat, size: nat)
    requires size > 0 && a == q * size + r && r < size
    ensures Place(a, size) == r
  {
    var k := q - a / size;
    assert k * size == a % size - r;
    MultipleBound(k, size);
  }

  /** Positions less than a ring length apart are different places. */
  lemma PlacesApart(a: nat, b: nat, size: nat)
    requires a < b < a + size
    ensures Place(a, size) != Place(b, size)
  {
    var k := b / size - a / size;
    assert k * size == (b - b % size) - (a - a % size);
    MultipleBound(k, size);
  }

  /** An aligned position of an aligned ring is followed by eight bytes before the end. */
  lemma AlignedPlace(pos: nat, size: nat)
    requires size > 0 && size % 8 == 0 && pos % 8 == 0
    ensures Place(pos, size) + 8 <= size
  {
    var turns := pos - Place(pos, size);
    assert turns == pos / size * size;
    AlignedMultiple(pos / size, size);
    AlignedBelow(pos, turns, size);
  }

  lemma AlignedMultiple(q: int, size: nat)
    requires size % 8 == 0
    ensures q * size % 8 == 0
  {
    var e := size / 8;
    Regroup(q, e);
    assert q * size == 8 * (q * e);
  }

  lemma Regroup(q: int, e: int)
    ensures q * (8 * e) == 8 * (q * e)
  {
  }

  lemma AlignedBelow(a: int, b: int, size: int)
    requires a % 8 == 0 && b % 8 == 0 && size % 8 == 0 && 0 <= a - b < size
    ensures a - b + 8 <= size
  {
  }

  lemma OffsetPlace(pos: nat, i: nat, size: nat)
    requires size > 0 && Place(pos, size) + i < 2 * size
    ensures Place(pos + i, size)
         == if Place(pos, size) + i < size then Place(pos, size) + i else Place(pos, size) + i - size
  {
    var q, off := pos / size, Place(pos, size);
    if off + i < size {
      PlaceUnique(pos + i, q, off + i, size);
    } else {
      assert (q + 1) * size == q * size + size;
      PlaceUnique(pos + i, q + 1, off + i - size, size);
    }
  }

  // ------------------------------------------------------------------------ the kernel side

  /** The ring's bytes after the kernel has stored `b` at position `head`. */
  function Stored(data: seq<Byte>, head: nat, b: seq<Byte>): (data': seq<Byte>)
    requires 0 < |data| && |b| <= |data|
    ensures |data'| == |data|
    decreases |b|
  {
    if b == [] then data
    else
      var data1 := Stored(data, head, b[..|b| - 1]);
      data1[Place(head + |b| - 1, |data|) := b[|b| - 1]]
  }

  lemma {:induction false} StoredBytes(data: seq<Byte>, head: nat, b: seq<Byte>, i: nat)
    requires 0 < |data| && |b| <= |data| && i < |b|
    ensures Stored(data, head, b)[Place(head + i, |data|)] == b[i]
    decreases |b|
  {
    if i < |b| - 1 {
      StoredBytes(data, head, b[..|b| - 1], i);
      PlacesApart(head + i, head + |b| - 1, |data|);
    }
  }

  lemma {:induction false} StoredElsewhere(data: seq<Byte>, head: nat, b: seq<Byte>, pos: nat)
    requires 0 < |data| && |b| <= |data| && pos < head && head + |b| <= pos + |data|
    ensures Stored(data, head, b)[Place(pos, |data|)] == data[Place(pos, |data|)]
    decreases |b|
  {
    if b != [] {
      StoredElsewhere(data, head, b[..|b| - 1], pos);
      PlacesApart(pos, head + |b| - 1, |data|);
    }
  }

  /** Storing into free space puts the bytes at the head and disturbs nothing before it. */
  lemma StoredWindow(data: seq<Byte>, from: nat, head: nat, b: seq<Byte>)
    requires |data| > 0 && from <= head && head + |b| - from <= |data|
    ensures Window(Stored(data, head, b), from, head - from) == Window(data, from, head - from)
    ensures Window(Stored(data, head, b), head, |b|) == b
    ensures Window(Stored(data, head, b), from, head + |b| - from) == Window(data, from, head - from) + b
  {
    hide Place, Stored;
    var data' := Stored(data, head, b);
    var w', w := Window(data', from, head - from), Window(data, from, head - from);
    forall i | 0 <= i < head - from ensures w'[i] == w[i] {
      StoredElsewhere(data, head, b, from + i);
    }
    forall i | 0 <= i < |b| ensures Window(data', head, |b|)[i] == b[i] {
      StoredBytes(data, head, b, i);
    }
    WindowSplit(data', from, head - from, |b|);
  }

  // -------------------------------------------------------------------------- the copy side

  /** The size field of the header at a position whose header does not wrap. */
  function SizeAt(data: seq<Byte>, pos: nat): U16
    requires |data| > 0 && Place(pos, |data|) + 8 <= |data|
  {
    var off := Place(pos, |data|);
    U32FromBytes(data[off + 4..off + 8]) / 0x10000
  }

  /** The bytes of one record, in two pieces when it crosses the ring's end. */
  function CopyAt(data: seq<Byte>, pos: nat, n: nat): seq<Byte>
    requires |data| > 0 && n <= |data|
  {
    var start := Place(pos, |data|);
    if start + n <= |data| then data[start..start + n]
    else data[start..] + data[..n - (|data| - start)]
  }

  lemma CopyIsWindow(data: seq<Byte>, pos: nat, n: nat)
    requires |data| > 0 && n <= |data|
    ensures CopyAt(data, pos, n) == Window(data, pos, n)
  {
    var start := Place(pos, |data|);
    forall i | 0 <= i < n ensures CopyAt(data, pos, n)[i] == data[Place(pos + i, |data|)] {
      OffsetPlace(pos, i, |data|);
    }
  }

  /** The header read at a record's position gives the record's size. */
  lemma SizeOfRecordAt(data: seq<Byte>, pos: nat, r: Record)
    requires |data| > 0 && |data| % 8 == 0 && pos % 8 == 0 && Kernel(r)
    requires Window(data, pos, SizeOf(r)) == Encode(r)
    ensures Place(pos, |data|) + 8 <= |data| && SizeAt(data, pos) == SizeOf(r)
  {
    hide Place, Encode;
    AlignedPlace(pos, |data|);
    var off, b := Place(pos, |data|), Encode(r);
    forall i | 0 <= i < 8 ensures data[off + i] == b[i] {
      OffsetPlace(pos, i, |data|);
      assert Window(data, pos, SizeOf(r))[i] == data[Place(pos + i, |data|)];
    }
    HeaderRoundTrip(r, []);
    assert b + [] == b;
    HeaderSlices(data, off, b);
  }

  lemma HeaderSlices(data: seq<Byte>, off: nat, b: seq<Byte>)
    requires off + 8 <= |data| && |b| >= 8 && forall i :: 0 <= i < 8 ==> data[off + i] == b[i]
    ensures data[off + 4..off + 8][..2] == b[4..6] && data[off + 4..off + 8][2..] == b[6..8]
  {
    assert data[off + 4] == b[4] && data[off + 5] == b[5] && data[off + 6] == b[6] && data[off + 7] == b[7];
  }

  /** `from` to `head` holds exactly the records of `q`, aligned. */
  ghost predicate Holds(data: seq<Byte>, from: nat, head: nat, q: seq<Record>) {
    && |data| > 0 && |data| % 8 == 0 && from % 8 == 0 && head % 8 == 0
    && from <= head <= from + |data|
    && AllKernel(q) && Window(data, from, head - from) == EncodeAll(q)
  }

  /** Copying the first record leaves the rest in place behind it. */
  lemma HoldsNext(data: seq<Byte>, from: nat, head: nat, q: seq<Record>)
    requires Holds(data, from, head, q) && from < head
    ensures q != [] && AllKernel(q) && SizeOf(q[0]) <= head - from <= |data|
    ensures Place(from, |data|) + 8 <= |data| && SizeAt(data, from) == SizeOf(q[0])
    ensures CopyAt(data, from, SizeOf(q[0])) == Encode(q[0])
    ensures Holds(data, from + SizeOf(q[0]), head, q[1..])
  {
    hide Place, CopyAt, SizeAt, Encode, EncodeAll, Window, Kernel, Holds, AllKernel, SizeOf;
    FirstRecord(data, from, head, q);
    FirstIsRead(data, from, head, q);
    RestHolds(data, from, head, q);
  }

  /** The header and the bytes read at the tail are those of the first record. */
  lemma FirstIsRead(data: seq<Byte>, from: nat, head: nat, q: seq<Record>)
    requires Holds(data, from, head, q) && q != [] && Kernel(q[0]) && SizeOf(q[0]) <= head - from
    ensures Place(from, |data|) + 8 <= |data| && SizeAt(data, from) == SizeOf(q[0])
    ensures CopyAt(data, from, SizeOf(q[0])) == Encode(q[0])
  {
    hide Place, CopyAt, SizeAt, Encode, EncodeAll, Window, Kernel, SizeOf;
    HoldsSplit(data, from, head, q);
    SizeOfRecordAt(data, from, q[0]);
    CopyIsWindow(data, from, SizeOf(q[0]));
  }

  lemma RestHolds(data: seq<Byte>, from: nat, head: nat, q: seq<Record>)
    requires Holds(data, from, head, q) && q != [] && Kernel(q[0])
    requires SizeOf(q[0]) % 8 == 0 && SizeOf(q[0]) <= head - from
    ensures Holds(data, from + SizeOf(q[0]), head, q[1..])
  {
    hide Place, Encode, EncodeAll, Window, Kernel, SizeOf;
    HoldsSplit(data, from, head, q);
    RestIsKernel(q);
    AlignedSum(from, SizeOf(q[0]));
  }

  lemma FirstRecord(data: seq<Byte>, from: nat, head: nat, q: seq<Record>)
    requires Holds(data, from, head, q) && from < head
    ensures q != [] && AllKernel(q) && Kernel(q[0])
    ensures SizeOf(q[0]) % 8 == 0 && SizeOf(q[0]) <= head - from <= |data|
  {
    hide Place, Encode;
    assert |EncodeAll(q)| == head - from;
    assert q[0] in q;
  }

  lemma RestIsKernel(q: seq<Record>)
    requires q != [] && AllKernel(q)
    ensures AllKernel(q[1..])
  {
    hide Kernel;
  }

  lemma HoldsSplit(data: seq<Byte>, from: nat, head: nat, q: seq<Record>)
    requires Holds(data, from, head, q) && q != [] && Kernel(q[0]) && SizeOf(q[0]) <= head - from
    ensures Window(data, from, SizeOf(q[0])) == Encode(q[0])
    ensures Window(data, from + SizeOf(q[0]), head - from - SizeOf(q[0])) == EncodeAll(q[1..])
  {
    hide Place, Encode;
    var n := SizeOf(q[0]);
    WindowSplit(data, from, n, head - from - n);
    var w, v := Window(data, from, n), Window(data, from + n, head - from - n);
    assert w + v == Encode(q[0]) + EncodeAll(q[1..]);
    assert w == (w + v)[..n] && v == (w + v)[n..];
  }

  lemma HoldsNone(data: seq<Byte>, head: nat, q: seq<Record>)
    requires Holds(data, head, head, q)
    ensures q == []
  {
    assert |EncodeAll(q)| == 0;
  }

  lemma HoldsAppended(data: seq<Byte>, from: nat, head: nat, q: seq<Record>, r: Record)
    requires Holds(data, from, head, q) && Kernel(r) && head + SizeOf(r) - from <= |data|
    ensures Holds(Stored(data, head, Encode(r)), from, head + SizeOf(r), q + [r])
  {
    hide Place, Window, Stored, Encode, EncodeAll, Kernel;
    EncodeOneMore(q, r);
    StoredWindow(data, from, head, Encode(r));
    AlignedSum(head, SizeOf(r));
  }

  lemma EncodeOneMore(q: seq<Record>, r: Record)
    requires AllKernel(q) && Kernel(r)
    ensures EncodeAll(q + [r]) == EncodeAll(q) + Encode(r) && |Encode(r)| == SizeOf(r) && SizeOf(r) % 8 == 0
  {
    hide Encode;
    EncodeAllConcat(q, [r]);
    assert EncodeAll([r]) == Encode(r) + EncodeAll([]);
  }

  lemma AlignedSum(a: int, b: int)
    requires a % 8 == 0 && b % 8 == 0
    ensures (a + b) % 8 == 0
  {
  }

  class PerfRing {
    const data: array<Byte>
    var tail: nat
    var dataHead: nat
    var dataTail: nat
    ghost var pending: seq<Record>  // written by the kernel, not yet drained

    ghost predicate Valid()
      reads this, data
    {
      tail == dataTail && Holds(data[..], tail, dataHead, pending)
    }

    constructor (size: nat)
      requires size > 0 && size % 8 == 0
      ensures Valid() && pending == [] && data.Length == size && fresh(data)
    {
      data := new Byte[size](_ => 0);
      tail, dataHead, dataTail, pending := 0, 0, 0, [];
    }

    /** The kernel appends one record; it never writes over bytes the profiler has not released. */
    method KernelWrite(r: Record)
      requires Valid() && Kernel(r) && dataHead + SizeOf(r) - dataTail <= data.Length
      modifies this`dataHead, this`pending, data
      ensures Valid() && pending == old(pending) + [r]
    {
      hide Place, Window, Encode, Kernel;
      var b := Encode(r);
      ghost var old' := data[..];
      var i := 0;
      while i < |b|
        invariant 0 <= i <= |b| && data[..] == Stored(old', dataHead, b[..i])
        modifies data
      {
        assert b[..i + 1][..i] == b[..i];
        data[Place(dataHead + i, data.Length)] := b[i];
        i := i + 1;
      }
      assert b[..|b|] == b;
      HoldsAppended(old', tail, dataHead, pending, r);
      dataHead, pending := dataHead + |b|, pending + [r];
    }

    /** The record's size: the high half of the header's second word. */
    method ReadSize(at: nat) returns (recSize: U16)
      requires data.Length > 0 && Place(at, data.Length) + 8 <= data.Length
      ensures recSize == SizeAt(data[..], at)
    {
      var off := Place(at, data.Length);
      recSize := U32FromBytes(data[off + 4..off + 8]) / 0x10000;
      assert data[off + 4..off + 8] == data[..][off + 4..off + 8];
    }

    /** The record's bytes, in two pieces when it crosses the ring's end. */
    method CopyRecord(at: nat, recSize: nat) returns (b: seq<Byte>)
      requires 0 < data.Length && recSize <= data.Length
      ensures b == CopyAt(data[..], at, recSize)
    {
      var start := Place(at, data.Length);
      if start + recSize <= data.Length {
        b := data[start..start + recSize];
      } else {
        var first := data.Length - start;
        b := data[start..] + data[..recSize - first];
      }
    }

    /** Copy every complete record into `out`, then release the space up to the head. */
    method Drain(out: seq<Byte>) returns (out': seq<Byte>)
      requires Valid()
      modifies this`tail, this`dataTail, this`pending
      ensures Valid() && pending == [] && tail == dataHead
      ensures AllKernel(old(pending)) && out' == out + EncodeAll(old(pending))
    {
      hide Place, Window, Encode, SizeAt, CopyAt;
      out' := out;
      var head := dataHead;
      var at := tail;
      if head == at {
        HoldsNone(data[..], head, pending);
        assert out == out + EncodeAll([]);
        return;
      }
      out' := CopyAll(at, head, out, pending);
      HoldsNothing(data[..], head);
      dataTail := head;
      tail := head;
      pending := [];
    }

    /** The copy loop. */
    method CopyAll(from: nat, head: nat, out: seq<Byte>, ghost q0: seq<Record>) returns (out': seq<Byte>)
      requires Holds(data[..], from, head, q0)
      ensures AllKernel(q0) && out' == out + EncodeAll(q0)
    {
      hide Place, Window, Encode, SizeAt, CopyAt, Holds, EncodeAll;
      out' := out;
      HoldsKernel(data[..], from, head, q0);
      var at := from;
      ghost var d, q, done := data[..], q0, [];
      while at < head
        invariant at <= head && Holds(d, at, head, q)
        invariant AllKernel(done) && done + q == q0 && out' == out + EncodeAll(done)
        decreases head - at
      {
        HoldsNext(d, at, head, q);
        var recSize := ReadSize(at);
        if recSize == 0 {
          break;
        }
        var b := CopyRecord(at, recSize);
        out' := out' + b;
        DoneNext(done, q);
        done, q := done + [q[0]], q[1..];
        at := at + recSize;
      }
      HoldsNone(d, head, q);
      assert done == done + q;
    }
  }

  lemma HoldsKernel(data: seq<Byte>, from: nat, head: nat, q: seq<Record>)
    requires Holds(data, from, head, q)
    ensures AllKernel(q) && from <= head && EncodeAll([]) == []
  {
  }

  lemma DoneNext(done: seq<Record>, q: seq<Record>)
    requires AllKernel(done) && AllKernel(q) && q != []
    ensures done + q == (done + [q[0]]) + q[1..]
    ensures AllKernel(done + [q[0]]) && EncodeAll(done + [q[0]]) == EncodeAll(done) + Encode(q[0])
  {
    assert q[0] in q;
    EncodeAllConcat(done, [q[0]]);
    assert EncodeAll([q[0]]) == Encode(q[0]) + EncodeAll([]);
  }

  lemma HoldsNothing(data: seq<Byte>, head: nat)
    requires |data| > 0 && |data| % 8 == 0 && head % 8 == 0
    ensures Holds(data, head, head, [])
  {
  }

  /** Drain the ring and dispatch every complete record: the queue comes out, once, in order. */
  method DrainDispatch(ring: PerfRing) returns (handled: seq<Record>)
    requires ring.Valid()
    modifies ring`tail, ring`dataTail, ring`pending
    ensures ring.Valid() && ring.pending == []
    ensures handled == old(ring.pending)
  {
    hide Holds, Parse, EncodeAll;
    var scratch := ring.Drain([]);
    ParseEncoded(old(ring.pending));
    assert scratch == EncodeAll(old(ring.pending));
    handled := Dispatch(scratch);
  }
}
