/** Perf records as bytes: an 8-byte header of type, misc and total size, then the body. */
module PerfRecords {
  import opened Numbers

  type Byte = x: int | 0 <= x < 256
  type U16 = x: int | 0 <= x < 0x10000

  datatype Record = Record(ty: U32, misc: U16, body: seq<Byte>)

  function SizeOf(r: Record): nat {
    8 + |r.body|
  }

  /** What the kernel writes: the size fits its field and keeps records 8-byte aligned. */
  predicate Kernel(r: Record) {
    SizeOf(r) < 0x10000 && SizeOf(r) % 8 == 0
  }

  function U16ToBytes(x: U16): seq<Byte> {
    [x % 0x100, x / 0x100]
  }

  function U32ToBytes(x: U32): seq<Byte> {
    U16ToBytes(x % 0x10000) + U16ToBytes(x / 0x10000)
  }

  function U16FromBytes(b: seq<Byte>): U16
    requires |b| == 2
  {
    var low: int, high: int := b[0], b[1];
    low + 0x100 * high
  }

  function U32FromBytes(b: seq<Byte>): U32
    requires |b| == 4
  {
    U16FromBytes(b[..2]) + 0x10000 * U16FromBytes(b[2..])
  }

  function Encode(r: Record): (b: seq<Byte>)
    requires Kernel(r)
    ensures |b| == SizeOf(r)
  {
    U32ToBytes(r.ty) + U16ToBytes(r.misc) + U16ToBytes(SizeOf(r)) + r.body
  }

  ghost predicate AllKernel(rs: seq<Record>) {
    forall r :: r in rs ==> Kernel(r)
  }

  function EncodeAll(rs: seq<Record>): seq<Byte>
    requires AllKernel(rs)
  {
    if rs == [] then [] else Encode(rs[0]) + EncodeAll(rs[1..])
  }

  lemma KernelConcat(a: seq<Record>, b: seq<Record>)
    requires AllKernel(a) && AllKernel(b)
    ensures AllKernel(a + b) && (a != [] ==> AllKernel(a[1..]))
  {
    hide Kernel;
  }

  lemma {:induction false} EncodeAllConcat(a: seq<Record>, b: seq<Record>)
    requires AllKernel(a) && AllKernel(b)
    ensures AllKernel(a + b) && EncodeAll(a + b) == EncodeAll(a) + EncodeAll(b)
  {
    KernelConcat(a, b);
    hide AllKernel, Encode;
    if a == [] {
      assert a + b == b;
    } else {
      EncodeAllConcat(a[1..], b);
      assert (a + b)[1..] == a[1..] + b && (a + b)[0] == a[0];
      assert EncodeAll(a + b) == Encode(a[0]) + EncodeAll((a + b)[1..]);
      assert EncodeAll(a) == Encode(a[0]) + EncodeAll(a[1..]);
      hide EncodeAll;
      Regrouped(Encode(a[0]), EncodeAll(a[1..]), EncodeAll(b));
    }
  }

  lemma Regrouped(x: seq<Byte>, y: seq<Byte>, z: seq<Byte>)
    ensures (x + y) + z == x + (y + z)
  {
  }

  /** The dispatch loop: every complete record of the scratch buffer, in order. */
  function Parse(b: seq<Byte>): seq<Record>
    decreases |b|
  {
    if |b| < 8 then []
    else
      var size := U16FromBytes(b[6..8]);
      if size < 8 || |b| < size then []
      else [Record(U32FromBytes(b[..4]), U16FromBytes(b[4..6]), b[8..size])] + Parse(b[size..])
  }

  lemma HeaderRoundTrip(r: Record, rest: seq<Byte>)
    requires Kernel(r)
    ensures var b := Encode(r) + rest;
            U32FromBytes(b[..4]) == r.ty && U16FromBytes(b[4..6]) == r.misc && U16FromBytes(b[6..8]) == SizeOf(r)
            && b[8..SizeOf(r)] == r.body && b[SizeOf(r)..] == rest
  {
    var b := Encode(r) + rest;
    assert b[..4][..2] == U16ToBytes(r.ty % 0x10000);
    assert b[..4][2..] == U16ToBytes(r.ty / 0x10000);
    assert b[4..6] == U16ToBytes(r.misc);
    assert b[6..8] == U16ToBytes(SizeOf(r));
  }

  /** Dispatching the bytes of any kernel records gives back exactly those records. */
  lemma {:induction false} ParseEncoded(rs: seq<Record>)
    requires AllKernel(rs)
    ensures Parse(EncodeAll(rs)) == rs
  {
    if rs != [] {
      HeaderRoundTrip(rs[0], EncodeAll(rs[1..]));
      ParseEncoded(rs[1..]);
    }
  }

  /** Two and four bytes as a number, the lowest byte first. */
  function Number16(a: int, b: int): int { a + 0x100 * b }
  function Number32(a: int, b: int, c: int, d: int): int { a + 0x100 * b + 0x1_0000 * c + 0x100_0000 * d }

  lemma BytesAre16(b: seq<Byte>, k: nat)
    requires k + 2 <= |b|
    ensures U16FromBytes(b[k..k + 2]) == Number16(b[k], b[k + 1])
  {
  }

  lemma BytesAre32(b: seq<Byte>)
    requires |b| >= 4
    ensures U32FromBytes(b[..4]) == Number32(b[0], b[1], b[2], b[3])
  {
    assert b[..4][..2] == b[0..2] && b[..4][2..] == b[2..4];
    BytesAre16(b, 0);
    BytesAre16(b, 2);
    hide U16FromBytes;
  }

  /** The header byte for byte: four bytes of type, two of misc, two of size, the lowest byte first. */
  lemma FirstOfBytes(b: seq<Byte>)
    requires |b| >= 8
    ensures var size := Number16(b[6], b[7]);
            if 8 <= size <= |b| then
              && Parse(b) != [] && Parse(b)[0].ty == Number32(b[0], b[1], b[2], b[3])
              && Parse(b)[0].misc == Number16(b[4], b[5]) && Parse(b)[0].body == b[8..size] && Parse(b)[1..] == Parse(b[size..])
            else Parse(b) == []
  {
    BytesAre16(b, 4);
    BytesAre16(b, 6);
    BytesAre32(b);
    hide U16FromBytes, U32FromBytes, Number16, Number32;
  }

  /** What one turn of the loop does to the bytes that are left. */
  lemma ParseFirst(scratch: seq<Byte>, off: nat)
    requires off + 8 <= |scratch|
    ensures var size := U16FromBytes(scratch[off + 6..off + 8]);
            Parse(scratch[off..])
            == if size < 8 || off + size > |scratch| then []
               else [Record(U32FromBytes(scratch[off..off + 4]), U16FromBytes(scratch[off + 4..off + 6]), scratch[off + 8..off + size])]
                    + Parse(scratch[off + size..])
  {
    hide U16FromBytes, U32FromBytes;
    var b := scratch[off..];
    var size := U16FromBytes(b[6..8]);
    assert scratch[off..off + 4] == b[..4] && scratch[off + 4..off + 6] == b[4..6] && scratch[off + 6..off + 8] == b[6..8];
    if size >= 8 && off + size <= |scratch| {
      assert scratch[off + 8..off + size] == b[8..size] && scratch[off + size..] == b[size..];
    }
  }

  /** `drain_dispatch`'s loop over the drained bytes. */
  method Dispatch(scratch: seq<Byte>) returns (handled: seq<Record>)
    ensures handled == Parse(scratch)
  {
    hide U16FromBytes, U32FromBytes, Parse;
    handled := [];
    var off := 0;
    assert scratch[0..] == scratch;
    while off + 8 <= |scratch|
      invariant 0 <= off <= |scratch|
      invariant handled + Parse(scratch[off..]) == Parse(scratch)
    {
      var ty := U32FromBytes(scratch[off..off + 4]);
      var misc := U16FromBytes(scratch[off + 4..off + 6]);
      var size := U16FromBytes(scratch[off + 6..off + 8]);
      ParseFirst(scratch, off);
      if size < 8 || off + size > |scratch| {
        break;
      }
      var record := Record(ty, misc, scratch[off + 8..off + size]);
      assert handled + ([record] + Parse(scratch[off + size..])) == handled + [record] + Parse(scratch[off + size..]);
      handled := handled + [record];
      off := off + size;
    }
    if off + 8 > |scratch| { TooShort(scratch[off..]); }
  }

  lemma TooShort(b: seq<Byte>)
    requires |b| < 8
    ensures Parse(b) == []
  {
  }
}
