/**
 The ring as a machine of small steps: the kernel may write between any two copies of a
 drain. Whatever the interleaving, the ring and the dispatcher behave as a queue.
 */
module RingMachine {
  import opened PerfRecords
  import opened PerfRing

  /** A drain under way: the head it read, where it is, what it copied. `upTo` and `copied` are
      history: how many records were written when it began, and how many it has passed. */
  datatype Drain = Idle | Draining(head: nat, at: nat, out: seq<Byte>, copied: nat, upTo: nat)

  /** The shared ring, the drain, and the history of records written and dispatched. */
  datatype State = State(data: seq<Byte>, head: nat, tail: nat, drain: Drain,
                         written: seq<Record>, dispatched: seq<Record>)

  ghost predicate Init(s: State) {
    && |s.data| > 0 && |s.data| % 8 == 0
    && s.head == 0 && s.tail == 0 && s.drain == Idle && s.written == [] && s.dispatched == []
  }

  /** The kernel appends a record to free space, seen from the published tail. */
  ghost predicate Write(s: State, s': State, r: Record) {
    && |s.data| > 0 && Kernel(r) && s.tail <= s.head && s.head + SizeOf(r) - s.tail <= |s.data|
    && s' == s.(data := Stored(s.data, s.head, Encode(r)), head := s.head + SizeOf(r), written := s.written + [r])
  }

  ghost predicate Begin(s: State, s': State) {
    && s.drain.Idle? && s.head != s.tail
    && s' == s.(drain := Draining(s.head, s.tail, [], |s.dispatched|, |s.written|))
  }

  /** One round of the copy loop; the header is read where the loop stands. */
  ghost predicate Copy(s: State, s': State) {
    && s.drain.Draining? && s.drain.at < s.drain.head
    && |s.data| > 0 && Place(s.drain.at, |s.data|) + 8 <= |s.data|
    && var size := SizeAt(s.data, s.drain.at);
       && 0 < size <= |s.data|
       && s' == s.(drain := s.drain.(at := s.drain.at + size, out := s.drain.out + CopyAt(s.data, s.drain.at, size),
                                     copied := s.drain.copied + 1))
  }

  /** The loop is over, or met a zero size: the head it read becomes the tail, and what it
      copied is dispatched. */
  ghost predicate Finish(s: State, s': State) {
    && s.drain.Draining?
    && (s.drain.at < s.drain.head ==>
          |s.data| > 0 && Place(s.drain.at, |s.data|) + 8 <= |s.data| && SizeAt(s.data, s.drain.at) == 0)
    && s' == s.(tail := s.drain.head, drain := Idle, dispatched := s.dispatched + Parse(s.drain.out))
  }

  ghost predicate Next(s: State, s': State) {
    || (exists r :: Write(s, s', r))
    || Begin(s, s')
    || Copy(s, s')
    || Finish(s, s')
  }

  ghost predicate Inv(s: State) {
    var n := |s.dispatched|;
    && n <= |s.written| && s.dispatched == s.written[..n]
    && Holds(s.data, s.tail, s.head, s.written[n..])
    && (s.drain.Draining? ==> DrainInv(s, n, s.drain.copied, s.drain.upTo))
  }

  /** Copied so far: records `n..k`; still to copy: `k..m`, and they end at the head it read. */
  ghost predicate DrainInv(s: State, n: nat, k: nat, m: nat)
    requires s.drain.Draining?
  {
    && n <= k <= m <= |s.written| && s.tail <= s.drain.at <= s.drain.head <= s.head
    && AllKernel(s.written[n..k]) && s.drain.out == EncodeAll(s.written[n..k])
    && Holds(s.data, s.drain.at, s.drain.head, s.written[k..m])
    && Holds(s.data, s.drain.head, s.head, s.written[m..])
  }

  lemma HoldsUndisturbed(data: seq<Byte>, from: nat, mid: nat, head: nat, q: seq<Record>, r: Record)
    requires Holds(data, from, mid, q) && mid <= head && Kernel(r) && head + SizeOf(r) - from <= |data|
    ensures Holds(Stored(data, head, Encode(r)), from, mid, q)
  {
    hide Place, Stored, Encode, EncodeAll;
    StoredWindow(data, from, head, Encode(r));
    var data' := Stored(data, head, Encode(r));
    WindowSplit(data, from, mid - from, head - mid);
    WindowSplit(data', from, mid - from, head - mid);
    assert Window(data, from, mid - from) == Window(data, from, head - from)[..mid - from];
    assert Window(data', from, mid - from) == Window(data', from, head - from)[..mid - from];
  }

  lemma WriteInv(s: State, s': State, r: Record)
    requires Inv(s) && Write(s, s', r)
    ensures Inv(s')
  {
    hide Holds, Stored, Encode, EncodeAll, Kernel;
    var n := |s.dispatched|;
    assert s'.written[n..] == s.written[n..] + [r] && s'.written[..n] == s.written[..n];
    HoldsAppended(s.data, s.tail, s.head, s.written[n..], r);
    if s.drain.Draining? {
      var k, m := s.drain.copied, s.drain.upTo;
      assert s'.written[n..k] == s.written[n..k] && s'.written[k..m] == s.written[k..m];
      assert s'.written[m..] == s.written[m..] + [r];
      HoldsUndisturbed(s.data, s.drain.at, s.drain.head, s.head, s.written[k..m], r);
      HoldsAppended(s.data, s.drain.head, s.head, s.written[m..], r);
    }
  }

  lemma BeginInv(s: State, s': State)
    requires Inv(s) && Begin(s, s')
    ensures Inv(s')
  {
    var n, m := |s.dispatched|, |s.written|;
    assert s.written[n..m] == s.written[n..] && s.written[m..] == [] && s.written[n..n] == [];
    HoldsNothing(s.data, s.head);
  }

  lemma CopyInv(s: State, s': State)
    requires Inv(s) && Copy(s, s')
    ensures Inv(s') && s.drain.copied < s.drain.upTo
  {
    hide Holds, CopyAt, SizeAt, Encode, EncodeAll, Place, Kernel;
    var n, k, m := |s.dispatched|, s.drain.copied, s.drain.upTo;
    var q := s.written[k..m];
    HoldsNext(s.data, s.drain.at, s.drain.head, q);
    DoneNext(s.written[n..k], q);
    assert s.written[n..k] + [q[0]] == s.written[n..k + 1] && q[1..] == s.written[k + 1..m];
  }

  /** A drain ends only when everything written before it began has been copied. */
  lemma FinishDispatches(s: State, s': State)
    requires Inv(s) && Finish(s, s')
    ensures Inv(s') && s.drain.upTo <= |s.written| && s'.dispatched == s.written[..s.drain.upTo]
  {
    hide CopyAt, SizeAt, Encode, EncodeAll, Place, Window;
    var n, k, m := |s.dispatched|, s.drain.copied, s.drain.upTo;
    if s.drain.at < s.drain.head {
      HoldsNext(s.data, s.drain.at, s.drain.head, s.written[k..m]);
      assert false;
    }
    HoldsNone(s.data, s.drain.head, s.written[k..m]);
    assert k == m;
    ParseEncoded(s.written[n..k]);
    assert s.written[..n] + s.written[n..m] == s.written[..m];
  }

  lemma NextInv(s: State, s': State)
    requires Inv(s) && Next(s, s')
    ensures Inv(s')
  {
    hide Inv, Write, Begin, Copy, Finish;
    if r :| Write(s, s', r) {
      WriteInv(s, s', r);
    } else if Begin(s, s') {
      BeginInv(s, s');
    } else if Copy(s, s') {
      CopyInv(s, s');
    } else {
      FinishDispatches(s, s');
    }
  }

  ghost predicate Behavior(b: seq<State>) {
    b != [] && Init(b[0]) && forall i :: 0 <= i < |b| - 1 ==> Next(b[i], b[i + 1])
  }

  /**
   Over every interleaving of kernel writes and drains, what has been dispatched is always a
   prefix of what was written: in order, nothing twice, nothing made up.
   */
  lemma {:induction false} DispatchedIsPrefix(b: seq<State>, i: nat)
    requires Behavior(b) && i < |b|
    ensures Inv(b[i]) && b[i].dispatched <= b[i].written
  {
    hide Next;
    if i == 0 {
      HoldsNothing(b[0].data, 0);
    } else {
      DispatchedIsPrefix(b, i - 1);
      assert Next(b[i - 1], b[i - 1 + 1]);
      NextInv(b[i - 1], b[i]);
    }
  }

  /** From its first step on, a drain knows how many records it owes. */
  lemma {:induction false} DrainKeepsCount(b: seq<State>, i: nat, k: nat)
    requires Behavior(b) && i < k < |b| && Begin(b[i], b[i + 1])
    requires forall l :: i < l < k ==> !Finish(b[l], b[l + 1])
    ensures b[k].drain.Draining? && b[k].drain.upTo == |b[i].written| && b[i].written <= b[k].written
  {
    hide Next, Finish;
    if k > i + 1 {
      DrainKeepsCount(b, i, k - 1);
      assert Next(b[k - 1], b[k - 1 + 1]) && !Finish(b[k - 1], b[k - 1 + 1]);
      StepKeepsCount(b[k - 1], b[k]);
    }
  }

  lemma StepKeepsCount(s: State, s': State)
    requires Next(s, s') && !Finish(s, s') && s.drain.Draining?
    ensures s'.drain.Draining? && s'.drain.upTo == s.drain.upTo && s.written <= s'.written
  {
    hide Stored, Encode, CopyAt, SizeAt;
  }

  /** A drain that begins at step `i` and ends at step `j` has, with the drains before it,
      dispatched exactly the records that had been written when it began. */
  lemma DrainDispatchesWhatItSaw(b: seq<State>, i: nat, j: nat)
    requires Behavior(b) && i < j < |b| - 1 && Begin(b[i], b[i + 1]) && Finish(b[j], b[j + 1])
    requires forall l :: i < l < j ==> !Finish(b[l], b[l + 1])
    ensures b[j + 1].dispatched == b[i].written
  {
    hide Inv;
    DrainKeepsCount(b, i, j);
    DispatchedIsPrefix(b, j);
    FinishDispatches(b[j], b[j + 1]);
  }
}
