/**
 The call tree as a value: a finite, prefix-closed map from root-first paths to the tally
 of the node at the end of the path. `StackTree` keeps the same tree as linked nodes that
 are updated in place; here is what its operations compute and what that means.
 */
module CallTrie {
  import opened Numbers
  import opened Options

  type Addr = U64
  type Path = seq<Addr>

  datatype LaneKind = Generic | Metal

  datatype Reason =
    | Idle | LockWait | SemaphoreWait | IpcWait | IoRead | IoWrite
    | Readiness | Sleep | ConnectionSetup | Other

  /** Off-CPU time by the reason the thread was parked. */
  datatype OffCpu = OffCpu(
    idle: U64, lock: U64, semaphore: U64, ipc: U64, ioRead: U64, ioWrite: U64,
    readiness: U64, sleep: U64, connect: U64, other: U64)
  {
    function AddReason(reason: Reason, ns: U64): OffCpu {
      match reason
      case Idle => this.(idle := SatAdd(idle, ns))
      case LockWait => this.(lock := SatAdd(lock, ns))
      case SemaphoreWait => this.(semaphore := SatAdd(semaphore, ns))
      case IpcWait => this.(ipc := SatAdd(ipc, ns))
      case IoRead => this.(ioRead := SatAdd(ioRead, ns))
      case IoWrite => this.(ioWrite := SatAdd(ioWrite, ns))
      case Readiness => this.(readiness := SatAdd(readiness, ns))
      case Sleep => this.(sleep := SatAdd(sleep, ns))
      case ConnectionSetup => this.(connect := SatAdd(connect, ns))
      case Other => this.(other := SatAdd(other, ns))
    }

    function AddOther(o: OffCpu): OffCpu {
      OffCpu(SatAdd(idle, o.idle), SatAdd(lock, o.lock), SatAdd(semaphore, o.semaphore),
             SatAdd(ipc, o.ipc), SatAdd(ioRead, o.ioRead), SatAdd(ioWrite, o.ioWrite),
             SatAdd(readiness, o.readiness), SatAdd(sleep, o.sleep),
             SatAdd(connect, o.connect), SatAdd(other, o.other))
    }
  }

  /** Hardware counter sums. */
  datatype Pmc = Pmc(cycles: U64, instructions: U64, l1dMisses: U64, branchMispreds: U64) {
    function Add(o: Pmc): Pmc {
      Pmc(SatAdd(cycles, o.cycles), SatAdd(instructions, o.instructions),
          SatAdd(l1dMisses, o.l1dMisses), SatAdd(branchMispreds, o.branchMispreds))
    }
  }

  const NO_OFF_CPU := OffCpu(0, 0, 0, 0, 0, 0, 0, 0, 0, 0)
  const NO_PMC := Pmc(0, 0, 0, 0)

  /** What one node of the tree counts: everything but its children. */
  datatype Tally = Tally(
    onCpuNs: U64, targetNs: U64, offCpu: OffCpu, petSamples: U64, targetSpans: U64,
    offCpuIntervals: U64, pmc: Pmc, kind: Option<LaneKind>)

  const ZERO := Tally(0, 0, NO_OFF_CPU, 0, 0, 0, NO_PMC, None)

  /** The first target kind a node is given stays. */
  function SetTargetKind(slot: Option<LaneKind>, kind: Option<LaneKind>): Option<LaneKind> {
    if kind.Some? && slot.None? then kind else slot
  }

  /** Saturating sum of two tallies, counter by counter. */
  function Plus(a: Tally, b: Tally): Tally {
    Tally(SatAdd(a.onCpuNs, b.onCpuNs), SatAdd(a.targetNs, b.targetNs), a.offCpu.AddOther(b.offCpu),
          SatAdd(a.petSamples, b.petSamples), SatAdd(a.targetSpans, b.targetSpans),
          SatAdd(a.offCpuIntervals, b.offCpuIntervals), a.pmc.Add(b.pmc),
          SetTargetKind(a.kind, b.kind))
  }

  /** The numeric counters of a tally, by name: a law about all of them quantifies over these. */
  datatype Counter =
    | OnCpuNs | TargetNs | OffCpuNs(reason: Reason) | PetSamples | TargetSpans | OffCpuIntervals
    | Cycles | Instructions | L1dMisses | BranchMispreds

  function Count(t: Tally, c: Counter): U64 {
    match c
    case OnCpuNs => t.onCpuNs
    case TargetNs => t.targetNs
    case OffCpuNs(Idle) => t.offCpu.idle
    case OffCpuNs(LockWait) => t.offCpu.lock
    case OffCpuNs(SemaphoreWait) => t.offCpu.semaphore
    case OffCpuNs(IpcWait) => t.offCpu.ipc
    case OffCpuNs(IoRead) => t.offCpu.ioRead
    case OffCpuNs(IoWrite) => t.offCpu.ioWrite
    case OffCpuNs(Readiness) => t.offCpu.readiness
    case OffCpuNs(Sleep) => t.offCpu.sleep
    case OffCpuNs(ConnectionSetup) => t.offCpu.connect
    case OffCpuNs(Other) => t.offCpu.other
    case PetSamples => t.petSamples
    case TargetSpans => t.targetSpans
    case OffCpuIntervals => t.offCpuIntervals
    case Cycles => t.pmc.cycles
    case Instructions => t.pmc.instructions
    case L1dMisses => t.pmc.l1dMisses
    case BranchMispreds => t.pmc.branchMispreds
  }

  /** What one on-CPU credit adds to each node and address it touches. */
  function OnCpuDelta(ns: U64, pmc: Pmc, isTarget: bool, kind: Option<LaneKind>): Tally {
    if isTarget then Tally(ns, ns, NO_OFF_CPU, 1, 1, 0, pmc, kind)
    else Tally(ns, 0, NO_OFF_CPU, 1, 0, 0, pmc, None)
  }

  /** What one off-CPU credit adds to each node and address it touches. */
  function OffCpuDelta(reason: Reason, ns: U64): Tally {
    ZERO.(offCpu := NO_OFF_CPU.AddReason(reason, ns), offCpuIntervals := 1)
  }

  lemma PlusAssociative(a: Tally, b: Tally, c: Tally)
    ensures Plus(Plus(a, b), c) == Plus(a, Plus(b, c))
  {
  }

  lemma PlusZero(a: Tally)
    ensures Plus(a, ZERO) == a && Plus(ZERO, a) == a
  {
  }

  lemma PlusCounts(a: Tally, b: Tally, c: Counter)
    ensures Count(Plus(a, b), c) == SatAdd(Count(a, c), Count(b, c))
  {
  }

  // ---------------------------------------------------------------- credits and the tree

  /** One credit: a leaf-first stack and what each of its nodes is given. */
  datatype Credit = Credit(stack: seq<Addr>, delta: Tally)

  function Reverse(s: seq<Addr>): (r: seq<Addr>)
    ensures |r| == |s| && forall i :: 0 <= i < |s| ==> r[i] == s[|s| - 1 - i]
  {
    if s == [] then [] else Reverse(s[1..]) + [s[0]]
  }

  /** Root-first path of a credit. */
  function PathOf(c: Credit): Path {
    Reverse(c.stack)
  }

  type Trie = map<Path, Tally>

  const EMPTY_TRIE: Trie := map[[] := ZERO]

  function At(t: Trie, p: Path): Tally {
    if p in t then t[p] else ZERO
  }

  /** Walk down the first `k` steps of `path`, making missing nodes and crediting each one. */
  function CreditUpTo(t: Trie, path: Path, k: nat, delta: Tally): Trie
    requires k <= |path|
  {
    if k == 0 then t
    else
      var t' := CreditUpTo(t, path, k - 1, delta);
      t'[path[..k] := Plus(At(t', path[..k]), delta)]
  }

  function CreditPath(t: Trie, path: Path, delta: Tally): Trie {
    CreditUpTo(t, path, |path|, delta)
  }

  function Build(cs: seq<Credit>): Trie {
    if cs == [] then EMPTY_TRIE
    else CreditPath(Build(cs[..|cs| - 1]), PathOf(cs[|cs| - 1]), cs[|cs| - 1].delta)
  }

  /** Two trees added node for node. */
  function MergeTrie(t: Trie, u: Trie): Trie {
    map p | p in t.Keys + u.Keys :: if p in u then Plus(At(t, p), u[p]) else t[p]
  }

  /** What the credits through the node at `p` add up to, in order: read off the credits alone. */
  function SumAt(cs: seq<Credit>, p: Path): Tally {
    if cs == [] then ZERO
    else if p <= PathOf(cs[|cs| - 1]) then Plus(SumAt(cs[..|cs| - 1], p), cs[|cs| - 1].delta)
    else SumAt(cs[..|cs| - 1], p)
  }

  lemma {:induction false} CreditUpToKeys(t: Trie, path: Path, k: nat, delta: Tally, p: Path)
    requires k <= |path|
    ensures p in CreditUpTo(t, path, k, delta) <==> p in t || (0 < |p| <= k && p <= path)
  {
    hide Plus, At;
    if k > 0 {
      CreditUpToKeys(t, path, k - 1, delta, p);
      assert p <= path && |p| == k ==> p == path[..k];
    }
  }

  lemma {:induction false} CreditUpToTally(t: Trie, path: Path, k: nat, delta: Tally, p: Path)
    requires k <= |path|
    ensures At(CreditUpTo(t, path, k, delta), p)
         == if 0 < |p| <= k && p <= path then Plus(At(t, p), delta) else At(t, p)
  {
    hide Plus;
    if k > 0 {
      CreditUpToTally(t, path, k - 1, delta, p);
      if p != path[..k] {
        assert !(p <= path && |p| == k);
      }
    }
  }

  /** Some credit goes through the node at `p`. */
  ghost predicate Touched(cs: seq<Credit>, p: Path) {
    exists c :: c in cs && p <= PathOf(c)
  }

  lemma {:induction false} BuildKeys(cs: seq<Credit>, p: Path)
    ensures p in Build(cs) <==> p == [] || Touched(cs, p)
  {
    if cs != [] {
      var front, last := cs[..|cs| - 1], cs[|cs| - 1];
      assert Build(cs) == CreditPath(Build(front), PathOf(last), last.delta);
      hide Build, Touched, CreditUpTo, PathOf;
      BuildKeys(front, p);
      CreditUpToKeys(Build(front), PathOf(last), |PathOf(last)|, last.delta, p);
      TouchedByLast(cs, p);
    }
  }

  lemma TouchedByLast(cs: seq<Credit>, p: Path)
    requires cs != []
    ensures Touched(cs, p) <==> Touched(cs[..|cs| - 1], p) || p <= PathOf(cs[|cs| - 1])
  {
    hide PathOf;
    assert forall c :: c in cs <==> c in cs[..|cs| - 1] || c == cs[|cs| - 1];
  }

  /** Node for node, the tree is the sum of the credits whose path goes through the node. */
  lemma {:induction false} BuildTally(cs: seq<Credit>, p: Path)
    ensures At(Build(cs), p) == if p == [] then ZERO else SumAt(cs, p)
  {
    if cs != [] {
      var front, last := cs[..|cs| - 1], cs[|cs| - 1];
      BuildTally(front, p);
      CreditUpToTally(Build(front), PathOf(last), |PathOf(last)|, last.delta, p);
    }
  }

  lemma {:induction false} SumAtConcat(a: seq<Credit>, b: seq<Credit>, p: Path)
    ensures SumAt(a + b, p) == Plus(SumAt(a, p), SumAt(b, p))
  {
    if b == [] {
      assert a + b == a;
      PlusZero(SumAt(a, p));
    } else {
      var front := b[..|b| - 1];
      assert (a + b)[..|a + b| - 1] == a + front;
      SumAtConcat(a, front, p);
      PlusAssociative(SumAt(a, p), SumAt(front, p), b[|b| - 1].delta);
    }
  }

  /** Merging is a homomorphism from credit lists under concatenation to trees. */
  lemma MergeHomomorphism(a: seq<Credit>, b: seq<Credit>)
    ensures MergeTrie(Build(a), Build(b)) == Build(a + b)
  {
    hide Build, MergeTrie, At;
    var m, ab := MergeTrie(Build(a), Build(b)), Build(a + b);
    forall p
      ensures (p in m <==> p in ab) && At(m, p) == At(ab, p)
    {
      MergePointwise(a, b, p);
    }
    SameTrie(m, ab);
  }

  lemma SameTrie(t: Trie, u: Trie)
    requires forall p :: (p in t <==> p in u) && At(t, p) == At(u, p)
    ensures t == u
  {
    forall p | p in t ensures p in u && t[p] == u[p] {
      assert At(t, p) == At(u, p);
    }
    assert t.Keys == u.Keys;
  }

  lemma MergePointwise(a: seq<Credit>, b: seq<Credit>, p: Path)
    ensures p in MergeTrie(Build(a), Build(b)) <==> p in Build(a + b)
    ensures At(MergeTrie(Build(a), Build(b)), p) == At(Build(a + b), p)
  {
    BuildKeys(a, p);
    BuildKeys(b, p);
    BuildKeys(a + b, p);
    assert Touched(a + b, p) <==> Touched(a, p) || Touched(b, p);
    BuildTally(a, p);
    BuildTally(b, p);
    BuildTally(a + b, p);
    SumAtConcat(a, b, p);
    PlusZero(At(Build(a), p));
    PlusZero(At(Build(b), p));
  }
}
