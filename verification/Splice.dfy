/** The user stack of one sample, put together from a DWARF walk and the kernel's frame-pointer chain. */
module Splice {
  import opened Numbers
  import opened Options

  type Frames = seq<U64>

  /** First position of `pc` at `from` or later. */
  function Position(fp: Frames, pc: U64, from: nat): (p: Option<nat>)
    ensures p.Some? ==> from <= p.value < |fp| && fp[p.value] == pc && pc !in fp[from..p.value]
    ensures p.None? && from <= |fp| ==> pc !in fp[from..]
    decreases |fp| - from
  {
    if from >= |fp| then None
    else if fp[from] == pc then Some(from)
    else Position(fp, pc, from + 1)
  }

  datatype Joint = Joint(walk: nat, chain: nat)

  /** The first frame of the walk, from `i` on, that the chain has too; index 0 is the sampled address on both sides. */
  function FindJoint(walk: Frames, fp: Frames, i: nat): (joint: Option<Joint>)
    ensures joint.Some? ==>
              && i <= joint.value.walk < |walk| && 1 <= joint.value.chain < |fp|
              && walk[joint.value.walk] == fp[joint.value.chain]
              && walk[joint.value.walk] !in fp[1..joint.value.chain]
    decreases |walk| - i
  {
    if i >= |walk| then None
    else
      var j := Position(fp, walk[i], 1);
      if j.Some? then Some(Joint(i, j.value)) else FindJoint(walk, fp, i + 1)
  }

  function Longer(walk: Frames, fp: Frames): Frames {
    if |walk| >= |fp| then walk else fp
  }

  function Splice(walk: Frames, truncated: bool, fp: Frames): Frames {
    if !truncated then Longer(walk, fp)
    else
      var joint := FindJoint(walk, fp, 1);
      if joint.Some? then walk[..joint.value.walk] + fp[joint.value.chain..] else Longer(walk, fp)
  }

  // ------------------------------------------------------------------ no frame is made up or moved

  /** `at` are the places in the stack, from the leaf down, that the frames were taken from. */
  ghost predicate Picks(at: seq<nat>, frames: Frames, stack: Frames) {
    && |at| == |frames|
    && (forall k :: 0 <= k < |at| ==> at[k] < |stack| && frames[k] == stack[at[k]])
    && (forall j, k :: 0 <= j < k < |at| ==> at[j] < at[k])
  }

  ghost predicate Subsequence(frames: Frames, stack: Frames) {
    exists at :: Picks(at, frames, stack)
  }

  ghost predicate FirstShared(walk: Frames, fp: Frames, i: nat) {
    && 1 <= i < |walk| && 1 <= |fp| && walk[i] in fp[1..]
    && forall k :: 1 <= k < i ==> walk[k] !in fp[1..]
  }

  lemma {:induction false} JointIsFirst(walk: Frames, fp: Frames, from: nat)
    requires 1 <= from && forall k :: 1 <= k < from && k < |walk| && 1 <= |fp| ==> walk[k] !in fp[1..]
    ensures FindJoint(walk, fp, from).Some? ==> FirstShared(walk, fp, FindJoint(walk, fp, from).value.walk)
    ensures FindJoint(walk, fp, from).None? && 1 <= |fp| ==> forall k :: 1 <= k < |walk| ==> walk[k] !in fp[1..]
    decreases |walk| - from
  {
    if from < |walk| {
      var j := Position(fp, walk[from], 1);
      if j.Some? {
        assert fp[1..][j.value - 1] == walk[from];
      } else {
        JointIsFirst(walk, fp, from + 1);
      }
    }
  }

  /** A chain frame is never taken from the walk's side of the joint: the joint would have been earlier. */
  lemma ChainLiesBelow(stack: Frames, n: nat, fp: Frames, at: seq<nat>, i: nat, k: nat)
    requires n <= |stack| && Picks(at, fp, stack) && FirstShared(stack[..n], fp, i) && 1 <= k < |fp|
    ensures i <= at[k]
  {
    assert at[0] < at[k] && fp[k] == fp[1..][k - 1];
    assert at[k] < n ==> stack[..n][at[k]] == fp[k];
  }

  /**
   If the walk is the head of the true stack and the chain leaves out frames of it, the result only
   leaves out frames: none is made up and none is moved, even when addresses repeat.
   */
  lemma SpliceIsSubsequence(stack: Frames, n: nat, truncated: bool, fp: Frames)
    requires n <= |stack| && Subsequence(fp, stack)
    ensures Subsequence(Splice(stack[..n], truncated, fp), stack)
  {
    hide Picks, FindJoint;
    var walk := stack[..n];
    HeadIsSubsequence(stack, n);
    var joint := FindJoint(walk, fp, 1);
    if truncated && joint.Some? {
      var at :| Picks(at, fp, stack);
      var i, j := joint.value.walk, joint.value.chain;
      JointIsFirst(walk, fp, 1);
      ChainLiesBelow(stack, n, fp, at, i, j);
      HeadJoinsChain(stack, fp, at, i, j);
      assert walk[..i] == stack[..i];
    }
  }

  lemma {:induction false} PlacesGrow(at: seq<nat>, k: nat)
    requires k < |at| && forall i, j :: 0 <= i < j < |at| ==> at[i] < at[j]
    ensures k <= at[k]
  {
    if k > 0 { PlacesGrow(at, k - 1); }
  }

  /** A walk that reached the end of the stack is kept, whatever frames of it the chain has. */
  lemma CompleteWalkIsKept(stack: Frames, fp: Frames)
    requires Subsequence(fp, stack)
    ensures Splice(stack, false, fp) == stack
  {
    var at :| Picks(at, fp, stack);
    if |at| > 0 { PlacesGrow(at, |at| - 1); }
  }

  /** Where a cut-short walk and the chain share no return address, the longer one is the result, the walk if they are equally long. */
  lemma NothingShared(walk: Frames, fp: Frames)
    requires |fp| == 0 || forall i :: 1 <= i < |walk| ==> walk[i] !in fp[1..]
    ensures Splice(walk, true, fp) == if |fp| > |walk| then fp else walk
  {
    forall i, j | 1 <= i < |walk| && 1 <= j < |fp| ensures walk[i] != fp[j] {
      assert fp[1..][j - 1] == fp[j];
    }
  }

  lemma HeadIsSubsequence(stack: Frames, n: nat)
    requires n <= |stack|
    ensures Subsequence(stack[..n], stack)
  {
    assert Picks(seq(n, k requires 0 <= k < n => k as nat), stack[..n], stack);
  }

  /** The head of the stack, and behind it what the chain took from below. */
  lemma HeadJoinsChain(stack: Frames, fp: Frames, at: seq<nat>, i: nat, j: nat)
    requires i <= |stack| && Picks(at, fp, stack) && j < |fp| && i <= at[j]
    ensures Subsequence(stack[..i] + fp[j..], stack)
  {
    var picks, frames := seq(i, k requires 0 <= k < i => k as nat) + at[j..], stack[..i] + fp[j..];
    forall k | 0 <= k < |picks| ensures picks[k] < |stack| && frames[k] == stack[picks[k]] {
      if k >= i { assert picks[k] == at[k - i + j]; }
    }
    forall k, l | 0 <= k < l < |picks| ensures picks[k] < picks[l] {
      if l >= i { assert picks[l] == at[l - i + j] >= at[j]; }
      if k >= i { assert picks[k] == at[k - i + j]; }
    }
    assert Picks(picks, frames, stack);
  }

  ghost predicate Disjoint(a: Frames, b: Frames) {
    forall x :: x in a ==> x !in b
  }

  /**
   A walk cut short after frame `k`, and a chain that misses the frames between the leaf and `k`:
   the result is the whole stack if and only if no missed address returns further down.
   */
  lemma SpliceCompletesWalk(stack: Frames, k: nat)
    requires 1 <= k < |stack|
    ensures Splice(stack[..k + 1], true, [stack[0]] + stack[k..]) == stack <==> Disjoint(stack[1..k], stack[k..])
  {
    var walk, fp := stack[..k + 1], [stack[0]] + stack[k..];
    var gap, below := stack[1..k], stack[k..];
    assert fp[1..] == below;
    JointIsFirst(walk, fp, 1);
    assert walk[k] == below[0];
    var joint := FindJoint(walk, fp, 1).value;
    var i, j := joint.walk, joint.chain;
    assert |Splice(walk, true, fp)| == i + |fp| - j;
    if i < k {
      assert gap[i - 1] == walk[i];
      assert !Disjoint(gap, below);
    } else {
      forall x | x in gap ensures x !in below {
        var m :| 0 <= m < |gap| && gap[m] == x;
        assert walk[m + 1] == x;
      }
      assert fp[1] == walk[k];
      ChainStartsAt(fp, walk[k], j);
      assert walk[..i] + fp[j..] == stack;
    }
  }

  lemma ChainStartsAt(fp: Frames, pc: U64, j: nat)
    requires 1 <= j < |fp| && fp[1] == pc
    ensures j == 1 || pc in fp[1..j]
  {
    if j > 1 { assert fp[1..j][0] == pc; }
  }

  /** A recursive caller that the chain hides is lost. */
  lemma RecursionLosesFrame()
    ensures var stack: Frames := [10, 20, 20, 30];
            Splice(stack[..3], true, [stack[0]] + stack[2..]) == [10, 20, 30]
  {
    var stack: Frames := [10, 20, 20, 30];
    var walk, fp := stack[..3], [stack[0]] + stack[2..];
    assert walk == [10, 20, 20] && fp == [10, 20, 30];
    assert Position(fp, 20, 1) == Some(1);
    assert FindJoint(walk, fp, 1) == Some(Joint(1, 1));
    assert walk[..1] == [10] && fp[1..] == [20, 30];
  }

  ghost predicate Distinct(stack: Frames) {
    forall j, k :: 0 <= j < k < |stack| ==> stack[j] != stack[k]
  }

  /**
   Without recursion, a walk and a chain that share a return address lose only what both miss:
   a frame is in the result exactly if it is above the joint or in the chain below the leaf.
   */
  lemma SpliceOfDistinctFrames(stack: Frames, n: nat, fp: Frames, i: nat, m: nat)
    requires n <= |stack| && Distinct(stack) && Subsequence(fp, stack) && FirstShared(stack[..n], fp, i) && m < |stack|
    ensures Splice(stack[..n], true, fp) == stack[..i] + fp[1..]
    ensures stack[m] in Splice(stack[..n], true, fp) <==> m < i || stack[m] in fp[1..]
  {
    var walk := stack[..n];
    JointIsFirst(walk, fp, 1);
    var joint := FindJoint(walk, fp, 1).value;
    assert joint.walk == i;
    var at :| Picks(at, fp, stack);
    var j := joint.chain;
    assert at[j] == i;
    if j > 1 {
      ChainLiesBelow(stack, n, fp, at, i, 1);
      assert false;
    }
    assert walk[..i] == stack[..i];
    if m >= i {
      assert stack[m] !in stack[..i];
    } else {
      assert stack[..i][m] == stack[m];
    }
  }
}
