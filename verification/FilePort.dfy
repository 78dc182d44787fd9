/** The pending results of the file port. A guest submits a request with an OUT and fetches its result
    with an IN; an interrupt between the two may submit requests of its own. The host keeps the results
    on a stack, so every IN gets the result of its own OUT. */
module FilePort {

  /** An OUT carries the result the host computed for its request; an IN takes one back. */
  datatype PortOp = Out(result: int) | In

  /** The host's stack after a trace of port operations. */
  function StackAfter(stack: seq<int>, ops: seq<PortOp>): seq<int> {
    if ops == [] then stack
    else
      var s := StackAfter(stack, ops[..|ops| - 1]);
      match ops[|ops| - 1]
      case Out(r) => s + [r]
      case In => if s == [] then [] else s[..|s| - 1]
  }

  /** What the IN at position j returns. */
  function ValueIn(stack: seq<int>, ops: seq<PortOp>, j: nat): int
    requires j < |ops|
  {
    var s := StackAfter(stack, ops[..j]);
    if s == [] then -1 else s[|s| - 1]
  }

  /** A single operation on the stack. */
  lemma OneOperation(stack: seq<int>, op: PortOp)
    ensures StackAfter(stack, [op]) ==
              match op
              case Out(r) => stack + [r]
              case In => if stack == [] then [] else stack[..|stack| - 1]
    ensures ValueIn(stack, [op], 0) == if stack == [] then -1 else stack[|stack| - 1]
  {
    assert [op][..0] == [];
    assert StackAfter(stack, []) == stack;
  }

  /** OUTs minus INs. */
  function Depth(ops: seq<PortOp>): int {
    if ops == [] then 0 else Depth(ops[..|ops| - 1]) + (if ops[|ops| - 1].Out? then 1 else -1)
  }

  /** No prefix has more INs than OUTs. */
  ghost predicate Nested(ops: seq<PortOp>) {
    forall k :: 0 <= k <= |ops| ==> Depth(ops[..k]) >= 0
  }

  ghost predicate Balanced(ops: seq<PortOp>) {
    Nested(ops) && Depth(ops) == 0
  }

  /** The IN at j belongs to the OUT at i: between them is a balanced trace. */
  ghost predicate Matching(ops: seq<PortOp>, i: nat, j: nat) {
    i < j < |ops| && ops[i].Out? && ops[j].In? && Balanced(ops[i + 1..j])
  }

  lemma {:induction false} StackAfterAppend(stack: seq<int>, a: seq<PortOp>, b: seq<PortOp>)
    ensures StackAfter(stack, a + b) == StackAfter(StackAfter(stack, a), b)
  {
    if b == [] {
      assert a + b == a;
    } else {
      StackAfterAppend(stack, a, b[..|b| - 1]);
      assert (a + b)[..|a + b| - 1] == a + b[..|b| - 1];
    }
  }

  lemma {:induction false} DepthAppend(a: seq<PortOp>, b: seq<PortOp>)
    ensures Depth(a + b) == Depth(a) + Depth(b)
  {
    if b == [] {
      assert a + b == a;
    } else {
      DepthAppend(a, b[..|b| - 1]);
      assert (a + b)[..|a + b| - 1] == a + b[..|b| - 1];
    }
  }

  /** A nested trace leaves what was on the stack before it alone. */
  lemma {:induction false} NestedKeepsStack(stack: seq<int>, ops: seq<PortOp>)
    requires Nested(ops)
    ensures |StackAfter(stack, ops)| == |stack| + Depth(ops)
    ensures stack <= StackAfter(stack, ops)
  {
    assert ops[..|ops|] == ops;
    if ops != [] {
      var front := ops[..|ops| - 1];
      forall k | 0 <= k <= |front|
        ensures Depth(front[..k]) >= 0
      {
        assert front[..k] == ops[..k];
      }
      NestedKeepsStack(stack, front);
    }
  }

  /** A balanced trace, at any depth, restores the stack. */
  lemma BalancedRestoresStack(stack: seq<int>, ops: seq<PortOp>)
    requires Balanced(ops)
    ensures StackAfter(stack, ops) == stack
  {
    NestedKeepsStack(stack, ops);
  }

  /** Every IN returns the result of its matching OUT, whatever was pending before. */
  lemma MatchingResult(stack: seq<int>, ops: seq<PortOp>, i: nat, j: nat)
    requires Matching(ops, i, j)
    ensures ValueIn(stack, ops, j) == ops[i].result
  {
    var before := StackAfter(stack, ops[..i]);
    var between := ops[i + 1..j];
    assert ops[..j] == ops[..i + 1] + between;
    assert ops[..i + 1][..i] == ops[..i];
    StackAfterAppend(stack, ops[..i + 1], between);
    BalancedRestoresStack(before + [ops[i].result], between);
  }

  lemma DepthBetween(ops: seq<PortOp>, i: nat, j: nat, k: nat)
    requires i + k <= j <= |ops|
    ensures Depth(ops[i..j][..k]) == Depth(ops[..i + k]) - Depth(ops[..i])
  {
    assert ops[..i + k] == ops[..i] + ops[i..j][..k];
    DepthAppend(ops[..i], ops[i..j][..k]);
  }

  lemma DepthStep(ops: seq<PortOp>, k: nat)
    requires k < |ops|
    ensures Depth(ops[..k + 1]) == Depth(ops[..k]) + (if ops[k].Out? then 1 else -1)
  {
    assert ops[..k + 1][..k] == ops[..k];
  }

  /** In a nested trace every IN has a matching OUT. */
  lemma MatchExists(ops: seq<PortOp>, j: nat) returns (i: nat)
    requires Nested(ops) && j < |ops| && ops[j].In?
    ensures Matching(ops, i, j)
  {
    DepthStep(ops, j);
    assert Depth(ops[..j + 1]) >= 0;
    i := j;
    while i > 0 && Depth(ops[..i]) >= Depth(ops[..j])
      invariant i <= j
      invariant forall k :: i < k <= j ==> Depth(ops[..k]) >= Depth(ops[..j])
    {
      i := i - 1;
    }
    DepthStep(ops, i);
    var between := ops[i + 1..j];
    forall k | 0 <= k <= |between|
      ensures Depth(between[..k]) == Depth(ops[..i + 1 + k]) - Depth(ops[..i + 1])
    {
      DepthBetween(ops, i + 1, j, k);
    }
    assert between[..|between|] == between;
  }

  /** A request submitted alone or inside others: its OUT, any balanced trace of requests made by
      interrupts, and its IN. The IN returns the request's own result and nothing is left over. */
  lemma SubmitFileRequest(stack: seq<int>, result: int, interrupts: seq<PortOp>)
    requires Balanced(interrupts)
    ensures var ops := [Out(result)] + interrupts + [In];
            && Balanced(ops)
            && ValueIn(stack, ops, |ops| - 1) == result
            && StackAfter(stack, ops) == stack
  {
    var ops := [Out(result)] + interrupts + [In];
    var n := |interrupts|;
    assert ops[1..n + 1] == interrupts;
    MatchingResult(stack, ops, 0, n + 1);
    assert [Out(result)][..0] == [];
    forall k | 0 <= k <= n
      ensures Depth(ops[..k + 1]) == 1 + Depth(interrupts[..k])
    {
      assert ops[..k + 1] == [Out(result)] + interrupts[..k];
      DepthAppend([Out(result)], interrupts[..k]);
    }
    assert interrupts[..n] == interrupts;
    assert ops[..n + 2] == ops && ops[..n + 2][..n + 1] == ops[..n + 1];
    forall k | 0 <= k <= |ops|
      ensures Depth(ops[..k]) >= 0
    {
      if 1 <= k <= n + 1 {
        assert Depth(ops[..k - 1 + 1]) == 1 + Depth(interrupts[..k - 1]);
      }
    }
    BalancedRestoresStack(stack, ops);
  }

  /** An IN with nothing pending returns -1. */
  lemma NothingPending(ops: seq<PortOp>, j: nat)
    requires j < |ops| && Balanced(ops[..j])
    ensures ValueIn([], ops, j) == -1
  {
    BalancedRestoresStack([], ops[..j]);
  }
}
