/** `tsqueue`: a FIFO of strings with a one-way `done` flag. The mutex and the
    condition variable serialise the operations; what remains, once the
    operations are taken one at a time, is the state machine below. A `pop` that
    would wait (empty and not closed) is not enabled. */
module Queue {
  import opened Wrappers

  /** The queue's state: the pending items, head first, and the `done` flag. */
  datatype State = State(items: seq<string>, closed: bool)

  datatype Op = Push(value: string) | Pop | Close

  /** A newly constructed queue. */
  const Initial: State := State([], false)

  /** Whether an operation returns without waiting: only `pop` waits, and only
      while the queue is empty and open. */
  predicate Enabled(s: State, op: Op) {
    !(op.Pop? && s.items == [] && !s.closed)
  }

  /** One operation: the new state and, for `pop`, the value it returns. */
  function Step(s: State, op: Op): (r: (State, Option<string>))
    requires Enabled(s, op)
    ensures s.closed ==> r.0.closed
    ensures op.Close? ==> r.0.closed
    ensures op.Pop? ==> (r.1 == None <==> s.items == [] && s.closed)
  {
    match op
    case Push(v) => (State(s.items + [v], s.closed), None)
    case Pop =>
      if s.items == [] then (s, None)
      else (State(s.items[1..], s.closed), Some(s.items[0]))
    case Close => (State(s.items, true), None)
  }

  /** A sequence of operations run one after another; `None` when one of them
      would wait forever because nothing else runs. The second component lists
      the values returned by the pops, in order. */
  function Run(s: State, ops: seq<Op>): Option<(State, seq<Option<string>>)>
    decreases ops
  {
    if ops == [] then Some((s, []))
    else if !Enabled(s, ops[0]) then None
    else
      var next := Step(s, ops[0]);
      var rest := Run(next.0, ops[1..]);
      if rest.None? then None
      else Some((rest.value.0, Returned(ops[0], next.1) + rest.value.1))
  }

  /** What an operation contributes to the list of returned values. */
  function Returned(op: Op, out: Option<string>): seq<Option<string>> {
    if op.Pop? then [out] else []
  }

  function Pushes(xs: seq<string>): (ops: seq<Op>)
    ensures |ops| == |xs|
  {
    if xs == [] then [] else [Push(xs[0])] + Pushes(xs[1..])
  }

  function Pops(n: nat): (ops: seq<Op>)
    ensures |ops| == n
  {
    if n == 0 then [] else [Pop] + Pops(n - 1)
  }

  function Somes(xs: seq<string>): (r: seq<Option<string>>)
    ensures |r| == |xs| && forall i :: 0 <= i < |xs| ==> r[i] == Some(xs[i])
  {
    seq(|xs|, i requires 0 <= i < |xs| => Some(xs[i]))
  }

  function Nones(n: nat): (r: seq<Option<string>>)
    ensures |r| == n && forall i :: 0 <= i < n ==> r[i] == None
  {
    seq(n, _ => None)
  }

  /** `done` never goes back to false, whatever runs. */
  lemma {:induction false} ClosedIsMonotone(s: State, ops: seq<Op>)
    requires s.closed && Run(s, ops).Some?
    ensures Run(s, ops).value.0.closed
    decreases ops
  {
    if ops != [] {
      ClosedIsMonotone(Step(s, ops[0]).0, ops[1..]);
    }
  }

  /** Once closed, no operation waits: every sequence of operations runs to the end. */
  lemma {:induction false} ClosedNeverBlocks(s: State, ops: seq<Op>)
    requires s.closed
    ensures Run(s, ops).Some?
    decreases ops
  {
    if ops != [] {
      ClosedNeverBlocks(Step(s, ops[0]).0, ops[1..]);
    }
  }

  /** Closing twice is closing once. */
  lemma CloseIdempotent(s: State)
    ensures Step(Step(s, Close).0, Close) == Step(s, Close)
  {}

  /** An empty, closed queue answers every pop with `nullopt` and stays as it is. */
  lemma {:induction false} DrainedStaysDrained(n: nat)
    ensures Run(State([], true), Pops(n)) == Some((State([], true), Nones(n)))
  {
    if n > 0 {
      DrainedStaysDrained(n - 1);
      assert Pops(n)[1..] == Pops(n - 1);
      assert [None] + Nones(n - 1) == Nones(n);
    }
  }

  /** Running two sequences of operations is running the first, then the second. */
  lemma {:induction false} RunConcat(s: State, a: seq<Op>, b: seq<Op>)
    requires Run(s, a).Some?
    ensures var mid := Run(s, a).value;
      Run(s, a + b) ==
        if Run(mid.0, b).None? then None
        else Some((Run(mid.0, b).value.0, mid.1 + Run(mid.0, b).value.1))
    decreases a
  {
    if a == [] {
      assert a + b == b;
      assert Run(s, a).value == (s, []);
      if Run(s, b).Some? { assert [] + Run(s, b).value.1 == Run(s, b).value.1; }
    } else {
      assert (a + b)[0] == a[0];
      assert (a + b)[1..] == a[1..] + b;
      var next := Step(s, a[0]);
      RunConcat(next.0, a[1..], b);
      var restA := Run(next.0, a[1..]).value;
      var pre := Returned(a[0], next.1);
      assert Run(s, a).value == (restA.0, pre + restA.1);
      if Run(restA.0, b).Some? {
        var outB := Run(restA.0, b).value.1;
        assert pre + (restA.1 + outB) == (pre + restA.1) + outB;
      }
    }
  }

  /** Pushes append in order and never wait, open or closed. */
  lemma {:induction false} PushesAppend(s: State, xs: seq<string>)
    ensures Run(s, Pushes(xs)) == Some((State(s.items + xs, s.closed), []))
    decreases xs
  {
    if xs == [] {
      assert s.items + xs == s.items;
    } else {
      var t := State(s.items + [xs[0]], s.closed);
      PushesAppend(t, xs[1..]);
      var ops := Pushes(xs);
      assert ops[0] == Push(xs[0]) && ops[1..] == Pushes(xs[1..]);
      assert Step(s, ops[0]) == (t, None);
      assert t.items + xs[1..] == s.items + xs;
      assert Run(t, ops[1..]) == Some((State(s.items + xs, s.closed), []));
      var nothing: seq<Option<string>> := [];
      assert Returned(ops[0], None) + nothing == [];
    }
  }

  /** Popping as many times as there are items returns them head first. */
  lemma {:induction false} PopsInOrder(items: seq<string>, closed: bool)
    ensures Run(State(items, closed), Pops(|items|)) == Some((State([], closed), Somes(items)))
  {
    if items != [] {
      PopsInOrder(items[1..], closed);
      assert Pops(|items|)[1..] == Pops(|items[1..]|);
      assert [Some(items[0])] + Somes(items[1..]) == Somes(items);
    }
  }

  /** FIFO: whatever was queued, then `xs` pushed, comes out in that order. */
  lemma Fifo(s: State, xs: seq<string>)
    ensures Run(s, Pushes(xs) + Pops(|s.items + xs|)) ==
            Some((State([], s.closed), Somes(s.items + xs)))
  {
    PushesAppend(s, xs);
    PopsInOrder(s.items + xs, s.closed);
    FifoSteps(s, Pushes(xs), Pops(|s.items + xs|), State(s.items + xs, s.closed), Somes(s.items + xs));
  }

  /** Glue for `Fifo`: the run of `a + b` from the run of `a` and the run of `b`. */
  lemma FifoSteps(s: State, a: seq<Op>, b: seq<Op>, mid: State, outB: seq<Option<string>>)
    requires Run(s, a) == Some((mid, []))
    requires Run(mid, b) == Some((State([], s.closed), outB))
    ensures Run(s, a + b) == Some((State([], s.closed), outB))
  {
    RunConcat(s, a, b);
    var nothing: seq<Option<string>> := [];
    assert nothing + outB == outB;
  }

  /** The queue object. `closeCount` is bookkeeping only: it counts calls of `close`. */
  class TsQueue {
    var items: seq<string>
    var closed: bool
    ghost var closeCount: nat

    function View(): State
      reads this
    {
      State(items, closed)
    }

    /** A new queue is empty and open. */
    constructor ()
      ensures View() == Initial && closeCount == 0
    {
      items := [];
      closed := false;
      closeCount := 0;
    }

    /** Appends to the tail; the queue does not check `done`. */
    method Push(value: string)
      modifies this
      ensures items == old(items) + [value] && closed == old(closed)
      ensures closeCount == old(closeCount)
      ensures View() == Step(old(View()), Op.Push(value)).0
    {
      items := items + [value];
    }

    /** Takes the head if there is one; `None` when empty and closed. On an
        empty open queue the source waits, so the call is not enabled there. */
    method Pop() returns (r: Option<string>)
      requires Enabled(View(), Op.Pop)
      modifies this
      ensures old(items) != [] ==> r == Some(old(items)[0]) && items == old(items)[1..]
      ensures old(items) == [] ==> r == None && items == []
      ensures closed == old(closed) && closeCount == old(closeCount)
      ensures (View(), r) == Step(old(View()), Op.Pop)
    {
      if items == [] {
        r := None;
      } else {
        r := Some(items[0]);
        items := items[1..];
      }
    }

    /** Sets `done`; the items stay. */
    method Close()
      modifies this
      ensures closed && items == old(items)
      ensures closeCount == old(closeCount) + 1
      ensures View() == Step(old(View()), Op.Close).0
    {
      closed := true;
      closeCount := closeCount + 1;
    }
  }
}
