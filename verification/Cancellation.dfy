/** The map of operations that can be cancelled, under any interleaving of calls. */
module Cancellation {
  import opened Wrappers

  type Key = int
  type CallId = nat
  type OperationAddr = nat

  /** A call has built its operation, has published it and is in the TEE, or has withdrawn it. */
  datatype Phase = Built | InTee | Withdrawn

  datatype Call = Call(key: Key, operation: OperationAddr, phase: Phase)

  /** The map, and the calls on whose stacks the operations are. */
  datatype State = State(operations: map<Key, OperationAddr>, calls: map<CallId, Call>)

  /** One step of OpenSession or InvokeCommand, or a whole RequestCancellation; every step is atomic. */
  datatype Step =
    | Build(id: CallId, key: Key, operation: OperationAddr)
    | Publish(id: CallId)
    | Withdraw(id: CallId)
    | Return(id: CallId)
    | Cancel(key: Key)

  const Start: State := State(map[], map[])

  /** An operation is a local of its call, so no two calls have theirs at one address at the same time. */
  predicate Enabled(s: State, step: Step) {
    match step
    case Build(id, _, a) => id !in s.calls && forall c :: c in s.calls ==> s.calls[c].operation != a
    case Publish(id) => id in s.calls && s.calls[id].phase == Built
    case Withdraw(id) => id in s.calls && s.calls[id].phase == InTee
    case Return(id) => id in s.calls && s.calls[id].phase == Withdrawn
    case Cancel(_) => true
  }

  /** `emplace` keeps an entry that is already there; `erase` removes whatever is under the key. */
  function Apply(s: State, step: Step): State
    requires Enabled(s, step)
  {
    match step
    case Build(id, key, a) => s.(calls := s.calls[id := Call(key, a, Built)])
    case Publish(id) =>
      var c := s.calls[id];
      State(if c.key in s.operations then s.operations else s.operations[c.key := c.operation],
            s.calls[id := c.(phase := InTee)])
    case Withdraw(id) =>
      var c := s.calls[id];
      State(s.operations - {c.key}, s.calls[id := c.(phase := Withdrawn)])
    case Return(id) => s.(calls := s.calls - {id})
    case Cancel(_) => s
  }

  predicate Runs(s: State, steps: seq<Step>)
    decreases |steps|
  {
    steps == [] || (Enabled(s, steps[0]) && Runs(Apply(s, steps[0]), steps[1..]))
  }

  function After(s: State, steps: seq<Step>): State
    requires Runs(s, steps)
    decreases |steps|
  {
    if steps == [] then s else After(Apply(s, steps[0]), steps[1..])
  }

  /** The operation that a cancellation reaches. */
  function Reached(s: State, key: Key): Option<OperationAddr> {
    if key in s.operations then Some(s.operations[key]) else None
  }

  /** The call whose operation it is is between its publishing and its withdrawing, under this key. */
  predicate Live(s: State, key: Key, a: OperationAddr) {
    exists id :: id in s.calls && s.calls[id] == Call(key, a, InTee)
  }

  predicate AllLive(s: State) {
    forall k :: k in s.operations ==> Live(s, k, s.operations[k])
  }

  lemma StepKeepsLive(s: State, step: Step)
    requires AllLive(s) && Enabled(s, step)
    ensures AllLive(Apply(s, step))
  {
    var s' := Apply(s, step);
    forall k | k in s'.operations ensures Live(s', k, s'.operations[k]) {
      if k in s.operations {
        var id :| id in s.calls && s.calls[id] == Call(k, s.operations[k], InTee);
        assert s'.calls[id] == s.calls[id];
      } else {
        assert s'.calls[step.id] == Call(k, s'.operations[k], InTee);
      }
    }
  }

  lemma {:induction false} RunKeepsLive(s: State, steps: seq<Step>)
    requires AllLive(s) && Runs(s, steps)
    ensures AllLive(After(s, steps))
    decreases |steps|
  {
    if steps != [] {
      StepKeepsLive(s, steps[0]);
      RunKeepsLive(Apply(s, steps[0]), steps[1..]);
    }
  }

  /** Whatever calls share a key, a cancellation reaches the operation of a call that is in the TEE, and with no
      call in the TEE there is nothing to reach. */
  lemma CancelsOnlyLive(steps: seq<Step>, key: Key)
    requires Runs(Start, steps)
    ensures var s := After(Start, steps);
            && (Reached(s, key).Some? ==> Live(s, key, Reached(s, key).value))
            && ((forall id :: id in s.calls ==> s.calls[id].phase != InTee) ==> s.operations == map[])
  {
    RunKeepsLive(Start, steps);
    var s := After(Start, steps);
    if forall id :: id in s.calls ==> s.calls[id].phase != InTee {
      assert forall k :: k in s.operations ==> Live(s, k, s.operations[k]);
      assert s.operations.Keys == {};
    }
  }

  // ---------- calls with different keys ----------

  predicate KeysApart(s: State) {
    forall a, b :: a in s.calls && b in s.calls && a != b ==> s.calls[a].key != s.calls[b].key
  }

  /** No two calls share a key at any moment of the run. */
  predicate RunsApart(s: State, steps: seq<Step>)
    requires Runs(s, steps)
    decreases |steps|
  {
    KeysApart(s) && (steps != [] ==> RunsApart(Apply(s, steps[0]), steps[1..]))
  }

  /** The map holds exactly the operations of the calls in the TEE, each under the key of its call. */
  predicate Exact(s: State) {
    AllLive(s) && forall id :: id in s.calls && s.calls[id].phase == InTee ==>
                    Reached(s, s.calls[id].key) == Some(s.calls[id].operation)
  }

  lemma StepKeepsExact(s: State, step: Step)
    requires Exact(s) && Enabled(s, step) && KeysApart(s) && KeysApart(Apply(s, step))
    ensures Exact(Apply(s, step))
  {
    StepKeepsLive(s, step);
    var s' := Apply(s, step);
    forall id | id in s'.calls && s'.calls[id].phase == InTee
      ensures Reached(s', s'.calls[id].key) == Some(s'.calls[id].operation)
    {
      if step == Publish(id) {
        var k := s.calls[id].key;
        assert k in s.operations ==> Live(s, k, s.operations[k]);
      }
    }
  }

  /** While no two calls share a key, every call in the TEE can be cancelled under its key. */
  lemma {:induction false} CancelsEveryCall(s: State, steps: seq<Step>)
    requires Exact(s) && Runs(s, steps) && RunsApart(s, steps)
    ensures Exact(After(s, steps))
    decreases |steps|
  {
    if steps != [] {
      assert KeysApart(Apply(s, steps[0])) by {
        if steps[1..] == [] {}
      }
      StepKeepsExact(s, steps[0]);
      CancelsEveryCall(Apply(s, steps[0]), steps[1..]);
    }
  }

  /** Two calls that share a key: cancelling reaches the first one only, and once the second has withdrawn, the
      first one, still in the TEE, cannot be cancelled any more. */
  lemma SharedKey(key: Key)
    ensures var steps := [Build(0, key, 10), Publish(0), Build(1, key, 11), Publish(1), Withdraw(1)];
            && Runs(Start, steps) && Runs(Start, steps[..4])
            && Reached(After(Start, steps[..4]), key) == Some(10)
            && Live(After(Start, steps), key, 10) && Reached(After(Start, steps), key) == None
  {
    var a, b, c, d, e := Build(0, key, 10), Publish(0), Build(1, key, 11), Publish(1), Withdraw(1);
    var s1 := Apply(Start, a);
    var s2 := Apply(s1, b);
    var s3 := Apply(s2, c);
    var s4 := Apply(s3, d);
    Prepend(s3, d, []);
    Prepend(s2, c, [d]);
    Prepend(s1, b, [c, d]);
    Prepend(Start, a, [b, c, d]);
    Prepend(s4, e, []);
    Prepend(s3, d, [e]);
    Prepend(s2, c, [d, e]);
    Prepend(s1, b, [c, d, e]);
    Prepend(Start, a, [b, c, d, e]);
    assert Apply(s4, e).calls[0] == Call(key, 10, InTee);
    assert [a, b, c, d, e][..4] == [a, b, c, d];
  }

  lemma Prepend(s: State, step: Step, steps: seq<Step>)
    requires Enabled(s, step) && Runs(Apply(s, step), steps)
    ensures Runs(s, [step] + steps) && After(s, [step] + steps) == After(Apply(s, step), steps)
  {
  }

  // ---------- the map itself ----------

  /** The global `operations_map`, and the calls that are under way. */
  class OperationsMap {
    var operations: map<Key, OperationAddr>
    ghost var calls: map<CallId, Call>

    ghost function Now(): State
      reads this
    {
      State(operations, calls)
    }

    constructor ()
      ensures Now() == Start
    {
      operations := map[];
      calls := map[];
    }

    /** Before the TEE is called. */
    method Emplace(key: Key, operation: OperationAddr, ghost id: CallId)
      requires id in calls && calls[id] == Call(key, operation, Built)
      modifies this
      ensures Now() == Apply(old(Now()), Publish(id))
    {
      if key !in operations {
        operations := operations[key := operation];
      }
      calls := calls[id := calls[id].(phase := InTee)];
    }

    /** After the TEE has returned. */
    method Erase(key: Key, ghost id: CallId)
      requires id in calls && calls[id].key == key && calls[id].phase == InTee
      modifies this
      ensures Now() == Apply(old(Now()), Withdraw(id))
    {
      operations := operations - {key};
      calls := calls[id := calls[id].(phase := Withdrawn)];
    }

    /** RequestCancellation: what it finds under the key gets the request. */
    method RequestCancellation(key: Key) returns (cancelled: Option<OperationAddr>)
      requires AllLive(Now())
      ensures cancelled == Reached(Now(), key)
      ensures cancelled.Some? ==> Live(Now(), key, cancelled.value)
    {
      cancelled := None;
      if key in operations {
        cancelled := Some(operations[key]);
      }
    }
  }
}
