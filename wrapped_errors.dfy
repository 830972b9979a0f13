/** The linked-chain way of collecting failures: every failure node owns an
    optional successor, and appending walks to the tail and links the new
    chain there.

    A chain has no owner object: a caller holds its head node. The model
    describes the chain that starts at a node by a ghost sequence of its
    nodes in link order (IsChain), which every operation takes alongside
    the head. */
module WrappedErrors {
  import States

  /** A failure node. `wrapped` is its successor, null at the tail. */
  class StateError {
    const state: States.State
    const msg: string
    var wrapped: StateError?

    /** A single node with no successor. */
    constructor (s: States.State, m: string)
      ensures state == s && msg == m && wrapped == null
      ensures IsChain(this, [this])
    {
      state, msg, wrapped := s, m, null;
    }

    /** The rendering "StateError: <state>: <msg>" of this node alone: it
        reads back as exactly this node's state and message. */
    function Error(): (r: string)
      ensures States.ParseError(r) == States.Some(States.StateError(state, msg))
    {
      States.ParseErrorRoundTrip(States.StateError(state, msg));
      States.StateError(state, msg).Error()
    }

    /** The successor: on a chain with nodes, the chain of the remaining
        nodes, and null at the tail. */
    function Unwrap(ghost nodes: seq<StateError>): (r: StateError?)
      reads this, nodes
      ensures IsChain(this, nodes) ==> (r == null <==> |nodes| == 1)
      ensures IsChain(this, nodes) && r != null ==> IsChain(r, nodes[1..])
    {
      wrapped
    }

    /** Links the chain of err (whose nodes are rest) after the tail of this
        chain (whose nodes are chain) and returns err; a null err changes
        nothing and returns this node. Only the old tail is modified. */
    method Append(err: StateError?, ghost chain: seq<StateError>, ghost rest: seq<StateError>)
      returns (r: StateError)
      requires IsChain(this, chain)
      requires err == null ==> rest == []
      requires err != null ==> IsChain(err, rest) && Disjoint(chain, rest)
      modifies chain[|chain| - 1]
      decreases |chain|
      ensures IsChain(this, chain + rest)
      ensures err == null ==> r == this && unchanged(chain[|chain| - 1])
      ensures err != null ==> r == err && IsChain(err, rest) && chain[|chain| - 1].wrapped == err
    {
      if err == null {
        assert chain + rest == chain;
        return this;
      }
      if wrapped != null {
        r := wrapped.Append(err, chain[1..], rest);
        assert chain + rest == [this] + (chain[1..] + rest);
        return;
      }
      wrapped := err;
      r := err;
      assert chain + rest == [this] + rest;
    }
  }

  /** nodes lists, in link order, the chain that starts at head: each node
      is followed by its successor, the last has none, and no node occurs
      twice. */
  ghost predicate IsChain(head: StateError, nodes: seq<StateError>)
    reads nodes
    decreases |nodes|
  {
    |nodes| >= 1 && nodes[0] == head && head !in nodes[1..] &&
    if head.wrapped == null then |nodes| == 1
    else |nodes| >= 2 && IsChain(head.wrapped, nodes[1..])
  }

  /** Two node sequences share no node. */
  ghost predicate Disjoint(a: seq<StateError>, b: seq<StateError>) {
    forall n :: n in a ==> n !in b
  }

  /** The failures held by a sequence of nodes. */
  function Values(nodes: seq<StateError>): seq<States.StateError>
  {
    seq(|nodes|, i requires 0 <= i < |nodes| => States.StateError(nodes[i].state, nodes[i].msg))
  }

  /** The failures of two node sequences joined are the failures of the
      first followed by those of the second: after Append, the receiver's
      chain holds its old failures followed by those of the appended chain. */
  lemma ValuesConcat(a: seq<StateError>, b: seq<StateError>)
    ensures Values(a + b) == Values(a) + Values(b)
  {
  }

  method NewDegradedError(msg: string) returns (e: StateError)
    ensures fresh(e) && IsChain(e, [e])
    ensures e.state == States.Degraded && e.msg == msg && e.wrapped == null
  {
    e := new StateError(States.Degraded, msg);
  }

  method NewUnavailable(msg: string) returns (e: StateError)
    ensures fresh(e) && IsChain(e, [e])
    ensures e.state == States.Unavailable && e.msg == msg && e.wrapped == null
  {
    e := new StateError(States.Unavailable, msg);
  }

  /** The shape of a chain: each node links to the next one in nodes, the
      last one has no successor, and no node occurs twice (no cycle). */
  lemma {:induction false} ChainShape(head: StateError, nodes: seq<StateError>)
    requires IsChain(head, nodes)
    decreases |nodes|
    ensures nodes[|nodes| - 1].wrapped == null
    ensures forall i :: 0 <= i < |nodes| - 1 ==> nodes[i].wrapped == nodes[i + 1]
    ensures forall i, j :: 0 <= i < j < |nodes| ==> nodes[i] != nodes[j]
  {
    if head.wrapped != null {
      var tail := nodes[1..];
      ChainShape(head.wrapped, tail);
      forall i | 1 <= i < |nodes| - 1
        ensures nodes[i].wrapped == nodes[i + 1]
      {
        assert nodes[i] == tail[i - 1] && nodes[i + 1] == tail[i];
      }
      forall i, j | 0 <= i < j < |nodes|
        ensures nodes[i] != nodes[j]
      {
        assert nodes[j] == tail[j - 1];
        if i > 0 {
          assert nodes[i] == tail[i - 1];
        }
      }
    }
  }

  /** The chain that starts at a node is determined by its links. */
  lemma {:induction false} ChainUnique(head: StateError, a: seq<StateError>, b: seq<StateError>)
    requires IsChain(head, a) && IsChain(head, b)
    decreases |a|
    ensures a == b
  {
    if head.wrapped != null {
      ChainUnique(head.wrapped, a[1..], b[1..]);
      assert a == [head] + a[1..] && b == [head] + b[1..];
    }
  }

  /** How many nodes a walk over a chain with these values visits when
      the callback answers fn: all of them, or up to and including the
      first one it answers false for. */
  function VisitCount(s: seq<States.StateError>, fn: States.StateError -> bool): (n: nat)
    ensures n <= |s|
    ensures n == 0 <==> s == []
  {
    if s == [] then 0
    else if !fn(s[0]) then 1
    else 1 + VisitCount(s[1..], fn)
  }

  /** The walk answers true for every visited node but the last, and it
      stops before the tail only because fn answered false. */
  lemma {:induction false} VisitCountStops(s: seq<States.StateError>, fn: States.StateError -> bool)
    ensures forall k :: 0 <= k < VisitCount(s, fn) - 1 ==> fn(s[k])
    ensures VisitCount(s, fn) < |s| ==> !fn(s[VisitCount(s, fn) - 1])
  {
    if s != [] && fn(s[0]) {
      VisitCountStops(s[1..], fn);
      forall k | 1 <= k < VisitCount(s, fn) - 1
        ensures fn(s[k])
      {
        assert s[k] == s[1..][k - 1];
      }
    }
  }

  /** Calls fn on the nodes of the chain starting at head, in link order,
      until fn answers false or the tail has been visited. The callback is
      given the node's state and message; the result is the sequence of
      nodes it was called on. */
  method ForEach(head: StateError, fn: States.StateError -> bool, ghost nodes: seq<StateError>)
    returns (visited: seq<StateError>)
    requires IsChain(head, nodes)
    ensures visited == nodes[..VisitCount(Values(nodes), fn)]
  {
    ghost var all := Values(nodes);
    var current: StateError? := head;
    ghost var i := 0;
    visited := [];
    while current != null
      invariant 0 <= i <= |nodes|
      invariant visited == nodes[..i]
      invariant current == null ==> i == |nodes|
      invariant current != null ==> i < |nodes| && IsChain(current, nodes[i..])
      invariant VisitCount(all, fn) == i + VisitCount(all[i..], fn)
      decreases |nodes| - i
    {
      assert current == nodes[i];
      var next := fn(States.StateError(current.state, current.msg));
      visited := visited + [current];
      assert nodes[..i + 1] == nodes[..i] + [current];
      if !next {
        i := i + 1;
        break;
      }
      assert all[i..][1..] == all[i + 1..];
      assert nodes[i..][1..] == nodes[i + 1..];
      current := current.Unwrap(nodes[i..]);
      i := i + 1;
    }
  }
}
