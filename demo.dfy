/** Callers of the two ways of collecting failures: the list combinations
    of the demonstration driver, and a chain walked with an early stop. */
module ListDemo {
  import opened States
  import opened ListErrors

  /** Three failures added through the builder, in call order. */
  method ReturnMultipleErrors() returns (errs: seq<Entry>)
    ensures errs == [Some(StateError(Degraded, "multiple")),
                     Some(StateError(Degraded, "another error")),
                     Some(StateError(Unavailable, "for some reason"))]
  {
    var b := new StateErrorBuilder();
    b := b.AddDegraded("multiple");
    b := b.AddDegraded("another error");
    b := b.AddUnavailable("for some reason");
    errs := b.Errors();
  }

  /** A nil list, a single failure, a 3-entry list, the nil list again and
      another 3-entry list, combined in that order: 7 entries. */
  method CombineDifferentErrors() returns (errs: seq<Entry>)
    ensures |errs| == 7
    ensures errs[0] == Some(StateError(Degraded, "first single error"))
    ensures errs[1..4] == errs[4..] == [Some(StateError(Degraded, "multiple")),
                                        Some(StateError(Degraded, "another error")),
                                        Some(StateError(Unavailable, "for some reason"))]
  {
    var nilErr: seq<Entry> := [];
    var first := NewDegradedError("first single error");
    var multiple := ReturnMultipleErrors();
    var third := ReturnMultipleErrors();
    var b := new StateErrorBuilder();
    ConcatSingle(nilErr);
    ConcatSingle(multiple);
    ConcatSingle(third);
    b := b.Append([nilErr]);
    b := b.Add([Some(first)]);
    b := b.Append([multiple]);
    b := b.Append([nilErr]);
    b := b.Append([third]);
    errs := b.Errors();
  }
}

module ChainDemo {
  import States
  import opened WrappedErrors

  /** A chain of three failures built by appending, walked with a callback
      that asks to stop at "another error": the third node is never
      visited. */
  method WalkUntilAnotherError() returns (visited: seq<StateError>, ghost nodes: seq<StateError>)
    ensures |nodes| == 3 && Values(nodes) ==
      [States.StateError(States.Degraded, "multiple"),
       States.StateError(States.Degraded, "another error"),
       States.StateError(States.Unavailable, "for some reason")]
    ensures visited == nodes[..2]
    ensures Values(visited) ==
      [States.StateError(States.Degraded, "multiple"),
       States.StateError(States.Degraded, "another error")]
  {
    var first := NewDegradedError("multiple");
    var second := NewDegradedError("another error");
    var third := NewUnavailable("for some reason");
    var last := first.Append(second, [first], [second]);
    assert last == second;
    last := first.Append(third, [first, second], [third]);
    nodes := [first, second, third];
    var fn := (e: States.StateError) => e.msg != "another error";
    assert Values(nodes)[1].msg == "another error";
    assert VisitCount(Values(nodes), fn) == 2;
    visited := ForEach(first, fn, nodes);
  }
}
