/** The flat-list way of collecting failures: a builder that keeps one
    ordered sequence of failures and grows it in place. An entry is an
    optional failure because the sequence holds pointers and nothing
    stops a nil one from being added. */
module ListErrors {
  import opened States

  /** One entry of the list: None stands for a nil pointer. */
  type Entry = Option<StateError>

  function NewDegradedError(msg: string): (e: StateError)
    ensures e.state == Degraded && e.msg == msg
  {
    StateError(Degraded, msg)
  }

  function NewUnavailable(msg: string): (e: StateError)
    ensures e.state == Unavailable && e.msg == msg
  {
    StateError(Unavailable, msg)
  }

  /** The lists of a variadic argument joined in argument order. */
  function Concat(lists: seq<seq<Entry>>): seq<Entry>
  {
    if lists == [] then [] else lists[0] + Concat(lists[1..])
  }

  /** Total number of entries in a list of lists. */
  function TotalLength(lists: seq<seq<Entry>>): nat {
    if lists == [] then 0 else |lists[0]| + TotalLength(lists[1..])
  }

  /** Joining distributes over splitting the argument lists. */
  lemma {:induction false} ConcatAppend(a: seq<seq<Entry>>, b: seq<seq<Entry>>)
    ensures Concat(a + b) == Concat(a) + Concat(b)
  {
    if a == [] {
      assert a + b == b;
    } else {
      assert (a + b)[1..] == a[1..] + b;
      ConcatAppend(a[1..], b);
    }
  }

  /** A single argument list is joined as itself. */
  lemma ConcatSingle(l: seq<Entry>)
    ensures Concat([l]) == l
  {
  }

  /** Joining neither loses nor invents entries: its length is the sum of
      the argument lengths. */
  lemma {:induction false} ConcatLength(lists: seq<seq<Entry>>)
    ensures |Concat(lists)| == TotalLength(lists)
  {
    if lists != [] {
      ConcatLength(lists[1..]);
    }
  }

  /** An entry is in the join exactly when it is in one of the arguments;
      in particular nil entries inside an argument are kept. */
  lemma {:induction false} ConcatMembership(lists: seq<seq<Entry>>, x: Entry)
    ensures x in Concat(lists) <==> exists i :: 0 <= i < |lists| && x in lists[i]
  {
    if lists != [] {
      ConcatMembership(lists[1..], x);
      if x in Concat(lists[1..]) {
        var i :| 0 <= i < |lists[1..]| && x in lists[1..][i];
        assert x in lists[i + 1];
      }
      if exists i :: 0 <= i < |lists| && x in lists[i] {
        var i :| 0 <= i < |lists| && x in lists[i];
        if i > 0 {
          assert x in lists[1..][i - 1];
        }
      }
    }
  }

  /** Arguments that are all empty contribute nothing. */
  lemma {:induction false} ConcatOfEmpties(lists: seq<seq<Entry>>)
    requires forall i :: 0 <= i < |lists| ==> lists[i] == []
    ensures Concat(lists) == []
  {
    if lists != [] {
      ConcatOfEmpties(lists[1..]);
    }
  }

  /** Accumulates failures in insertion order. */
  class StateErrorBuilder {
    var errors: seq<Entry>

    /** A fresh builder holds no failures. */
    constructor ()
      ensures errors == []
    {
      errors := [];
    }

    method addError(s: State, msg: string) returns (b: StateErrorBuilder)
      modifies this
      ensures b == this
      ensures errors == old(errors) + [Some(StateError(s, msg))]
    {
      errors := errors + [Some(StateError(s, msg))];
      b := this;
    }

    /** Appends the given failures verbatim, nil ones included. */
    method Add(serrs: seq<Entry>) returns (b: StateErrorBuilder)
      modifies this
      ensures b == this
      ensures errors == old(errors) + serrs
    {
      ConcatSingle(serrs);
      b := Append([serrs]);
    }

    method AddDegraded(msg: string) returns (b: StateErrorBuilder)
      modifies this
      ensures b == this
      ensures errors == old(errors) + [Some(StateError(Degraded, msg))]
    {
      b := addError(Degraded, msg);
    }

    method AddUnavailable(msg: string) returns (b: StateErrorBuilder)
      modifies this
      ensures b == this
      ensures errors == old(errors) + [Some(StateError(Unavailable, msg))]
    {
      b := addError(Unavailable, msg);
    }

    /** Appends a failure with state s and the error's text, unless the error
        is nil. An error is given by its text: None is the nil error. */
    method AddIfNotNil(err: Option<string>, s: State) returns (b: StateErrorBuilder)
      modifies this
      ensures b == this
      ensures err.None? ==> errors == old(errors)
      ensures err.Some? ==> errors == old(errors) + [Some(StateError(s, err.value))]
    {
      if err.None? {
        return this;
      }
      b := addError(s, err.value);
    }

    /** Appends every entry of every argument list, in argument order,
        skipping empty lists. */
    method Append(serrList: seq<seq<Entry>>) returns (b: StateErrorBuilder)
      modifies this
      ensures b == this
      ensures errors == old(errors) + Concat(serrList)
    {
      if |serrList| == 0 {
        return this;
      }
      for i := 0 to |serrList|
        invariant errors == old(errors) + Concat(serrList[..i])
      {
        ConcatAppend(serrList[..i], [serrList[i]]);
        ConcatSingle(serrList[i]);
        assert serrList[..i + 1] == serrList[..i] + [serrList[i]];
        var serrs := serrList[i];
        if |serrs| == 0 {
          continue;
        }
        errors := errors + serrs;
      }
      assert serrList[..|serrList|] == serrList;
      b := this;
    }

    /** The failures accumulated so far. */
    function Errors(): (r: seq<Entry>)
      reads this
      ensures r == errors
    {
      errors
    }
  }
}
