/** The atomic unit shared by both ways of collecting failures: a state
    (degraded or unavailable) and a free-text message, and its rendering
    "StateError: <state>: <msg>". */
module States {

  datatype Option<+T> = None | Some(value: T)

  /** The two failure states. */
  datatype State = Degraded | Unavailable

  /** The string value of a state constant. The unavailable state is spelled
      "unavaiable", exactly as the constant is declared. */
  function StateText(s: State): (t: string)
    ensures t == "degraded" <==> s == Degraded
    ensures t == "unavaiable" <==> s == Unavailable
  {
    match s
    case Degraded => "degraded"
    case Unavailable => "unavaiable"
  }

  /** The tag every rendered failure starts with. */
  const Tag: string := "StateError: "

  /** The separator between the state and the message. */
  const Separator: string := ": "

  /** One failure: a state and a message for the user. */
  datatype StateError = StateError(state: State, msg: string) {

    /** The rendering "StateError: <state>: <msg>". */
    function Error(): (r: string)
      ensures |r| == |Tag| + |StateText(state)| + |Separator| + |msg|
      ensures r[..|Tag|] == Tag
      ensures r[|Tag|..|Tag| + |StateText(state)|] == StateText(state)
      ensures r[|Tag| + |StateText(state)|..|r| - |msg|] == Separator
      ensures r[|r| - |msg|..] == msg
    {
      Tag + StateText(state) + Separator + msg
    }
  }

  predicate HasPrefix(s: string, p: string) {
    |p| <= |s| && s[..|p|] == p
  }

  /** Reads a rendered failure back: the inverse of Error(). Only strings
      that some failure renders to are accepted. */
  function ParseError(r: string): (e: Option<StateError>)
    ensures e.Some? ==> e.value.Error() == r
  {
    if !HasPrefix(r, Tag) then None
    else
      var rest := r[|Tag|..];
      if HasPrefix(rest, StateText(Degraded) + Separator) then
        var e := StateError(Degraded, rest[|StateText(Degraded) + Separator|..]);
        assert r == Tag + rest;
        assert rest == StateText(Degraded) + Separator + e.msg;
        Some(e)
      else if HasPrefix(rest, StateText(Unavailable) + Separator) then
        var e := StateError(Unavailable, rest[|StateText(Unavailable) + Separator|..]);
        assert r == Tag + rest;
        assert rest == StateText(Unavailable) + Separator + e.msg;
        Some(e)
      else None
  }

  /** Every rendered failure reads back as itself. */
  lemma ParseErrorRoundTrip(e: StateError)
    ensures ParseError(e.Error()) == Some(e)
  {
    var r := e.Error();
    assert HasPrefix(r, Tag);
    var rest := r[|Tag|..];
    assert rest == StateText(e.state) + Separator + e.msg;
    match e.state
    case Degraded =>
      assert HasPrefix(rest, StateText(Degraded) + Separator);
    case Unavailable =>
      assert !HasPrefix(rest, StateText(Degraded) + Separator) by {
        assert rest[0] == 'u' != StateText(Degraded)[0];
      }
      assert HasPrefix(rest, StateText(Unavailable) + Separator);
  }

  /** Different failures never render to the same text. */
  lemma ErrorInjective(a: StateError, b: StateError)
    requires a.Error() == b.Error()
    ensures a == b
  {
    ParseErrorRoundTrip(a);
    ParseErrorRoundTrip(b);
  }
}
