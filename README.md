# compare-errorlist in Dafny

A model of the two ways the compare-errorlist repository collects "state"
failures. Every failure carries a state, either degraded or unavailable, and
a message for the user.

- **Flat list** (`list/error.go`). `StateErrorBuilder` keeps one ordered
  slice of failure pointers and grows it in place. `addError`,
  `AddDegraded` and `AddUnavailable` append one entry. `AddIfNotNil` appends
  only for a non-nil error. `Append` concatenates any number of lists and
  skips empty ones. `Add` delegates to `Append`. `Errors` returns the slice.
- **Linked chain** (`wrapped/error.go`). Each `*StateError` node owns an
  optional successor `wrapped`. `Append` walks recursively to the tail and
  links the new chain there. `Unwrap` returns the successor. `ForEach` walks
  the chain in link order and stops early when the callback asks it to.

Both render a failure as `"StateError: <state>: <msg>"`. The unavailable
state renders as `"unavaiable"`, the spelling of the constant in both
files.

Files:

- `states.dfy`, module `States`: the state enumeration, the failure value
  and its rendering. `ParseError` is the rendering's inverse. It is not in
  the source; it exists to state that the rendering loses nothing. Both Go
  packages declare identical `State` constants (list/error.go:7-12,
  wrapped/error.go:8-13), so the model declares them once.
- `list_errors.dfy`, module `ListErrors`: the list constructors and the
  class `StateErrorBuilder`. Its field `errors` is a `seq` of
  `Option<StateError>`. `None` is a nil pointer, because the slice holds
  pointers and `Append` does not filter out nil ones. `Concat` specifies
  `Append`: it joins the argument lists in order.
- `wrapped_errors.dfy`, module `WrappedErrors`: the class `StateError`
  (a chain node) with its `wrapped` field. No object owns a chain, so every
  operation takes a ghost sequence `nodes` along with the head. `IsChain(head,
  nodes)` says that `nodes` lists the chain from `head` in link order, that
  the last node has no successor, and that no node appears twice. `Append`
  is declared to modify only the old tail node. `VisitCount` specifies how
  far `ForEach` walks.
- `demo.dfy`: the list combinations from the demonstration driver, and a
  chain walk that stops early.

## Model

| member | source | states |
|---|---|---|
| `States.StateText` | list/error.go:7-12 | the two states render as "degraded" and "unavaiable", and each text belongs to exactly one state |
| `States.StateError.Error` | list/error.go:28-30 | the rendering is "StateError: ", then the state's text, then ": ", then the message, and nothing else |
| `States.ParseError` | list/error.go:28-30 | a string that parses to a failure is exactly that failure's rendering |
| `States.ParseErrorRoundTrip` | list/error.go:28-30 | every rendering parses back to the failure it came from |
| `States.ErrorInjective` | list/error.go:28-30 | two failures with the same rendering are equal (state and message) |
| `ListErrors.NewDegradedError` | list/error.go:20-22 | builds a failure with state degraded and the given message |
| `ListErrors.NewUnavailable` | list/error.go:24-26 | builds a failure with state unavailable and the given message |
| `ListErrors.ConcatAppend` | list/error.go:73-79 | joining lists split into two groups gives the join of the first group followed by the join of the second, so appending in several calls equals appending in one |
| `ListErrors.ConcatSingle` | list/error.go:48-50 | one argument list is joined as itself, so `Add(serrs...)` is `Append` of the single list `serrs` |
| `ListErrors.ConcatLength` | list/error.go:73-79 | the join has as many entries as all argument lists together |
| `ListErrors.ConcatMembership` | list/error.go:77-78 | an entry is in the join exactly when it is in some argument list; nil entries inside an argument are kept |
| `ListErrors.ConcatOfEmpties` | list/error.go:69-76 | arguments that are all empty, or no arguments at all, add nothing |
| `ListErrors.StateErrorBuilder.constructor` | list/error.go:38-40 | a fresh builder holds no failures |
| `ListErrors.StateErrorBuilder.addError` | list/error.go:42-46 | appends exactly one entry with the given state and message after all old entries, which are unchanged, and returns the same builder |
| `ListErrors.StateErrorBuilder.Add` | list/error.go:48-50 | the new list is the old one followed by the given entries verbatim, nil entries included; returns the same builder |
| `ListErrors.StateErrorBuilder.AddDegraded` | list/error.go:52-54 | the new list is the old one followed by one degraded entry with the message; returns the same builder |
| `ListErrors.StateErrorBuilder.AddUnavailable` | list/error.go:56-58 | the new list is the old one followed by one unavailable entry with the message; returns the same builder |
| `ListErrors.StateErrorBuilder.AddIfNotNil` | list/error.go:60-66 | a nil error leaves the list unchanged; otherwise one entry with state s and the error's text is appended; returns the same builder |
| `ListErrors.StateErrorBuilder.Append` | list/error.go:68-82 | the new list is the old one followed by the argument lists joined in argument order (empty lists skipped, zero lists a no-op); returns the same builder |
| `ListErrors.StateErrorBuilder.Errors` | list/error.go:84-86 | returns the accumulated entries; empty for a fresh builder (by the constructor's contract) |
| `ListDemo.ReturnMultipleErrors` | main.go:45-57 | three builder calls give exactly those three entries in call order, read back through `Errors` |
| `ListDemo.CombineDifferentErrors` | main.go:59-75 | nil, one failure, a 3-entry list, nil and another 3-entry list combine to 7 entries in that order |
| `WrappedErrors.StateError.constructor` | wrapped/error.go:15-22 | a node with the given state and message and no successor is a one-node chain |
| `WrappedErrors.NewDegradedError` | wrapped/error.go:26-28 | a fresh one-node chain with state degraded, the given message and no successor |
| `WrappedErrors.NewUnavailable` | wrapped/error.go:30-32 | a fresh one-node chain with state unavailable, the given message and no successor |
| `WrappedErrors.StateError.Error` | wrapped/error.go:34-36 | the node's rendering parses back to exactly its own state and message |
| `WrappedErrors.StateError.Unwrap` | wrapped/error.go:38-41 | the result is null exactly at the tail; otherwise it heads the chain of the remaining nodes |
| `WrappedErrors.StateError.Append` | wrapped/error.go:43-60 | a nil argument returns the receiver and changes nothing; otherwise the receiver's chain becomes its old nodes followed by the argument's nodes, still acyclic, the old tail now links to the argument, the argument node itself is returned, and no object but the old tail is modified |
| `WrappedErrors.ChainShape` | wrapped/error.go:50-58 | in a chain each node links to the next, the last has no successor, and no node occurs twice |
| `WrappedErrors.ValuesConcat` | wrapped/error.go:50-58 | the failures of a joined node sequence are those of the first part followed by those of the second, so the chain `Append` leaves holds the old failures followed by the appended ones |
| `WrappedErrors.ChainUnique` | wrapped/error.go:15-22 | the chain that starts at a node is determined by the links, so the node sequence that `Append` ensures is the chain's only description |
| `WrappedErrors.VisitCount` | wrapped/error.go:66-87 | the walk visits at most the whole chain, and at least one node of a non-empty chain |
| `WrappedErrors.VisitCountStops` | wrapped/error.go:79-82 | every visited node but the last got the answer true, and the walk ends before the tail only after an answer false |
| `WrappedErrors.ForEach` | wrapped/error.go:62-87 | the nodes the callback is called on are exactly the first `VisitCount` nodes of the chain, in link order |
| `ChainDemo.WalkUntilAnotherError` | wrapped/error.go:43-87 | on the chain degraded "multiple", degraded "another error", unavailable "for some reason", a callback that stops at the second node sees the first two nodes only |

## Left out

- `main.go`'s chain code uses `JoinErrLists`, `Report`, an exported `Wrapped` field and value-typed failures. None of these exist in `wrapped/error.go`, so they are not modelled. The per-state status summary is not part of either core file either.
- `main.go`'s printing (`main`, `errorList`, `wrappedError`, `esProcessErrors`): output only.
- Dynamic type recovery (`errors.As`, `errors.Unwrap` and the `.(*StateError)` assertions in wrapped/error.go:52, 59, 74, 86). The successor is a typed `StateError?` reference, so the assertions cannot fail and `ForEach`'s panic branch does not exist in the model.
- Go slice aliasing and capacity: the builder holds a value `seq`, so a slice returned by `Errors` is a snapshot that later appends cannot touch.
- `fmt.Sprintf` internals: rendering is string concatenation. The commented-out debug prints are not modelled.
- A nil `*StateError` given to `ForEach` as head (a non-nil interface holding a nil pointer). The head is required to be non-null.
- WrappedErrors.StateError.Append: the receiver's chain and the argument's chain are required to be acyclic and to share no node. The source has no cycle guard: on a shared node it links a cycle, and on a cyclic receiver it never returns.
- WrappedErrors.ForEach: the callback is a pure function of the node's state and message. A Go callback could read or change the node; only the sequence of nodes it is called on is modelled.
- ListErrors.StateErrorBuilder.AddIfNotNil: a non-nil error is given by the text its `Error()` returns. An error whose `Error()` panics is not modelled.
- The state is a closed two-value enumeration. In Go, `State` is an open string type (list/error.go:7, wrapped/error.go:8), so `addError`, `AddIfNotNil` and struct literals accept any string as a state. For such states the rendering can collide (state "degraded: x" with message "y" renders like state degraded with message "x: y"), so States.ErrorInjective and the round trip hold only for the two declared constants.
- WrappedErrors.ForEach: the chain is required to be acyclic. The source also walks a cyclic chain, such as the one `Append` links from a shared node; it then returns only when the callback answers false, and otherwise never. That behaviour is not modelled.
- The fields `State` and `Msg` are exported and mutable in Go. Neither package ever assigns them after construction, so the chain node declares them `const`, and the list holds failures as values (`Option<StateError>`) rather than as `*StateError` pointers. Pointer identity between list entries, and changes made through a shared pointer, are not modelled.
