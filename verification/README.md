# emit — a verified model of a `mitt`-style event emitter

`emit.ts` is a small in-process publish/subscribe registry. Its whole state is a map from
event type to the ordered list of handlers registered for that type. The key `"*"` holds
wildcard handlers, which receive every event together with its type. The emitter offers
three operations:

- `on(type, handler)` appends a handler to the type's list.
- `off(type)` clears the type's list, and `off(type, handler)` removes one occurrence of
  the handler from it.
- `emit(type, event)` invokes the type's handlers in registration order, and then the
  wildcard handlers.

The Dafny model consists of four modules:

- `JsArray` (`js_array.dfy`) models the JavaScript built-ins that `off` combines on one
  line: `Array.prototype.indexOf`, the unsigned shift `x >>> 0` (ToUint32, ECMA-262
  section 7.1) and `Array.prototype.splice` (ECMA-262 section 23.1.3), including its
  start and delete-count clamping. It also gives a reference definition `RemoveFirst`,
  which that combination is proved to compute.
- `Emitter` (`emitter.dfy`) models the emitter itself. Its `State` is the map
  `map<string, seq<H>>`, where handlers are values of any type `H` compared by
  equality. `Mitt`, `On` and `Off` are pure functions that return the updated emitter.
  `Emit` returns the trace of invocations it performs: `Typed(h, e)` for a typed handler
  and `Wild(w, type, e)` for a wildcard handler.
- `EmitterLaws` (`laws.dfy`) holds the laws that relate the operations:
  - which handlers an emit invokes, and how many times each;
  - type isolation;
  - `off` undoing `on`;
  - usage scenarios: registration order, wildcard delivery, full removal, targeted
    removal and duplicate handlers.
- `ScriptedEmit` (`scripted_emit.dfy`) is a step semantics for emits whose handlers run
  `on`/`off` commands while the emit is in progress. It shows that the typed list is a
  snapshot taken before the first invocation. It also shows that the `"*"` list is read
  only after every typed handler has run, so typed handlers can add wildcard handlers
  that the same emit then calls.

### How `off(type, handler)` treats a handler that is not registered

Reading `-1 >>> 0` as index 0 would delete the first element when the handler is
missing. The code at emit.ts:59 does not do that:

- `indexOf` returns -1, and `-1 >>> 0` is 4294967295.
- `splice` clamps a start index at or beyond the length to the length. The delete count
  is then clamped to 0, so nothing is removed.

`JsArray.SpliceOfUnsignedIndexIsRemoveFirst` proves that, for every array length
JavaScript allows, the line removes the first occurrence of the handler and otherwise
changes nothing. `JsArray.IndexZeroReadingDiffers` shows that the index-0 reading would
give a different result. `JsArray.SignedIndexWouldDropLast` shows that without the
`>>> 0` the call would delete the last element.

The key `"*"` is a plain string, as in the source. An application event named `"*"`
therefore shares the wildcard slot: `emit("*", e)` runs the wildcard list twice, first as
typed handlers and then as wildcard handlers.

## Model

| member | source | states |
|---|---|---|
| JsArray.ToUint32 | emit.ts:59 | `x >>> 0` is below 2^32, leaves indices in [0, 2^32) unchanged, and turns a negative index such as -1 into x + 2^32 |
| JsArray.IndexOf | emit.ts:59 | `indexOf` returns -1 exactly when the handler is absent; otherwise it returns an index holding the handler with no earlier occurrence |
| JsArray.Splice | emit.ts:59 | `splice(start, n)` never lengthens the array; it is a no-op for a start at or past the end; when n is 1 it deletes exactly the element at `start` for a start in [0, len), at `len + start` for a start in [-len, 0), and the first element for a start below -len |
| JsArray.RemoveFirst | emit.ts:59 | removing a handler leaves the list unchanged when the handler is absent, and is one shorter when it is present |
| JsArray.RemoveFirstMultiset | emit.ts:59 | removal takes away exactly one copy of the handler and keeps every other handler |
| JsArray.RemoveFirstCutsAt | emit.ts:59 | the element removed is the first occurrence; the elements before it and after it keep their relative order |
| JsArray.SpliceOfUnsignedIndexIsRemoveFirst | emit.ts:59 | `splice(indexOf(h) >>> 0, 1)` equals "remove the first occurrence of h, if any" for every array length up to 2^32 - 1 |
| JsArray.SignedIndexWouldDropLast | emit.ts:59 | without `>>> 0`, a missing handler would delete the last element of a non-empty list |
| JsArray.IndexZeroReadingDiffers | emit.ts:59 | on a non-empty list a missing handler leaves the list as it is, which differs from deleting index 0 |
| JsArray.RemoveFirstOfAppended | emit.ts:59 | removing a handler that was just appended and was not already present gives back the previous list |
| Emitter.Handlers | emit.ts:67-68 | `all.get(t)` followed by `if (handlers)` yields t's stored list when t is a key (an empty list included) and no handlers when it is not; the same lookup serves `"*"` at emit.ts:74-75 |
| Emitter.Mitt | emit.ts:37-44 | the emitter adopts a caller-supplied map as-is, and otherwise starts with an empty map |
| Emitter.On | emit.ts:46-53 | `on(t, h)` makes t's list the old list (or the empty list) followed by h, with no de-duplication; t becomes a key, and every other key keeps its list |
| Emitter.SpliceOut | emit.ts:59 | line 59 shortens the list by one when the handler is present, and equals RemoveFirst for every JavaScript-sized list |
| Emitter.Off | emit.ts:55-64 | an unknown type leaves the emitter exactly unchanged; no key is created or deleted; `off(t)` maps t to the empty list; `off(t, h)` removes h's first occurrence, or changes nothing if h is absent; other keys are untouched |
| Emitter.TypedCalls | emit.ts:68-72 | the `forEach` over a typed snapshot invokes each listed handler once per occurrence, in list order, with the payload |
| Emitter.WildCalls | emit.ts:75-79 | the `forEach` over the wildcard snapshot invokes each wildcard handler once per occurrence, in list order, with (type, payload) |
| Emitter.Emit | emit.ts:66-80 | the trace of `emit(t, e)` is t's handlers as `Typed(h, e)` in registration order, then the `"*"` handlers as `Wild(w, t, e)` in order, and nothing else |
| EmitterLaws.InvokedByEmit | emit.ts:66-80 | the handlers an emit invokes are t's list followed by the wildcard list; each handler is invoked as many times as it occurs in the two lists |
| EmitterLaws.InvokedOnlyIfRegistered | emit.ts:66-80 | `emit(b)` invokes h if and only if h is registered for b or for `"*"` |
| EmitterLaws.EmitAfterOn | emit.ts:46-53 | for t other than `"*"`, after `on(t, h)`, `emit(t)` makes one more call, `Typed(h, e)`, after t's earlier handlers and before the wildcard handlers |
| EmitterLaws.TypeIsolation | emit.ts:67 | for any a other than `"*"` and any b other than a, subscribing to a never changes what `emit(b)` invokes |
| EmitterLaws.EmitAfterWildcardOn | emit.ts:74-78 | a wildcard subscription adds exactly one trailing `Wild(w, t, e)` to the emit of every other type |
| EmitterLaws.EmitWildcardRunsListTwice | emit.ts:67-78 | `emit("*", e)` calls every wildcard handler twice: first as `Typed(w, e)`, then as `Wild(w, "*", e)` |
| EmitterLaws.EmitUnregisteredIsSilent | emit.ts:67-75 | with neither t nor `"*"` registered, emit invokes nothing |
| EmitterLaws.OffUndoesOn | emit.ts:46-64 | `on(t, h)` followed by `off(t, h)`, for an h not yet in t's list, restores the map; a type created by the `on` remains with an empty list |
| EmitterLaws.ClearIsIdempotent | emit.ts:60-61 | clearing a type twice is the same as clearing it once |
| EmitterLaws.ClearedTypeStaysUsable | emit.ts:60-61 | for t other than `"*"`, after `off(t)` no typed handler of t is invoked, and a later `on(t, h)` makes h the only typed handler of t |
| EmitterLaws.RegistrationOrder | emit.ts:46-72 | for a type other than `"*"`, three subscriptions to it are invoked in registration order, each exactly once, each with the payload |
| EmitterLaws.WildcardReceivesEverything | emit.ts:74-78 | for types a, b other than `"*"`, a wildcard handler receives `(a, 1)` and then `(b, 2)` for two emits, in that order |
| EmitterLaws.TargetedRemoval | emit.ts:59 | for a type other than `"*"`, subscribing h1 then h2 to it and then removing h1 leaves only h2 to be invoked, even when h1 and h2 are the same handler |
| EmitterLaws.DuplicatesInvokedTwice | emit.ts:46-53 | for a type other than `"*"`, the same handler subscribed twice to it is invoked twice |
| EmitterLaws.RemovingAbsentHandlerKeepsHead | emit.ts:59 | removing an unregistered handler leaves the emitter unchanged, and in particular keeps the list's first element |
| ScriptedEmit.RunScriptKeepsOtherKey | emit.ts:46-64 | `on`/`off` commands aimed at other keys leave key k's list, and whether k is present, unchanged |
| ScriptedEmit.RunTyped | emit.ts:68-72 | iterating the typed copy invokes exactly the copied handlers, whatever their scripts do; the emitter ends up as if their scripts had run in order |
| ScriptedEmit.RunWild | emit.ts:75-79 | iterating the wildcard copy invokes exactly the copied handlers with (type, payload); the emitter ends up as if their scripts had run in order |
| ScriptedEmit.EmitRun | emit.ts:66-80 | a scripted emit invokes t's handlers as they were when the emit started, then the `"*"` handlers as they are after the typed handlers' scripts have run |
| ScriptedEmit.TypedPartIgnoresScripts | emit.ts:67-69 | the typed invocations of an emit are the same for every behaviour of the handlers (snapshot before invoke) |
| ScriptedEmit.SilentHandlersMatchEmit | emit.ts:66-80 | when no handler mutates the emitter, the scripted emit is the pure `Emit`, and the emitter is unchanged |
| ScriptedEmit.WildcardUntouchedMatchesEmit | emit.ts:74-76 | when no typed handler touches `"*"`, the scripted emit invokes exactly what the pure `Emit` does |
| ScriptedEmit.SelfRemovalDuringEmit | emit.ts:67-71 | for a type other than `"*"`, a handler that unsubscribes itself during its invocation has still been invoked, and is absent from the next emit |
| ScriptedEmit.RemovalDuringEmitDoesNotSkip | emit.ts:67-71 | for a type other than `"*"`, a handler removed by an earlier handler of the same emit is still invoked by that emit, and is removed afterwards |
| ScriptedEmit.SubscribeDuringEmitWaits | emit.ts:67-71 | for t other than `"*"`, a handler subscribed to t during `emit(t)` is not invoked by that emit, but is invoked by the next one |
| ScriptedEmit.WildcardAddedDuringEmitIsInvoked | emit.ts:74-78 | for a type other than `"*"`, a wildcard handler added by one of its typed handlers is invoked by the same emit, because `"*"` is looked up after the typed handlers run |

## Left out

- Type aliases, the `Emitter` interface and overload signatures (emit.ts:1-34, 40) are type-level only and have no runtime behaviour.
- Event types are strings. JavaScript symbols, which are also allowed as keys, are not modelled.
- Handlers are opaque values. Their bodies, and any exception a handler throws (which in JavaScript aborts the rest of the emit), are not modelled.
- A handler that calls `emit` again from inside its invocation is not modelled. This needs unbounded recursion through foreign code. Scripted handlers only run `on`/`off`.
- Sharing one caller-supplied `all` map between several emitters (aliasing through `mitt(all)`) is not modelled. Each emitter owns its map as a value.
- Lists are values. `on` and `off(t, h)` change the stored array in place (`push` at emit.ts:49, `splice` at emit.ts:59), while `off(t)` stores a new array (emit.ts:61). The difference, and arrays shared between two keys or held outside the emitter, are not modelled. With one array stored under keys "a" and "b", `on("a", h)` would also make `emit("b")` invoke h. A caller holding `all.get("a")` sees later pushes and splices, but not a clear.
- The test `if (handler)` (emit.ts:58) is modelled as an `Option`: a supplied handler is a function, and functions are always truthy.
- An omitted event payload (`evt?`) is represented as one more value of the payload type.
- On: `push` throws a RangeError on an array that already holds 2^32 - 1 elements. This is not modelled, because lists are unbounded sequences.
- Off: for lists longer than 2^32 - 1 elements, which JavaScript arrays cannot be, the contract only states that a present handler's list shrinks by one. Which element goes is not stated, because ToUint32 may wrap a large index.
