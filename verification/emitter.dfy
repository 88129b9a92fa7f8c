/**
 The event emitter of emit.ts (a `mitt` clone): a map from event type to the ordered list
 of handlers registered for it, where the literal key "*" holds the wildcard handlers.
 `on` and `off` return the updated emitter; `emit` returns the sequence of handler
 invocations it performs, in order, instead of performing them.

 Handlers are opaque values of a type H compared by equality (JavaScript compares the
 function references); event payloads are opaque values of a type E, an omitted payload
 being just one more value of E.
 */
module Emitter {
  import opened JsArray

  datatype Option<+T> = None | Some(value: T)

  /** The reserved key under which wildcard handlers are stored. It is an ordinary string,
      so an application event named "*" shares the slot. */
  const Wildcard: string := "*"

  /** Event type to handler list. A key stays present, possibly with an empty list, once
      it has been created. */
  type HandlerMap<H> = map<string, seq<H>>

  /** The emitter object's state: the map it exposes as `all`. */
  datatype State<H> = State(all: HandlerMap<H>)

  /** One handler invocation: a typed handler receives the payload, a wildcard handler
      receives the event type and the payload. */
  datatype Call<H, E> =
    | Typed(handler: H, event: E)
    | Wild(handler: H, eventType: string, event: E)

  /** The handlers `all.get(t)` followed by the `if (handlers)` test lets through: the
      stored list when t is a key (an empty array is truthy too), none when it is not. */
  function Handlers<H>(em: State<H>, t: string): (hs: seq<H>)
    ensures t in em.all ==> hs == em.all[t]
    ensures t !in em.all ==> hs == []
  {
    if t in em.all then em.all[t] else []
  }

  /** `mitt(all?)`: adopt the caller's map when one is given, otherwise start empty. */
  function Mitt<H>(all: Option<HandlerMap<H>>): (em: State<H>)
    ensures all.Some? ==> em.all == all.value
    ensures all.None? ==> |em.all| == 0
  {
    match all
    case Some(m) => State(m)
    case None => State(map[])
  }

  /** `on(t, h)`: append h to t's list, creating the list when t has none. No
      de-duplication; every other key is untouched. */
  function On<H>(em: State<H>, t: string, h: H): (r: State<H>)
    ensures r.all.Keys == em.all.Keys + {t}
    ensures r.all[t] == Handlers(em, t) + [h]
    ensures forall k :: k in em.all && k != t ==> r.all[k] == em.all[k]
  {
    if t in em.all then State(em.all[t := em.all[t] + [h]])
    else State(em.all[t := [h]])
  }

  /** Line 59 of emit.ts: `handlers.splice(handlers.indexOf(h) >>> 0, 1)`. For every list
      JavaScript can hold it removes the first occurrence of h, and nothing when h is
      absent (the start index 2^32 - 1 is clamped to the length, so nothing is deleted). */
  function SpliceOut<H(==)>(hs: seq<H>, h: H): (r: seq<H>)
    ensures h in hs ==> |r| == |hs| - 1
    ensures |hs| <= MaxArrayLength ==> r == RemoveFirst(hs, h)
  {
    var r := Splice(hs, ToUint32(IndexOf(hs, h)), 1);
    assert |hs| <= MaxArrayLength ==> r == RemoveFirst(hs, h) by {
      if |hs| <= MaxArrayLength {
        SpliceOfUnsignedIndexIsRemoveFirst(hs, h);
      }
    }
    r
  }

  /** `off(t)` / `off(t, h)`: with no handler, t's list is replaced by an empty one (the
      key stays); with a handler, its first occurrence is spliced out and the list is left
      alone when h is not in it. An absent t changes nothing. */
  function Off<H(==)>(em: State<H>, t: string, h: Option<H>): (r: State<H>)
    ensures t !in em.all ==> r == em
    ensures r.all.Keys == em.all.Keys
    ensures forall k :: k in em.all && k != t ==> r.all[k] == em.all[k]
    ensures t in em.all && h.None? ==> r.all[t] == []
    ensures t in em.all && h.Some? && |em.all[t]| <= MaxArrayLength ==>
              r.all[t] == RemoveFirst(em.all[t], h.value)
    ensures t in em.all && h.Some? && h.value in em.all[t] ==>
              |r.all[t]| == |em.all[t]| - 1
    ensures t in em.all && h.Some? && h.value !in em.all[t] && |em.all[t]| <= MaxArrayLength ==>
              r == em
  {
    if t in em.all then
      match h
      case Some(f) => State(em.all[t := SpliceOut(em.all[t], f)])
      case None => State(em.all[t := []])
    else em
  }

  /** The invocations one `forEach` over a typed snapshot performs: each handler once per
      occurrence, in list order, with the payload. */
  function TypedCalls<H, E>(hs: seq<H>, e: E): (cs: seq<Call<H, E>>)
    ensures |cs| == |hs|
    ensures forall i :: 0 <= i < |hs| ==> cs[i] == Typed(hs[i], e)
  {
    if |hs| == 0 then [] else [Typed(hs[0], e)] + TypedCalls(hs[1..], e)
  }

  /** The invocations one `forEach` over a wildcard snapshot performs: each handler once
      per occurrence, in list order, with the event type and the payload. */
  function WildCalls<H, E>(ws: seq<H>, t: string, e: E): (cs: seq<Call<H, E>>)
    ensures |cs| == |ws|
    ensures forall i :: 0 <= i < |ws| ==> cs[i] == Wild(ws[i], t, e)
  {
    if |ws| == 0 then [] else [Wild(ws[0], t, e)] + WildCalls(ws[1..], t, e)
  }

  /** `emit(t, e)`: every handler of t in registration order, then every wildcard handler in
      registration order. The map is not changed (handlers that mutate it are the subject
      of module ScriptedEmit). */
  function Emit<H, E>(em: State<H>, t: string, e: E): (trace: seq<Call<H, E>>)
    ensures |trace| == |Handlers(em, t)| + |Handlers(em, Wildcard)|
    ensures forall i :: 0 <= i < |Handlers(em, t)| ==>
              trace[i] == Typed(Handlers(em, t)[i], e)
    ensures forall j :: 0 <= j < |Handlers(em, Wildcard)| ==>
              trace[|Handlers(em, t)| + j] == Wild(Handlers(em, Wildcard)[j], t, e)
  {
    TypedCalls(Handlers(em, t), e) + WildCalls(Handlers(em, Wildcard), t, e)
  }
}
