/**
 Laws of the emitter: how `on`, `off` and `emit` combine, stated over every emitter
 state, plus usage scenarios: registration order, type isolation, wildcard delivery,
 full and targeted removal, duplicates.
 */
module EmitterLaws {
  import opened JsArray
  import opened Emitter

  /** The handlers a trace invokes, in invocation order. */
  function Invoked<H, E>(trace: seq<Call<H, E>>): (hs: seq<H>)
    ensures |hs| == |trace|
    ensures forall i :: 0 <= i < |trace| ==> hs[i] == trace[i].handler
  {
    if |trace| == 0 then [] else [trace[0].handler] + Invoked(trace[1..])
  }

  /** `emit(t)` invokes exactly t's handlers and then the wildcard handlers: each handler
      as many times as it occurs in those two lists, and no other handler. */
  lemma InvokedByEmit<H, E>(em: State<H>, t: string, e: E)
    ensures Invoked(Emit(em, t, e)) == Handlers(em, t) + Handlers(em, Wildcard)
    ensures forall h :: multiset(Invoked(Emit(em, t, e)))[h] ==
              multiset(Handlers(em, t))[h] + multiset(Handlers(em, Wildcard))[h]
  {
    var hs, ws := Handlers(em, t), Handlers(em, Wildcard);
    var inv := Invoked(Emit(em, t, e));
    assert |inv| == |hs + ws|;
    assert forall i :: 0 <= i < |inv| ==> inv[i] == (hs + ws)[i];
    assert multiset(hs + ws) == multiset(hs) + multiset(ws);
  }

  /** Type isolation: `emit(b)` invokes h exactly when h is in b's list or in the "*"
      list. */
  lemma InvokedOnlyIfRegistered<H, E>(em: State<H>, b: string, e: E, h: H)
    ensures h in Invoked(Emit(em, b, e)) <==> h in Handlers(em, b) || h in Handlers(em, Wildcard)
  {
  }

  /** Subscribing h to t (not "*") adds exactly one invocation of h to `emit(t)`, at the
      end of the typed handlers and before the wildcard handlers. */
  lemma EmitAfterOn<H, E>(em: State<H>, t: string, h: H, e: E)
    requires t != Wildcard
    ensures Emit(On(em, t, h), t, e) ==
              TypedCalls(Handlers(em, t), e) + [Typed(h, e)] + WildCalls(Handlers(em, Wildcard), t, e)
  {
  }

  /** Subscribing to one type never changes what another type's emit invokes. */
  lemma TypeIsolation<H, E>(em: State<H>, a: string, b: string, h: H, e: E)
    requires a != b && a != Wildcard
    ensures Emit(On(em, a, h), b, e) == Emit(em, b, e)
  {
  }

  /** A wildcard subscription adds one trailing `(t, e)` invocation to the emit of every
      other type t. */
  lemma EmitAfterWildcardOn<H, E>(em: State<H>, w: H, t: string, e: E)
    requires t != Wildcard
    ensures Emit(On(em, Wildcard, w), t, e) == Emit(em, t, e) + [Wild(w, t, e)]
  {
  }

  /** Emitting "*" runs the wildcard list twice: as typed handlers with the payload, then as
      wildcard handlers with ("*", payload). */
  lemma EmitWildcardRunsListTwice<H, E>(em: State<H>, e: E)
    ensures var ws := Handlers(em, Wildcard);
            var trace := Emit(em, Wildcard, e);
            |trace| == 2 * |ws| &&
            forall i :: 0 <= i < |ws| ==>
              trace[i] == Typed(ws[i], e) && trace[|ws| + i] == Wild(ws[i], Wildcard, e)
  {
  }

  /** With neither t nor "*" registered, emit invokes nothing. */
  lemma EmitUnregisteredIsSilent<H, E>(em: State<H>, t: string, e: E)
    requires t !in em.all && Wildcard !in em.all
    ensures Emit(em, t, e) == []
  {
  }

  /** `on(t, h)` followed by `off(t, h)` for a handler not yet in t's list restores the list
      (an emptied key stays present, with an empty list). */
  lemma OffUndoesOn<H>(em: State<H>, t: string, h: H)
    requires h !in Handlers(em, t) && |Handlers(em, t)| < MaxArrayLength
    ensures Off(On(em, t, h), t, Some(h)).all == em.all[t := Handlers(em, t)]
  {
    var hs := Handlers(em, t);
    var m := On(em, t, h);
    assert m.all[t] == hs + [h] && |m.all[t]| <= MaxArrayLength;
    RemoveFirstOfAppended(hs, h);
    var r := Off(m, t, Some(h));
    assert r.all[t] == hs;
    assert r.all.Keys == em.all[t := hs].Keys;
    assert forall k :: k in r.all ==> r.all[k] == em.all[t := hs][k];
  }

  /** Clearing a type twice is the same as clearing it once. */
  lemma ClearIsIdempotent<H>(em: State<H>, t: string)
    ensures Off(Off(em, t, None), t, None) == Off(em, t, None)
  {
  }

  /** After `off(t)` the typed part of `emit(t)` is empty, and the cleared slot is still
      usable: a later `on(t, h)` makes h its only handler. */
  lemma ClearedTypeStaysUsable<H, E>(em: State<H>, t: string, h: H, x: E, y: E)
    requires t != Wildcard
    ensures Emit(Off(em, t, None), t, x) == WildCalls(Handlers(em, Wildcard), t, x)
    ensures Emit(On(Off(em, t, None), t, h), t, y) ==
              [Typed(h, y)] + WildCalls(Handlers(em, Wildcard), t, y)
  {
    assert Handlers(Off(em, t, None), t) == [];
    assert Handlers(Off(em, t, None), Wildcard) == Handlers(em, Wildcard);
  }

  /** Three subscriptions to one type are invoked in registration order, each once, each
      with the payload. */
  lemma RegistrationOrder<H, E>(a: string, h1: H, h2: H, h3: H, x: E)
    requires a != Wildcard
    ensures Emit(On(On(On(Mitt(None), a, h1), a, h2), a, h3), a, x) ==
              [Typed(h1, x), Typed(h2, x), Typed(h3, x)]
  {
  }

  /** A wildcard handler receives every published type, with that type, in publish order. */
  lemma WildcardReceivesEverything<H>(w: H, a: string, b: string)
    requires a != Wildcard && b != Wildcard
    ensures Emit(On(Mitt(None), Wildcard, w), a, 1) + Emit(On(Mitt(None), Wildcard, w), b, 2) ==
              [Wild(w, a, 1), Wild(w, b, 2)]
  {
  }

  /** Removing h1 after subscribing h1 then h2 leaves only h2 to be invoked (also when h1
      and h2 are the same handler: one of the two occurrences remains). */
  lemma TargetedRemoval<H, E>(a: string, h1: H, h2: H, x: E)
    requires a != Wildcard
    ensures Emit(Off(On(On(Mitt(None), a, h1), a, h2), a, Some(h1)), a, x) == [Typed(h2, x)]
  {
    var before := On(On(Mitt(None), a, h1), a, h2);
    assert before.all[a] == [h1, h2];
    assert RemoveFirst([h1, h2], h1) == [h2];
    var em := Off(before, a, Some(h1));
    assert Handlers(em, a) == [h2];
    assert Handlers(em, Wildcard) == [];
  }

  /** The same handler subscribed twice is invoked twice. */
  lemma DuplicatesInvokedTwice<H, E>(a: string, h: H, x: E)
    requires a != Wildcard
    ensures Emit(On(On(Mitt(None), a, h), a, h), a, x) == [Typed(h, x), Typed(h, x)]
  {
  }

  /** Removing a handler that is not registered leaves a non-empty list as it was; in
      particular its first element is not removed. */
  lemma RemovingAbsentHandlerKeepsHead<H>(em: State<H>, t: string, g: H)
    requires t in em.all && 0 < |em.all[t]| <= MaxArrayLength && g !in em.all[t]
    ensures Off(em, t, Some(g)).all[t][0] == em.all[t][0]
    ensures Off(em, t, Some(g)) == em
  {
  }
}
