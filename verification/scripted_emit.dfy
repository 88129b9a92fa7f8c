/**
 `emit` when handlers mutate the emitter while it runs. Each handler carries a script of
 `on`/`off` commands that it performs when invoked (it does not emit again). emit.ts
 copies t's list with `slice()` before its `forEach`, and reads and copies the "*" list
 only after every typed handler has run, so:
 - the typed handlers invoked are exactly t's list as it was when emit started;
 - changes to the "*" list made by typed handlers are seen by the same emit.
 */
module ScriptedEmit {
  import opened JsArray
  import opened Emitter

  /** What a handler may do to the emitter when it is invoked. */
  datatype Command<H> =
    | Subscribe(eventType: string, handler: H)
    | Unsubscribe(eventType: string, target: Option<H>)

  /** The result of a scripted emit: the invocations made and the emitter afterwards. */
  datatype Outcome<H, E> = Outcome(trace: seq<Call<H, E>>, after: State<H>)

  function Apply<H(==)>(em: State<H>, c: Command<H>): State<H>
  {
    match c
    case Subscribe(t, h) => On(em, t, h)
    case Unsubscribe(t, oh) => Off(em, t, oh)
  }

  /** Run commands in order. */
  function RunScript<H(==)>(em: State<H>, cs: seq<Command<H>>): State<H>
    decreases |cs|
  {
    if |cs| == 0 then em else RunScript(Apply(em, cs[0]), cs[1..])
  }

  /** The commands a list of handlers performs, one script after another. */
  function ScriptsOf<H>(hs: seq<H>, script: H -> seq<Command<H>>): seq<Command<H>>
  {
    if |hs| == 0 then [] else script(hs[0]) + ScriptsOf(hs[1..], script)
  }

  /** No command in cs is aimed at key k. */
  predicate Avoids<H>(cs: seq<Command<H>>, k: string)
  {
    forall i :: 0 <= i < |cs| ==> cs[i].eventType != k
  }

  /** Running two command lists one after the other is running their concatenation. */
  lemma {:induction false} RunScriptAppend<H>(em: State<H>, a: seq<Command<H>>, b: seq<Command<H>>)
    ensures RunScript(em, a + b) == RunScript(RunScript(em, a), b)
    decreases |a|
  {
    if |a| > 0 {
      assert (a + b)[0] == a[0];
      assert (a + b)[1..] == a[1..] + b;
      RunScriptAppend(Apply(em, a[0]), a[1..], b);
      assert RunScript(em, a + b) == RunScript(Apply(em, a[0]), a[1..] + b);
      assert RunScript(em, a) == RunScript(Apply(em, a[0]), a[1..]);
    } else {
      assert a + b == b;
    }
  }

  /** Commands aimed at other keys leave key k's list, and whether k is present, alone. */
  lemma {:induction false} RunScriptKeepsOtherKey<H>(em: State<H>, cs: seq<Command<H>>, k: string)
    requires Avoids(cs, k)
    ensures k in RunScript(em, cs).all <==> k in em.all
    ensures Handlers(RunScript(em, cs), k) == Handlers(em, k)
    decreases |cs|
  {
    if |cs| > 0 {
      var em' := Apply(em, cs[0]);
      assert k in em'.all <==> k in em.all;
      assert Handlers(em', k) == Handlers(em, k);
      RunScriptKeepsOtherKey(em', cs[1..], k);
    }
  }

  /** The `forEach` over a typed snapshot: invoke each handler with the payload and let it
      run its script against the live emitter. */
  function RunTyped<H(==), E>(em: State<H>, snapshot: seq<H>, e: E, script: H -> seq<Command<H>>): (o: Outcome<H, E>)
    ensures o.trace == TypedCalls(snapshot, e)
    ensures o.after == RunScript(em, ScriptsOf(snapshot, script))
    decreases |snapshot|
  {
    if |snapshot| == 0 then Outcome([], em)
    else
      var rest := RunTyped(RunScript(em, script(snapshot[0])), snapshot[1..], e, script);
      RunScriptAppend(em, script(snapshot[0]), ScriptsOf(snapshot[1..], script));
      Outcome([Typed(snapshot[0], e)] + rest.trace, rest.after)
  }

  /** The `forEach` over a wildcard snapshot: invoke each handler with (t, payload) and let
      it run its script against the live emitter. */
  function RunWild<H(==), E>(em: State<H>, snapshot: seq<H>, t: string, e: E, script: H -> seq<Command<H>>): (o: Outcome<H, E>)
    ensures o.trace == WildCalls(snapshot, t, e)
    ensures o.after == RunScript(em, ScriptsOf(snapshot, script))
    decreases |snapshot|
  {
    if |snapshot| == 0 then Outcome([], em)
    else
      var rest := RunWild(RunScript(em, script(snapshot[0])), snapshot[1..], t, e, script);
      RunScriptAppend(em, script(snapshot[0]), ScriptsOf(snapshot[1..], script));
      Outcome([Wild(snapshot[0], t, e)] + rest.trace, rest.after)
  }

  /** `emit(t, e)` with scripted handlers: t's list is copied when emit starts; the "*" list
      is looked up and copied only after all typed handlers have run. */
  function EmitRun<H(==), E>(em: State<H>, t: string, e: E, script: H -> seq<Command<H>>): (o: Outcome<H, E>)
    ensures var mid := RunScript(em, ScriptsOf(Handlers(em, t), script));
            && o.trace == TypedCalls(Handlers(em, t), e) + WildCalls(Handlers(mid, Wildcard), t, e)
            && o.after == RunScript(mid, ScriptsOf(Handlers(mid, Wildcard), script))
  {
    var typed := RunTyped(em, Handlers(em, t), e, script);
    var wild := RunWild(typed.after, Handlers(typed.after, Wildcard), t, e, script);
    Outcome(typed.trace + wild.trace, wild.after)
  }

  /** Snapshot isolation: whatever the handlers do, the typed invocations of an emit are
      exactly t's handlers as registered when the emit started. */
  lemma TypedPartIgnoresScripts<H, E>(em: State<H>, t: string, e: E,
                                          s1: H -> seq<Command<H>>, s2: H -> seq<Command<H>>)
    ensures |Handlers(em, t)| <= |EmitRun(em, t, e, s1).trace|
    ensures EmitRun(em, t, e, s1).trace[..|Handlers(em, t)|] ==
            EmitRun(em, t, e, s2).trace[..|Handlers(em, t)|] ==
            TypedCalls(Handlers(em, t), e)
  {
  }

  /** Handlers that do nothing to the emitter need no copy at all. */
  lemma {:induction false} SilentScripts<H>(hs: seq<H>, script: H -> seq<Command<H>>)
    requires forall h :: script(h) == []
    ensures ScriptsOf(hs, script) == []
  {
    if |hs| > 0 {
      SilentScripts(hs[1..], script);
    }
  }

  /** With handlers that do not touch the emitter, the scripted emit is the pure one. */
  lemma SilentHandlersMatchEmit<H, E>(em: State<H>, t: string, e: E, script: H -> seq<Command<H>>)
    requires forall h :: script(h) == []
    ensures EmitRun(em, t, e, script) == Outcome(Emit(em, t, e), em)
  {
    SilentScripts(Handlers(em, t), script);
    SilentScripts(Handlers(em, Wildcard), script);
  }

  /** When no typed handler touches the "*" list, the scripted emit invokes exactly what the
      pure emit does. */
  lemma WildcardUntouchedMatchesEmit<H, E>(em: State<H>, t: string, e: E, script: H -> seq<Command<H>>)
    requires Avoids(ScriptsOf(Handlers(em, t), script), Wildcard)
    ensures EmitRun(em, t, e, script).trace == Emit(em, t, e)
  {
    RunScriptKeepsOtherKey(em, ScriptsOf(Handlers(em, t), script), Wildcard);
  }

  /** A handler that unsubscribes itself while running has still been invoked by this emit,
      and is gone for the next one. */
  lemma SelfRemovalDuringEmit<H, E>(a: string, h: H, e: E, e': E, script: H -> seq<Command<H>>)
    requires a != Wildcard
    requires script(h) == [Unsubscribe(a, Some(h))]
    ensures EmitRun(On(Mitt(None), a, h), a, e, script).trace == [Typed(h, e)]
    ensures Emit(EmitRun(On(Mitt(None), a, h), a, e, script).after, a, e') == []
  {
    var em := On(Mitt(None), a, h);
    assert Handlers(em, a) == [h];
    assert ScriptsOf([h], script) == [Unsubscribe(a, Some(h))];
    var mid := Off(em, a, Some(h));
    assert RunScript(em, [Unsubscribe(a, Some(h))]) == mid;
    assert RemoveFirst([h], h) == [];
    assert Handlers(mid, a) == [];
    assert Handlers(mid, Wildcard) == [];
    assert ScriptsOf([], script) == [];
  }

  /** A handler removed by an earlier handler of the same emit is still invoked by that
      emit: the typed list was copied before the first invocation. */
  lemma RemovalDuringEmitDoesNotSkip<H, E>(a: string, h1: H, h2: H, e: E, script: H -> seq<Command<H>>)
    requires a != Wildcard && h1 != h2
    requires script(h1) == [Unsubscribe(a, Some(h2))] && script(h2) == []
    ensures EmitRun(On(On(Mitt(None), a, h1), a, h2), a, e, script).trace == [Typed(h1, e), Typed(h2, e)]
    ensures Handlers(EmitRun(On(On(Mitt(None), a, h1), a, h2), a, e, script).after, a) == [h1]
  {
    var em := On(On(Mitt(None), a, h1), a, h2);
    assert Handlers(em, a) == [h1, h2];
    assert ScriptsOf([h1, h2], script) == [Unsubscribe(a, Some(h2))] by {
      assert [h1, h2][1..] == [h2];
      assert ScriptsOf([h2], script) == [];
    }
    var mid := Off(em, a, Some(h2));
    assert RunScript(em, [Unsubscribe(a, Some(h2))]) == mid;
    assert RemoveFirst([h1, h2], h2) == [h1];
    assert Handlers(mid, Wildcard) == [];
    assert ScriptsOf([], script) == [];
  }

  /** A handler subscribed to t during emit(t) is not invoked by it, but by the next one. */
  lemma SubscribeDuringEmitWaits<H, E>(a: string, h: H, g: H, e: E, script: H -> seq<Command<H>>)
    requires a != Wildcard
    requires script(h) == [Subscribe(a, g)]
    ensures EmitRun(On(Mitt(None), a, h), a, e, script).trace == [Typed(h, e)]
    ensures Emit(EmitRun(On(Mitt(None), a, h), a, e, script).after, a, e) == [Typed(h, e), Typed(g, e)]
  {
    var em := On(Mitt(None), a, h);
    assert Handlers(em, a) == [h];
    assert ScriptsOf([h], script) == [Subscribe(a, g)];
    var mid := On(em, a, g);
    assert RunScript(em, [Subscribe(a, g)]) == mid;
    assert Handlers(mid, a) == [h, g];
    assert Handlers(mid, Wildcard) == [];
    assert ScriptsOf([], script) == [];
  }

  /** A wildcard handler added by a typed handler is invoked by the same emit, because the
      "*" list is looked up only after the typed handlers ran. */
  lemma WildcardAddedDuringEmitIsInvoked<H, E>(a: string, h: H, w: H, e: E, script: H -> seq<Command<H>>)
    requires a != Wildcard
    requires script(h) == [Subscribe(Wildcard, w)]
    ensures EmitRun(On(Mitt(None), a, h), a, e, script).trace == [Typed(h, e), Wild(w, a, e)]
  {
    var em := On(Mitt(None), a, h);
    assert Handlers(em, a) == [h];
    assert ScriptsOf([h], script) == [Subscribe(Wildcard, w)];
    var mid := On(em, Wildcard, w);
    assert RunScript(em, [Subscribe(Wildcard, w)]) == mid;
    assert Handlers(mid, Wildcard) == [w];
  }
}
