/** Which functions of a handler chain are invoked, in which order, and with which calls: what the chain
    of src/switch_core_state_machine.c promises, on the trace of its invocations. */
module SessionTrace {
  import opened Common
  import opened Channel
  import opened SessionLoop

  // ----- Who is invoked

  /** The entry has a function, and nobody before it in its list refused. */
  predicate Reached(hs: seq<Option<Handler>>, i: nat) {
    i < |hs| && hs[i].Some? && forall k :: 0 <= k < i ==> Accepts(hs[k])
  }

  lemma {:induction false} ListKinds(hs: seq<Option<Handler>>, n: nat, core: bool, who: Invocation)
    requires n <= |hs| && who in InvokedOf(hs, n, core)
    ensures if core then who.CoreHandler? && who.j < n else who.ChannelHandler? && who.i < n
  {
    if who in InvokedOf(hs, n - 1, core) {
      ListKinds(hs, n - 1, core, who);
    }
  }

  lemma ListIff(hs: seq<Option<Handler>>, core: bool, i: nat)
    ensures var who := if core then CoreHandler(i) else ChannelHandler(i);
            who in InvokedOf(hs, UpToVeto(hs), core) <==> Reached(hs, i)
  {
    var who := if core then CoreHandler(i) else ChannelHandler(i);
    if i < |hs| {
      InvokedIff(hs, UpToVeto(hs), core, i);
    } else if who in InvokedOf(hs, UpToVeto(hs), core) {
      ListKinds(hs, UpToVeto(hs), core, who);
    }
  }

  /** Where a function of a chain can come from. */
  lemma InvokedFrom(v: View, mid: State, c: Chain, who: Invocation)
    ensures who in Invoked(v, mid, c) <==>
            || (who == Driver && c.driver.Some?)
            || (Accepts(c.driver) && c.extra && who in InvokedOf(c.channel, UpToVeto(c.channel), false))
            || (Accepts(c.driver) && c.extra && who in InvokedOf(c.core, UpToVeto(c.core), true))
            || (who == Standard && StandardRuns(v, mid, c))
  {
    HandlersFrom(c, who);
  }

  lemma HandlersFrom(c: Chain, who: Invocation)
    ensures who in HandlersInvoked(c) <==>
            || (who == Driver && c.driver.Some?)
            || (Accepts(c.driver) && c.extra && who in InvokedOf(c.channel, UpToVeto(c.channel), false))
            || (Accepts(c.driver) && c.extra && who in InvokedOf(c.core, UpToVeto(c.core), true))
  {
  }

  /** A function of the channel's tables is invoked exactly if the driver does not refuse, the tables are
      used at all, and nobody before it among the channel's refused; and a function of the core's in the
      same way, whatever the channel's handlers say. */
  lemma InvokedHandlersIff(v: View, mid: State, c: Chain, i: nat)
    ensures ChannelHandler(i) in Invoked(v, mid, c) <==> Accepts(c.driver) && c.extra && Reached(c.channel, i)
    ensures CoreHandler(i) in Invoked(v, mid, c) <==> Accepts(c.driver) && c.extra && Reached(c.core, i)
    ensures Driver in Invoked(v, mid, c) <==> c.driver.Some?
  {
    InvokedFrom(v, mid, c, ChannelHandler(i));
    InvokedFrom(v, mid, c, CoreHandler(i));
    InvokedFrom(v, mid, c, Driver);
    ListIff(c.channel, false, i);
    ListIff(c.core, true, i);
    NoOthers(c.channel, false);
    NoOthers(c.core, true);
  }

  lemma NoOthers(hs: seq<Option<Handler>>, core: bool)
    ensures forall who :: who in InvokedOf(hs, UpToVeto(hs), core) ==>
              if core then who.CoreHandler? else who.ChannelHandler?
  {
    forall who | who in InvokedOf(hs, UpToVeto(hs), core)
      ensures if core then who.CoreHandler? else who.ChannelHandler?
    {
      ListKinds(hs, UpToVeto(hs), core, who);
    }
  }

  // ----- In which order

  /** Where a function belongs: the driver's first, then the channel's, then the core's, each in the order
      of the tables, and the standard action last. */
  predicate Precedes(a: Invocation, b: Invocation) {
    match a
    case Driver => b != Driver
    case ChannelHandler(i) => b.CoreHandler? || b == Standard || (b.ChannelHandler? && i < b.i)
    case CoreHandler(j) => b == Standard || (b.CoreHandler? && j < b.j)
    case Standard => false
  }

  predicate InPlace(trace: seq<Invocation>) {
    forall p, q :: 0 <= p < q < |trace| ==> Precedes(trace[p], trace[q])
  }

  lemma {:induction false} ListInPlace(hs: seq<Option<Handler>>, n: nat, core: bool)
    requires n <= |hs|
    ensures InPlace(InvokedOf(hs, n, core))
    ensures forall p :: 0 <= p < |InvokedOf(hs, n, core)| ==>
              var who := InvokedOf(hs, n, core)[p];
              if core then who.CoreHandler? && who.j < n else who.ChannelHandler? && who.i < n
  {
    if n > 0 {
      ListInPlace(hs, n - 1, core);
    }
  }

  lemma ListsInPlace(c: Chain)
    ensures InPlace(ListsInvoked(c))
    ensures forall p :: 0 <= p < |ListsInvoked(c)| ==>
              ListsInvoked(c)[p].ChannelHandler? || ListsInvoked(c)[p].CoreHandler?
  {
    ListInPlace(c.channel, UpToVeto(c.channel), false);
    ListInPlace(c.core, UpToVeto(c.core), true);
    ConcatInPlace(InvokedOf(c.channel, UpToVeto(c.channel), false), InvokedOf(c.core, UpToVeto(c.core), true));
  }

  /** With who is invoked, this determines the trace. */
  lemma InvokedInPlace(v: View, mid: State, c: Chain)
    ensures InPlace(Invoked(v, mid, c))
  {
    ListsInPlace(c);
    ConcatInPlace(if c.driver.None? then [] else [Driver],
                  if Accepts(c.driver) && c.extra then ListsInvoked(c) else []);
    ConcatInPlace(HandlersInvoked(c), if StandardRuns(v, mid, c) then [Standard] else []);
  }

  lemma ConcatInPlace(a: seq<Invocation>, b: seq<Invocation>)
    requires InPlace(a) && InPlace(b)
    requires forall p, q :: 0 <= p < |a| && 0 <= q < |b| ==> Precedes(a[p], b[q])
    ensures InPlace(a + b)
  {
  }

  // ----- With which calls

  function CallsAt(c: Chain, who: Invocation): seq<Call> {
    match who
    case Driver => Calls(c.driver)
    case ChannelHandler(i) => if i < |c.channel| then Calls(c.channel[i]) else []
    case CoreHandler(j) => if j < |c.core| then Calls(c.core[j]) else []
    case Standard => c.standard
  }

  /** The calls of the functions of a trace, one after the other. */
  function TraceCalls(c: Chain, trace: seq<Invocation>): seq<Call> {
    if trace == [] then [] else CallsAt(c, trace[0]) + TraceCalls(c, trace[1..])
  }

  lemma {:induction false} TraceCallsConcat(c: Chain, a: seq<Invocation>, b: seq<Invocation>)
    ensures TraceCalls(c, a + b) == TraceCalls(c, a) + TraceCalls(c, b)
    decreases |a|
  {
    if a == [] {
      assert a + b == b;
    } else {
      assert (a + b)[1..] == a[1..] + b;
      TraceCallsConcat(c, a[1..], b);
      ConcatAssociates(CallsAt(c, a[0]), TraceCalls(c, a[1..]), TraceCalls(c, b));
    }
  }

  lemma TraceCallsSnoc(c: Chain, trace: seq<Invocation>, who: Invocation)
    ensures TraceCalls(c, trace + [who]) == TraceCalls(c, trace) + CallsAt(c, who)
  {
    TraceCallsConcat(c, trace, [who]);
    assert TraceCalls(c, [who]) == CallsAt(c, who) + TraceCalls(c, []);
  }

  lemma {:induction false} ListCallsAre(c: Chain, n: nat, core: bool)
    requires n <= |if core then c.core else c.channel|
    ensures var hs := if core then c.core else c.channel;
            TraceCalls(c, InvokedOf(hs, n, core)) == CallsOf(hs, n)
  {
    var hs := if core then c.core else c.channel;
    if n > 0 {
      ListCallsAre(c, n - 1, core);
      NextCalls(c, hs[n - 1], InvokedOf(hs, n - 1, core), if core then CoreHandler(n - 1) else ChannelHandler(n - 1));
    }
  }

  lemma NextCalls(c: Chain, h: Option<Handler>, trace: seq<Invocation>, who: Invocation)
    requires CallsAt(c, who) == Calls(h)
    ensures TraceCalls(c, trace + (if h.None? then [] else [who])) == TraceCalls(c, trace) + Calls(h)
  {
    if h.Some? {
      TraceCallsSnoc(c, trace, who);
    } else {
      assert trace + [] == trace && TraceCalls(c, trace) + [] == TraceCalls(c, trace);
    }
  }

  lemma HandlerCallsAre(c: Chain)
    ensures ChainCalls(c) == TraceCalls(c, HandlersInvoked(c))
  {
    var first: seq<Invocation> := if c.driver.None? then [] else [Driver];
    var lists := if Accepts(c.driver) && c.extra then ListsInvoked(c) else [];
    TraceCallsConcat(c, first, lists);
    assert TraceCalls(c, first) == Calls(c.driver) by {
      assert [Driver] == [] + [Driver];
      TraceCallsSnoc(c, [], Driver);
    }
    ListCallsAre(c, UpToVeto(c.channel), false);
    ListCallsAre(c, UpToVeto(c.core), true);
    TraceCallsConcat(c, InvokedOf(c.channel, UpToVeto(c.channel), false), InvokedOf(c.core, UpToVeto(c.core), true));
  }

  /** The calls that a run of the chain makes are those of the functions in its trace. */
  lemma CallsAreOfTheInvoked(v: View, mid: State, c: Chain)
    ensures AllCalls(v, mid, c) == TraceCalls(c, Invoked(v, mid, c))
  {
    HandlerCallsAre(c);
    TraceCallsSnoc(c, HandlersInvoked(c), Standard);
    assert HandlersInvoked(c) + [] == HandlersInvoked(c);
    assert ChainCalls(c) + [] == ChainCalls(c);
  }

  /** The standard action runs exactly if the driver and all handlers accept and the calls of the functions
      invoked have not moved the state. */
  lemma StandardIff(v: View, mid: State, c: Chain)
    ensures Standard !in HandlersInvoked(c)
    ensures Standard in Invoked(v, mid, c) <==>
            && Accepts(c.driver)
            && (c.extra ==> (forall i :: 0 <= i < |c.channel| ==> Accepts(c.channel[i]))
                            && (forall j :: 0 <= j < |c.core| ==> Accepts(c.core[j])))
            && ApplyAll(v, TraceCalls(c, HandlersInvoked(c))).state == mid
  {
    HandlerCallsAre(c);
    HandlersFrom(c, Standard);
    InvokedFrom(v, mid, c, Standard);
    NoOthers(c.channel, false);
    NoOthers(c.core, true);
  }

  /** Without the standard action, those are the functions invoked. */
  lemma StandardIsLast(v: View, mid: State, c: Chain)
    ensures var trace := Invoked(v, mid, c);
            trace == HandlersInvoked(c) || trace == HandlersInvoked(c) + [Standard]
  {
    assert HandlersInvoked(c) + [] == HandlersInvoked(c);
  }

  // ----- When a chain is run

  /** The chain of an ordinary state is run exactly when the loop enters the state: with the functions, and
      the effect of their calls, as above. A state that the loop is in already is not run again. */
  lemma OrdinaryStateRuns(s: Loop, t: Turn)
    requires !s.v.state.Down() && s.v.state != New
    ensures s.running == Some(s.v.state) ==> RunState(s, t) == s
    ensures s.running != Some(s.v.state) ==>
              var cur := s.v.state;
              var h := Do(s.(running := Some(cur)), t.hooks);
              var w := RunState(s, t);
              && w.running == Some(cur)
              && w.v == ApplyAll(h.v, TraceCalls(t.chain, Invoked(h.v, cur, t.chain)))
              && w.episodes != [] && w.episodes[|w.episodes| - 1] == Ran(cur, Invoked(h.v, cur, t.chain))
  {
    var h := Do(s.(running := Some(s.v.state)), t.hooks);
    OrdinaryDispatch(h, s.v.state, t);
    ChainRun(h, s.v.state, t.chain);
  }

  lemma OrdinaryDispatch(h: Loop, cur: State, t: Turn)
    requires !cur.Down() && cur != New
    ensures Dispatch(h, cur, t) == RunChain(h, cur, cur, t.chain)
  {
  }

  lemma ChainRun(h: Loop, cur: State, c: Chain)
    ensures var w := RunChain(h, cur, cur, c);
            && w.running == h.running && w.v == ApplyAll(h.v, TraceCalls(c, Invoked(h.v, cur, c)))
            && w.episodes != [] && w.episodes[|w.episodes| - 1] == Ran(cur, Invoked(h.v, cur, c))
  {
    CallsAreOfTheInvoked(h.v, cur, c);
  }

  /** A new channel runs no chain in its turn, only waits. */
  lemma NewRunsNothing(s: Loop, t: Turn)
    requires s.v.state == New && t.hooks == []
    ensures RunState(s, t).v == s.v && RunState(s, t).episodes == s.episodes
  {
    DoNothing(s.(running := Some(New)));
  }
}
