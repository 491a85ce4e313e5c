/** The session thread's run loop on values: what one turn does, and what every run of turns keeps
    (src/switch_core_state_machine.c). */
module SessionLoop {
  import opened Common
  import opened Channel

  const INVALID_CALL_REFERENCE: nat := 81

  // ----- Handlers

  /** A handler function: the calls it makes while it runs, and whether it accepts. */
  datatype Handler = Handler(calls: seq<Call>, accept: bool)

  /** The handler functions for one state: the driver's, those of the channel's handler tables and
      those of the core's, in table order, and the standard action. A table may have no function
      for the state. */
  datatype Chain = Chain(
    driver: Option<Handler>, channel: seq<Option<Handler>>, core: seq<Option<Handler>>,
    standard: seq<Call>, extra: bool)

  /** One function of a chain, as it is invoked. */
  datatype Invocation = Driver | ChannelHandler(i: nat) | CoreHandler(j: nat) | Standard

  predicate Accepts(h: Option<Handler>) {
    h.None? || h.value.accept
  }

  predicate FirstAccept(hs: seq<Option<Handler>>, n: nat)
    requires n <= |hs|
  {
    forall i :: 0 <= i < n ==> Accepts(hs[i])
  }

  predicate AllAccept(hs: seq<Option<Handler>>) {
    FirstAccept(hs, |hs|)
  }

  function Calls(h: Option<Handler>): seq<Call> {
    if h.None? then [] else h.value.calls
  }

  /** How many entries of a list are visited: those up to and including the first that refuses, or all. */
  function UpToVeto(hs: seq<Option<Handler>>): (n: nat)
    ensures n <= |hs| && FirstAccept(hs, if n == 0 then 0 else n - 1)
    ensures n < |hs| ==> n > 0 && !Accepts(hs[n - 1])
    ensures AllAccept(hs) ==> n == |hs|
    ensures hs != [] ==> n > 0
  {
    if hs == [] then 0 else if !Accepts(hs[0]) then 1 else 1 + UpToVeto(hs[1..])
  }

  lemma VetoAt(hs: seq<Option<Handler>>, n: nat)
    requires 0 < n <= |hs| && FirstAccept(hs, n - 1) && !Accepts(hs[n - 1])
    ensures UpToVeto(hs) == n && !AllAccept(hs)
  {
    var m := UpToVeto(hs);
  }

  /** The calls made when the first n entries are visited one after the other. */
  function CallsOf(hs: seq<Option<Handler>>, n: nat): seq<Call>
    requires n <= |hs|
  {
    if n == 0 then [] else CallsOf(hs, n - 1) + Calls(hs[n - 1])
  }

  /** The functions invoked when the first n entries are visited. */
  function InvokedOf(hs: seq<Option<Handler>>, n: nat, core: bool): seq<Invocation>
    requires n <= |hs|
  {
    if n == 0 then []
    else
      var who := if core then CoreHandler(n - 1) else ChannelHandler(n - 1);
      InvokedOf(hs, n - 1, core) + (if hs[n - 1].None? then [] else [who])
  }

  /** What running the chain does, in the terms of the design: the driver comes first and may cancel
      the rest; then each list runs up to its first refusal; then the standard action runs if nobody
      refused and the state has not moved. */
  function ChainCalls(c: Chain): seq<Call> {
    Calls(c.driver) + (if Accepts(c.driver) && c.extra then ListCalls(c) else [])
  }

  function ListCalls(c: Chain): seq<Call> {
    CallsOf(c.channel, UpToVeto(c.channel)) + CallsOf(c.core, UpToVeto(c.core))
  }

  predicate StandardRuns(v: View, mid: State, c: Chain) {
    && Accepts(c.driver)
    && (c.extra ==> AllAccept(c.channel) && AllAccept(c.core))
    && ApplyAll(v, ChainCalls(c)).state == mid
  }

  /** All calls a run of the chain makes, starting from view v in a turn for state mid. */
  function AllCalls(v: View, mid: State, c: Chain): seq<Call> {
    ChainCalls(c) + (if StandardRuns(v, mid, c) then c.standard else [])
  }

  /** The functions of the chain that are invoked, in order. */
  function Invoked(v: View, mid: State, c: Chain): seq<Invocation> {
    HandlersInvoked(c) + (if StandardRuns(v, mid, c) then [Standard] else [])
  }

  function HandlersInvoked(c: Chain): seq<Invocation> {
    (if c.driver.None? then [] else [Driver]) + (if Accepts(c.driver) && c.extra then ListsInvoked(c) else [])
  }

  function ListsInvoked(c: Chain): seq<Invocation> {
    InvokedOf(c.channel, UpToVeto(c.channel), false) + InvokedOf(c.core, UpToVeto(c.core), true)
  }

  /** Just those entries of a list are invoked that have a function and no refusal before them. */
  lemma {:induction false} InvokedIff(hs: seq<Option<Handler>>, n: nat, core: bool, i: nat)
    requires n <= |hs| && i < |hs|
    ensures var who := if core then CoreHandler(i) else ChannelHandler(i);
            who in InvokedOf(hs, n, core) <==> i < n && hs[i].Some?
    ensures i < UpToVeto(hs) <==> FirstAccept(hs, i)
  {
    if n > 0 {
      InvokedIff(hs, n - 1, core, i);
    }
  }

  // ----- Which calls skip a handler

  /** The call moves the state past handlers that then never run: past those for the hangup unless they
      ran early or are running, and past those for the reporting unless they are running. The running
      state is the one that the loop is in. Handlers of an early hangup count as running while they run. */
  predicate Skips(v: View, running: Option<State>, c: Call) {
    && !v.aborted
    && match c
       case SetState(Reporting) =>
         v.state == New || v.state == Reset || (v.state == Hangup && !v.handled && running != Some(Hangup))
       case SetState(Destroy) =>
         v.state == New || v.state == Reset || v.state == Hangup
         || (v.state == Reporting && running != Some(Reporting))
       case SetState(_) => false
       case DoHangup(_, early) =>
         RunsEarly(v, c) && Destroy in early.value
  }

  /** The call is a hangup that runs the hangup handlers at once. */
  predicate RunsEarly(v: View, c: Call) {
    !v.aborted && c.DoHangup? && c.early.Some? && !v.hungup && !v.state.Down() && !v.handled
  }

  /** Some call of the sequence does. */
  predicate SkipsAny(v: View, running: Option<State>, calls: seq<Call>)
    decreases |calls|
  {
    calls != [] && (Skips(v, running, calls[0]) || SkipsAny(Apply(v, calls[0]), running, calls[1..]))
  }

  /** What holds at any moment: the flags agree with the log, and the loop's state is not ahead of the
      channel's. */
  predicate Wellformed(v: View, running: Option<State>) {
    && (v.handled <==> HangupHandled in v.log) && (Reported in v.log ==> v.reported)
    && (v.reported ==> running == Some(Reporting)) && (v.state.Down() ==> !v.aborted) && Consistent(v)
    && (running.Some? && running.value.Down() ==> v.state.Rank() >= running.value.Rank())
  }

  /** So far all handlers have run or will run, once each, hangup before reporting. */
  predicate InOrder(v: View, running: Option<State>) {
    if !v.state.Down() then v.log == []
    else if v.state == Hangup then v.log == if v.handled then [HangupHandled] else []
    else if v.state == Reporting then
      if v.handled then v.log == [HangupHandled] || (running == Some(Reporting) && v.log == [HangupHandled, Reported])
      else running == Some(Hangup) && v.log == []
    else v.log == [HangupHandled, Reported] || (running == Some(Reporting) && v.log == [HangupHandled])
  }

  /** Some handler will never run. */
  predicate Lost(v: View, running: Option<State>) {
    || (v.state == Reporting && !v.handled && running != Some(Hangup))
    || (v.state == Destroy && (running != Some(Reporting) || !v.handled))
  }

  lemma MoveKeepsOrderIff(v: View, running: Option<State>, next: State)
    requires Wellformed(v, running) && InOrder(v, running) && !v.aborted
    ensures InOrder(Move(v, next), running) <==> !Skips(v, running, SetState(next))
    ensures Lost(Move(v, next), running) <==> Skips(v, running, SetState(next))
  {
  }

  lemma HangupKeepsOrderIff(v: View, running: Option<State>, c: Call)
    requires Wellformed(v, running) && InOrder(v, running) && !v.aborted && c.DoHangup?
    ensures InOrder(Apply(v, c), running) <==> !Skips(v, running, c)
    ensures Lost(Apply(v, c), running) <==> Skips(v, running, c)
  {
  }

  /** The exact condition for one call. */
  lemma KeepsOrderIff(v: View, running: Option<State>, c: Call)
    requires Wellformed(v, running) && InOrder(v, running) && !v.aborted
    ensures InOrder(Apply(v, c), running) <==> !Skips(v, running, c)
    ensures Lost(Apply(v, c), running) <==> Skips(v, running, c)
  {
    match c
    case SetState(next) => MoveKeepsOrderIff(v, running, next);
    case DoHangup(_, _) => HangupKeepsOrderIff(v, running, c);
  }

  // ----- The loop

  /** A chain of handlers was run: that for a state, with the functions it invoked, or that for the hangup
      by an early hangup. */
  datatype Episode = Ran(state: State, who: seq<Invocation>) | RanEarly {
    predicate IsHangup() {
      RanEarly? || state == Hangup
    }

    predicate IsReporting() {
      Ran? && state == Reporting
    }
  }

  /** The channel, the state that the loop is in, the wait left in CS_NEW, whether a call so far skipped
      a handler, and the chains run so far. */
  datatype Loop = Loop(v: View, running: Option<State>, newLoops: nat, skipped: bool, episodes: seq<Episode>)

  const NEW_LOOPS: nat := 60000
  const START := Loop(FRESH, None, NEW_LOOPS, false, [])

  /** The early hangups among some calls. */
  function EarlyRuns(v: View, calls: seq<Call>): seq<Episode>
    decreases |calls|
  {
    if calls == [] then []
    else (if RunsEarly(v, calls[0]) then [RanEarly] else []) + EarlyRuns(Apply(v, calls[0]), calls[1..])
  }

  /** What happens around the loop in one turn: the calls made by other threads while the state is
      blocked (if it is), by the state_run hooks, by the handlers, by the API hook that follows the
      hangup or reporting handlers, by others before the end state is read, and by the events parsed
      and awaited in an idle turn. If early hangup is enabled, `early` has the states that the handlers
      then set. */
  datatype Turn = Turn(
    blocked: Option<seq<Call>>, hooks: seq<Call>, chain: Chain, api: seq<Call>,
    others: seq<Call>, idle: seq<Call>, early: Option<seq<State>>)

  /** Calls made by handlers or other threads at one point of the loop. */
  function Do(s: Loop, calls: seq<Call>): Loop {
    s.(v := ApplyAll(s.v, calls), skipped := s.skipped || SkipsAny(s.v, s.running, calls),
       episodes := s.episodes + EarlyRuns(s.v, calls))
  }

  /** One call. */
  function DoOne(s: Loop, c: Call): Loop {
    s.(v := Apply(s.v, c), skipped := s.skipped || Skips(s.v, s.running, c),
       episodes := s.episodes + if RunsEarly(s.v, c) then [RanEarly] else [])
  }

  lemma DoFirst(s: Loop, calls: seq<Call>)
    requires calls != []
    ensures Do(s, calls) == Do(DoOne(s, calls[0]), calls[1..])
  {
    ConcatAssociates(s.episodes, if RunsEarly(s.v, calls[0]) then [RanEarly] else [],
                     EarlyRuns(Apply(s.v, calls[0]), calls[1..]));
  }

  lemma DoNothing(s: Loop)
    ensures Do(s, []) == s
  {
  }

  lemma {:induction false} DoConcat(s: Loop, a: seq<Call>, b: seq<Call>)
    ensures Do(s, a + b) == Do(Do(s, a), b)
    decreases |a|
  {
    if a == [] {
      assert a + b == b;
      DoNothing(s);
    } else {
      assert (a + b)[1..] == a[1..] + b;
      DoConcat(DoOne(s, a[0]), a[1..], b);
      DoFirst(s, a + b);
      DoFirst(s, a);
    }
  }

  /** The chain of handlers for a state. */
  function RunChain(s: Loop, tag: State, mid: State, c: Chain): Loop {
    Note(Do(s, AllCalls(s.v, mid, c)), tag, Invoked(s.v, mid, c))
  }

  function Note(s: Loop, tag: State, who: seq<Invocation>): Loop {
    s.(episodes := s.episodes + [Ran(tag, who)])
  }

  /** The handlers of the hangup or the reporting and the API hook after them. */
  function Handle(s: Loop, tag: State, t: Turn): Loop {
    Note(Do(Do(s, AllCalls(s.v, s.v.state, t.chain)), t.api), tag, Invoked(s.v, s.v.state, t.chain))
  }

  function HandleHangup(s: Loop, t: Turn): Loop {
    if s.v.handled then s
    else
      var w := Handle(s, Hangup, t);
      w.(v := w.v.(handled := true, log := w.v.log + [HangupHandled]))
  }

  function HandleReporting(s: Loop, t: Turn): Loop {
    if s.v.reported then s
    else
      var w := Handle(s.(v := s.v.(reported := true)), Reporting, t);
      w.(v := w.v.(log := w.v.log + [Reported]))
  }

  /** The switch over the states. */
  function Dispatch(s: Loop, cur: State, t: Turn): Loop {
    if cur == New then s
    else if cur == Reporting then Do(HandleReporting(s, t), [SetState(Destroy)])
    else if cur == Hangup then Do(HandleHangup(s, t), [SetState(Reporting)])
    else RunChain(s, cur, cur, t.chain)
  }

  /** Whether the loop runs the current state: not if it did already, unless the channel is down. */
  predicate Runs(s: Loop) {
    Some(s.v.state) != s.running || s.v.state.Down()
  }

  function RunState(s: Loop, t: Turn): Loop {
    if Runs(s) then Dispatch(Do(s.(running := Some(s.v.state)), t.hooks), s.v.state, t) else s
  }

  /** The end of a turn in which the state has not moved. */
  function Idle(s: Loop, t: Turn): Loop {
    var w := Do(s, t.idle);
    if s.v.state != New then w
    else
      var left := if w.newLoops == 0 then 0xFFFF_FFFF else w.newLoops - 1;
      if left == 0 then Do(w.(newLoops := 0), [DoHangup(INVALID_CALL_REFERENCE, t.early)])
      else w.(newLoops := left)
  }

  function Unblock(s: Loop, t: Turn): Loop {
    if t.blocked.Some? then Do(s, t.blocked.value) else s
  }

  /** What follows the running of a state in a turn. */
  function Finish(s: Loop, t: Turn): Loop {
    var w := Do(s, t.others);
    if Some(w.v.state) == w.running then Idle(w, t) else w
  }

  /** One turn of the loop. */
  function TakeTurn(s: Loop, t: Turn): Loop {
    var u := Unblock(s, t);
    if u.v.state == Destroy then u
    else if u.v.state == Reporting then RunState(u, t)
    else Finish(RunState(u, t), t)
  }

  predicate Ended(s: Loop) {
    s.v.state == Destroy || s.v.aborted
  }

  /** The loop over any number of turns. */
  function Run(s: Loop, turns: seq<Turn>): Loop
    decreases |turns|
  {
    if turns == [] || Ended(s) then s else Run(TakeTurn(s, turns[0]), turns[1..])
  }

  function TurnsUsed(s: Loop, turns: seq<Turn>): (n: nat)
    ensures n <= |turns|
    decreases |turns|
  {
    if turns == [] || Ended(s) then 0 else 1 + TurnsUsed(TakeTurn(s, turns[0]), turns[1..])
  }

  // ----- What every run keeps

  /** At any moment: all is in order exactly if no call has skipped a handler. */
  predicate Tracked(s: Loop) {
    Wellformed(s.v, s.running) && if s.skipped then Lost(s.v, s.running) else InOrder(s.v, s.running)
  }

  /** The same at the head of the loop, where no handler is running. */
  predicate AtHead(s: Loop) {
    Tracked(s) && s.running != Some(Reporting) && (s.running == Some(Hangup) ==> s.v.handled)
  }

  /** A loop that has ended did all its work exactly if no call skipped a handler. */
  predicate Concluded(s: Loop) {
    s.v.state == Destroy && !s.v.aborted && (s.v.log == [HangupHandled, Reported] <==> !s.skipped)
  }

  lemma {:induction false} DoTracked(s: Loop, calls: seq<Call>)
    requires Tracked(s)
    ensures Tracked(Do(s, calls))
    ensures var w := Do(s, calls).v;
            s.v.state.Down() ==> s.v.state.Rank() <= w.state.Rank()
                                 && w.(state := s.v.state, hungup := s.v.hungup) == s.v
    decreases |calls|
  {
    if calls != [] {
      OneTracked(s, calls[0]);
      DoFirst(s, calls);
      DoTracked(DoOne(s, calls[0]), calls[1..]);
    }
  }

  lemma OneTracked(s: Loop, c: Call)
    requires Tracked(s)
    ensures Tracked(DoOne(s, c))
    ensures var w := Apply(s.v, c);
            s.v.state.Down() ==> s.v.state.Rank() <= w.state.Rank()
                                 && w.(state := s.v.state, hungup := s.v.hungup) == s.v
  {
    if !s.v.aborted && !s.skipped {
      KeepsOrderIff(s.v, s.running, c);
    }
  }

  lemma OneCall(s: Loop, c: Call)
    requires Tracked(s)
    ensures Do(s, [c]) == DoOne(s, c) && Tracked(Do(s, [c]))
    ensures var w := Apply(s.v, c);
            s.v.state.Down() ==> s.v.state.Rank() <= w.state.Rank()
                                 && w.(state := s.v.state, hungup := s.v.hungup) == s.v
  {
    OneTracked(s, c);
    DoFirst(s, [c]);
    DoNothing(DoOne(s, c));
  }

  /** Running the handlers for a state that is down changes none of what the loop looks at but the state. */
  lemma HandleTracked(s: Loop, tag: State, t: Turn)
    requires Tracked(s) && s.v.state.Down()
    ensures var w := Handle(s, tag, t);
            && Tracked(w) && w.running == s.running && w.newLoops == s.newLoops
            && s.v.state.Rank() <= w.v.state.Rank() && w.v.(state := s.v.state, hungup := s.v.hungup) == s.v
  {
    DoTracked(s, AllCalls(s.v, s.v.state, t.chain));
    DoTracked(Do(s, AllCalls(s.v, s.v.state, t.chain)), t.api);
  }

  lemma HangTracked(s: Loop, t: Turn)
    requires Tracked(s) && s.running == Some(Hangup)
    ensures var w := HandleHangup(s, t);
            Tracked(w) && w.v.handled && w.running == s.running && w.v.cause == s.v.cause
  {
    HandleTracked(s, Hangup, t);
  }

  lemma HangupTracked(s: Loop, t: Turn)
    requires Tracked(s) && s.running == Some(Hangup)
    ensures var w := Dispatch(s, Hangup, t);
            && Tracked(w) && w.v.handled && w.running == s.running
            && w.v.state.Rank() >= Reporting.Rank() && w.v.cause == s.v.cause
  {
    HangTracked(s, t);
    OneCall(HandleHangup(s, t), SetState(Reporting));
  }

  lemma ReportTracked(s: Loop, t: Turn)
    requires Tracked(s) && s.running == Some(Reporting) && !s.v.reported
    ensures var w := HandleReporting(s, t);
            Tracked(w) && w.running == s.running && w.v.cause == s.v.cause && Reported in w.v.log
  {
    HandleTracked(s.(v := s.v.(reported := true)), Reporting, t);
  }

  lemma ReportingTracked(s: Loop, t: Turn)
    requires Tracked(s) && s.running == Some(Reporting) && !s.v.reported
    ensures var w := Dispatch(s, Reporting, t);
            && Tracked(w) && w.running == s.running && w.v.cause == s.v.cause && Concluded(w)
  {
    ReportTracked(s, t);
    OneCall(HandleReporting(s, t), SetState(Destroy));
  }

  /** The loop enters a state, and its hooks run. */
  lemma EnterTracked(s: Loop, t: Turn)
    requires AtHead(s) && s.v.state != Destroy
    ensures var h := Do(s.(running := Some(s.v.state)), t.hooks);
            && Tracked(h) && h.running == Some(s.v.state) && (s.v.state == Reporting ==> !h.v.reported)
            && (s.v.state.Down() ==> h.v.cause == s.v.cause && h.v.state.Rank() >= s.v.state.Rank())
  {
    DoTracked(s.(running := Some(s.v.state)), t.hooks);
  }

  lemma DoAtHead(s: Loop, calls: seq<Call>)
    requires AtHead(s)
    ensures AtHead(Do(s, calls))
  {
    DoTracked(s, calls);
  }

  /** A state other than those of the end. */
  lemma OrdinaryTracked(s: Loop, cur: State, t: Turn)
    requires Tracked(s) && s.running == Some(cur) && !cur.Down()
    ensures AtHead(Dispatch(s, cur, t))
  {
    DoAtHead(s, AllCalls(s.v, cur, t.chain));
  }

  lemma DispatchTracked(s: Loop, cur: State, t: Turn)
    requires Tracked(s) && s.running == Some(cur) && cur != Destroy && (cur == Reporting ==> !s.v.reported)
    ensures var w := Dispatch(s, cur, t);
            && (if cur == Reporting then Concluded(w) else AtHead(w))
            && (cur.Down() ==> w.v.cause == s.v.cause && w.v.state.Rank() > cur.Rank())
  {
    if cur == Reporting {
      ReportingTracked(s, t);
    } else if cur == Hangup {
      HangupTracked(s, t);
    } else {
      OrdinaryTracked(s, cur, t);
    }
  }

  lemma RunStateTracked(s: Loop, t: Turn)
    requires AtHead(s) && s.v.state != Destroy
    ensures var w := RunState(s, t);
            && (if s.v.state == Reporting then Concluded(w) else AtHead(w))
            && (s.v.state.Down() ==> w.v.cause == s.v.cause && w.v.state.Rank() > s.v.state.Rank())
  {
    if Runs(s) {
      EnterTracked(s, t);
      DispatchTracked(Do(s.(running := Some(s.v.state)), t.hooks), s.v.state, t);
    }
  }

  lemma IdleTracked(s: Loop, t: Turn)
    requires AtHead(s)
    ensures var w := Idle(s, t);
            AtHead(w) && (s.v.state.Down() ==> w.v.cause == s.v.cause && w.v.state.Rank() >= s.v.state.Rank())
  {
    DoTracked(s, t.idle);
    if s.v.state == New {
      OneCall(Do(s, t.idle).(newLoops := 0), DoHangup(INVALID_CALL_REFERENCE, t.early));
    }
  }

  lemma FinishTracked(s: Loop, t: Turn)
    requires AtHead(s)
    ensures var w := Finish(s, t);
            AtHead(w) && (s.v.state.Down() ==> w.v.cause == s.v.cause && w.v.state.Rank() >= s.v.state.Rank())
  {
    DoTracked(s, t.others);
    var w := Do(s, t.others);
    if Some(w.v.state) == w.running {
      IdleTracked(w, t);
    }
  }

  lemma UnblockTracked(s: Loop, t: Turn)
    requires AtHead(s)
    ensures var w := Unblock(s, t);
            && AtHead(w) && (w.v.state == Destroy ==> Concluded(w))
            && (s.v.state.Down() ==> w.v.cause == s.v.cause && w.v.state.Rank() >= s.v.state.Rank())
  {
    if t.blocked.Some? {
      DoTracked(s, t.blocked.value);
    }
  }

  /** A turn is left at CS_DESTROY, or leads back to the head of the loop. */
  predicate Turned(w: Loop) {
    if w.v.state == Destroy then Concluded(w) else AtHead(w)
  }

  /** A channel that is down keeps its cause and has moved on. */
  predicate MovedOn(s: Loop, w: Loop) {
    s.v.state.Down() ==> w.v.cause == s.v.cause && w.v.state.Rank() > s.v.state.Rank()
  }

  lemma HeadAtDestroy(s: Loop)
    requires AtHead(s)
    ensures Turned(s)
  {
  }

  /** The turn after the wait for a blocked state. */
  lemma RestTracked(u: Loop, t: Turn)
    requires AtHead(u) && u.v.state != Destroy
    ensures var w := if u.v.state == Reporting then RunState(u, t) else Finish(RunState(u, t), t);
            Turned(w) && MovedOn(u, w) && (u.v.state == Reporting ==> w.v.state == Destroy)
  {
    RunStateTracked(u, t);
    if u.v.state != Reporting {
      FinishTracked(RunState(u, t), t);
      HeadAtDestroy(Finish(RunState(u, t), t));
    }
  }

  /** One turn: it ends with all work done exactly if nothing was skipped, or it leads back to the head
      of the loop. A channel that is down moves on. */
  lemma TurnTracked(s: Loop, t: Turn)
    requires AtHead(s)
    ensures var u, w := Unblock(s, t), TakeTurn(s, t);
            && Turned(w) && (s.v.state != Destroy ==> MovedOn(s, w))
            && (u.v.state == Reporting || u.v.state == Destroy ==> w.v.state == Destroy)
  {
    UnblockTracked(s, t);
    if Unblock(s, t).v.state != Destroy {
      RestTracked(Unblock(s, t), t);
    }
  }

  /** For every run, whatever calls are made at any point of it: a loop that has come to CS_DESTROY has
      handled the hangup once and then reported once, and nothing else, exactly if no call skipped a
      handler. */
  lemma {:induction false} RunConcludes(s: Loop, turns: seq<Turn>)
    requires AtHead(s)
    ensures Run(s, turns).v.state == Destroy ==> Concluded(Run(s, turns))
    decreases |turns|
  {
    if turns != [] && !Ended(s) {
      TurnTracked(s, turns[0]);
      var w := TakeTurn(s, turns[0]);
      if w.v.state != Destroy {
        RunConcludes(w, turns[1..]);
      }
    }
  }

  /** A channel that is down needs no more turns than it is states away from CS_DESTROY, and keeps its
      cause. */
  lemma {:induction false} DownEnds(s: Loop, turns: seq<Turn>)
    requires AtHead(s) && s.v.state.Down() && |turns| >= Destroy.Rank() - s.v.state.Rank()
    ensures Run(s, turns).v.state == Destroy && Run(s, turns).v.cause == s.v.cause
    ensures TurnsUsed(s, turns) <= Destroy.Rank() - s.v.state.Rank()
    decreases |turns|
  {
    if s.v.state != Destroy {
      TurnTracked(s, turns[0]);
      var w := TakeTurn(s, turns[0]);
      if w.v.state != Destroy {
        DownEnds(w, turns[1..]);
      }
    }
  }

  // ----- The log is what was run

  /** What the log should say of a chain that was run. */
  function EventOf(e: Episode): Option<Event> {
    if e.IsHangup() then Some(HangupHandled) else if e.IsReporting() then Some(Reported) else None
  }

  function Plus(events: seq<Event>, e: Option<Event>): seq<Event> {
    if e.None? then events else events + [e.value]
  }

  function Events(episodes: seq<Episode>): seq<Event> {
    if episodes == [] then []
    else Plus(Events(episodes[..|episodes| - 1]), EventOf(episodes[|episodes| - 1]))
  }

  lemma EventsSnoc(episodes: seq<Episode>, e: Episode)
    ensures Events(episodes + [e]) == Plus(Events(episodes), EventOf(e))
  {
    assert (episodes + [e])[..|episodes|] == episodes;
  }

  /** The log agrees with the chains that were run. */
  predicate Recorded(s: Loop) {
    Events(s.episodes) == s.v.log
  }

  lemma OneRecorded(s: Loop, c: Call)
    requires Recorded(s)
    ensures Recorded(DoOne(s, c))
  {
    EventsSnoc(s.episodes, RanEarly);
    MoveKeepsLog(s.v, c);
    assert s.episodes + [] == s.episodes;
  }

  lemma MoveKeepsLog(v: View, c: Call)
    ensures Apply(v, c).log == v.log + if RunsEarly(v, c) then [HangupHandled] else []
  {
  }

  lemma {:induction false} DoRecorded(s: Loop, calls: seq<Call>)
    requires Recorded(s)
    ensures Recorded(Do(s, calls))
    decreases |calls|
  {
    if calls == [] {
      DoNothing(s);
    } else {
      OneRecorded(s, calls[0]);
      DoFirst(s, calls);
      DoRecorded(DoOne(s, calls[0]), calls[1..]);
    }
  }

  /** Handlers run, and the log is to say so next. */
  lemma HandleRecorded(s: Loop, tag: State, t: Turn)
    requires Recorded(s)
    ensures var w := Handle(s, tag, t); Events(w.episodes) == Plus(w.v.log, EventOf(Ran(tag, [])))
  {
    DoRecorded(s, AllCalls(s.v, s.v.state, t.chain));
    var w := Do(Do(s, AllCalls(s.v, s.v.state, t.chain)), t.api);
    DoRecorded(Do(s, AllCalls(s.v, s.v.state, t.chain)), t.api);
    EventsSnoc(w.episodes, Ran(tag, Invoked(s.v, s.v.state, t.chain)));
  }

  lemma HangupRecorded(s: Loop, t: Turn)
    requires Recorded(s)
    ensures Recorded(HandleHangup(s, t))
  {
    HandleRecorded(s, Hangup, t);
  }

  lemma ReportingRecorded(s: Loop, t: Turn)
    requires Recorded(s)
    ensures Recorded(HandleReporting(s, t))
  {
    HandleRecorded(s.(v := s.v.(reported := true)), Reporting, t);
  }

  lemma DispatchRecorded(s: Loop, cur: State, t: Turn)
    requires Recorded(s)
    ensures Recorded(Dispatch(s, cur, t))
  {
    if cur == Reporting {
      ReportingRecorded(s, t);
      DoRecorded(HandleReporting(s, t), [SetState(Destroy)]);
    } else if cur == Hangup {
      HangupRecorded(s, t);
      DoRecorded(HandleHangup(s, t), [SetState(Reporting)]);
    } else if cur != New {
      var calls := AllCalls(s.v, cur, t.chain);
      DoRecorded(s, calls);
      EventsSnoc(Do(s, calls).episodes, Ran(cur, Invoked(s.v, cur, t.chain)));
    }
  }

  lemma FinishRecorded(s: Loop, t: Turn)
    requires Recorded(s)
    ensures Recorded(Finish(s, t))
  {
    var w := Do(s, t.others);
    DoRecorded(s, t.others);
    DoRecorded(w, t.idle);
    DoRecorded(Do(w, t.idle).(newLoops := 0), [DoHangup(INVALID_CALL_REFERENCE, t.early)]);
  }

  lemma TurnRecorded(s: Loop, t: Turn)
    requires Recorded(s)
    ensures Recorded(TakeTurn(s, t))
  {
    if t.blocked.Some? {
      DoRecorded(s, t.blocked.value);
    }
    var u := Unblock(s, t);
    if u.v.state != Destroy {
      DoRecorded(u.(running := Some(u.v.state)), t.hooks);
      DispatchRecorded(Do(u.(running := Some(u.v.state)), t.hooks), u.v.state, t);
      FinishRecorded(RunState(u, t), t);
    }
  }

  lemma {:induction false} RunRecorded(s: Loop, turns: seq<Turn>)
    requires Recorded(s)
    ensures Recorded(Run(s, turns))
    decreases |turns|
  {
    if turns != [] && !Ended(s) {
      TurnRecorded(s, turns[0]);
      RunRecorded(TakeTurn(s, turns[0]), turns[1..]);
    }
  }

  /** The hangup chain was run once, after that the reporting chain once, and neither at another time. */
  ghost predicate EachOnce(episodes: seq<Episode>) {
    exists i, j :: 0 <= i < j < |episodes| && AreThose(episodes, i, j)
  }

  predicate AreThose(episodes: seq<Episode>, i: nat, j: nat)
    requires i < |episodes| && j < |episodes|
  {
    && episodes[i].IsHangup() && episodes[j].IsReporting()
    && NoneBut(episodes, i, j)
  }

  /** No chain of the end was run but at two places. */
  predicate NoneBut(episodes: seq<Episode>, i: nat, j: nat) {
    forall k :: 0 <= k < |episodes| && k != i && k != j ==> EventOf(episodes[k]) == None
  }

  lemma {:induction false} NoEvents(episodes: seq<Episode>, i: nat, j: nat)
    requires Events(episodes) == []
    ensures NoneBut(episodes, i, j)
  {
    if episodes != [] {
      NoEvents(episodes[..|episodes| - 1], i, j);
    }
  }

  lemma {:induction false} OneHangup(episodes: seq<Episode>, j: nat) returns (i: nat)
    requires Events(episodes) == [HangupHandled]
    ensures i < |episodes| && episodes[i].IsHangup() && NoneBut(episodes, i, j)
  {
    var n := |episodes| - 1;
    if EventOf(episodes[n]).None? {
      i := OneHangup(episodes[..n], j);
    } else {
      assert Events(episodes[..n]) == Events(episodes)[..0];
      NoEvents(episodes[..n], n, j);
      assert Events(episodes)[0] == EventOf(episodes[n]).value;
      i := n;
    }
  }

  lemma {:induction false} EventsOnce(episodes: seq<Episode>) returns (i: nat, j: nat)
    requires Events(episodes) == [HangupHandled, Reported]
    ensures i < j < |episodes| && AreThose(episodes, i, j)
  {
    var n := |episodes| - 1;
    if EventOf(episodes[n]).None? {
      i, j := EventsOnce(episodes[..n]);
    } else {
      assert Events(episodes[..n]) == Events(episodes)[..1];
      assert Events(episodes)[1] == EventOf(episodes[n]).value;
      j := n;
      i := OneHangup(episodes[..n], n);
    }
  }

  /** For every run from the start of a session: when it comes to CS_DESTROY and no call skipped a handler,
      the chain of hangup handlers has been run once, early or in the loop, and after it that of the
      reporting handlers once. */
  lemma RunInvokesEachOnce(turns: seq<Turn>)
    ensures var w := Run(START, turns); w.v.state == Destroy && !w.skipped ==> EachOnce(w.episodes)
  {
    var w := Run(START, turns);
    RunConcludes(START, turns);
    RunRecorded(START, turns);
    if w.v.state == Destroy && !w.skipped {
      var i, j := EventsOnce(w.episodes);
    }
  }

  // ----- Runs in which nothing is skipped

  /** No call sets a state beyond CS_HANGUP, nor does a handler of an early hangup. */
  predicate IsTame(calls: seq<Call>) {
    forall i :: 0 <= i < |calls| ==>
      match calls[i]
      case SetState(next) => next.Rank() <= Hangup.Rank()
      case DoHangup(_, early) => early.Some? ==> TameStates(early.value)
  }

  predicate TameStates(states: seq<State>) {
    Reporting !in states && Destroy !in states
  }

  predicate TameHandlers(hs: seq<Option<Handler>>) {
    forall i :: 0 <= i < |hs| ==> IsTame(Calls(hs[i]))
  }

  predicate TameTurn(t: Turn) {
    && (t.blocked.Some? ==> IsTame(t.blocked.value)) && IsTame(t.hooks)
    && IsTame(Calls(t.chain.driver)) && TameHandlers(t.chain.channel) && TameHandlers(t.chain.core)
    && IsTame(t.chain.standard) && IsTame(t.api) && IsTame(t.others) && IsTame(t.idle)
    && (t.early.Some? ==> TameStates(t.early.value))
  }

  lemma {:induction false} TameCallsOf(hs: seq<Option<Handler>>, n: nat)
    requires n <= |hs| && TameHandlers(hs)
    ensures IsTame(CallsOf(hs, n))
  {
    if n > 0 {
      TameCallsOf(hs, n - 1);
    }
  }

  lemma TameAllCalls(v: View, mid: State, t: Turn)
    requires TameTurn(t)
    ensures IsTame(AllCalls(v, mid, t.chain))
  {
    TameCallsOf(t.chain.channel, UpToVeto(t.chain.channel));
    TameCallsOf(t.chain.core, UpToVeto(t.chain.core));
  }

  /** Such calls skip nothing, and do not move a channel that is down. */
  lemma {:induction false} TameDo(s: Loop, calls: seq<Call>)
    requires IsTame(calls)
    ensures Do(s, calls).skipped == s.skipped
    ensures s.v.state.Down() ==> Do(s, calls).v == s.v.(hungup := Do(s, calls).v.hungup)
    decreases |calls|
  {
    if calls != [] {
      assert IsTame(calls[1..]);
      DoFirst(s, calls);
      TameDo(DoOne(s, calls[0]), calls[1..]);
    }
  }

  lemma TameHandle(s: Loop, tag: State, t: Turn)
    requires TameTurn(t) && s.v.state.Down()
    ensures var w := Handle(s, tag, t); w.skipped == s.skipped && w.v == s.v.(hungup := w.v.hungup)
  {
    TameAllCalls(s.v, s.v.state, t);
    TameDo(s, AllCalls(s.v, s.v.state, t.chain));
    TameDo(Do(s, AllCalls(s.v, s.v.state, t.chain)), t.api);
  }

  lemma TameReporting(s: Loop, t: Turn)
    requires Tracked(s) && TameTurn(t) && s.running == Some(Reporting) && s.v.state == Reporting && !s.v.reported
    ensures Dispatch(s, Reporting, t).skipped == s.skipped && Dispatch(s, Reporting, t).v.state == Destroy
  {
    TameHandle(s.(v := s.v.(reported := true)), Reporting, t);
    ReportTracked(s, t);
    OneCall(HandleReporting(s, t), SetState(Destroy));
  }

  lemma TameHangup(s: Loop, t: Turn)
    requires Tracked(s) && TameTurn(t) && s.running == Some(Hangup) && s.v.state == Hangup
    ensures Dispatch(s, Hangup, t).skipped == s.skipped && Dispatch(s, Hangup, t).v.state == Reporting
  {
    TameHandle(s, Hangup, t);
    HangTracked(s, t);
    OneCall(HandleHangup(s, t), SetState(Reporting));
  }

  lemma TameRunState(s: Loop, t: Turn)
    requires AtHead(s) && TameTurn(t) && s.v.state != Destroy
    ensures RunState(s, t).skipped == s.skipped
    ensures s.v.state.Down() ==> RunState(s, t).v.state.Rank() == s.v.state.Rank() + 1
  {
    if Runs(s) {
      var h := Do(s.(running := Some(s.v.state)), t.hooks);
      TameDo(s.(running := Some(s.v.state)), t.hooks);
      DoTracked(s.(running := Some(s.v.state)), t.hooks);
      TameDispatch(h, s.v.state, t);
    }
  }

  lemma TameDispatch(s: Loop, cur: State, t: Turn)
    requires Tracked(s) && TameTurn(t) && s.running == Some(cur) && cur != Destroy && !s.v.reported
    requires cur.Down() ==> s.v.state == cur
    ensures Dispatch(s, cur, t).skipped == s.skipped
    ensures cur.Down() ==> Dispatch(s, cur, t).v.state.Rank() == cur.Rank() + 1
  {
    if cur == Reporting {
      TameReporting(s, t);
    } else if cur == Hangup {
      TameHangup(s, t);
    } else {
      TameAllCalls(s.v, cur, t);
      TameDo(s, AllCalls(s.v, cur, t.chain));
    }
  }

  lemma TameFinish(s: Loop, t: Turn)
    requires TameTurn(t)
    ensures Finish(s, t).skipped == s.skipped
    ensures s.v.state.Down() ==> Finish(s, t).v.state == s.v.state
  {
    var w := Do(s, t.others);
    TameDo(s, t.others);
    TameDo(w, t.idle);
    TameDo(Do(w, t.idle).(newLoops := 0), [DoHangup(INVALID_CALL_REFERENCE, t.early)]);
  }

  /** A turn with such calls only skips nothing, and moves a channel that is down by just one state. */
  lemma TameTurnMovesOne(s: Loop, t: Turn)
    requires AtHead(s) && TameTurn(t) && s.v.state != Destroy
    ensures TakeTurn(s, t).skipped == s.skipped
    ensures s.v.state.Down() ==> TakeTurn(s, t).v.state.Rank() == s.v.state.Rank() + 1
  {
    UnblockTracked(s, t);
    if t.blocked.Some? {
      TameDo(s, t.blocked.value);
    }
    var u := Unblock(s, t);
    if u.v.state != Destroy {
      TameRunState(u, t);
      TameFinish(RunState(u, t), t);
    }
  }

  /** When handlers and other threads only hang up or set states up to CS_HANGUP, every run that comes to
      CS_DESTROY has handled the hangup once and then reported once. A channel that is down gets there
      in exactly as many turns as it is states away. */
  lemma {:induction false} TameRunConcludes(s: Loop, turns: seq<Turn>)
    requires AtHead(s) && !s.skipped && forall i :: 0 <= i < |turns| ==> TameTurn(turns[i])
    ensures var w := Run(s, turns);
            && !w.skipped && (w.v.state == Destroy ==> w.v.log == [HangupHandled, Reported])
            && (s.v.state.Down() ==>
                  var needed := Destroy.Rank() - s.v.state.Rank();
                  && (w.v.state == Destroy <==> |turns| >= needed)
                  && TurnsUsed(s, turns) == if |turns| >= needed then needed else |turns|)
    decreases |turns|
  {
    RunConcludes(s, turns);
    if turns != [] && !Ended(s) {
      TurnTracked(s, turns[0]);
      TameTurnMovesOne(s, turns[0]);
      assert forall i :: 0 <= i < |turns[1..]| ==> turns[1..][i] == turns[i + 1];
      var w := TakeTurn(s, turns[0]);
      if w.v.state != Destroy {
        TameRunConcludes(w, turns[1..]);
      }
    }
  }

  /** An undisturbed wait in CS_NEW counts down, and ends in a hangup. */
  lemma NewCountsDown(s: Loop, t: Turn)
    requires s.v.state == New && !s.v.aborted && !s.v.hungup && s.newLoops > 0
    requires t.blocked.None? && t.hooks == t.others == t.idle == []
    ensures var w := TakeTurn(s, t);
            && w.newLoops == s.newLoops - 1 && !w.v.aborted
            && if w.newLoops > 0 then w.v == s.v
               else w.v.state.Down() && w.v.cause == INVALID_CALL_REFERENCE
  {
    var c := DoHangup(INVALID_CALL_REFERENCE, t.early);
    assert [c][1..] == [] && ApplyAll(s.v, [c]) == Apply(s.v, c);
  }

  predicate IsQuiet(t: Turn) {
    t.blocked.None? && t.hooks == t.others == t.idle == []
  }

  lemma {:induction false} NewWaits(s: Loop, turns: seq<Turn>)
    requires s.v.state == New && !s.v.aborted && !s.v.hungup && |turns| <= s.newLoops
    requires forall i :: 0 <= i < |turns| ==> IsQuiet(turns[i])
    ensures var w := Run(s, turns);
            if |turns| < s.newLoops || turns == [] then w.v == s.v
            else w.v.state.Down() && w.v.cause == INVALID_CALL_REFERENCE
    decreases |turns|
  {
    if turns != [] {
      assert IsQuiet(turns[0]);
      NewCountsDown(s, turns[0]);
      assert forall i :: 0 <= i < |turns[1..]| ==> turns[1..][i] == turns[i + 1];
      var w := TakeTurn(s, turns[0]);
      if w.newLoops > 0 {
        NewWaits(w, turns[1..]);
      } else {
        assert turns[1..] == [];
      }
    }
  }

  /** A session that nobody sets going is hung up with cause 81 after exactly 60000 turns. */
  lemma NewTimesOut(turns: seq<Turn>)
    requires |turns| <= 60000 && forall i :: 0 <= i < |turns| ==> IsQuiet(turns[i])
    ensures var w := Run(START, turns);
            if |turns| < 60000 then w.v == FRESH else w.v.state.Down() && w.v.cause == 81
  {
    NewWaits(START, turns);
  }

  // ----- Runs in which something is skipped

  lemma SkippedStays(s: Loop, t: Turn)
    requires s.skipped
    ensures TakeTurn(s, t).skipped
  {
  }

  /** What was skipped stays so: the loop can only end with its work undone. */
  lemma {:induction false} SkippedForGood(s: Loop, turns: seq<Turn>)
    requires AtHead(s) && s.skipped
    ensures Run(s, turns).skipped
    ensures Run(s, turns).v.state == Destroy ==> Run(s, turns).v.log != [HangupHandled, Reported]
    decreases |turns|
  {
    RunConcludes(s, turns);
    if turns != [] && !Ended(s) {
      TurnTracked(s, turns[0]);
      SkippedStays(s, turns[0]);
      var w := TakeTurn(s, turns[0]);
      if w.v.state != Destroy {
        SkippedForGood(w, turns[1..]);
      }
    }
  }

  /** Once a turn has skipped something, no later turn makes up for it. */
  lemma SkippedFirst(t: Turn, rest: seq<Turn>)
    requires TakeTurn(START, t).skipped
    ensures var w := Run(START, [t] + rest);
            w.skipped && (w.v.state == Destroy ==> w.v.log != [HangupHandled, Reported])
  {
    TurnTracked(START, t);
    RunFirst(START, t, rest);
    StaysUndone(TakeTurn(START, t), rest);
  }

  lemma RunFirst(s: Loop, t: Turn, rest: seq<Turn>)
    requires !Ended(s)
    ensures Run(s, [t] + rest) == Run(TakeTurn(s, t), rest)
  {
    assert ([t] + rest)[1..] == rest;
  }

  lemma StaysUndone(s: Loop, turns: seq<Turn>)
    requires Turned(s) && s.skipped
    ensures var w := Run(s, turns);
            w.skipped && (w.v.state == Destroy ==> w.v.log != [HangupHandled, Reported])
  {
    if s.v.state != Destroy {
      SkippedForGood(s, turns);
    }
  }

  predicate IsLate(next: State) {
    next == Reporting || next == Destroy
  }

  /** A hook that sets CS_REPORTING or CS_DESTROY on a new channel: the hangup handlers never run,
      whatever the turns do after that. */
  lemma HookSkips(t: Turn, rest: seq<Turn>, next: State)
    requires t.blocked.None? && t.hooks == [SetState(next)] && IsLate(next)
    ensures var w := Run(START, [t] + rest);
            w.skipped && (w.v.state == Destroy ==> w.v.log != [HangupHandled, Reported])
  {
    OneCall(START.(running := Some(New)), SetState(next));
    SkippedFirst(t, rest);
  }

  /** The same for a call of another thread while the state is blocked. */
  lemma BlockedSkips(t: Turn, rest: seq<Turn>, next: State)
    requires t.blocked == Some([SetState(next)]) && IsLate(next)
    ensures var w := Run(START, [t] + rest);
            w.skipped && (w.v.state == Destroy ==> w.v.log != [HangupHandled, Reported])
  {
    var u := Do(START, [SetState(next)]);
    OneCall(START, SetState(next));
    RestSkipped(u, t);
    SkippedFirst(t, rest);
  }

  lemma RestSkipped(u: Loop, t: Turn)
    requires u.skipped
    ensures RunState(u, t).skipped && Finish(RunState(u, t), t).skipped
  {
  }

  /** The same for a call of another thread after the state was run. */
  lemma OthersSkip(t: Turn, rest: seq<Turn>, next: State)
    requires t.blocked.None? && t.hooks == [] && t.others == [SetState(next)] && IsLate(next)
    ensures var w := Run(START, [t] + rest);
            w.skipped && (w.v.state == Destroy ==> w.v.log != [HangupHandled, Reported])
  {
    var r := START.(running := Some(New));
    DoNothing(r);
    OneCall(r, SetState(next));
    SkippedFirst(t, rest);
  }

  /** The same for a call made while the events of an idle turn are parsed. */
  lemma IdleSkips(t: Turn, rest: seq<Turn>, next: State)
    requires t.blocked.None? && t.hooks == t.others == [] && t.idle == [SetState(next)] && IsLate(next)
    ensures var w := Run(START, [t] + rest);
            w.skipped && (w.v.state == Destroy ==> w.v.log != [HangupHandled, Reported])
  {
    var r := START.(running := Some(New));
    DoNothing(r);
    OneCall(r, SetState(next));
    SkippedFirst(t, rest);
  }

  /** A hangup handler of the driver that sets CS_DESTROY: the loop ends with the hangup handled and
      nothing reported. */
  lemma HandlerSkips(t: Turn, rest: seq<Turn>, cause: nat)
    requires t.blocked.None? && t.hooks == t.api == t.others == []
    requires t.chain == Chain(Some(Handler([SetState(Destroy)], false)), [], [], [], true)
    ensures var s := START.(v := Apply(FRESH, DoHangup(cause, None)));
            var w := Run(s, [t] + rest);
            AtHead(s) && w.skipped && w.v.state == Destroy && w.v.log == [HangupHandled]
  {
    var s := START.(v := Apply(FRESH, DoHangup(cause, None)));
    HandlerDestroys(s.(running := Some(Hangup)), t);
    RunFirst(s, t, rest);
  }

  /** The same for the API hook that follows the hangup handlers. */
  lemma ApiSkips(t: Turn, rest: seq<Turn>, cause: nat)
    requires t.blocked.None? && t.hooks == t.others == []
    requires t.api == [SetState(Destroy)] && t.chain == Chain(None, [], [], [], true)
    ensures var s := START.(v := Apply(FRESH, DoHangup(cause, None)));
            var w := Run(s, [t] + rest);
            AtHead(s) && w.skipped && w.v.state == Destroy && w.v.log == [HangupHandled]
  {
    var s := START.(v := Apply(FRESH, DoHangup(cause, None)));
    ApiDestroys(s.(running := Some(Hangup)), t);
    RunFirst(s, t, rest);
  }

  lemma ApiDestroys(s: Loop, t: Turn)
    requires Tracked(s) && s.running == Some(Hangup) && s.v.state == Hangup && !s.v.handled
    requires t.api == [SetState(Destroy)] && t.chain == Chain(None, [], [], [], true)
    ensures var w := Dispatch(s, Hangup, t);
            w.skipped && w.v.state == Destroy && w.v.log == [HangupHandled] && w.running == s.running
  {
    ApiMoves(s, t);
    HangTracked(s, t);
    OneCall(HandleHangup(s, t), SetState(Reporting));
  }

  lemma ApiMoves(s: Loop, t: Turn)
    requires Tracked(s) && s.running == Some(Hangup) && s.v.state == Hangup && !s.v.handled
    requires t.api == [SetState(Destroy)] && t.chain == Chain(None, [], [], [], true)
    ensures var w := HandleHangup(s, t); w.skipped && w.v.state == Destroy && w.v.log == [HangupHandled]
  {
    assert AllCalls(s.v, Hangup, t.chain) == [];
    DoNothing(s);
    OneCall(s, SetState(Destroy));
  }

  lemma HandlerDestroys(s: Loop, t: Turn)
    requires Tracked(s) && s.running == Some(Hangup) && s.v.state == Hangup && !s.v.handled
    requires t.api == [] && t.chain == Chain(Some(Handler([SetState(Destroy)], false)), [], [], [], true)
    ensures var w := Dispatch(s, Hangup, t);
            w.skipped && w.v.state == Destroy && w.v.log == [HangupHandled] && w.running == s.running
  {
    HandlerMoves(s, t);
    HangTracked(s, t);
    OneCall(HandleHangup(s, t), SetState(Reporting));
  }

  lemma HandlerMoves(s: Loop, t: Turn)
    requires Tracked(s) && s.running == Some(Hangup) && s.v.state == Hangup && !s.v.handled
    requires t.api == [] && t.chain == Chain(Some(Handler([SetState(Destroy)], false)), [], [], [], true)
    ensures var w := HandleHangup(s, t); w.skipped && w.v.state == Destroy && w.v.log == [HangupHandled]
  {
    assert AllCalls(s.v, Hangup, t.chain) == [SetState(Destroy)];
    OneCall(s, SetState(Destroy));
    DoNothing(Do(s, [SetState(Destroy)]));
  }
}
