/** The session thread's run loop with its handler chain, in place (src/switch_core_state_machine.c,
    src/switch_channel.c). Every method does what its function on values says. */
module SessionRun {
  import opened Common
  import opened Channel
  import opened SessionLoop

  class Session {
    var state: State
    var running: Option<State>
    var cause: nat
    var hungup: bool
    var handled: bool
    var reported: bool
    var log: seq<Event>
    var aborted: bool
    var newLoops: nat

    /** Whether a call has skipped a handler, the chains run, and the handler functions invoked, in order. */
    ghost var skipped: bool
    ghost var episodes: seq<Episode>
    ghost var trace: seq<Invocation>

    function V(): View
      reads this
    {
      View(state, cause, hungup, handled, reported, log, aborted)
    }

    ghost function L(): Loop
      reads this
    {
      Loop(V(), running, newLoops, skipped, episodes)
    }

    constructor ()
      ensures L() == START && trace == []
    {
      state, running, cause, hungup := New, None, 0, false;
      handled, reported, log, aborted, newLoops := false, false, [], false, NEW_LOOPS;
      skipped, episodes, trace := false, [], [];
    }

    /** switch_channel_perform_set_state */
    method SetChannelState(next: State)
      modifies this`state, this`cause, this`aborted
      ensures V() == Move(old(V()), next)
    {
      if aborted {
        return;
      }
      var last := state;
      if last == next {
        return;
      }
      if last.Down() && next.Rank() < last.Rank() {
        return;
      }
      if Allowed(last, next) {
        state := next;
        if next == Hangup && cause == 0 {
          cause := NORMAL_CLEARING;
        }
      } else if !state.Down() {
        aborted := true;
      }
    }

    /** The hangup handlers, run by a hangup on the session's own thread, set some states. */
    method RunEarly(states: seq<State>)
      modifies this`state, this`cause, this`aborted, this`handled, this`log
      ensures V() == HangupState(old(V()), states)
    {
      if handled {
        return;
      }
      var i := 0;
      assert states[0..] == states;
      while i < |states|
        invariant 0 <= i <= |states| && !handled && log == old(log)
        invariant MoveAll(V(), states[i..]) == MoveAll(old(V()), states)
      {
        assert states[i..][1..] == states[i + 1..];
        SetChannelState(states[i]);
        i := i + 1;
      }
      handled := true;
      log := log + [HangupHandled];
    }

    /** switch_channel_perform_hangup */
    method HangupChannel(hangupCause: nat, early: Option<seq<State>>)
      modifies this`state, this`cause, this`aborted, this`hungup, this`handled, this`log
      ensures V() == Apply(old(V()), DoHangup(hangupCause, early))
    {
      if aborted {
        return;
      }
      var ok := false;
      if !hungup {
        hungup := true;
        ok := true;
      }
      if !ok {
        return;
      }
      if !state.Down() {
        state := Hangup;
        cause := hangupCause;
        if early.Some? {
          RunEarly(early.value);
        }
      }
    }

    /** One call, and what it means for the handlers. */
    method Make(c: Call)
      modifies this
      ensures L() == DoOne(old(L()), c) && trace == old(trace)
    {
      skipped := skipped || Skips(V(), running, c);
      episodes := episodes + if RunsEarly(V(), c) then [RanEarly] else [];
      match c {
        case SetState(next) => SetChannelState(next);
        case DoHangup(hangupCause, early) => HangupChannel(hangupCause, early);
      }
    }

    /** Calls made by handlers or other threads at one point of the loop. */
    method Perform(calls: seq<Call>)
      modifies this
      ensures L() == Do(old(L()), calls) && trace == old(trace)
    {
      var i := 0;
      assert calls[0..] == calls;
      while i < |calls|
        invariant 0 <= i <= |calls|
        invariant Do(L(), calls[i..]) == Do(old(L()), calls) && trace == old(trace)
      {
        assert calls[i..][1..] == calls[i + 1..];
        DoFirst(L(), calls[i..]);
        Make(calls[i]);
        i := i + 1;
      }
      DoNothing(L());
    }

    /** One function of the chain is called. */
    method Invoke(h: Handler, ghost who: Invocation)
      modifies this
      ensures L() == Do(old(L()), h.calls) && trace == old(trace) + [who]
    {
      trace := trace + [who];
      Perform(h.calls);
    }

    /** One entry of a list is visited; a table without a function for the state does nothing. */
    method Visit(h: Option<Handler>, ghost who: Invocation, ghost before: seq<Invocation>, ghost ran: seq<Invocation>)
      requires trace == before + ran
      modifies this
      ensures L() == Do(old(L()), Calls(h)) && trace == before + (ran + (if h.None? then [] else [who]))
    {
      ConcatAssociates(before, ran, if h.None? then [] else [who]);
      if h.Some? {
        Invoke(h.value, who);
      }
    }

    /** One of the two while loops of STATE_MACRO: it stops after the first handler that refuses. */
    method RunList(hs: seq<Option<Handler>>, ghost core: bool) returns (proceed: nat)
      modifies this
      ensures L() == Do(old(L()), CallsOf(hs, UpToVeto(hs)))
      ensures trace == old(trace) + InvokedOf(hs, UpToVeto(hs), core)
      ensures proceed > 0 <==> AllAccept(hs)
    {
      proceed := 1;
      var index := 0;
      while index < |hs|
        invariant 0 <= index <= |hs| && proceed > 0 && FirstAccept(hs, index)
        invariant L() == Do(old(L()), CallsOf(hs, index)) && trace == old(trace) + InvokedOf(hs, index, core)
      {
        var h := hs[index];
        DoConcat(old(L()), CallsOf(hs, index), Calls(h));
        Visit(h, if core then CoreHandler(index) else ChannelHandler(index), old(trace), InvokedOf(hs, index, core));
        index := index + 1;
        if Accepts(h) {
          proceed := proceed + 1;
        } else {
          proceed := 0;
          VetoAt(hs, index);
          return;
        }
      }
    }

    /** Both lists of handlers. A refusal in the first does not stop the second. */
    method RunLists(c: Chain) returns (proceed: bool)
      modifies this
      ensures L() == Do(old(L()), ListCalls(c)) && trace == old(trace) + ListsInvoked(c)
      ensures proceed <==> AllAccept(c.channel) && AllAccept(c.core)
    {
      ghost var n, m := UpToVeto(c.channel), UpToVeto(c.core);
      DoConcat(L(), CallsOf(c.channel, n), CallsOf(c.core, m));
      ConcatAssociates(trace, InvokedOf(c.channel, n, false), InvokedOf(c.core, m, true));
      var first := RunList(c.channel, false);
      var second := RunList(c.core, true);
      proceed := first > 0 && second > 0;
    }

    method RunDriver(h: Option<Handler>)
      modifies this
      ensures L() == Do(old(L()), Calls(h)) && trace == old(trace) + if h.None? then [] else [Driver]
    {
      if h.Some? {
        Invoke(h.value, Driver);
      }
    }

    /** The driver's function and, unless it refuses, both lists. */
    method RunHandlers(c: Chain) returns (proceed: bool)
      modifies this
      ensures L() == Do(old(L()), ChainCalls(c)) && trace == old(trace) + HandlersInvoked(c)
      ensures proceed <==> Accepts(c.driver) && (c.extra ==> AllAccept(c.channel) && AllAccept(c.core))
    {
      if Accepts(c.driver) && c.extra {
        DoConcat(L(), Calls(c.driver), ListCalls(c));
        ConcatAssociates(trace, if c.driver.None? then [] else [Driver], ListsInvoked(c));
        RunDriver(c.driver);
        proceed := RunLists(c);
      } else {
        assert ChainCalls(c) == Calls(c.driver);
        assert HandlersInvoked(c) == if c.driver.None? then [] else [Driver];
        RunDriver(c.driver);
        proceed := Accepts(c.driver);
      }
    }

    /** STATE_MACRO */
    method RunChain(mid: State, c: Chain) returns (standardRan: bool)
      modifies this
      ensures L() == Do(old(L()), AllCalls(old(V()), mid, c))
      ensures trace == old(trace) + Invoked(old(V()), mid, c)
      ensures standardRan == StandardRuns(old(V()), mid, c)
    {
      ghost var last := if StandardRuns(V(), mid, c) then c.standard else [];
      DoConcat(L(), ChainCalls(c), last);
      ConcatAssociates(trace, HandlersInvoked(c), if StandardRuns(V(), mid, c) then [Standard] else []);
      var globalProceed := RunHandlers(c);
      standardRan := globalProceed && mid == state;
      if standardRan {
        Invoke(Handler(c.standard, true), Standard);
      }
    }

    /** Handlers and the hook after them. */
    method RunHooked(ghost tag: State, t: Turn)
      modifies this
      ensures L() == Handle(old(L()), tag, t)
      ensures trace == old(trace) + Invoked(old(V()), old(state), t.chain)
    {
      ghost var before := trace;
      var ran := RunChain(state, t.chain);
      Perform(t.api);
      episodes := episodes + [Ran(tag, trace[|before|..])];
    }

    /** switch_core_session_hangup_state with force */
    method HandleHangup(t: Turn)
      modifies this
      ensures L() == SessionLoop.HandleHangup(old(L()), t)
      ensures trace == old(trace) + if old(handled) then [] else Invoked(old(V()), old(state), t.chain)
    {
      if handled {
        return;
      }
      RunHooked(Hangup, t);
      handled := true;
      log := log + [HangupHandled];
    }

    /** switch_core_session_reporting_state */
    method HandleReporting(t: Turn)
      modifies this
      ensures L() == SessionLoop.HandleReporting(old(L()), t)
      ensures trace == old(trace) + if old(reported) then []
                                    else Invoked(old(V()).(reported := true), old(state), t.chain)
    {
      if reported {
        return;
      }
      reported := true;
      RunHooked(Reporting, t);
      log := log + [Reported];
    }

    /** The loop sets a state of its own. */
    method Advance(next: State)
      modifies this
      ensures L() == Do(old(L()), [SetState(next)])
    {
      Perform([SetState(next)]);
    }

    /** The switch over the states. The result says that the loop is left. */
    method Dispatch(cur: State, t: Turn) returns (exit: bool)
      modifies this
      ensures L() == SessionLoop.Dispatch(old(L()), cur, t) && (exit <==> cur == Reporting)
    {
      exit := false;
      if cur == New {
      } else if cur == Reporting {
        HandleReporting(t);
        Advance(Destroy);
        exit := true;
      } else if cur == Hangup {
        HandleHangup(t);
        Advance(Reporting);
      } else {
        ghost var before := trace;
        var ran := RunChain(cur, t.chain);
        episodes := episodes + [Ran(cur, trace[|before|..])];
      }
    }

    /** The part of a turn that runs a state: skipped when the state was run already, unless the
        channel is down. */
    method RunState(cur: State, t: Turn) returns (exit: bool)
      requires state == cur
      modifies this
      ensures L() == SessionLoop.RunState(old(L()), t) && (exit <==> cur == Reporting)
    {
      exit := false;
      if Some(cur) != running || cur.Down() {
        running := Some(cur);
        Perform(t.hooks);
        exit := Dispatch(cur, t);
      }
    }

    /** The end of a turn in which the state has not moved: events are parsed, the thread may sleep,
        and the wait in CS_NEW is counted. */
    method Idle(t: Turn)
      modifies this
      ensures L() == SessionLoop.Idle(old(L()), t)
    {
      var atNew := state == New;
      Perform(t.idle);
      if atNew {
        newLoops := if newLoops == 0 then 0xFFFF_FFFF else newLoops - 1;
        if newLoops == 0 {
          Perform([DoHangup(INVALID_CALL_REFERENCE, t.early)]);
        }
      }
    }

    method Finish(t: Turn)
      modifies this
      ensures L() == SessionLoop.Finish(old(L()), t)
    {
      Perform(t.others);
      if Some(state) == running {
        Idle(t);
      }
    }

    /** One turn of the loop in switch_core_session_run; the result says that the loop is left. */
    method TakeTurn(t: Turn) returns (exit: bool)
      requires state != Destroy
      modifies this
      ensures L() == SessionLoop.TakeTurn(old(L()), t)
      ensures exit <==> Unblock(old(L()), t).v.state in {Reporting, Destroy}
    {
      if t.blocked.Some? {
        Perform(t.blocked.value);
        if state == Destroy {
          return true;
        }
      }
      var cur := state;
      exit := RunState(cur, t);
      if !exit {
        Finish(t);
      }
    }

    /** The loop of switch_core_session_run, for any turns as long as they last. */
    method RunTurns(turns: seq<Turn>) returns (used: nat, exited: bool)
      requires AtHead(L())
      modifies this
      ensures L() == SessionLoop.Run(old(L()), turns) && used == TurnsUsed(old(L()), turns)
      ensures exited <==> state == Destroy
    {
      used, exited := 0, false;
      ghost var rest := turns;
      while used < |turns| && !exited && state != Destroy && !aborted
        invariant used <= |turns| && rest == turns[used..] && Turned(L()) && (exited ==> state == Destroy)
        invariant SessionLoop.Run(L(), rest) == SessionLoop.Run(old(L()), turns)
        invariant used + TurnsUsed(L(), rest) == TurnsUsed(old(L()), turns)
      {
        TurnTracked(L(), turns[used]);
        exited := TakeTurn(turns[used]);
        used, rest := used + 1, rest[1..];
      }
      exited := state == Destroy;
    }

    /** switch_core_session_run, whatever calls are made in the turns. A run that ends is at CS_DESTROY.
        It has handled the hangup once and then reported once exactly if no call skipped a handler. A
        channel that is down needs no more turns than it is states away. */
    method Run(turns: seq<Turn>) returns (used: nat, exited: bool)
      requires AtHead(L())
      modifies this
      ensures L() == SessionLoop.Run(old(L()), turns) && used == TurnsUsed(old(L()), turns)
      ensures exited <==> state == Destroy
      ensures exited ==> !aborted && (log == [HangupHandled, Reported] <==> !skipped)
      ensures var needed := Destroy.Rank() - old(state.Rank());
              old(state.Down()) && |turns| >= needed ==> exited && used <= needed && cause == old(cause)
      ensures !old(skipped) && (forall i :: 0 <= i < |turns| ==> TameTurn(turns[i])) ==> !skipped
      ensures exited && !skipped && old(L()) == START ==> EachOnce(episodes)
    {
      RunConcludes(L(), turns);
      RunInvokesEachOnce(turns);
      if state.Down() && |turns| >= Destroy.Rank() - state.Rank() {
        DownEnds(L(), turns);
      }
      if !skipped && forall i :: 0 <= i < |turns| ==> TameTurn(turns[i]) {
        TameRunConcludes(L(), turns);
      }
      used, exited := RunTurns(turns);
    }
  }
}
