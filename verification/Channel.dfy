/** The channel's state and hangup cause under any sequence of calls (src/switch_channel.c). */
module Channel {
  import opened Common

  datatype State = New | Init | Routing | SoftExecute | Execute | ExchangeMedia | Park
                 | ConsumeMedia | Hibernate | Reset | Hangup | Reporting | Destroy
  {
    /** The place in the enumeration, which the code compares by. */
    function Rank(): nat {
      match this
      case New => 0 case Init => 1 case Routing => 2 case SoftExecute => 3 case Execute => 4
      case ExchangeMedia => 5 case Park => 6 case ConsumeMedia => 7 case Hibernate => 8
      case Reset => 9 case Hangup => 10 case Reporting => 11 case Destroy => 12
    }

    predicate Down() {
      Rank() >= Hangup.Rank()
    }
  }

  /** The transition table of switch_channel_perform_set_state. */
  predicate Allowed(last: State, next: State) {
    match last
    case New => true
    case Reset => true
    case Init => next in {ExchangeMedia, SoftExecute, Routing, Execute, Park, ConsumeMedia, Hibernate, Reset}
    case ExchangeMedia => next in {SoftExecute, Routing, Execute, Park, ConsumeMedia, Hibernate, Reset}
    case SoftExecute => next in {ExchangeMedia, Routing, Execute, Park, ConsumeMedia, Hibernate, Reset}
    case Park => next in {ExchangeMedia, Routing, Execute, SoftExecute, Hibernate, Reset, ConsumeMedia}
    case ConsumeMedia => next in {ExchangeMedia, Routing, Execute, SoftExecute, Hibernate, Reset, Park}
    case Hibernate => next in {ExchangeMedia, Init, Routing, Execute, SoftExecute, Park, ConsumeMedia, Reset}
    case Routing => next in {ExchangeMedia, Execute, SoftExecute, Park, ConsumeMedia, Hibernate, Reset}
    case Execute => next in {ExchangeMedia, SoftExecute, Routing, Park, ConsumeMedia, Hibernate, Reset}
    case Hangup => next in {Reporting, Destroy}
    case Reporting => next in {Destroy}
    case Destroy => false
  }

  /** The table as a law. A new channel and one that is reset may go anywhere. One that is down may only go
      further down. Any other may go to every other state of a call that is up, but not back to CS_NEW, and
      to CS_INIT only from hibernation. */
  lemma AllowedIff(last: State, next: State)
    ensures Allowed(last, next) <==>
            || last == New || last == Reset
            || (last.Down() && next.Rank() > last.Rank())
            || (!last.Down() && !next.Down() && next != last && next != New && (next == Init ==> last == Hibernate))
  {
  }

  const NORMAL_CLEARING: nat := 16

  datatype Event = HangupHandled | Reported

  /** What the calls read and write: the channel's state, hangup cause and OCF_HANGUP flag; the
      session's SSF_HANGUP and the channel's CF_REPORTING flag; the handler runs so far; and whether
      a switch_assert has ended the process. */
  datatype View = View(
    state: State, cause: nat, hungup: bool,
    handled: bool, reported: bool, log: seq<Event>, aborted: bool)

  const FRESH := View(New, 0, false, false, false, [], false)

  /** A call made by a handler or by another thread. A hangup made on the session's own thread with early
      hangup enabled runs the hangup handlers; `early` then has the states that these set. (They may also
      hang up, but that has no effect any more.) */
  datatype Call = SetState(state: State) | DoHangup(cause: nat, early: Option<seq<State>>)

  /** switch_channel_perform_set_state */
  function Move(v: View, next: State): View {
    if v.aborted || v.state == next || (v.state.Down() && next.Rank() < v.state.Rank()) then v
    else if Allowed(v.state, next) then
      v.(state := next, cause := if next == Hangup && v.cause == 0 then NORMAL_CLEARING else v.cause)
    else if v.state.Down() then v
    else v.(aborted := true)
  }

  /** What setting a state does to a channel that is up: a state that the table allows is taken, with the
      cause 16 for a hangup that has none yet; setting the state it has does nothing; anything else ends the
      process. */
  lemma MoveUpIff(v: View, next: State)
    requires !v.aborted && !v.state.Down()
    ensures Move(v, next).state == next <==> next == v.state || Allowed(v.state, next)
    ensures Move(v, next).aborted <==> next != v.state && !Allowed(v.state, next)
    ensures Allowed(v.state, next) && next == Hangup && v.cause == 0 ==> Move(v, next).cause == 16
    ensures next != Hangup || v.cause != 0 ==> Move(v, next).cause == v.cause
  {
  }

  /** States set one after the other. A channel that is down ends up in the last of its states that is
      among them. */
  function MoveAll(v: View, states: seq<State>): (w: View)
    ensures v.state.Down() && !v.aborted ==>
              && w == v.(state := w.state)
              && (w.state == Destroy <==> v.state == Destroy || Destroy in states)
              && (w.state == Hangup <==> v.state == Hangup && Destroy !in states && Reporting !in states)
              && w.state.Down() && w.state.Rank() >= v.state.Rank()
    decreases |states|
  {
    if states == [] then v else MoveAll(Move(v, states[0]), states[1..])
  }

  /** switch_core_session_hangup_state, once the tests for an early call have passed. */
  function HangupState(v: View, states: seq<State>): View {
    if v.handled then v
    else
      var w := MoveAll(v, states);
      w.(handled := true, log := w.log + [HangupHandled])
  }

  function Apply(v: View, call: Call): View {
    match call
    case SetState(next) => Move(v, next)
    case DoHangup(cause, early) =>
      if v.aborted || v.hungup then v
      else if v.state.Down() then v.(hungup := true)
      else
        var w := v.(hungup := true, state := Hangup, cause := cause);
        if early.Some? then HangupState(w, early.value) else w
  }

  function ApplyAll(v: View, calls: seq<Call>): View
    decreases |calls|
  {
    if calls == [] then v else ApplyAll(Apply(v, calls[0]), calls[1..])
  }

  lemma {:induction false} ApplyAllConcat(v: View, a: seq<Call>, b: seq<Call>)
    ensures ApplyAll(v, a + b) == ApplyAll(ApplyAll(v, a), b)
    decreases |a|
  {
    if a == [] {
      assert a + b == b;
    } else {
      assert (a + b)[1..] == a[1..] + b;
      ApplyAllConcat(Apply(v, a[0]), a[1..], b);
    }
  }

  /** Once a channel is hung up, no sequence of calls moves its state back or changes its cause. */
  lemma {:induction false} HangupIsFinal(v: View, calls: seq<Call>)
    requires v.state.Down()
    ensures ApplyAll(v, calls).state.Rank() >= v.state.Rank()
    ensures ApplyAll(v, calls).cause == v.cause
    ensures !v.aborted ==> !ApplyAll(v, calls).aborted
    ensures var w := ApplyAll(v, calls); w.log == v.log && w.handled == v.handled && w.reported == v.reported
    decreases |calls|
  {
    if calls != [] {
      assert Apply(v, calls[0]).state.Rank() >= v.state.Rank();
      HangupIsFinal(Apply(v, calls[0]), calls[1..]);
    }
  }

  /** A recorded cause or hangup flag, or a run of the hangup handlers, implies a state of at least
      CS_HANGUP. */
  predicate Consistent(v: View) {
    v.cause != 0 || v.hungup || v.handled || v.log != [] ==> v.state.Down()
  }

  lemma {:induction false} StaysConsistent(v: View, calls: seq<Call>)
    requires Consistent(v)
    ensures Consistent(ApplyAll(v, calls))
    decreases |calls|
  {
    if calls != [] {
      StaysConsistent(Apply(v, calls[0]), calls[1..]);
    }
  }

  /** One per customer: after a hangup call, every later one changes nothing at all. */
  lemma {:induction false} OnlyFirstHangup(
    v: View, cause: nat, early: Option<seq<State>>, calls: seq<Call>, cause': nat, early': Option<seq<State>>)
    requires !v.aborted
    ensures var w := ApplyAll(Apply(v, DoHangup(cause, early)), calls);
            Apply(w, DoHangup(cause', early')) == w
  {
    HungupStays(Apply(v, DoHangup(cause, early)), calls);
  }

  lemma {:induction false} HungupStays(v: View, calls: seq<Call>)
    requires v.hungup
    ensures ApplyAll(v, calls).hungup
    decreases |calls|
  {
    if calls != [] {
      HungupStays(Apply(v, calls[0]), calls[1..]);
    }
  }

  /** The first hangup call on a channel that is up fixes the cause for good. */
  lemma FirstHangupFixesCause(before: seq<Call>, cause: nat, early: Option<seq<State>>, after: seq<Call>)
    requires !ApplyAll(FRESH, before).aborted && !ApplyAll(FRESH, before).state.Down()
    ensures ApplyAll(FRESH, before + [DoHangup(cause, early)] + after).cause == cause
  {
    var v := ApplyAll(FRESH, before);
    StaysConsistent(FRESH, before);
    var w := Apply(v, DoHangup(cause, early));
    ApplyAllConcat(FRESH, before + [DoHangup(cause, early)], after);
    ApplyAllConcat(FRESH, before, [DoHangup(cause, early)]);
    assert [DoHangup(cause, early)][1..] == [];
    assert ApplyAll(v, [DoHangup(cause, early)]) == w;
    HangupIsFinal(w, after);
  }

  /** Setting a state can only bring a channel down from CS_NEW or CS_RESET, or further down; from
      every other state below CS_HANGUP it takes a hangup call. */
  lemma SetStateBringsDown(v: View, next: State)
    requires !v.aborted && !v.state.Down() && Apply(v, SetState(next)).state.Down()
    ensures v.state == New || v.state == Reset
  {
  }
}
