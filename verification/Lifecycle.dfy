/** ReflectorCtl's lifecycle goroutine: it serialises start and stop messages, and waits at most five seconds
    for a reflector to stop. */
module Lifecycle {
  import opened Wrappers

  /** running is the goroutine's own flag; alive counts reflector goroutines that have been started and
      have not returned (the wait group); cancelled says that the last context was cancelled. */
  datatype State = State(running: bool, alive: nat, cancelled: bool)

  /** What happens next: a start or stop message, or a reflector returning by itself. While a stop waits, some
      reflectors may return; it ends by the timeout, or as done, which needs all of them to have
      returned. */
  datatype Event = StartMsg | StopMsg(returned: nat, timedOut: bool) | ReflectorReturns

  datatype Ack = NoAck | Acked | StopTimeout

  predicate Possible(s: State, e: Event) {
    match e
    case StartMsg => true
    case StopMsg(returned, timedOut) =>
      if s.running then returned <= s.alive && (!timedOut ==> returned == s.alive) else returned == 0 && !timedOut
    case ReflectorReturns => s.alive > 0
  }

  function Handle(s: State, e: Event): (State, Ack)
    requires Possible(s, e)
  {
    match e
    case StartMsg => (if s.running then s else State(true, s.alive + 1, false), Acked)
    case StopMsg(returned, timedOut) =>
      if !s.running then (s, Acked)
      else if timedOut then (State(true, s.alive - returned, true), StopTimeout)
      else (State(false, 0, true), Acked)
    case ReflectorReturns => (s.(alive := s.alive - 1), NoAck)
  }

  class LifecycleLoop {
    var running: bool
    var waitGroup: nat
    var cancelled: bool

    function Current(): State
      reads this
    {
      State(running, waitGroup, cancelled)
    }

    constructor ()
      ensures Current() == State(false, 0, false)
    {
      running, waitGroup, cancelled := false, 0, false;
    }

    method HandleMessage(e: Event) returns (ack: Ack)
      requires Possible(Current(), e)
      modifies this
      ensures (Current(), ack) == Handle(old(Current()), e)
    {
      ack := Acked;
      match e {
        case StartMsg =>
          if !running {
            cancelled := false;
            waitGroup := waitGroup + 1;
            running := true;
          }
        case StopMsg(returned, timedOut) =>
          if running {
            cancelled := true;
            waitGroup := waitGroup - returned;
            if timedOut {
              return StopTimeout;
            }
            running := false;
          }
        case ReflectorReturns =>
          waitGroup := waitGroup - 1;
          ack := NoAck;
      }
    }
  }

  /** The state after a run; None if the run is not possible. */
  function After(es: seq<Event>): Option<State> {
    if es == [] then Some(State(false, 0, false))
    else
      match After(es[..|es| - 1])
      case None => None
      case Some(s) => if Possible(s, es[|es| - 1]) then Some(Handle(s, es[|es| - 1]).0) else None
  }

  predicate SafeState(s: State) {
    s.alive <= 1 && (!s.running ==> s.alive == 0)
  }

  /** In every interleaving of messages, returns and timeouts: at most one reflector is alive, none when
      running is false, and none at the moment a stop is acknowledged without error. */
  lemma {:induction false} AtMostOneReflector(es: seq<Event>)
    requires After(es).Some?
    ensures SafeState(After(es).value)
    ensures es != [] && es[|es| - 1].StopMsg? && Handle(After(es[..|es| - 1]).value, es[|es| - 1]).1 == Acked ==>
              After(es).value.alive == 0
  {
    if es != [] {
      AtMostOneReflector(es[..|es| - 1]);
    }
  }

  /** A start is always acknowledged. A stop is answered with the timeout error exactly when it was waiting for a
      reflector that did not return in time; otherwise it is acknowledged, and running is false. */
  lemma StopsAreAnswered(es: seq<Event>, e: Event)
    requires After(es).Some? && Possible(After(es).value, e) && !e.ReflectorReturns?
    ensures
      var (s', ack) := Handle(After(es).value, e);
      && (ack == StopTimeout <==> e.StopMsg? && e.timedOut) && (ack == StopTimeout || ack == Acked)
      && (e.StopMsg? && ack == Acked ==> !s'.running && s'.alive == 0)
  {
    AtMostOneReflector(es);
  }

  /** A live reflector that has not been told to stop. */
  predicate Serving(s: State) {
    s.alive > 0 && !s.cancelled
  }

  /** Apart from starts, the last thing that happened is a stop that was acknowledged without error; or
      nothing but starts has happened. */
  predicate Settled(es: seq<Event>) {
    if es == [] then true
    else
      match es[|es| - 1]
      case StartMsg => Settled(es[..|es| - 1])
      case StopMsg(_, timedOut) => !timedOut
      case ReflectorReturns => false
  }

  /** What the goroutine's own flag and the reflector's state say about the events so far. */
  lemma {:induction false} SettledInState(es: seq<Event>)
    requires After(es).Some?
    ensures SafeState(After(es).value)
    ensures if After(es).value.running then Serving(After(es).value) <==> Settled(es) else Settled(es)
  {
    if es != [] {
      SettledInState(es[..|es| - 1]);
    }
  }

  /** Messages are not last-write-wins. A start is always acknowledged, but it leaves a reflector serving exactly
      when the last event that is not a start is a stop acknowledged without error, or there is none: not
      after a stop that timed out, nor after a reflector has returned by itself. */
  lemma StartServesExactlyWhen(es: seq<Event>)
    requires After(es).Some?
    ensures Handle(After(es).value, StartMsg).1 == Acked
    ensures Serving(Handle(After(es).value, StartMsg).0) <==> Settled(es)
  {
    SettledInState(es);
  }

  lemma AfterOneMore(es: seq<Event>, e: Event)
    requires After(es).Some? && Possible(After(es).value, e)
    ensures After(es + [e]) == Some(Handle(After(es).value, e).0)
  {
    assert (es + [e])[..|es|] == es;
  }

  /** So a stop that times out disables the starts after it until another stop succeeds: the start is
      acknowledged, and nothing runs. */
  lemma StartAfterStopTimeout()
    ensures
      var es := [StartMsg] + [StopMsg(0, true)] + [ReflectorReturns];
      && After(es + [StartMsg]) == Some(State(true, 0, true))
      && After(es + [StopMsg(0, false)] + [StartMsg]) == Some(State(true, 1, false))
  {
    AfterOneMore([], StartMsg);
    assert [] + [StartMsg] == [StartMsg];
    AfterOneMore([StartMsg], StopMsg(0, true));
    var es := [StartMsg] + [StopMsg(0, true)] + [ReflectorReturns];
    AfterOneMore([StartMsg] + [StopMsg(0, true)], ReflectorReturns);
    AfterOneMore(es, StartMsg);
    AfterOneMore(es, StopMsg(0, false));
    AfterOneMore(es + [StopMsg(0, false)], StartMsg);
  }
}
