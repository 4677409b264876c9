/** Runs of the lifecycle handler: any sequence of transport callbacks,
    each applied atomically, starting from the state `newEchoMessageHandler`
    builds. */
module Traces {
  import opened Packages
  import opened EchoHandler

  /** One transport callback with its inputs. */
  datatype Event =
    | Open(s: SessionId)
    | Error(s: SessionId)
    | Close(s: SessionId)
    | Message(s: SessionId, pkg: Package, write: WriteResult)
    | Cron(s: SessionId, now: int, active: int)

  /** Apply one callback; the outcome says whether a close of the event's
      session was requested. Only an admitted open adds a session, and only
      an idle cron requests a close. */
  function Step(cfg: Config, h: EchoMessageHandler, e: Event): (r: Transition<bool>)
    ensures r.next.handlers == h.handlers
    ensures forall k :: k in r.next.sessionMap && k !in h.sessionMap ==> e == Open(k)
    ensures r.outcome ==> e.Cron? && e.s in h.sessionMap && e.s !in r.next.sessionMap
    ensures Valid(cfg, h) ==> Valid(cfg, r.next)
  {
    match e
    case Open(s) => Transition(OnOpen(cfg, h, s).next, false)
    case Error(s) => Transition(OnError(cfg, h, s), false)
    case Close(s) => Transition(OnClose(cfg, h, s), false)
    case Message(s, pkg, write) => Transition(OnMessage(h, s, pkg, write).next, false)
    case Cron(s, now, active) => OnCron(cfg, h, s, now, active)
  }

  /** The final state of a run and the sessions whose close it requested,
      in order. */
  datatype Trace = Trace(final: EchoMessageHandler, closed: seq<SessionId>)

  /** Apply `events` in order. The handler table never changes and the
      invariant, including the admission bound, holds at the end of every
      run that starts in a valid state. */
  function Run(cfg: Config, h: EchoMessageHandler, events: seq<Event>): (t: Trace)
    ensures t.final.handlers == h.handlers
    ensures Valid(cfg, h) ==> Valid(cfg, t.final)
    decreases |events|
  {
    if |events| == 0 then Trace(h, [])
    else
      var r := Step(cfg, h, events[0]);
      var rest := Run(cfg, r.next, events[1..]);
      Trace(rest.final, (if r.outcome then [events[0].s] else []) + rest.closed)
  }

  /** The size bound: from the empty registry, no run of callbacks ever
      holds more than `SessionNumber` sessions. */
  lemma SessionBound(cfg: Config, events: seq<Event>)
    requires 0 <= cfg.sessionNumber
    ensures |Run(cfg, NewEchoMessageHandler(), events).final.sessionMap| <= cfg.sessionNumber
  {
    assert Valid(cfg, NewEchoMessageHandler());
  }

  predicate Reopens(e: Event, s: SessionId)
  {
    e.Open? && e.s == s
  }

  /** A run in which `s` is never opened again adds no `s` to the registry. */
  lemma {:induction false} NoReopenNoReturn(cfg: Config, h: EchoMessageHandler, events: seq<Event>, s: SessionId)
    requires forall i :: 0 <= i < |events| ==> !Reopens(events[i], s)
    requires s !in h.sessionMap
    ensures s !in Run(cfg, h, events).final.sessionMap
    ensures s !in Run(cfg, h, events).closed
    decreases |events|
  {
    if |events| > 0 {
      var r := Step(cfg, h, events[0]);
      assert !Reopens(events[0], s);
      NoReopenNoReturn(cfg, r.next, events[1..], s);
    }
  }

  /** A close is requested for a session at most once in a run that does not
      reopen it, and never for a session that was not registered at the start. */
  lemma {:induction false} CloseRequestedAtMostOnce(cfg: Config, h: EchoMessageHandler, events: seq<Event>, s: SessionId)
    requires forall i :: 0 <= i < |events| ==> !Reopens(events[i], s)
    ensures multiset(Run(cfg, h, events).closed)[s] <= if s in h.sessionMap then 1 else 0
    decreases |events|
  {
    if |events| > 0 {
      var r := Step(cfg, h, events[0]);
      var rest := Run(cfg, r.next, events[1..]);
      assert !Reopens(events[0], s);
      if r.outcome && events[0].s == s {
        NoReopenNoReturn(cfg, r.next, events[1..], s);
        assert multiset(rest.closed)[s] == 0;
      } else {
        CloseRequestedAtMostOnce(cfg, r.next, events[1..], s);
        assert s in r.next.sessionMap ==> s in h.sessionMap;
      }
      assert Run(cfg, h, events).closed == (if r.outcome then [events[0].s] else []) + rest.closed;
    }
  }
}
