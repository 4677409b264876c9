/** The echo server's session registry and lifecycle controller
    (`EchoMessageHandler`). Every transport callback is one atomic step from
    a handler state and the callback's inputs to a new state and an outcome. */
module EchoHandler {
  import opened GoInts
  import opened Packages

  /** Transport sessions are identified by opaque handles. */
  type SessionId = nat

  /** The server configuration the handler reads: the admission limit
      `SessionNumber` and the idle timeout `sessionTimeout` in nanoseconds. */
  datatype Config = Config(sessionNumber: int, sessionTimeout: int64)

  /** Per-session bookkeeping: the session itself and its failure counter. */
  datatype ClientEchoSession = ClientEchoSession(session: SessionId, reqNum: int32)

  type SessionMap = map<SessionId, ClientEchoSession>

  datatype EchoMessageHandler = EchoMessageHandler(handlers: HandlerTable, sessionMap: SessionMap)

  datatype Error = TooManySessions

  datatype OpenOutcome = Admitted | Rejected(err: Error)

  /** What `OnMessage` did with a package: discarded it as illegal,
      discarded it for an unknown command, ran its handler (which failed or
      not), or panicked. */
  datatype MessageOutcome =
    | IllegalPackage
    | IllegalCommand(command: uint32)
    | Handled(failed: bool)
    | Panicked

  /** The new state after a callback, with what the callback reports. */
  datatype Transition<+O> = Transition(next: EchoMessageHandler, outcome: O)

  /** The record an admitted session starts with. */
  function FreshRecord(s: SessionId): ClientEchoSession
  {
    ClientEchoSession(s, 0)
  }

  /** Every session other than `s` is in `m` exactly when it is in `m'`,
      with the same record. */
  ghost predicate SameExcept(m: SessionMap, m': SessionMap, s: SessionId)
  {
    forall k :: k != s ==> (k in m <==> k in m') && (k in m ==> m'[k] == m[k])
  }

  /** `h'` is `h` with session `s` removed and nothing else changed. */
  ghost predicate RemovedExactly(h: EchoMessageHandler, h': EchoMessageHandler, s: SessionId)
  {
    && h'.handlers == h.handlers
    && s !in h'.sessionMap
    && SameExcept(h.sessionMap, h'.sessionMap, s)
  }

  /** The handler's invariant under `cfg`: the registry never exceeds the
      admission limit, every record is filed under its own session, and the
      handler table is the one built at construction. */
  ghost predicate Valid(cfg: Config, h: EchoMessageHandler)
  {
    && 0 <= cfg.sessionNumber
    && |h.sessionMap| <= cfg.sessionNumber
    && h.handlers == NewHandlerTable()
    && forall k :: k in h.sessionMap ==> h.sessionMap[k].session == k
  }

  /** `newEchoMessageHandler`: an empty registry and the fixed handler table;
      it is valid under every configuration with a non-negative limit. */
  function NewEchoMessageHandler(): (h: EchoMessageHandler)
    ensures |h.sessionMap| == 0
    ensures forall c :: c in h.handlers <==> c == EchoCmd
    ensures forall cfg: Config :: 0 <= cfg.sessionNumber ==> Valid(cfg, h)
  {
    EchoMessageHandler(NewHandlerTable(), map[])
  }

  /** `OnOpen`: admission control. A full registry rejects the session and
      stays as it was; otherwise the session is (re)mapped to a fresh record,
      which resets the counter of a session already present. */
  function OnOpen(cfg: Config, h: EchoMessageHandler, s: SessionId): (r: Transition<OpenOutcome>)
    ensures r.outcome == Rejected(TooManySessions) <==> cfg.sessionNumber <= |h.sessionMap|
    ensures r.outcome.Rejected? ==> r.next == h
    ensures r.outcome.Admitted? ==>
              && r.next.handlers == h.handlers
              && s in r.next.sessionMap
              && r.next.sessionMap[s] == FreshRecord(s)
              && SameExcept(h.sessionMap, r.next.sessionMap, s)
    ensures r.outcome.Admitted? ==>
              |r.next.sessionMap| == if s in h.sessionMap then |h.sessionMap| else |h.sessionMap| + 1
    ensures Valid(cfg, h) ==> Valid(cfg, r.next)
  {
    if cfg.sessionNumber <= |h.sessionMap| then
      Transition(h, Rejected(TooManySessions))
    else
      Transition(h.(sessionMap := h.sessionMap[s := FreshRecord(s)]), Admitted)
  }

  /** `delete(h.sessionMap, session)`, shared by the removing callbacks. */
  function Remove(h: EchoMessageHandler, s: SessionId): EchoMessageHandler
  {
    h.(sessionMap := h.sessionMap - {s})
  }

  /** `OnError`: the session is dropped from the registry, whatever the error
      (which is only logged). Dropping a non-member changes nothing. */
  function OnError(cfg: Config, h: EchoMessageHandler, s: SessionId): (r: EchoMessageHandler)
    ensures RemovedExactly(h, r, s)
    ensures s !in h.sessionMap ==> r == h
    ensures Valid(cfg, h) ==> Valid(cfg, r)
  {
    var r := Remove(h, s);
    assert s !in h.sessionMap ==> r.sessionMap == h.sessionMap;
    r
  }

  /** `OnClose`: the same removal as `OnError`. */
  function OnClose(cfg: Config, h: EchoMessageHandler, s: SessionId): (r: EchoMessageHandler)
    ensures RemovedExactly(h, r, s)
    ensures s !in h.sessionMap ==> r == h
    ensures Valid(cfg, h) ==> Valid(cfg, r)
  {
    var r := Remove(h, s);
    assert s !in h.sessionMap ==> r.sessionMap == h.sessionMap;
    r
  }

  /** The registry after one more failure of session `s`: its counter has
      gone up by one (modulo 2^32, as an `int32` does), the record still
      names the same session, and every other entry is as it was. */
  ghost predicate CountedFailure(h: EchoMessageHandler, h': EchoMessageHandler, s: SessionId)
    requires s in h.sessionMap
  {
    && h'.handlers == h.handlers
    && s in h'.sessionMap
    && h'.sessionMap[s].session == h.sessionMap[s].session
    && (h'.sessionMap[s].reqNum as int - h.sessionMap[s].reqNum as int - 1) % 0x1_0000_0000 == 0
    && SameExcept(h.sessionMap, h'.sessionMap, s)
  }

  /** `reqNum++` on the record of a member session. */
  function CountFailure(h: EchoMessageHandler, s: SessionId): (r: EchoMessageHandler)
    requires s in h.sessionMap
    ensures CountedFailure(h, r, s)
    ensures r.sessionMap.Keys == h.sessionMap.Keys
  {
    var rec := h.sessionMap[s];
    h.(sessionMap := h.sessionMap[s := rec.(reqNum := Inc32(rec.reqNum))])
  }

  /** Dispatch of a package whose type check passed. */
  function Dispatch(h: EchoMessageHandler, s: SessionId, p: EchoPackage, write: WriteResult): Transition<MessageOutcome>
  {
    match Lookup(h.handlers, p.h.command)
    case None => Transition(h, IllegalCommand(p.h.command))
    case Some(handler) =>
      var failed := Handle(handler, p, write);
      if failed && s in h.sessionMap then Transition(CountFailure(h, s), Handled(true))
      else Transition(h, Handled(failed))
  }

  /** `OnMessage`: a nil `*EchoPackage` passes the type check and panics
      when its header is read, before any change. Anything else that is not
      an echo package, and an echo package whose command has no handler, is
      discarded with the registry untouched and no handler run. Otherwise
      the handler runs; its failure is counted once against the session if
      the session is still registered, and nothing else changes. */
  function OnMessage(h: EchoMessageHandler, s: SessionId, pkg: Package, write: WriteResult): (r: Transition<MessageOutcome>)
    ensures pkg.NilEcho? ==> r == Transition(h, Panicked)
    ensures !pkg.Echo? && !pkg.NilEcho? ==> r == Transition(h, IllegalPackage)
    ensures pkg.Echo? && pkg.pkg.h.command !in h.handlers ==>
              r == Transition(h, IllegalCommand(pkg.pkg.h.command))
    ensures r.outcome.Handled? <==> pkg.Echo? && pkg.pkg.h.command in h.handlers
    ensures r.outcome.Handled? ==> (r.outcome.failed <==> write == WriteFailed)
    ensures r.outcome == Handled(true) && s in h.sessionMap ==> CountedFailure(h, r.next, s)
    ensures !(r.outcome == Handled(true) && s in h.sessionMap) ==> r.next == h
    ensures r.outcome == Panicked <==> pkg.NilEcho?
  {
    match pkg
    case Echo(p) => Dispatch(h, s, p, write)
    case NilEcho => Transition(h, Panicked)
    case RawBytes(_) => Transition(h, IllegalPackage)
    case Foreign => Transition(h, IllegalPackage)
  }

  /** `OnMessage` as written: the log statement for an illegal package
      asserts it to `[]byte` without the comma-ok form, so any other value
      panics there, as a nil `*EchoPackage` does when its header is read.
      Before either point nothing has been changed. */
  function OnMessageAsWritten(h: EchoMessageHandler, s: SessionId, pkg: Package, write: WriteResult): (r: Transition<MessageOutcome>)
    ensures r.outcome == Panicked <==> pkg.Foreign? || pkg.NilEcho?
    ensures r.outcome == Panicked ==> r.next == h
  {
    match pkg
    case Echo(p) => Dispatch(h, s, p, write)
    case NilEcho => Transition(h, Panicked)
    case RawBytes(_) => Transition(h, IllegalPackage)
    case Foreign => Transition(h, Panicked)
  }

  /** The idle test of `OnCron`: the timeout is strictly less than the time
      since the last activity, as `time.Since` computes it. For every
      timeout below the `int64` maximum that is the plain strict comparison
      with the true difference; at the maximum nothing is idle. */
  predicate Idle(cfg: Config, now: int, active: int)
    ensures cfg.sessionTimeout as int < MaxInt64 ==>
              (Idle(cfg, now, active) <==> now - active > cfg.sessionTimeout as int)
    ensures cfg.sessionTimeout as int == MaxInt64 ==> !Idle(cfg, now, active)
  {
    cfg.sessionTimeout < Since(now, active)
  }

  /** `OnCron` at instant `now` for a session last active at `active`: a
      registered idle session is removed and a close is requested (the
      outcome); in every other case, a session not registered included,
      nothing changes and no close is requested. */
  function OnCron(cfg: Config, h: EchoMessageHandler, s: SessionId, now: int, active: int): (r: Transition<bool>)
    ensures r.outcome <==> s in h.sessionMap && Idle(cfg, now, active)
    ensures r.outcome ==> RemovedExactly(h, r.next, s) && |r.next.sessionMap| == |h.sessionMap| - 1
    ensures !r.outcome ==> r.next == h
    ensures Valid(cfg, h) ==> Valid(cfg, r.next)
  {
    if s in h.sessionMap && Idle(cfg, now, active) then
      var r := Remove(h, s);
      assert r.sessionMap.Keys == h.sessionMap.Keys - {s};
      Transition(r, true)
    else
      Transition(h, false)
  }
}
