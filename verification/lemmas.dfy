/** Properties that relate several callbacks of the echo lifecycle handler. */
module HandlerLemmas {
  import opened GoInts
  import opened Packages
  import opened EchoHandler

  /** Removal is idempotent: a second `OnClose`, or an `OnClose` after
      `OnError`, leaves the state a single removal produced. */
  lemma RemovalIdempotent(cfg: Config, h: EchoMessageHandler, s: SessionId)
    ensures OnClose(cfg, OnClose(cfg, h, s), s) == OnClose(cfg, h, s)
    ensures OnClose(cfg, OnError(cfg, h, s), s) == OnError(cfg, h, s)
    ensures OnError(cfg, h, s) == OnClose(cfg, h, s)
  {
  }

  /** Removals of different sessions commute. */
  lemma RemovalsCommute(cfg: Config, h: EchoMessageHandler, s: SessionId, t: SessionId)
    ensures OnClose(cfg, OnClose(cfg, h, s), t) == OnClose(cfg, OnClose(cfg, h, t), s)
  {
    assert (h.sessionMap - {s}) - {t} == (h.sessionMap - {t}) - {s};
  }

  /** Closing undoes an admission of a session that was not registered:
      the registry is exactly what it was before the open. */
  lemma OpenThenCloseRestores(cfg: Config, h: EchoMessageHandler, s: SessionId)
    requires s !in h.sessionMap
    requires |h.sessionMap| < cfg.sessionNumber
    ensures OnOpen(cfg, h, s).outcome == Admitted
    ensures OnClose(cfg, OnOpen(cfg, h, s).next, s) == h
  {
    var admitted := OnOpen(cfg, h, s).next;
    assert admitted.sessionMap - {s} == h.sessionMap;
  }

  /** A second `OnOpen` of a registered session (with room left) keeps the
      registry's size and resets the session's counter to zero. */
  lemma ReopenResetsCounter(cfg: Config, h: EchoMessageHandler, s: SessionId)
    requires s in h.sessionMap
    requires |h.sessionMap| < cfg.sessionNumber
    ensures OnOpen(cfg, h, s).next.sessionMap.Keys == h.sessionMap.Keys
    ensures OnOpen(cfg, h, s).next.sessionMap[s].reqNum == 0
  {
  }

  /** A failed echo on a registered session whose counter has not reached
      the `int32` maximum adds exactly one to that counter and changes no
      other entry; when the echo succeeds nothing changes. */
  lemma FailedEchoCountsOne(h: EchoMessageHandler, s: SessionId, body: string)
    requires h.handlers == NewHandlerTable()
    requires s in h.sessionMap
    requires h.sessionMap[s].reqNum as int < MaxInt32
    ensures var r := OnMessage(h, s, Echo(EchoPackage(EchoPkgHeader(EchoCmd), body)), WriteFailed);
            && r.outcome == Handled(true)
            && r.next.sessionMap.Keys == h.sessionMap.Keys
            && r.next.sessionMap[s].reqNum as int == h.sessionMap[s].reqNum as int + 1
            && (forall k :: k in h.sessionMap && k != s ==> r.next.sessionMap[k] == h.sessionMap[k])
    ensures OnMessage(h, s, Echo(EchoPackage(EchoPkgHeader(EchoCmd), body)), Written).next == h
  {
    var r := OnMessage(h, s, Echo(EchoPackage(EchoPkgHeader(EchoCmd), body)), WriteFailed);
    var before := h.sessionMap[s].reqNum as int;
    var after := r.next.sessionMap[s].reqNum as int;
    assert (after - before - 1) % 0x1_0000_0000 == 0;
    assert after == before + 1;
  }

  /** With the handler table built at construction, a package whose command
      is not `echoCmd` is discarded without running a handler or touching
      the registry. */
  lemma UnknownCommandIgnored(h: EchoMessageHandler, s: SessionId, p: EchoPackage, write: WriteResult)
    requires h.handlers == NewHandlerTable()
    requires p.h.command != EchoCmd
    ensures OnMessage(h, s, Echo(p), write) == Transition(h, IllegalCommand(p.h.command))
  {
  }

  /** `OnCron` evicts, and requests a close, exactly for a registered
      session whose time since last activity strictly exceeds the timeout,
      for every timeout below the `int64` maximum; at the maximum it never
      evicts. */
  lemma CronEvictsExactlyWhenTimeoutExceeded(cfg: Config, h: EchoMessageHandler, s: SessionId, now: int, active: int)
    ensures cfg.sessionTimeout as int < MaxInt64 ==>
              (OnCron(cfg, h, s, now, active).outcome <==>
                 s in h.sessionMap && now - active > cfg.sessionTimeout as int)
    ensures cfg.sessionTimeout as int == MaxInt64 ==>
              OnCron(cfg, h, s, now, active) == Transition(h, false)
  {
  }

  /** A re-open of a registered session when the registry is full is
      rejected, and the existing record, counter included, is kept. */
  lemma FullReopenKeepsRecord(cfg: Config, h: EchoMessageHandler, s: SessionId)
    requires s in h.sessionMap
    requires cfg.sessionNumber <= |h.sessionMap|
    ensures OnOpen(cfg, h, s).outcome == Rejected(TooManySessions)
    ensures OnOpen(cfg, h, s).next.sessionMap[s] == h.sessionMap[s]
  {
  }

  /** A timeout decided by `OnCron` and an `OnClose` of the same session
      converge, in either order, on the state of a single removal, and once
      the session is closed the cron requests no close. */
  lemma CronAndCloseConverge(cfg: Config, h: EchoMessageHandler, s: SessionId, now: int, active: int)
    ensures OnClose(cfg, OnCron(cfg, h, s, now, active).next, s) == OnClose(cfg, h, s)
    ensures OnCron(cfg, OnClose(cfg, h, s), s, now, active) == Transition(OnClose(cfg, h, s), false)
  {
  }

  /** A second `OnCron` right after an eviction requests no further close,
      whatever time it sees. */
  lemma EvictionClosesOnce(cfg: Config, h: EchoMessageHandler, s: SessionId, now: int, active: int, now': int, active': int)
    requires OnCron(cfg, h, s, now, active).outcome
    ensures OnCron(cfg, OnCron(cfg, h, s, now, active).next, s, now', active').outcome == false
  {
  }

  /** The code as written panics on a package that is neither an echo
      package nor raw bytes, where the evident intent is to log and discard
      it; on every other package it agrees with `OnMessage`. */
  lemma ForeignPackagePanicsAsWritten(h: EchoMessageHandler, s: SessionId, write: WriteResult)
    ensures OnMessageAsWritten(h, s, Foreign, write) == Transition(h, Panicked)
    ensures OnMessage(h, s, Foreign, write) == Transition(h, IllegalPackage)
  {
  }

  /** Apart from foreign values, the code as written and the corrected
      callback behave alike, a nil echo package included. */
  lemma AsWrittenAgreesOnTypedPackages(h: EchoMessageHandler, s: SessionId, pkg: Package, write: WriteResult)
    requires !pkg.Foreign?
    ensures OnMessageAsWritten(h, s, pkg, write) == OnMessage(h, s, pkg, write)
  {
  }
}
