/** Three concrete runs of the lifecycle handler. */
module Scenarios {
  import opened GoInts
  import opened Packages
  import opened EchoHandler

  const Second: int := 1_000_000_000

  /** With a limit of one session: A is admitted, B is rejected, A closes,
      and then B is admitted. */
  lemma AdmissionLimitOne()
    ensures var cfg := Config(1, (5 * Second) as int64);
            var a: SessionId := 1;
            var b: SessionId := 2;
            var h0 := NewEchoMessageHandler();
            var r1 := OnOpen(cfg, h0, a);
            var r2 := OnOpen(cfg, r1.next, b);
            var h3 := OnClose(cfg, r2.next, a);
            var r4 := OnOpen(cfg, h3, b);
            && r1.outcome == Admitted
            && r2.outcome == Rejected(TooManySessions)
            && r2.next == r1.next
            && r4.outcome == Admitted
            && r4.next.sessionMap == map[b := FreshRecord(b)]
  {
    var cfg := Config(1, (5 * Second) as int64);
    var h0 := NewEchoMessageHandler();
    var r1 := OnOpen(cfg, h0, 1);
    var r2 := OnOpen(cfg, r1.next, 2);
    var h3 := OnClose(cfg, r2.next, 1);
    assert h3.sessionMap == map[];
  }

  /** With a five-second timeout, a session opened at t = 0 survives a cron
      at t = 3 s and is evicted, with a close requested, at t = 6 s. */
  lemma IdleEvictionAtSixSeconds()
    ensures var cfg := Config(10, (5 * Second) as int64);
            var c: SessionId := 3;
            var r0 := OnOpen(cfg, NewEchoMessageHandler(), c);
            var r1 := OnCron(cfg, r0.next, c, 3 * Second, 0);
            var r2 := OnCron(cfg, r1.next, c, 6 * Second, 0);
            && r0.outcome == Admitted
            && r1 == Transition(r0.next, false)
            && r2.outcome
            && r2.next.sessionMap == map[]
  {
    var cfg := Config(10, (5 * Second) as int64);
    var r0 := OnOpen(cfg, NewEchoMessageHandler(), 3);
    assert r0.next.sessionMap - {3} == map[];
  }

  /** A package with command 99 is discarded: no handler runs and the
      registry is unchanged. */
  lemma UnknownCommandDiscarded(write: WriteResult)
    ensures var cfg := Config(10, (5 * Second) as int64);
            var h := OnOpen(cfg, NewEchoMessageHandler(), 7).next;
            OnMessage(h, 7, Echo(EchoPackage(EchoPkgHeader(99), "hello")), write)
              == Transition(h, IllegalCommand(99))
  {
  }
}
