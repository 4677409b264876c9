# Echo server session registry, modelled in Dafny

This project models `EchoMessageHandler`, the session registry and lifecycle
controller of the getty websocket echo server
(`echo/ws-echo/server/app/handler.go`). The transport calls five callbacks:
`OnOpen`, `OnError`, `OnClose`, `OnMessage` and `OnCron`. Each one is modelled
as a pure function. It takes a handler state (the command handler table and
the map from session to `clientEchoSession` record) plus the callback's inputs.
It returns the new state and what the callback reports: admitted or
`errTooManySessions`, what happened to a package, or whether a close was
requested.

Modules:

- `GoInts` (goints.dfy): the Go integer widths that matter here. `reqNum++`
  on an `int32` wraps around. `time.Since` saturates at the `int64` bounds.
- `Packages` (packages.dfy): the package types `OnMessage` can receive, the
  handler table built by `newEchoMessageHandler` (only `echoCmd`), and
  `MessageHandler.Handle`. That handler fails exactly when its write fails.
- `EchoHandler` (handler.dfy): the state, its invariant `Valid`, and the five
  callbacks.
- `HandlerLemmas` (lemmas.dfy): properties that relate several callbacks.
  These cover idempotent removal, open/close round trip, exact failure
  counting, the strict idle comparison, and cron/close convergence.
- `Traces` (traces.dfy): arbitrary sequences of callbacks. It proves the
  admission bound for every run. It also proves that a close is requested
  at most once for a session in a run that does not reopen it.
- `Scenarios` (scenarios.dfy): three concrete runs. They cover a limit of one
  session, eviction after a five-second timeout, and an unknown command.

Inputs that come from foreign code are parameters of the model:

- the result of `session.WritePkg` (`WriteResult`);
- the current instant and `session.GetActive()`, as integer nanoseconds;
- the configuration `conf.SessionNumber` / `conf.sessionTimeout`, as a
  `Config` value passed to every callback.

`session.Close()` becomes the `true` outcome of `OnCron`. Sessions are opaque
`nat` identifiers.

Behaviour of the code that the model keeps:

- Re-opening a registered session, when fewer than `SessionNumber` sessions
  are registered, overwrites its record. The counter goes back to zero and
  the map does not grow. At the limit the re-open is rejected and the
  existing record is kept.
- `reqNum` is a signed 32-bit counter that wraps around.
- A nil `*EchoPackage` passes the type check and panics when its header is
  read.
- A package that is neither an echo package nor bytes makes the code as
  written panic in its log statement. `EchoHandler.OnMessageAsWritten` models
  that panic. `EchoHandler.OnMessage`, which the rest of the model uses,
  discards such a package instead. See Findings.

## Model

| member | source | states |
|---|---|---|
| GoInts.Inc32 | echo/ws-echo/server/app/handler.go:117 | `reqNum++` on an `int32`: the result is congruent to the old value plus one modulo 2^32, and is exactly one more below the maximum |
| GoInts.Inc32WrapsOnlyAtMax | echo/ws-echo/server/app/handler.go:47-50 | the `int32` counter decreases on an increment only at its maximum, where it wraps to the minimum |
| GoInts.SinceComparesExactly | echo/ws-echo/server/app/handler.go:132 | comparing a bound below the `int64` maximum with the saturated `time.Since` gives the same answer as comparing it with the true difference |
| GoInts.Since | echo/ws-echo/server/app/handler.go:132 | `time.Since(active).Nanoseconds()` saturates at the `int64` bounds; its contract only states the clamp, and SinceComparesExactly carries what it means for the idle test |
| Packages.Lookup | echo/ws-echo/server/app/handler.go:108 | the comma-ok lookup `h.handlers[p.H.Command]`; its contract only states the map lookup, and OnlyEchoCmdResolves carries the content for the constructed table |
| Packages.NewHandlerTable | echo/ws-echo/server/app/handler.go:60-61 | the table holds exactly one command, `echoCmd`, served by `MessageHandler` |
| Packages.Handle | echo/ws-echo/server/app/handler.go:37-41 | `MessageHandler.Handle` returns an error exactly when writing the echo back fails |
| Packages.OnlyEchoCmdResolves | echo/ws-echo/server/app/handler.go:59-61 | in the constructed table a command resolves if and only if it is `echoCmd` |
| EchoHandler.NewEchoMessageHandler | echo/ws-echo/server/app/handler.go:59-64 | the constructed handler has an empty registry, a table holding only `echoCmd`, and satisfies the invariant for every non-negative session limit |
| EchoHandler.CountFailure | echo/ws-echo/server/app/handler.go:115-118 | `reqNum++` on a registered session raises its counter by one modulo 2^32, keeps the session's identity and the set of sessions, and changes no other entry |
| EchoHandler.Idle | echo/ws-echo/server/app/handler.go:132 | the idle test `sessionTimeout < time.Since(active)` is the strict comparison `now - active > sessionTimeout` for every timeout below the `int64` maximum; at the maximum nothing is idle |
| EchoHandler.OnOpen | echo/ws-echo/server/app/handler.go:66-85 | rejects with `errTooManySessions` exactly when `SessionNumber <= len(sessionMap)`, leaving the state unchanged. Otherwise it maps the session to a fresh record with `reqNum = 0` and changes no other entry. The map grows by one only for a new session. The invariant is preserved |
| EchoHandler.OnError | echo/ws-echo/server/app/handler.go:87-92 | removes exactly the session and nothing else; a non-member leaves the state unchanged; the invariant is preserved |
| EchoHandler.OnClose | echo/ws-echo/server/app/handler.go:94-99 | removes exactly the session and nothing else; a non-member leaves the state unchanged; the invariant is preserved |
| EchoHandler.OnMessage | echo/ws-echo/server/app/handler.go:101-121 | a nil `*EchoPackage` panics with nothing changed. Any other non-echo package, or an unresolved command, changes nothing and runs no handler. Otherwise the handler runs and fails exactly when the write fails. On failure, a registered session's counter goes up by one modulo 2^32 with every other entry unchanged. In all other cases the state is unchanged |
| EchoHandler.OnMessageAsWritten | echo/ws-echo/server/app/handler.go:101-108 | the code as written panics exactly on a nil `*EchoPackage` and on a package that is neither `*EchoPackage` nor `[]byte`, with the registry still unchanged |
| EchoHandler.OnCron | echo/ws-echo/server/app/handler.go:123-146 | requests a close exactly when the session is registered and `sessionTimeout < time.Since(active)`. It then removes exactly that session, shrinking the map by one. Otherwise the state is unchanged, also for an idle non-member. The invariant is preserved |
| HandlerLemmas.RemovalIdempotent | echo/ws-echo/server/app/handler.go:87-99 | removing twice equals removing once, also for `OnClose` after `OnError`; the two callbacks have the same effect |
| HandlerLemmas.RemovalsCommute | echo/ws-echo/server/app/handler.go:94-99 | closing two sessions in either order gives the same state |
| HandlerLemmas.OpenThenCloseRestores | echo/ws-echo/server/app/handler.go:66-99 | with room left, admitting a new session and then closing it restores the exact earlier state |
| HandlerLemmas.ReopenResetsCounter | echo/ws-echo/server/app/handler.go:81-83 | re-opening a registered session when fewer than `SessionNumber` sessions are registered keeps the set of sessions and resets its counter to zero |
| HandlerLemmas.FullReopenKeepsRecord | echo/ws-echo/server/app/handler.go:71-78 | at the limit, a re-open of a registered session is rejected with `errTooManySessions` and the existing record, counter included, is kept |
| HandlerLemmas.FailedEchoCountsOne | echo/ws-echo/server/app/handler.go:113-120 | with the constructed table, a failed echo below the `int32` maximum adds exactly one to the session's counter, leaving the other entries unchanged; a successful echo changes nothing |
| HandlerLemmas.UnknownCommandIgnored | echo/ws-echo/server/app/handler.go:108-112 | with the constructed table, any command other than `echoCmd` is discarded with the state unchanged |
| HandlerLemmas.CronEvictsExactlyWhenTimeoutExceeded | echo/ws-echo/server/app/handler.go:129-145 | below the `int64` maximum timeout, `OnCron` requests a close exactly for a registered session with `now - active > sessionTimeout`; at the maximum it never evicts and changes nothing |
| HandlerLemmas.CronAndCloseConverge | echo/ws-echo/server/app/handler.go:94-99 | a cron eviction and a close of the same session reach the same state in either order, and a cron after the close requests nothing |
| HandlerLemmas.EvictionClosesOnce | echo/ws-echo/server/app/handler.go:129-145 | after an eviction, a second cron of that session requests no close, whatever the time |
| HandlerLemmas.ForeignPackagePanicsAsWritten | echo/ws-echo/server/app/handler.go:102-105 | the code as written panics on a foreign package value, where the corrected callback discards it |
| HandlerLemmas.AsWrittenAgreesOnTypedPackages | echo/ws-echo/server/app/handler.go:101-121 | the code as written and the corrected callback agree on echo packages, nil echo packages and raw bytes |
| Traces.Step | echo/ws-echo/server/app/handler.go:66-146 | one callback never changes the handler table. Only an open of a session adds it. Only a cron of a registered session requests its close, and that cron removes it. The invariant is preserved |
| Traces.Run | echo/ws-echo/server/app/handler.go:59-146 | any sequence of callbacks keeps the handler table and the invariant, including the bound `len(sessionMap) <= SessionNumber` |
| Traces.SessionBound | echo/ws-echo/server/app/handler.go:63-84 | starting from `newEchoMessageHandler`, every run keeps the registry at or below `SessionNumber` sessions |
| Traces.NoReopenNoReturn | echo/ws-echo/server/app/handler.go:81-83 | a session that is not registered and is never opened again never reappears and is never closed by cron |
| Traces.CloseRequestedAtMostOnce | echo/ws-echo/server/app/handler.go:129-145 | in a run that does not reopen a session, its close is requested at most once, and never if it was not registered |
| Scenarios.AdmissionLimitOne | echo/ws-echo/server/app/handler.go:66-99 | with a limit of one: A is admitted, B is rejected with no change, A closes, then B is admitted with a fresh record |
| Scenarios.IdleEvictionAtSixSeconds | echo/ws-echo/server/app/handler.go:123-146 | with a five-second timeout, a session active at 0 survives a cron at 3 s and is evicted with a close requested at 6 s |
| Scenarios.UnknownCommandDiscarded | echo/ws-echo/server/app/handler.go:108-112 | command 99 is discarded with the registry unchanged |

## Left out

- Locking: `rwlock` is not modelled and each callback is one atomic step. The
  gap between the read-locked check and the write-locked insert in `OnOpen`
  is not modelled either, nor the same gap before the delete in `OnCron`.
  Concurrent opens can overshoot `SessionNumber` through that gap. The size
  bound is proved for sequential runs only.
- Logging and `session.Stat()`: they are observability only and change no
  state.
- The transport calls `WritePkg`, `GetActive`, `Close` and the clock behind
  `time.Since` are foreign code. They become inputs (`WriteResult`, `now`,
  `active`) and the close-requested outcome.
- The `err` argument of `OnError` is only logged, so it is not a parameter.
- `conf` is a global loaded elsewhere. Its two fields are a `Config` value
  that stays fixed throughout a run.
- `echoCmd` and the echo package layout are declared in files that are not
  part of this model. The command is taken to be 1 and the header is reduced
  to its command. Only Scenarios.UnknownCommandDiscarded relies on the value,
  and only in that it differs from 99.
- What the transport does after `OnMessage` panics is not modelled. A step
  that panics leaves the state unchanged and the run goes on. A crash is the
  run cut short there. A recover that closes the session is a later `Close`
  event.
- Session identity: sessions are `nat` identifiers, not the transport's
  interface values.
- The log sink (vendor/github.com/AlexStocks/log4go/socklog.go) is socket I/O
  and a goroutine, with no sequential logic. The getty version constants
  (vendor/github.com/AlexStocks/getty/transport/version.go) have no behaviour.
  Both are out of scope.

## Findings

| source | as written | input that shows it | evidently intended | confidence | as-written member | corrected member |
|---|---|---|---|---|---|---|
| echo/ws-echo/server/app/handler.go:104 | the error log for an illegal package asserts it to `[]byte` without the comma-ok form | any package value that is neither `*EchoPackage` nor `[]byte` (`Foreign`) | log and discard the package, as for raw bytes | medium; not executed | EchoHandler.OnMessageAsWritten, HandlerLemmas.ForeignPackagePanicsAsWritten | EchoHandler.OnMessage |
