/** The packages the echo server dispatches and the fixed table of command
    handlers built when the lifecycle handler is constructed. */
module Packages {
  import opened GoInts

  datatype Option<+T> = None | Some(value: T)

  /** `echoCmd` is declared outside handler.go; its value is taken to be 1.
      Only the command-99 scenario relies on it, in that it differs from 99. */
  const EchoCmd: uint32 := 1

  datatype EchoPkgHeader = EchoPkgHeader(command: uint32)

  /** A decoded echo package: the header carries the dispatch key, the body
      is never interpreted by the handler. */
  datatype EchoPackage = EchoPackage(h: EchoPkgHeader, body: string)

  /** The dynamic type of the `interface{}` value the transport hands to
      `OnMessage`: a decoded `*EchoPackage`, a nil `*EchoPackage`, raw
      bytes, or any other value (a nil interface included). */
  datatype Package =
    | Echo(pkg: EchoPackage)
    | NilEcho
    | RawBytes(bytes: seq<bv8>)
    | Foreign

  /** The one implementation of `PackageHandler`. */
  datatype PackageHandler = MessageHandler

  type HandlerTable = map<uint32, PackageHandler>

  /** What the transport's `WritePkg` returned: the write is foreign code,
      so its result is an input of the model. */
  datatype WriteResult = Written | WriteFailed

  /** The table `newEchoMessageHandler` builds: only `echoCmd`, served by
      `MessageHandler`. */
  function NewHandlerTable(): (t: HandlerTable)
    ensures forall c :: c in t <==> c == EchoCmd
    ensures t[EchoCmd] == MessageHandler
  {
    map[EchoCmd := MessageHandler]
  }

  /** Handler lookup `h.handlers[cmd]` with Go's comma-ok result. */
  function Lookup(t: HandlerTable, cmd: uint32): (r: Option<PackageHandler>)
    ensures r.Some? <==> cmd in t
    ensures r.Some? ==> r.value == t[cmd]
  {
    if cmd in t then Some(t[cmd]) else None
  }

  /** `MessageHandler.Handle` echoes the package back; it fails exactly when
      the write does. The result is true when the handler returned an error. */
  function Handle(handler: PackageHandler, pkg: EchoPackage, write: WriteResult): (failed: bool)
    ensures failed <==> write == WriteFailed
  {
    match handler
    case MessageHandler => write.WriteFailed?
  }

  /** Only `echoCmd` resolves in the table built at construction. */
  lemma OnlyEchoCmdResolves(cmd: uint32)
    ensures Lookup(NewHandlerTable(), cmd).Some? <==> cmd == EchoCmd
  {
  }
}
