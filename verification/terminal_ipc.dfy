/**
  The `terminal:*` handlers: each forwards to the terminal registry and
  answers `{ success }`, with an error text only when creation throws.
 */
module TerminalIpc {
  import opened TerminalService

  datatype Reply = Success | Failure(error: string)

  const CreateFailedMessage := "ターミナルの作成に失敗しました"

  /** The answer for a thrown error: its message, or the default text when
      the message is empty. */
  function ErrorText(message: string): (r: string)
    ensures r != ""
    ensures message != "" ==> r == message
    ensures message == "" ==> r == CreateFailedMessage
  {
    if message != "" then message else CreateFailedMessage
  }

  /** `terminal:create` */
  function CreateHandler(s: Service, id: string, cwd: string, spawn: SpawnOutcome): (r: (Service, Reply))
    ensures r.1.Success? <==> spawn.Spawns?
    ensures spawn.SpawnThrows? ==> r.0 == s && r.1 == Failure(ErrorText(spawn.message))
    ensures spawn.Spawns? ==> id in r.0.terminals
    ensures Valid(s) && spawn.Spawns? ==> r.0.terminals[id] !in s.terminals.Values
    ensures Valid(s) ==> Valid(r.0)
  {
    var step := Create(s, id, cwd, spawn);
    match step.thrown
    case Some(message) => (step.service, Failure(ErrorText(message)))
    case None => (step.service, Success)
  }

  /** `terminal:write`: a success whether or not the id is registered. */
  function WriteHandler(s: Service, id: string, data: string): (r: (Service, Reply))
    ensures r.1 == Success
    ensures r.0.terminals == s.terminals
    ensures id !in s.terminals ==> r.0 == s
    ensures id in s.terminals ==> r.0.trace == s.trace + [Wrote(s.terminals[id], data)]
  {
    (Write(s, id, data), Success)
  }

  /** `terminal:resize`: a success whether or not the id is registered. */
  function ResizeHandler(s: Service, id: string, cols: int, rows: int): (r: (Service, Reply))
    ensures r.1 == Success
    ensures r.0.terminals == s.terminals
    ensures id !in s.terminals ==> r.0 == s
    ensures id in s.terminals ==> r.0.trace == s.trace + [Resized(s.terminals[id], cols, rows)]
  {
    (Resize(s, id, cols, rows), Success)
  }

  /** `terminal:kill`: a success whether or not the id is registered. */
  function KillHandler(s: Service, id: string): (r: (Service, Reply))
    ensures r.1 == Success
    ensures id !in r.0.terminals
    ensures id in s.terminals ==> r.0.trace == s.trace + [Killed(s.terminals[id])]
    ensures id !in s.terminals ==> r.0 == s
  {
    (Kill(s, id), Success)
  }

  /** Killing the same terminal twice succeeds both times and kills its
      process once. */
  lemma RepeatedKillSucceeds(s: Service, id: string)
    ensures var first := KillHandler(s, id);
      var second := KillHandler(first.0, id);
      && first.1 == Success && second.1 == Success
      && second.0 == first.0
  {
    KillIdempotent(s, id);
  }
}
