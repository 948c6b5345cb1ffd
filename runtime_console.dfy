/** The console mock of packages/runtime/src/isolate/runtime.ts (`mockConsole`):
    five sandbox functions, each forwarding to the host's log sink with the
    deployment's id and its own level. */
module RuntimeConsole {

  datatype Level = Log | Error | Info | Warn | Debug

  /** The property name of `console` that a level is installed under. */
  function LevelName(level: Level): string {
    match level
    case Log => "log"
    case Error => "error"
    case Info => "info"
    case Warn => "warn"
    case Debug => "debug"
  }

  /** The levels in the order of the `consoleMock` object literal. */
  const ConsoleLevels: seq<Level> := [Log, Error, Info, Warn, Debug]

  /** What `addLog({ deploymentId, onDeploymentLog, logLevel })` is bound to:
      every record it forwards carries this id and level. */
  datatype LogBinding = LogBinding(deploymentId: string, level: Level)

  /** The entries the installation loop has written after the given levels. */
  function ConsoleTable(deploymentId: string, levels: seq<Level>): map<string, LogBinding> {
    if levels == [] then map[]
    else
      var last := levels[|levels| - 1];
      ConsoleTable(deploymentId, levels[..|levels| - 1])[LevelName(last) := LogBinding(deploymentId, last)]
  }

  /** The whole console mock of a deployment. */
  function ConsoleMock(deploymentId: string): map<string, LogBinding> {
    ConsoleTable(deploymentId, ConsoleLevels)
  }

  /** Exactly the five levels are installed, each bound to the deployment's
      id and to the level its own name denotes. */
  lemma ConsoleMockIsExact(deploymentId: string)
    ensures ConsoleMock(deploymentId).Keys == {"log", "error", "info", "warn", "debug"}
    ensures forall name :: name in ConsoleMock(deploymentId) ==>
      ConsoleMock(deploymentId)[name].deploymentId == deploymentId &&
      LevelName(ConsoleMock(deploymentId)[name].level) == name
    ensures |ConsoleMock(deploymentId)| == 5
  {
    var id := deploymentId;
    var l1, l2, l3, l4 := [Log], [Log, Error], [Log, Error, Info], [Log, Error, Info, Warn];
    assert l1[..0] == [] && l2[..1] == l1 && l3[..2] == l2 && l4[..3] == l3 && ConsoleLevels[..4] == l4;
    assert ConsoleTable(id, l1) == map["log" := LogBinding(id, Log)];
    assert ConsoleTable(id, l2) == ConsoleTable(id, l1)["error" := LogBinding(id, Error)];
    assert ConsoleTable(id, l3) == ConsoleTable(id, l2)["info" := LogBinding(id, Info)];
    assert ConsoleTable(id, l4) == ConsoleTable(id, l3)["warn" := LogBinding(id, Warn)];
    assert ConsoleMock(id) == ConsoleTable(id, l4)["debug" := LogBinding(id, Debug)];
  }
}
