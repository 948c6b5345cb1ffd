/** `initRuntime` of packages/runtime/src/isolate/runtime.ts: the order in
    which a fresh sandbox context is prepared for a deployment, and what the
    context's global object holds afterwards. The installers run in the
    order of the `Promise.all` array. Code the model does not read (the
    `fetch` runtime file, an environment script outside the read form) is
    evaluated by the sandbox; what it leaves is a parameter. */
module RuntimeInit {
  import opened Common
  import RuntimeEnv
  import RuntimeConsole
  import RuntimeFiles

  /** A property value of the sandbox's global object, as far as the model
      tells them apart. */
  datatype GlobalValue =
    | Undefined
    | GlobalObject
    | ProcessObject(env: map<string, string>)
    | StreamResponseFunction(deploymentId: string)

  /** The updates made to a context, in the order they are made. */
  datatype Step =
    | BindGlobal
    | RemoveEval
    | EvalEnvScript(script: string)
    | InstallConsoleMethod(name: string)
    | EvalFetchRuntime(filename: string)
    | InstallStreamResponse

  predicate IsInstallerStep(s: Step) {
    !s.BindGlobal? && !s.RemoveEval?
  }

  /** A sandbox context: its global object and its `console` object. */
  class Context {
    var globals: map<string, GlobalValue>
    var console: map<string, RuntimeConsole.LogBinding>
    ghost var trace: seq<Step>

    constructor (globals: map<string, GlobalValue>, console: map<string, RuntimeConsole.LogBinding>)
      ensures this.globals == globals && this.console == console && trace == []
    {
      this.globals := globals;
      this.console := console;
      trace := [];
    }

    /** `context.global.set(name, value)`. */
    method SetGlobal(name: string, value: GlobalValue, ghost step: Step)
      modifies this
      ensures globals == old(globals)[name := value]
      ensures console == old(console) && trace == old(trace) + [step]
    {
      globals := globals[name := value];
      trace := trace + [step];
    }

    /** Evaluating code the model does not read: the global object becomes
        `after` and the console object `afterConsole`. */
    method SetGlobals(after: map<string, GlobalValue>, afterConsole: map<string, RuntimeConsole.LogBinding>, ghost step: Step)
      modifies this
      ensures globals == after && console == afterConsole
      ensures trace == old(trace) + [step]
    {
      globals := after;
      console := afterConsole;
      trace := trace + [step];
    }

    /** `global.console.<name> = function (...args) { … }`. */
    method SetConsoleMethod(name: string, binding: RuntimeConsole.LogBinding)
      modifies this
      ensures console == old(console)[name := binding]
      ensures globals == old(globals) && trace == old(trace) + [InstallConsoleMethod(name)]
    {
      console := console[name := binding];
      trace := trace + [InstallConsoleMethod(name)];
    }
  }

  /** The global object after the environment script ran on `g`. */
  function AfterEnvScript(g: map<string, GlobalValue>, env: seq<(string, string)>, unread: map<string, GlobalValue>): map<string, GlobalValue> {
    match RuntimeEnv.RunScript(RuntimeEnv.EnvScript(env))
    case Some(e) => g["process" := ProcessObject(e)]
    case None => unread
  }

  /** The console object after the environment script ran on `c`. */
  function AfterEnvConsole(c: map<string, RuntimeConsole.LogBinding>, env: seq<(string, string)>,
                           unreadConsole: map<string, RuntimeConsole.LogBinding>): map<string, RuntimeConsole.LogBinding> {
    if RuntimeEnv.RunScript(RuntimeEnv.EnvScript(env)).Some? then c else unreadConsole
  }

  /** `mockEnvironmentVariables`: build the script and evaluate it. A script
      the model reads replaces `global.process` with the environment it
      describes; for any other script, `unread` and `unreadConsole` are the
      global and console objects the sandbox leaves (the old ones when the
      script does not compile). */
  method MockEnvironmentVariables(ctx: Context, deployment: Deployment, unread: map<string, GlobalValue>,
                                  unreadConsole: map<string, RuntimeConsole.LogBinding>)
    modifies ctx
    ensures ctx.globals == AfterEnvScript(old(ctx.globals), deployment.env, unread)
    ensures ctx.console == AfterEnvConsole(old(ctx.console), deployment.env, unreadConsole)
    ensures ctx.trace == old(ctx.trace) + [EvalEnvScript(RuntimeEnv.EnvScript(deployment.env))]
  {
    var script := RuntimeEnv.BuildEnvScript(deployment.env);
    var run := RuntimeEnv.RunScript(script);
    if run.Some? {
      ctx.SetGlobal("process", ProcessObject(run.value), EvalEnvScript(script));
    } else {
      ctx.SetGlobals(unread, unreadConsole, EvalEnvScript(script));
    }
  }

  /** For well-formed entries the script is read, and `process` becomes
      `EnvAfter` of the entries; nothing else changes, the console included. */
  lemma WellFormedEnvScript(g: map<string, GlobalValue>, c: map<string, RuntimeConsole.LogBinding>, env: seq<(string, string)>,
                            unread: map<string, GlobalValue>, unreadConsole: map<string, RuntimeConsole.LogBinding>)
    requires RuntimeEnv.WellFormedEntries(env)
    ensures AfterEnvScript(g, env, unread) == g["process" := ProcessObject(RuntimeEnv.EnvAfter(env))]
    ensures AfterEnvConsole(c, env, unreadConsole) == c
  {
    RuntimeEnv.ScriptRunsAsEntries(env);
  }

  /** The steps of the console installation loop over the given levels. */
  function ConsoleSteps(levels: seq<RuntimeConsole.Level>): seq<Step> {
    if levels == [] then []
    else ConsoleSteps(levels[..|levels| - 1]) + [InstallConsoleMethod(RuntimeConsole.LevelName(levels[|levels| - 1]))]
  }

  /** `mockConsole`: one `global.console.<level>` per entry of the mock table. */
  method MockConsole(ctx: Context, deployment: Deployment)
    modifies ctx
    ensures ctx.console == old(ctx.console) + RuntimeConsole.ConsoleMock(deployment.deploymentId)
    ensures ctx.globals == old(ctx.globals)
    ensures ctx.trace == old(ctx.trace) + ConsoleSteps(RuntimeConsole.ConsoleLevels)
  {
    var levels := RuntimeConsole.ConsoleLevels;
    for i := 0 to |levels|
      invariant ctx.console == old(ctx.console) + RuntimeConsole.ConsoleTable(deployment.deploymentId, levels[..i])
      invariant ctx.globals == old(ctx.globals)
      invariant ctx.trace == old(ctx.trace) + ConsoleSteps(levels[..i])
    {
      assert levels[..i + 1][..i] == levels[..i];
      ctx.SetConsoleMethod(RuntimeConsole.LevelName(levels[i]),
                           RuntimeConsole.LogBinding(deployment.deploymentId, levels[i]));
    }
    assert levels[..|levels|] == levels;
  }

  /** `mockFetch`: evaluate the `fetch` runtime file with the host's fetch.
      `fetched` are the globals the file defines, such as the sandbox's
      `fetch`; it is taken to remove none. */
  method MockFetch(ctx: Context, fetchFile: RuntimeFiles.RuntimeSource, fetched: map<string, GlobalValue>)
    modifies ctx
    ensures ctx.globals == old(ctx.globals) + fetched
    ensures ctx.console == old(ctx.console)
    ensures ctx.trace == old(ctx.trace) + [EvalFetchRuntime(fetchFile.filename)]
  {
    ctx.SetGlobals(ctx.globals + fetched, ctx.console, EvalFetchRuntime(fetchFile.filename));
  }

  /** `mockStreamResponse`: define `global.streamResponse`, bound to the deployment. */
  method MockStreamResponse(ctx: Context, deployment: Deployment)
    modifies ctx
    ensures ctx.globals == old(ctx.globals)["streamResponse" := StreamResponseFunction(deployment.deploymentId)]
    ensures ctx.console == old(ctx.console)
    ensures ctx.trace == old(ctx.trace) + [InstallStreamResponse]
  {
    ctx.SetGlobal("streamResponse", StreamResponseFunction(deployment.deploymentId), InstallStreamResponse);
  }

  /** The steps `initRuntime` takes, in order. */
  function InitSteps(deployment: Deployment, fetchFile: RuntimeFiles.RuntimeSource): seq<Step> {
    [BindGlobal, RemoveEval, EvalEnvScript(RuntimeEnv.EnvScript(deployment.env))]
      + ConsoleSteps(RuntimeConsole.ConsoleLevels)
      + [EvalFetchRuntime(fetchFile.filename), InstallStreamResponse]
  }

  /** The globals `initRuntime` sets itself. */
  const InstalledGlobals: set<string> := {"global", "eval", "process", "streamResponse"}

  /** The global object after `initRuntime`, in the order the names are set. */
  function InitGlobals(before: map<string, GlobalValue>, deployment: Deployment,
                       unread: map<string, GlobalValue>, fetched: map<string, GlobalValue>): map<string, GlobalValue> {
    (AfterEnvScript(before["global" := GlobalObject]["eval" := Undefined], deployment.env, unread) + fetched)
      ["streamResponse" := StreamResponseFunction(deployment.deploymentId)]
  }

  /** `initRuntime`: bind `global`, remove `eval`, then run the four installers.
      `fetchSource` is the text of the `fetch` runtime file; `unread`,
      `unreadConsole` and `fetched` stand for what the sandbox's own
      evaluation leaves (see `MockEnvironmentVariables` and `MockFetch`). */
  method InitRuntime(ctx: Context, deployment: Deployment, fetchSource: string, stripExports: string -> string,
                     unread: map<string, GlobalValue>, unreadConsole: map<string, RuntimeConsole.LogBinding>,
                     fetched: map<string, GlobalValue>)
    modifies ctx
    ensures ctx.trace == old(ctx.trace) + InitSteps(deployment, RuntimeFiles.ReadRuntimeFile("fetch", fetchSource, stripExports, None))
    ensures ctx.globals == InitGlobals(old(ctx.globals), deployment, unread, fetched)
    ensures ctx.console == AfterEnvConsole(old(ctx.console), deployment.env, unreadConsole)
                           + RuntimeConsole.ConsoleMock(deployment.deploymentId)
  {
    ctx.SetGlobal("global", GlobalObject, BindGlobal);
    ctx.SetGlobal("eval", Undefined, RemoveEval);
    ghost var bound := ctx.globals;
    MockEnvironmentVariables(ctx, deployment, unread, unreadConsole);
    ghost var withEnv := ctx.globals;
    assert withEnv == AfterEnvScript(bound, deployment.env, unread);
    MockConsole(ctx, deployment);
    var fetchFile := RuntimeFiles.ReadRuntimeFile("fetch", fetchSource, stripExports, None);
    MockFetch(ctx, fetchFile, fetched);
    assert ctx.globals == withEnv + fetched;
    MockStreamResponse(ctx, deployment);
  }

  lemma {:induction false} ConsoleStepsAreInstallers(levels: seq<RuntimeConsole.Level>)
    ensures |ConsoleSteps(levels)| == |levels|
    ensures forall i :: 0 <= i < |levels| ==>
      ConsoleSteps(levels)[i] == InstallConsoleMethod(RuntimeConsole.LevelName(levels[i]))
    decreases |levels|
  {
    if levels != [] {
      var n := |levels| - 1;
      ConsoleStepsAreInstallers(levels[..n]);
    }
  }

  /** `global` is bound and `eval` removed before any installer starts; every
      later step belongs to an installer, and none of them is `eval`'s. */
  lemma EvalRemovedFirst(deployment: Deployment, fetchFile: RuntimeFiles.RuntimeSource)
    ensures |InitSteps(deployment, fetchFile)| == 10
    ensures InitSteps(deployment, fetchFile)[0] == BindGlobal
    ensures InitSteps(deployment, fetchFile)[1] == RemoveEval
    ensures forall i :: 2 <= i < 10 ==> IsInstallerStep(InitSteps(deployment, fetchFile)[i])
    ensures InitSteps(deployment, fetchFile)[2] == EvalEnvScript(RuntimeEnv.EnvScript(deployment.env))
    ensures forall i :: 0 <= i < 5 ==>
      InitSteps(deployment, fetchFile)[3 + i] == InstallConsoleMethod(RuntimeConsole.LevelName(RuntimeConsole.ConsoleLevels[i]))
    ensures InitSteps(deployment, fetchFile)[8] == EvalFetchRuntime(fetchFile.filename)
    ensures InitSteps(deployment, fetchFile)[9] == InstallStreamResponse
  {
    var levels := RuntimeConsole.ConsoleLevels;
    assert |levels| == 5;
    ConsoleStepsAreInstallers(levels);
    var c := ConsoleSteps(levels);
    assert InitSteps(deployment, fetchFile) ==
      [BindGlobal, RemoveEval, EvalEnvScript(RuntimeEnv.EnvScript(deployment.env))] + c
        + [EvalFetchRuntime(fetchFile.filename), InstallStreamResponse];
    assert |c| == 5;
  }

  /** After `initRuntime`, `streamResponse` is bound to the deployment. When
      every env entry is well formed, and for the names the `fetch` file
      does not define: `eval` is undefined, `global` is the global object,
      `process.env` is `EnvAfter` of the entries (so it has NODE_ENV, still
      "production" unless an entry sets it), and every other global is as
      it was. */
  lemma InitializedContext(before: map<string, GlobalValue>, deployment: Deployment,
                           unread: map<string, GlobalValue>, fetched: map<string, GlobalValue>)
    ensures var g := InitGlobals(before, deployment, unread, fetched);
      && g["streamResponse"] == StreamResponseFunction(deployment.deploymentId)
      && (RuntimeEnv.WellFormedEntries(deployment.env) ==>
          && ("eval" !in fetched ==> "eval" in g && g["eval"] == Undefined)
          && ("global" !in fetched ==> "global" in g && g["global"] == GlobalObject)
          && ("process" !in fetched ==>
                && "process" in g
                && g["process"] == ProcessObject(RuntimeEnv.EnvAfter(deployment.env))
                && RuntimeEnv.BaselineKey in g["process"].env
                && (!RuntimeEnv.SetsKey(deployment.env, RuntimeEnv.BaselineKey) ==>
                      g["process"].env[RuntimeEnv.BaselineKey] == RuntimeEnv.BaselineValue))
          && (forall k :: k in before && k !in InstalledGlobals && k !in fetched ==> k in g && g[k] == before[k])
          && g.Keys == before.Keys + InstalledGlobals + fetched.Keys)
  {
    if RuntimeEnv.WellFormedEntries(deployment.env) {
      WellFormedEnvScript(before["global" := GlobalObject]["eval" := Undefined], map[], deployment.env, unread, map[]);
      RuntimeEnv.EnvKeys(deployment.env, RuntimeEnv.BaselineKey);
      if !RuntimeEnv.SetsKey(deployment.env, RuntimeEnv.BaselineKey) {
        RuntimeEnv.UnsetKeyKeepsBaseline(deployment.env, RuntimeEnv.BaselineKey);
      }
    }
  }
}
