/** The store's tagged-union actions and the small value types they carry. */
module Actions {
  import opened Util
  import opened Breakpoints
  import opened Frames

  /** A session's lifecycle state. */
  datatype RunState = NotStarted | Starting | Started | Busy | Waiting

  /** The opaque capability object a back-end registers for a session. */
  datatype Api = Api(handle: nat)

  /** A launch configuration; only its name is read by the core. */
  datatype Config = Config(name: string)

  /** The `dbg` argument of ADD_DEBUGGER: `{api?, configs?, scopes?}`. */
  datatype DebuggerDef = DebuggerDef(api: Option<Api>, configs: Option<seq<Config>>,
                                     scopes: Option<seq<string>>)

  /** A JavaScript value stored where a boolean is expected: a persisted or
      hand-edited state may hold a non-boolean, which still has a truthiness. */
  datatype Flag = Bool(b: bool) | NonBool(truthy: bool)

  function Truthy(f: Flag): bool {
    match f
    case Bool(b) => b
    case NonBool(t) => t
  }

  /** The output log's messages, kept structured (their text is formatting only). */
  datatype Message =
    | Text(text: string)
    | StartingDebugger(dbg: string, config: string)
    | StartedDebugger(dbg: string, config: string)
    | StartFailed(dbg: string, config: string, error: string)
    | AddingBreakpoint(file: string, line: int)
    | AddedBreakpoint(file: string, line: int)
    | AddBreakpointFailed(file: string, line: int, error: string)
    | RemovingBreakpoint(file: string, line: int)
    | RemovedBreakpoint(file: string, line: int)
    | RemoveBreakpointFailed(file: string, line: int, error: string)

  /** One constructor per action type the reducers know, plus `Unknown` for
      any other type (Redux's own initialisation actions, for one). Optional
      action keys are `Option`s: `None` means the key is absent. */
  datatype Action =
    | AddDebugger(name: string, dbg: DebuggerDef)
    | RemoveDebugger(name: string)
    | AddBreakpoint(name: string, bp: Breakpoint)
    | RemoveBreakpoint(name: string, bp: Breakpoint)
    | UpdateBreakpointLine(name: string, bp: Breakpoint, newLine: int)
    | SetSelectedConfig(name: string, configName: string)
    | SetSelectedStacktrace(name: string, state: RunState, index: int)
    | SetSelectedThread(name: string, state: RunState, id: ThreadId)
    | UpdateStacktrace(name: string, state: RunState, stacktrace: seq<Frame>)
    | UpdateThreads(name: string, state: RunState, threads: Option<seq<Thread>>)
    | UpdateVariables(name: string, state: RunState, path: string, variables: VarMap,
                      stacktraceIndex: int)
    | UpdateConfigs(name: string, configs: Option<seq<Config>>)
    | SetState(name: string, state: RunState)
    | Stop(name: string)
    | Restart(name: string)
      /** Carries the configured initial panel visibility, read when it is reduced. */
    | InitStore(panelInitialVisible: Flag)
    | SetSelectedDebugger(name: string)
    | TogglePanel(visible: Option<Flag>)
    | SetPanelWidth(width: int)
    | ToggleOutput(outputVisible: Option<bool>)
    | CleanOutput
    | AddOutputMessage(name: string, message: Message)
    | ToggleOutputFilter(filter: string)
    | ToggleVariable(path: string, expanded: Option<bool>)
    | Unknown(tag: string)

  /** The actions the `debuggers` reducer routes to the session named by `name`. */
  predicate SessionScoped(a: Action) {
    || a.AddBreakpoint? || a.RemoveBreakpoint? || a.SetSelectedConfig?
    || a.SetSelectedStacktrace? || a.SetSelectedThread? || a.UpdateStacktrace?
    || a.UpdateThreads? || a.UpdateVariables? || a.UpdateConfigs?
    || a.SetState? || a.Stop? || a.Restart?
  }
}
