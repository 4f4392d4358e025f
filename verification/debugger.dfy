/** The session command layer (lib/debugger.js). Each command is a function
    from the store and the back-end's answers to the actions it dispatches,
    the back-end calls it issues, the resulting store and how its promise
    settles. The answers are consumed in the order the calls are issued; when
    they run out the pending call never settles (a hung back-end). */
module Debugger {
  import opened Util
  import opened Breakpoints
  import opened Frames
  import opened Actions
  import opened Store

  /** The back-end operations the core invokes. */
  datatype Call =
    | StartCall(config: Config, file: string)
    | StopCall
    | AddBreakpointCall(file: string, line: int)
    | RemoveBreakpointCall(bp: Breakpoint)
    | ResumeCall
    | NextCall
    | StepInCall
    | StepOutCall
    | RestartCall
    | SelectStacktraceCall(index: int)
    | SelectThreadCall(id: ThreadId)
    | GetStacktraceCall(threadID: ThreadId)
    | GetThreadsCall
    | LoadVariableCall(path: string, variable: Variable)

  /** A call made on a particular session's back-end. */
  datatype Request = Request(api: Api, call: Call)

  /** What a fulfilled back-end promise carries. */
  datatype Value =
    | Done
    | BreakpointId(id: BpId)
    | ExecState(exited: bool, threadID: ThreadId)
    | Stacktrace(frames: seq<Frame>)
    | Threads(threads: Option<seq<Thread>>)
    | Variables(vars: VarMap)

  /** How the back-end settles one call. */
  datatype Reply = Fulfil(value: Value) | Fail(error: string)

  /** How a command's promise settles; `Pending` when a back-end never answers. */
  datatype Status = Resolved | Rejected(error: string) | Pending

  /** The state of a command in progress: the store, the back-end answers not
      yet consumed, and what has been dispatched and called so far. */
  datatype Run = Run(store: StoreState, replies: seq<Reply>, actions: seq<Action>,
                     requests: seq<Request>, status: Status)

  /** The key JavaScript uses for an action that carries no `name`. */
  const UndefinedKey: string := "undefined"

  function Begin(s: StoreState, replies: seq<Reply>): Run {
    Run(s, replies, [], [], Resolved)
  }

  /** `store.dispatch(a)`; a throwing reducer rejects the running promise. */
  function Dispatch(r: Run, a: Action): (r': Run)
    ensures r'.actions == r.actions + [a]
    ensures r'.requests == r.requests && r'.replies == r.replies
    ensures !a.UpdateVariables? ==> r'.status == r.status && r'.store == Reduce(r.store, a).value
  {
    match Reduce(r.store, a)
    case Ok(s) => r.(store := s, actions := r.actions + [a])
    case Err(e) => r.(actions := r.actions + [a], status := Rejected(e))
  }

  /** `addOutputMessage('debug', m)`. */
  function Log(r: Run, m: Message): (r': Run)
    ensures r'.actions == r.actions + [AddOutputMessage("debug", m)]
    ensures r'.requests == r.requests && r'.replies == r.replies && r'.status == r.status
  {
    Dispatch(r, AddOutputMessage("debug", m))
  }

  /** The answer the next issued call gets, if the back-end ever gives one. */
  function NextReply(r: Run): Option<Reply> {
    if |r.replies| == 0 then None else Some(r.replies[0])
  }

  /** Records a call and consumes its answer. */
  function Issue(r: Run, api: Api, c: Call): (r': Run)
    ensures r'.requests == r.requests + [Request(api, c)]
    ensures r'.store == r.store && r'.actions == r.actions && r'.status == r.status
  {
    r.(requests := r.requests + [Request(api, c)],
       replies := if |r.replies| == 0 then [] else r.replies[1..])
  }

  /** `isStarted(name)`: a registered session whose state is neither
      notStarted nor starting. */
  function IsStarted(s: StoreState, name: string): (b: bool)
    ensures b <==> var k := ResolveName(s, name);
                   k in s.debuggers && s.debuggers[k].api.Some? &&
                   s.debuggers[k].state in {RunState.Started, RunState.Busy, RunState.Waiting}
  {
    match GetDebugger(s, name)
    case None => false
    case Some(d) => d.state != RunState.NotStarted && d.state != RunState.Starting
  }

  // ------------------------------------------------------------------ stop

  /** `stop(name)`; an empty name means the selected session. STOP is
      dispatched only once the back-end has stopped. */
  function Stop(r: Run, name: string): (r': Run)
    requires r.status.Resolved?
    ensures r.requests <= r'.requests
  {
    if !IsStarted(r.store, name) then r
    else
      var d := GetDebugger(r.store, name).value;
      var reply := NextReply(r);
      var r1 := Issue(r, d.api.value, StopCall);
      match reply
      case None => r1.(status := Pending)
      case Some(Fail(e)) => r1.(status := Rejected(e))
      case Some(Fulfil(_)) => Dispatch(r1, Action.Stop(if name != "" then name else d.name))
  }

  // ----------------------------------------------------------- breakpoints

  /** A back-end addBreakpoint call in flight, with the answer it will get. */
  datatype PendingAdd = PendingAdd(file: string, line: int, reply: Option<Reply>)

  /** The synchronous part of `addBreakpoint`: everything up to issuing the
      back-end call, which it returns when one was issued. The started check
      reads the selected session. */
  function AddBreakpointIssue(r: Run, name: string, file: string, line: int)
    : (out: (Run, Option<PendingAdd>))
    requires r.status.Resolved?
    ensures r.requests <= out.0.requests
    ensures out.1.Some? ==> out.0.status.Resolved? && out.1.value.file == file && out.1.value.line == line
    ensures out.1.Some? ==> IsStarted(r.store, "") && |out.0.requests| == |r.requests| + 1
    ensures !IsStarted(r.store, "") ==> out.1.None? && out.0.requests == r.requests && out.0.status.Resolved?
  {
    if !IsStarted(r.store, "") then
      (Dispatch(r, Action.AddBreakpoint(name, Breakpoint(file, line, BpState.NotStarted, None, None))), None)
    else
      var existing := GetBreakpoint(r.store, name, file, line);
      if existing.Some? && existing.value.state == BpState.Busy then (r, None)
      else
        var r1 := Log(r, AddingBreakpoint(file, line));
        var r2 := Dispatch(r1, Action.AddBreakpoint(name, Breakpoint(file, line, BpState.Busy, None, None)));
        match GetDebugger(r2.store, name)
        case None => (r2.(status := Rejected(TypeError)), None)
        case Some(d) =>
          (Issue(r2, d.api.value, AddBreakpointCall(file, line)),
           Some(PendingAdd(file, line, NextReply(r2))))
  }

  /** The entry `addBreakpoint` finally dispatches for the back-end's
      answer: `valid` with the returned `id` (undefined when the answer has
      none); `invalid` with the error as message when the call was refused,
      or when the answer is `undefined` and reading its `id` throws. */
  function Completed(p: PendingAdd, reply: Reply): (b: Breakpoint)
    ensures b.file == p.file && b.line == p.line
    ensures b.state == BpState.Valid <==> reply.Fulfil? && !reply.value.Done?
    ensures b.state != BpState.Valid ==> b.state == BpState.Invalid
    ensures b.id.Some? <==> reply.Fulfil? && reply.value.BreakpointId?
    ensures b.id.Some? ==> b.id.value == reply.value.id
    ensures b.message == (if reply.Fail? then Some(reply.error)
                          else if reply.value.Done? then Some(TypeError) else None)
  {
    match reply
    case Fulfil(Done) => Breakpoint(p.file, p.line, BpState.Invalid, None, Some(TypeError))
    case Fulfil(BreakpointId(id)) => Breakpoint(p.file, p.line, BpState.Valid, Some(id), None)
    case Fulfil(_) => Breakpoint(p.file, p.line, BpState.Valid, None, None)
    case Fail(e) => Breakpoint(p.file, p.line, BpState.Invalid, None, Some(e))
  }

  /** The messages the completion of `addBreakpoint` logs: "Added" when the
      call is fulfilled; an `undefined` answer then throws on reading its
      `id`, and the catch logs the failure, as it does for a refused call. */
  function CompletionLog(r: Run, p: PendingAdd, reply: Reply): (r': Run)
    ensures r'.requests == r.requests && r'.replies == r.replies && r'.status == r.status
    ensures r'.store.debuggers == r.store.debuggers
    ensures reply.Fulfil? && !reply.value.Done? ==>
              r'.actions == r.actions + [AddOutputMessage("debug", AddedBreakpoint(p.file, p.line))]
    ensures reply == Fulfil(Done) ==>
              r'.actions == r.actions + [AddOutputMessage("debug", AddedBreakpoint(p.file, p.line)),
                                         AddOutputMessage("debug", AddBreakpointFailed(p.file, p.line, TypeError))]
    ensures reply.Fail? ==>
              r'.actions == r.actions + [AddOutputMessage("debug", AddBreakpointFailed(p.file, p.line, reply.error))]
  {
    match reply
    case Fulfil(Done) => Log(Log(r, AddedBreakpoint(p.file, p.line)), AddBreakpointFailed(p.file, p.line, TypeError))
    case Fulfil(_) => Log(r, AddedBreakpoint(p.file, p.line))
    case Fail(e) => Log(r, AddBreakpointFailed(p.file, p.line, e))
  }

  /** The completion of `addBreakpoint`: the messages, then the completed
      entry. */
  function AddBreakpointComplete(r: Run, name: string, p: PendingAdd, reply: Reply): (r': Run)
    requires r.status.Resolved?
    ensures r'.status.Resolved?
    ensures r'.requests == r.requests && r'.replies == r.replies
  {
    Dispatch(CompletionLog(r, p, reply), Action.AddBreakpoint(name, Completed(p, reply)))
  }

  /** `addBreakpoint(name, file, line)`. */
  function AddBreakpoint(r: Run, name: string, file: string, line: int): (r': Run)
    requires r.status.Resolved?
    ensures r.requests <= r'.requests
  {
    var (r1, p) := AddBreakpointIssue(r, name, file, line);
    match p
    case None => r1
    case Some(pending) =>
      match pending.reply
      case None => r1.(status := Pending)
      case Some(reply) => AddBreakpointComplete(r1, name, pending, reply)
  }

  /** `removeBreakpoint(name, file, line)`. */
  function RemoveBreakpoint(r: Run, name: string, file: string, line: int): (r': Run)
    requires r.status.Resolved?
    ensures r.requests <= r'.requests
  {
    match GetBreakpoint(r.store, name, file, line)
    case None => r
    case Some(bp) =>
      var removed := Action.RemoveBreakpoint(name, Breakpoint(file, line, BpState.Removed, None, None));
      if bp.state == BpState.Invalid || !IsStarted(r.store, "") then Dispatch(r, removed)
      else
        var r1 := Log(r, RemovingBreakpoint(file, line));
        var r2 := Dispatch(r1, Action.RemoveBreakpoint(name, Breakpoint(file, line, BpState.Busy, None, None)));
        match GetDebugger(r2.store, name)
        case None => r2.(status := Rejected(TypeError))
        case Some(d) =>
          var reply := NextReply(r2);
          var r3 := Issue(r2, d.api.value, RemoveBreakpointCall(bp));
          match reply
          case None => r3.(status := Pending)
          case Some(Fulfil(_)) => Dispatch(Log(r3, RemovedBreakpoint(file, line)), removed)
          case Some(Fail(e)) =>
            Dispatch(Log(r3, RemoveBreakpointFailed(file, line, e)),
                     Action.RemoveBreakpoint(name, Breakpoint(file, line, BpState.Invalid, None, Some(e))))
  }

  // ------------------------------------------------------ threads & frames

  /** `getThreads()` on the selected session. */
  function GetThreads(r: Run): (r': Run)
    requires r.status.Resolved?
    ensures r.requests <= r'.requests
  {
    if !IsStarted(r.store, "") then r
    else
      var d := GetDebugger(r.store, "").value;
      var r1 := Dispatch(r, SetState(d.name, RunState.Busy));
      var reply := NextReply(r1);
      var r2 := Issue(r1, d.api.value, GetThreadsCall);
      match reply
      case None => r2.(status := Pending)
      case Some(Fail(e)) => r2.(status := Rejected(e))
      case Some(Fulfil(Threads(ts))) => Dispatch(r2, UpdateThreads(d.name, RunState.Waiting, ts))
      // `undefined` threads: the reducer's `action.threads || state` keeps the old ones
      case Some(Fulfil(Done)) => Dispatch(r2, UpdateThreads(d.name, RunState.Waiting, None))
      case Some(Fulfil(_)) => r2.(status := Rejected(TypeError))
  }

  /** `getStacktrace(threadID)` on the selected session. An answer that is
      not a stacktrace rejects with no action recorded: the program's
      UPDATE_STACKTRACE with an `undefined` stacktrace throws in its reducer,
      and that failed dispatch is not kept in `actions` (whereas `Dispatch`
      does keep a failing UPDATE_VARIABLES). */
  function GetStacktrace(r: Run, threadID: ThreadId): (r': Run)
    requires r.status.Resolved?
    ensures r.requests <= r'.requests
  {
    if !IsStarted(r.store, "") then r
    else
      var d := GetDebugger(r.store, "").value;
      var r1 := Dispatch(r, SetState(d.name, RunState.Busy));
      var reply := NextReply(r1);
      var r2 := Issue(r1, d.api.value, GetStacktraceCall(threadID));
      match reply
      case None => r2.(status := Pending)
      case Some(Fail(e)) => r2.(status := Rejected(e))
      case Some(Fulfil(Stacktrace(frames))) =>
        Dispatch(r2, UpdateStacktrace(d.name, RunState.Waiting, frames))
      case Some(Fulfil(_)) => r2.(status := Rejected(TypeError))
  }

  /** `selectThread(id)`: reselecting the current thread skips the back-end
      selection but still fetches its stacktrace. */
  function SelectThread(r: Run, id: ThreadId): (r': Run)
    requires r.status.Resolved?
    ensures r.requests <= r'.requests
  {
    if !IsStarted(r.store, "") then r
    else
      var d := GetDebugger(r.store, "").value;
      if d.selectedThread == id then GetStacktrace(r, id)
      else
        var r1 := Dispatch(r, SetSelectedThread(d.name, RunState.Busy, id));
        var reply := NextReply(r1);
        var r2 := Issue(r1, d.api.value, SelectThreadCall(id));
        match reply
        case None => r2.(status := Pending)
        case Some(Fail(e)) => r2.(status := Rejected(e))
        case Some(Fulfil(_)) =>
          GetStacktrace(Dispatch(r2, SetSelectedThread(d.name, RunState.Waiting, id)), id)
  }

  /** `selectStacktrace(index)` on the selected session. Its first dispatch
      carries no name, so it lands on the session keyed "undefined". */
  function SelectStacktrace(r: Run, index: int): (r': Run)
    requires r.status.Resolved?
    ensures r.requests <= r'.requests
  {
    match GetDebugger(r.store, "")
    case None => r.(status := Rejected(TypeError))
    case Some(d) =>
      if d.selectedStacktrace == index then r
      else
        var r1 := Dispatch(r, SetSelectedStacktrace(UndefinedKey, RunState.Busy, index));
        var reply := NextReply(r1);
        var r2 := Issue(r1, d.api.value, SelectStacktraceCall(index));
        match reply
        case None => r2.(status := Pending)
        case Some(Fail(e)) => r2.(status := Rejected(e))
        case Some(Fulfil(_)) => Dispatch(r2, SetSelectedStacktrace(d.name, RunState.Waiting, index))
  }

  // ------------------------------------------------------------ execution

  /** The four execution-control commands share one shape. */
  datatype StepKind = Resume | Next | StepIn | StepOut

  function StepCall(k: StepKind): Call {
    match k
    case Resume => ResumeCall
    case Next => NextCall
    case StepIn => StepInCall
    case StepOut => StepOutCall
  }

  /** `updateState(newState)`: stop on exit; otherwise refresh the threads,
      select the reported thread, then the first stacktrace entry. */
  function UpdateState(r: Run, exited: bool, threadID: ThreadId): (r': Run)
    requires r.status.Resolved?
    ensures r.requests <= r'.requests
  {
    if exited then Stop(r, "")
    else
      var r1 := GetThreads(r);
      if !r1.status.Resolved? then r1
      else
        var r2 := SelectThread(r1, threadID);
        if !r2.status.Resolved? then r2
        else SelectStacktrace(r2, 0)
  }

  /** `resume()`, `next()`, `stepIn()`, `stepOut()` on the selected session. */
  function Step(r: Run, k: StepKind): (r': Run)
    requires r.status.Resolved?
    ensures r.requests <= r'.requests
  {
    match GetDebugger(r.store, "")
    case None => r.(status := Rejected(TypeError))
    case Some(d) =>
      var reply := NextReply(r);
      var r1 := Issue(r, d.api.value, StepCall(k));
      match reply
      case None => r1.(status := Pending)
      case Some(Fail(e)) => r1.(status := Rejected(e))
      case Some(Fulfil(ExecState(exited, threadID))) => UpdateState(r1, exited, threadID)
      case Some(Fulfil(_)) => r1.(status := Rejected(TypeError))
  }

  /** `restart()`: RESTART once the back-end restarted, then a resume that
      the returned promise does not wait for. */
  function Restart(r: Run): (r': Run)
    requires r.status.Resolved?
    ensures r.requests <= r'.requests
  {
    if !IsStarted(r.store, "") then r
    else
      var d := GetDebugger(r.store, "").value;
      var reply := NextReply(r);
      var r1 := Issue(r, d.api.value, RestartCall);
      match reply
      case None => r1.(status := Pending)
      case Some(Fail(e)) => r1.(status := Rejected(e))
      case Some(Fulfil(_)) =>
        var r2 := Dispatch(r1, Action.Restart(d.name));
        if GetDebugger(r2.store, "").None? then r2.(status := Rejected(TypeError))
        else Step(r2, Resume).(status := Resolved)
  }

  /** `loadVariable(path, variable)`: the answer is merged into the frame
      that was selected when the call was made. */
  function LoadVariable(r: Run, path: string, variable: Variable): (r': Run)
    requires r.status.Resolved?
    ensures r.requests <= r'.requests
  {
    match GetDebugger(r.store, "")
    case None => r.(status := Rejected(TypeError))
    case Some(d) =>
      var r1 := Dispatch(r, SetState(d.name, RunState.Busy));
      var reply := NextReply(r1);
      var r2 := Issue(r1, d.api.value, LoadVariableCall(path, variable));
      match reply
      case None => r2.(status := Pending)
      case Some(Fail(e)) => r2.(status := Rejected(e))
      case Some(Fulfil(Variables(vars))) =>
        Dispatch(r2, UpdateVariables(d.name, RunState.Waiting, path, vars, d.selectedStacktrace))
      // `undefined` variables: `assign` skips them, as it does an empty map
      case Some(Fulfil(Done)) =>
        Dispatch(r2, UpdateVariables(d.name, RunState.Waiting, path, map[], d.selectedStacktrace))
      case Some(Fulfil(_)) => r2.(status := Rejected(TypeError))
  }

  // ----------------------------------------------------------------- start

  /** The synchronous halves of the replayed `addBreakpoint` calls, in list
      order; a throw stops the list there. */
  function ReplayIssue(r: Run, name: string, bps: seq<Breakpoint>): (out: (Run, seq<PendingAdd>))
    requires r.status.Resolved?
    ensures r.requests <= out.0.requests
    ensures |out.1| > 0 ==> out.0.status.Resolved?
    decreases |bps|
  {
    if |bps| == 0 then (r, [])
    else
      var (r1, p) := AddBreakpointIssue(r, name, bps[0].file, bps[0].line);
      if !r1.status.Resolved? then (r1, [])
      else
        var (r2, ps) := ReplayIssue(r1, name, bps[1..]);
        if !r2.status.Resolved? then (r2, [])
        else (r2, (if p.Some? then [p.value] else []) + ps)
  }

  /** The completions of the replayed calls, in the order they were issued.
      One that never gets an answer leaves `Promise.all` pending. */
  function ReplayComplete(r: Run, name: string, ps: seq<PendingAdd>): (r': Run)
    requires r.status.Resolved?
    ensures r'.status.Resolved? || r'.status.Pending?
    ensures r'.requests == r.requests
    decreases |ps|
  {
    if |ps| == 0 then r
    else
      match ps[0].reply
      case None => ReplayComplete(r, name, ps[1..]).(status := Pending)
      case Some(reply) => ReplayComplete(AddBreakpointComplete(r, name, ps[0], reply), name, ps[1..])
  }

  /** `Promise.all(getBreakpoints(name).map(bp => addBreakpoint(name, bp.file, bp.line)))`. */
  function Replay(r: Run, name: string): (r': Run)
    requires r.status.Resolved?
    ensures r.requests <= r'.requests
  {
    var (r1, ps) := ReplayIssue(r, name, GetBreakpoints(r.store, name, ""));
    if !r1.status.Resolved? then r1 else ReplayComplete(r1, name, ps)
  }

  /** The `.catch` of `start`: log the error, then `stop()` the selected session. */
  function StartFailure(r: Run, name: string, config: Config, e: string): (r': Run)
    requires r.status.Resolved?
    ensures r.requests <= r'.requests
  {
    Stop(Log(r, StartFailed(name, config.name, e)), "")
  }

  /** The opening of `start`, up to and including the back-end's start call:
      show the panel if hidden, mark the session starting, log. */
  function StartOpening(r: Run, name: string, config: Config, file: string, api: Api): (r': Run)
    requires r.status.Resolved?
    ensures r'.status.Resolved? && r.requests <= r'.requests
  {
    var r0 := if !Truthy(r.store.panel.visible) then Dispatch(r, TogglePanel(None)) else r;
    Issue(Log(Dispatch(r0, SetState(name, RunState.Starting)), StartingDebugger(name, config.name)),
          api, StartCall(config, file))
  }

  /** What `start` does once the back-end has started: replay the stored
      breakpoints, then resume; a rejection on the way ends in the `.catch`. */
  function StartContinue(r: Run, name: string, config: Config): (r': Run)
    requires r.status.Resolved?
    ensures r.requests <= r'.requests
  {
    var r1 := Dispatch(Log(r, StartedDebugger(name, config.name)), SetState(name, RunState.Started));
    var r2 := Replay(r1, name);
    match r2.status
    case Pending => r2
    case Rejected(e) => StartFailure(r2.(status := Resolved), name, config, e)
    case Resolved =>
      var r3 := Step(r2, Resume);
      if r3.status.Rejected? then StartFailure(r3.(status := Resolved), name, config, r3.status.error)
      else r3
  }

  /** `start(name, config, file)`. */
  function Start(r: Run, name: string, config: Config, file: string): (r': Run)
    requires r.status.Resolved?
    ensures r.requests <= r'.requests
  {
    match GetDebugger(r.store, name)
    case None => r.(status := Rejected(TypeError))
    case Some(d) =>
      var r1 := StartOpening(r, name, config, file, d.api.value);
      match NextReply(r)
      case None => r1.(status := Pending)
      case Some(Fail(e)) => StartFailure(r1, name, config, e)
      case Some(Fulfil(_)) => StartContinue(r1, name, config)
  }
}
