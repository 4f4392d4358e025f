/** The state store (lib/store.js): the per-session record, the global UI
    state, every reducer as a pure function of (old state, action), and the
    read helpers the command layer consults. */
module Store {
  import opened Util
  import opened Breakpoints
  import opened Frames
  import opened Actions

  /** The per-session record the `provider` reducer combines. */
  datatype Session = Session(
    stacktrace: seq<Frame>,
    threads: seq<Thread>,
    breakpoints: seq<Breakpoint>,
    state: RunState,
    selectedStacktrace: int,
    selectedThread: ThreadId,
    selectedConfig: string,
    name: string,
    scopes: seq<string>,
    configs: seq<Config>,
    api: Option<Api>)

  /** What every sub-reducer returns for an `undefined` state. */
  const DefaultSession: Session :=
    Session([], [], [], RunState.NotStarted, 0, 0, "", "", [], [], None)

  datatype Panel = Panel(visible: Flag, width: Option<int>)

  datatype OutputMessage = OutputMessage(name: string, message: Message)

  datatype Output = Output(messages: seq<OutputMessage>, visible: bool, filters: map<string, bool>)

  /** The variable tree's expanded/collapsed flags, by path. */
  datatype VariablesUi = VariablesUi(expanded: map<string, bool>)

  /** The whole store: `{panel, debuggers, selectedDebugger, output, variables}`. */
  datatype StoreState = StoreState(
    panel: Panel,
    debuggers: map<string, Session>,
    selectedDebugger: string,
    output: Output,
    variables: VariablesUi)

  /** `state[name]`, with the default record standing in for a missing entry. */
  function Lookup(m: map<string, Session>, key: string): Session {
    if key in m then m[key] else DefaultSession
  }

  // ---------------------------------------------------------------- session

  function StacktraceReducer(st: seq<Frame>, a: Action): Result<seq<Frame>> {
    match a
    case Restart(_) => Ok([])
    case Stop(_) => Ok([])
    case UpdateStacktrace(_, _, frames) => Ok(CarryForward(st, frames))
    case UpdateVariables(_, _, path, returned, index) => LoadVariables(st, index, path, returned)
    case _ => Ok(st)
  }

  function ThreadsReducer(ts: seq<Thread>, a: Action): seq<Thread> {
    match a
    case Restart(_) => []
    case Stop(_) => []
    case UpdateThreads(_, _, threads) => threads.GetOr(ts)
    case _ => ts
  }

  function BreakpointsReducer(bps: seq<Breakpoint>, a: Action): seq<Breakpoint> {
    match a
    case AddBreakpoint(_, bp) =>
      var i := IndexOf(bps, bp.file, bp.line);
      if i == -1 then Sort(bps + [bp]) else UpdateArrayItem(bps, i, Merge(bps[i], bp))
    case RemoveBreakpoint(_, bp) =>
      var i := IndexOf(bps, bp.file, bp.line);
      if bp.state != BpState.Busy then
        (if i == -1 then bps else RemoveAt(bps, i))
      else
        // `Object.assign({}, undefined, bp)` is a copy of `bp` when nothing matched
        UpdateArrayItem(bps, i, if i == -1 then bp else Merge(bps[i], bp))
    case UpdateBreakpointLine(_, bp, newLine) =>
      var i := IndexOf(bps, bp.file, bp.line);
      if i != -1 then UpdateArrayItem(bps, i, bps[i].(line := newLine)) else bps
    case Stop(_) =>
      seq(|bps|, k requires 0 <= k < |bps| => Stopped(bps[k]))
    case InitStore(_) =>
      seq(|bps|, k requires 0 <= k < |bps| => bps[k].(state := BpState.NotStarted))
    case _ => bps
  }

  /** Only STOP, RESTART, SET_STATE and SET_SELECTED_THREAD move the session
      state; the `state` key other actions carry is not read. */
  function StateReducer(s: RunState, a: Action): RunState {
    match a
    case Stop(_) => RunState.NotStarted
    case Restart(_) => RunState.Started
    case SetState(_, st) => st
    case SetSelectedThread(_, st, _) => st
    case _ => s
  }

  function SelectedStacktraceReducer(i: int, a: Action): int {
    match a
    case Restart(_) => 0
    case Stop(_) => 0
    case SetSelectedStacktrace(_, _, index) => index
    case UpdateStacktrace(_, _, _) => 0
    case _ => i
  }

  function SelectedThreadReducer(t: ThreadId, a: Action): ThreadId {
    match a
    case Restart(_) => 0
    case Stop(_) => 0
    case SetSelectedThread(_, _, id) => id
    case _ => t
  }

  function SelectedConfigReducer(c: string, a: Action): string {
    if a.SetSelectedConfig? then a.configName else c
  }

  function NameReducer(n: string, a: Action): string {
    if a.AddDebugger? then a.name else n
  }

  function ConfigsReducer(cs: seq<Config>, a: Action): seq<Config> {
    match a
    case AddDebugger(_, dbg) => dbg.configs.GetOr([])
    case UpdateConfigs(_, configs) => configs.GetOr([])
    case _ => cs
  }

  function ScopesReducer(ss: seq<string>, a: Action): seq<string> {
    if a.AddDebugger? then a.dbg.scopes.GetOr([]) else ss
  }

  function ApiReducer(api: Option<Api>, a: Action): Option<Api> {
    match a
    case AddDebugger(_, dbg) => if dbg.api.Some? then dbg.api else api
    case RemoveDebugger(_) => None
    case _ => api
  }

  /** `provider`: every sub-reducer applied to its own field. Only
      UPDATE_VARIABLES can throw. */
  function Provider(s: Session, a: Action): (r: Result<Session>)
    ensures !a.UpdateVariables? ==> r.Ok?
    ensures r.Err? ==> r.error == TypeError
  {
    match StacktraceReducer(s.stacktrace, a)
    case Err(e) => Err(e)
    case Ok(st) => Ok(Session(
      st,
      ThreadsReducer(s.threads, a),
      BreakpointsReducer(s.breakpoints, a),
      StateReducer(s.state, a),
      SelectedStacktraceReducer(s.selectedStacktrace, a),
      SelectedThreadReducer(s.selectedThread, a),
      SelectedConfigReducer(s.selectedConfig, a),
      NameReducer(s.name, a),
      ScopesReducer(s.scopes, a),
      ConfigsReducer(s.configs, a),
      ApiReducer(s.api, a)))
  }

  /** The `debuggers` reducer: session name -> session record. */
  function DebuggersReducer(m: map<string, Session>, a: Action): Result<map<string, Session>> {
    match a
    case AddDebugger(n, _) => Ok(m[n := Provider(Lookup(m, n), a).value])
    case RemoveDebugger(n) =>
      if n !in m then Ok(m) else Ok(m[n := Provider(m[n], a).value])
    case InitStore(_) => Ok(map k | k in m :: Provider(m[k], a).value)
    case _ =>
      if SessionScoped(a) then
        match Provider(Lookup(m, a.name), a)
        case Err(e) => Err(e)
        case Ok(s) => Ok(m[a.name := s])
      else Ok(m)
  }

  // ----------------------------------------------------------------- global

  function SelectedDebuggerReducer(sel: string, a: Action): string {
    match a
    case SetSelectedDebugger(n) => n
    case RemoveDebugger(n) => if sel == n then "" else sel
    case _ => sel
  }

  function PanelReducer(p: Panel, a: Action): Panel {
    match a
    case TogglePanel(v) => p.(visible := if v.Some? then v.value else Bool(!Truthy(p.visible)))
    case SetPanelWidth(w) => p.(width := Some(w))
    case InitStore(initial) => if p.visible.Bool? then p else p.(visible := initial)
    case _ => p
  }

  const DefaultOutput: Output := Output([], false, map["debug" := true, "output" := true])

  function OutputReducer(o: Output, a: Action): Output {
    match a
    case ToggleOutput(v) => o.(visible := v.GetOr(!o.visible))
    case CleanOutput => o.(messages := [])
    case AddOutputMessage(n, msg) => o.(messages := o.messages + [OutputMessage(n, msg)])
    // `!(filters[f] !== false)`: only an explicit false turns back on
    case ToggleOutputFilter(f) => o.(filters := o.filters[f := f in o.filters && !o.filters[f]])
    case _ => o
  }

  function VariablesReducer(v: VariablesUi, a: Action): VariablesUi {
    match a
    case ToggleVariable(path, e) =>
      v.(expanded := v.expanded[path := if e.Some? then e.value
                                         else !(path in v.expanded && v.expanded[path])])
    case _ => v
  }

  /** `dispatch`: the combined root reducer. A throwing reducer leaves the
      store as it was and surfaces the error to the dispatcher. */
  function Reduce(s: StoreState, a: Action): (r: Result<StoreState>)
    ensures !a.UpdateVariables? ==> r.Ok?
  {
    match DebuggersReducer(s.debuggers, a)
    case Err(e) => Err(e)
    case Ok(d) => Ok(StoreState(
      PanelReducer(s.panel, a),
      d,
      SelectedDebuggerReducer(s.selectedDebugger, a),
      OutputReducer(s.output, a),
      VariablesReducer(s.variables, a)))
  }

  // ---------------------------------------------------------------- helpers

  /** `getDebuggers`: the sessions whose back-end is registered. */
  function GetDebuggers(s: StoreState): (r: map<string, Session>)
    ensures forall k :: k in r <==> k in s.debuggers && s.debuggers[k].api.Some?
    ensures forall k :: k in r ==> r[k] == s.debuggers[k]
  {
    map k | k in s.debuggers && s.debuggers[k].api.Some? :: s.debuggers[k]
  }

  /** The key `getDebugger(name)` reads: an empty (or omitted) name means the
      selected debugger. */
  function ResolveName(s: StoreState, name: string): string {
    if name == "" then s.selectedDebugger else name
  }

  /** `getDebugger(name)`: the named (or selected) session, when registered. */
  function GetDebugger(s: StoreState, name: string): (r: Option<Session>)
    ensures r.Some? <==> ResolveName(s, name) in s.debuggers && s.debuggers[ResolveName(s, name)].api.Some?
    ensures r.Some? ==> r.value == s.debuggers[ResolveName(s, name)]
  {
    var live := GetDebuggers(s);
    var key := ResolveName(s, name);
    if key in live then Some(live[key]) else None
  }

  /** The breakpoints of `file`, or all when `file` is empty. */
  function FileBreakpoints(bps: seq<Breakpoint>, file: string): (r: seq<Breakpoint>)
    ensures |r| <= |bps|
    ensures file == "" ==> r == bps
    decreases |bps|
  {
    if |bps| == 0 then []
    else (if file == "" || bps[0].file == file then [bps[0]] else []) + FileBreakpoints(bps[1..], file)
  }

  /** The filter keeps exactly the breakpoints of the file (all of them when
      no file is given). */
  lemma {:induction false} FileBreakpointsKeeps(bps: seq<Breakpoint>, file: string)
    ensures forall b :: b in FileBreakpoints(bps, file) <==> b in bps && (file == "" || b.file == file)
    decreases |bps|
  {
    if |bps| > 0 {
      FileBreakpointsKeeps(bps[1..], file);
      assert forall b :: b in bps <==> b == bps[0] || b in bps[1..];
    }
  }

  /** Filtering distributes over concatenation, so the kept breakpoints stay
      in list order. */
  lemma {:induction false} FileBreakpointsAppend(a: seq<Breakpoint>, b: seq<Breakpoint>, file: string)
    ensures FileBreakpoints(a + b, file) == FileBreakpoints(a, file) + FileBreakpoints(b, file)
    decreases |a|
  {
    if |a| > 0 {
      assert (a + b)[1..] == a[1..] + b;
      FileBreakpointsAppend(a[1..], b, file);
    } else {
      assert a + b == b;
    }
  }

  /** `getBreakpoints(name, file)`. */
  function GetBreakpoints(s: StoreState, name: string, file: string): seq<Breakpoint> {
    var bps := match GetDebugger(s, name) case Some(d) => d.breakpoints case None => [];
    FileBreakpoints(bps, file)
  }

  /** Past a head at another location, the lookup is the tail's, shifted. */
  lemma IndexOfPastHead(s: seq<Breakpoint>, file: string, line: int)
    requires |s| > 0 && !At(s[0], file, line)
    ensures var j := IndexOf(s[1..], file, line);
            IndexOf(s, file, line) == if j == -1 then -1 else j + 1
  {
  }

  /** Looking up a location within the file's breakpoints finds the same
      breakpoint as looking it up within the whole list. */
  ghost predicate SameFirstMatch(bps: seq<Breakpoint>, file: string, line: int) {
    var sub := FileBreakpoints(bps, file);
    var i := IndexOf(sub, file, line);
    var j := IndexOf(bps, file, line);
    (i == -1 <==> j == -1) && (i != -1 ==> sub[i] == bps[j])
  }

  lemma {:induction false} FilterKeepsFirstMatch(bps: seq<Breakpoint>, file: string, line: int)
    ensures SameFirstMatch(bps, file, line)
    decreases |bps|
  {
    if |bps| > 0 {
      FilterKeepsFirstMatch(bps[1..], file, line);
      if At(bps[0], file, line) {
        assert FileBreakpoints(bps, file) == [bps[0]] + FileBreakpoints(bps[1..], file);
      } else if file == "" || bps[0].file == file {
        FirstMatchPastKeptHead(bps, file, line);
      } else {
        assert FileBreakpoints(bps, file) == FileBreakpoints(bps[1..], file);
      }
    }
  }

  /** The inductive step when the head is kept by the filter but sits at
      another location: both lookups move past it. */
  lemma FirstMatchPastKeptHead(bps: seq<Breakpoint>, file: string, line: int)
    requires |bps| > 0 && !At(bps[0], file, line) && (file == "" || bps[0].file == file)
    requires SameFirstMatch(bps[1..], file, line)
    ensures SameFirstMatch(bps, file, line)
  {
    var sub := FileBreakpoints(bps, file);
    assert sub == [bps[0]] + FileBreakpoints(bps[1..], file);
    assert sub[1..] == FileBreakpoints(bps[1..], file);
    IndexOfPastHead(bps, file, line);
    IndexOfPastHead(sub, file, line);
  }

  /** `getBreakpoint(name, file, line)`: the first breakpoint at that location
      in the named (or selected) registered session. */
  function GetBreakpoint(s: StoreState, name: string, file: string, line: int): (r: Option<Breakpoint>)
    ensures r.None? <==> GetDebugger(s, name).None? ||
                         IndexOf(GetDebugger(s, name).value.breakpoints, file, line) == -1
    ensures r.Some? ==> var bps := GetDebugger(s, name).value.breakpoints;
                        r.value == bps[IndexOf(bps, file, line)] && At(r.value, file, line)
  {
    match GetDebugger(s, name)
    case None => None
    case Some(d) =>
      var bps := GetBreakpoints(s, name, file);
      var i := IndexOf(bps, file, line);
      FilterKeepsFirstMatch(d.breakpoints, file, line);
      if i == -1 then None else Some(bps[i])
  }

  // -------------------------------------------------------------- serialize

  datatype SavedSession = SavedSession(name: string, breakpoints: seq<Location>)

  /** The persisted state: `{panel, debuggers: {[name]: {name, breakpoints}}}`. */
  datatype Persisted = Persisted(panel: Panel, debuggers: map<string, SavedSession>)

  /** `order` is the key order `Object.keys` reports: every key once. */
  predicate KeyOrder(order: seq<string>, m: map<string, Session>) {
    && (forall k :: k in m ==> k in order)
    && (forall k :: k in order ==> k in m)
    && (forall i, j :: 0 <= i < j < |order| ==> order[i] != order[j])
  }

  /** The serialised sessions, visiting keys in `order`. Each session is
      written under its `name` field, skipping the empty key; a later key
      overwrites an earlier one with the same name. */
  function SavedSessions(m: map<string, Session>, order: seq<string>): map<string, SavedSession>
    requires forall k :: k in order ==> k in m
    decreases |order|
  {
    if |order| == 0 then map[]
    else
      var acc := SavedSessions(m, order[..|order| - 1]);
      var k := order[|order| - 1];
      assert forall j :: j in order[..|order| - 1] ==> j in order;
      if k == "" then acc
      else acc[m[k].name := SavedSession(m[k].name, Project(m[k].breakpoints))]
  }

  /** Every saved entry comes from a visited, non-empty key whose session
      carries that name, and holds that session's projected breakpoints. */
  lemma {:induction false} SavedSessionsNamed(m: map<string, Session>, order: seq<string>)
    requires forall k :: k in order ==> k in m
    ensures forall n :: n in SavedSessions(m, order) ==>
              exists k :: k in order && k in m && k != "" && m[k].name == n &&
                          SavedSessions(m, order)[n] == SavedSession(n, Project(m[k].breakpoints))
    decreases |order|
  {
    if |order| > 0 {
      var init := order[..|order| - 1];
      assert forall j :: j in init ==> j in order;
      SavedSessionsNamed(m, init);
      var r := SavedSessions(m, order);
      var acc := SavedSessions(m, init);
      var last := order[|order| - 1];
      forall n | n in r
        ensures exists k :: k in order && k in m && k != "" && m[k].name == n &&
                            r[n] == SavedSession(n, Project(m[k].breakpoints))
      {
        if last != "" && n == m[last].name {
          assert last in order;
        } else {
          assert n in acc && r[n] == acc[n];
          var k :| k in init && k in m && k != "" && m[k].name == n &&
                   acc[n] == SavedSession(n, Project(m[k].breakpoints));
          assert k in order;
        }
      }
    }
  }

  /** When every session is stored under its own name, the saved entries are
      exactly the visited non-empty keys, each with its projected
      breakpoints. */
  lemma {:induction false} SavedSessionsByKey(m: map<string, Session>, order: seq<string>)
    requires forall k :: k in order ==> k in m
    requires forall k :: k in order ==> m[k].name == k
    ensures var r := SavedSessions(m, order);
            && (forall k :: k in r <==> k in order && k != "")
            && (forall k :: k in r ==> r[k] == SavedSession(k, Project(m[k].breakpoints)))
    decreases |order|
  {
    if |order| > 0 {
      var init := order[..|order| - 1];
      assert forall j :: j in init ==> j in order;
      SavedSessionsByKey(m, init);
      assert forall k :: k in order <==> k in init || k == order[|order| - 1];
    }
  }

  /** Every visited non-empty key's session is saved under its name. */
  lemma {:induction false} SavedSessionsCover(m: map<string, Session>, order: seq<string>)
    requires forall k :: k in order ==> k in m
    ensures forall k :: k in order && k != "" ==> m[k].name in SavedSessions(m, order)
    decreases |order|
  {
    if |order| > 0 {
      var init := order[..|order| - 1];
      assert forall j :: j in init ==> j in order;
      SavedSessionsCover(m, init);
      forall k | k in order && k != "" ensures m[k].name in SavedSessions(m, order) {
        if k != order[|order| - 1] {
          assert k in init;
        }
      }
    }
  }

  /** On a name clash the key visited last wins: a non-empty key that no
      later non-empty key shares a name with has its own breakpoints saved. */
  lemma {:induction false} SavedSessionsLastWins(m: map<string, Session>, order: seq<string>, i: int)
    requires forall k :: k in order ==> k in m
    requires 0 <= i < |order| && order[i] != ""
    requires forall j :: i < j < |order| && order[j] != "" ==> m[order[j]].name != m[order[i]].name
    ensures var n := m[order[i]].name;
            n in SavedSessions(m, order) &&
            SavedSessions(m, order)[n] == SavedSession(n, Project(m[order[i]].breakpoints))
    decreases |order|
  {
    var init := order[..|order| - 1];
    assert forall j :: j in init ==> j in order;
    if i < |order| - 1 {
      assert init[i] == order[i];
      SavedSessionsLastWins(m, init, i);
    }
  }

  /** `serialize`: the panel as it is, and each session's breakpoints
      projected to `{file, line}` in the same order. */
  function Serialize(s: StoreState, order: seq<string>): (p: Persisted)
    requires KeyOrder(order, s.debuggers)
    ensures p.panel == s.panel
    ensures forall n :: n in p.debuggers ==>
              exists k :: k in s.debuggers && k != "" && s.debuggers[k].name == n &&
                          p.debuggers[n].breakpoints == Project(s.debuggers[k].breakpoints)
    ensures forall k :: k in s.debuggers && k != "" ==> s.debuggers[k].name in p.debuggers
    ensures (forall k :: k in s.debuggers ==> s.debuggers[k].name == k) ==>
              && (forall k :: k in p.debuggers <==> k in s.debuggers && k != "")
              && (forall k :: k in p.debuggers ==>
                    p.debuggers[k] == SavedSession(k, Project(s.debuggers[k].breakpoints)))
  {
    SavedSessionsNamed(s.debuggers, order);
    SavedSessionsCover(s.debuggers, order);
    if forall k :: k in s.debuggers ==> s.debuggers[k].name == k then
      SavedSessionsByKey(s.debuggers, order);
      Persisted(s.panel, SavedSessions(s.debuggers, order))
    else
      Persisted(s.panel, SavedSessions(s.debuggers, order))
  }
}
