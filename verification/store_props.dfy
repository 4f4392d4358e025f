/** Properties of the store's reducers: the breakpoint registry invariant,
    what STOP, INIT_STORE, REMOVE_DEBUGGER and the stacktrace actions do, and
    which parts of the store an action can touch. */
module StoreProps {
  import opened Util
  import opened Breakpoints
  import opened Frames
  import opened Actions
  import opened Store

  // ------------------------------------------------------- breakpoint list

  /** Same length, and every position keeps its (file, line). */
  predicate SameLocations(b: seq<Breakpoint>, r: seq<Breakpoint>) {
    |b| == |r| && forall i :: 0 <= i < |b| ==> r[i].file == b[i].file && r[i].line == b[i].line
  }

  lemma SameLocationsKeepOrder(b: seq<Breakpoint>, r: seq<Breakpoint>)
    requires StrictlySorted(b) && SameLocations(b, r)
    ensures StrictlySorted(r)
  {
    forall i, j | 0 <= i < j < |r| ensures Before(r[i], r[j]) {
      assert Before(b[i], b[j]);
    }
  }

  /** ADD_BREAKPOINT at a new location inserts exactly that breakpoint and the
      list stays sorted with one entry per location. */
  lemma AddBreakpointInserts(b: seq<Breakpoint>, n: string, bp: Breakpoint)
    requires StrictlySorted(b)
    requires IndexOf(b, bp.file, bp.line) == -1
    ensures var r := BreakpointsReducer(b, AddBreakpoint(n, bp));
            && StrictlySorted(r)
            && |r| == |b| + 1
            && multiset(r) == multiset(b) + multiset{bp}
  {
    StrictlySortedIsSortedAndUnique(b);
    assert (b + [bp])[..|b|] == b;
    SortOfSorted(b);
    assert Sort(b + [bp]) == Insert(b, bp);
    InsertStrictlySorted(b, bp);
    InsertPermutes(b, bp);
  }

  /** ADD_BREAKPOINT at an existing location merges the new keys into that
      entry in place: no length change, no other entry touched. */
  lemma AddBreakpointMerges(b: seq<Breakpoint>, n: string, bp: Breakpoint)
    requires IndexOf(b, bp.file, bp.line) != -1
    ensures var r := BreakpointsReducer(b, AddBreakpoint(n, bp));
            var i := IndexOf(b, bp.file, bp.line);
            && |r| == |b|
            && r[i] == Merge(b[i], bp)
            && (forall j :: 0 <= j < |b| && j != i ==> r[j] == b[j])
            && (StrictlySorted(b) ==> StrictlySorted(r))
  {
    var r := BreakpointsReducer(b, AddBreakpoint(n, bp));
    if StrictlySorted(b) {
      SameLocationsKeepOrder(b, r);
    }
  }

  /** After ADD_BREAKPOINT the list holds an entry at that location: the
      dispatched breakpoint itself when the location was new, otherwise the
      old entry with the new keys merged in. */
  lemma AddBreakpointLands(b: seq<Breakpoint>, n: string, bp: Breakpoint)
    ensures var r := BreakpointsReducer(b, AddBreakpoint(n, bp));
            var i := IndexOf(b, bp.file, bp.line);
            var j := IndexOf(r, bp.file, bp.line);
            && j != -1
            && r[j] == (if i == -1 then bp else Merge(b[i], bp))
  {
    var r := BreakpointsReducer(b, AddBreakpoint(n, bp));
    var i := IndexOf(b, bp.file, bp.line);
    if i == -1 {
      SortSortsAndPermutes(b + [bp]);
      assert multiset(r) == multiset(b) + multiset{bp};
      assert bp in multiset(r);
      var j := IndexOf(r, bp.file, bp.line);
      assert j != -1;
      assert r[j] in multiset(r);
    } else {
      assert forall k :: 0 <= k < i ==> r[k] == b[k];
    }
  }

  /** ADD_BREAKPOINT adds or rewrites only the entry at its own location:
      everything else in the result was already in the list. */
  lemma AddBreakpointTouchesItsLocation(b: seq<Breakpoint>, n: string, bp: Breakpoint)
    ensures var r := BreakpointsReducer(b, AddBreakpoint(n, bp));
            forall x :: x in r ==> x in b || At(x, bp.file, bp.line)
  {
    var r := BreakpointsReducer(b, AddBreakpoint(n, bp));
    var i := IndexOf(b, bp.file, bp.line);
    if i == -1 {
      SortSortsAndPermutes(b + [bp]);
      forall x | x in r ensures x in b || At(x, bp.file, bp.line) {
        assert x in multiset(r);
        assert x in multiset(b + [bp]);
        assert x in b + [bp];
      }
    } else {
      forall x | x in r ensures x in b || At(x, bp.file, bp.line) {
        var j :| 0 <= j < |r| && r[j] == x;
        if j != i {
          assert x == b[j];
        }
      }
    }
  }

  /** REMOVE_BREAKPOINT with a state other than busy deletes exactly the entry
      at that location, keeping the others in order; an absent location
      leaves the list as it is. */
  lemma RemoveBreakpointDeletes(b: seq<Breakpoint>, n: string, bp: Breakpoint)
    requires bp.state != BpState.Busy
    ensures var r := BreakpointsReducer(b, RemoveBreakpoint(n, bp));
            var i := IndexOf(b, bp.file, bp.line);
            && (i == -1 ==> r == b)
            && (i != -1 ==> |r| == |b| - 1
                            && (forall k :: 0 <= k < i ==> r[k] == b[k])
                            && (forall k :: i <= k < |r| ==> r[k] == b[k + 1]))
            && (UniqueLocations(b) ==> IndexOf(r, bp.file, bp.line) == -1)
            && (StrictlySorted(b) ==> StrictlySorted(r))
  {
    var r := BreakpointsReducer(b, RemoveBreakpoint(n, bp));
    var i := IndexOf(b, bp.file, bp.line);
    if i != -1 {
      if UniqueLocations(b) {
        forall k | 0 <= k < |r| ensures !At(r[k], bp.file, bp.line) {
          if k >= i {
            assert r[k] == b[k + 1];
            assert !At(b[i], b[k + 1].file, b[k + 1].line);
          }
        }
      }
      if StrictlySorted(b) {
        forall p, q | 0 <= p < q < |r| ensures Before(r[p], r[q]) {
          var p' := if p < i then p else p + 1;
          var q' := if q < i then q else q + 1;
          assert r[p] == b[p'] && r[q] == b[q'];
        }
      }
    }
  }

  /** REMOVE_BREAKPOINT with state busy updates the existing entry in place. */
  lemma RemoveBusyMarksInPlace(b: seq<Breakpoint>, n: string, bp: Breakpoint)
    requires bp.state == BpState.Busy
    requires IndexOf(b, bp.file, bp.line) != -1
    ensures var r := BreakpointsReducer(b, RemoveBreakpoint(n, bp));
            var i := IndexOf(b, bp.file, bp.line);
            && |r| == |b|
            && r[i] == Merge(b[i], bp) && r[i].state == BpState.Busy
            && (forall j :: 0 <= j < |b| && j != i ==> r[j] == b[j])
            && (StrictlySorted(b) ==> StrictlySorted(r))
  {
    var r := BreakpointsReducer(b, RemoveBreakpoint(n, bp));
    if StrictlySorted(b) {
      SameLocationsKeepOrder(b, r);
    }
  }

  /** As written, a busy REMOVE_BREAKPOINT for a location that is not in a
      non-empty list updates "index -1": JavaScript's negative slice bound
      yields all but the last entry, the breakpoint, then the whole list again. */
  lemma RemoveBusyAbsentDuplicates(b: seq<Breakpoint>, n: string, bp: Breakpoint)
    requires bp.state == BpState.Busy
    requires IndexOf(b, bp.file, bp.line) == -1
    requires |b| > 0
    ensures var r := BreakpointsReducer(b, RemoveBreakpoint(n, bp));
            |r| == 2 * |b| && r[|b| - 1] == bp && r[|b|..] == b
  {
  }

  /** The registry invariant holds after every breakpoint action except a
      busy removal of a location that is not there. */
  lemma BreakpointsKeepInvariant(b: seq<Breakpoint>, a: Action)
    requires StrictlySorted(b)
    requires !a.UpdateBreakpointLine?
    requires a.RemoveBreakpoint? && a.bp.state == BpState.Busy ==> IndexOf(b, a.bp.file, a.bp.line) != -1
    ensures StrictlySorted(BreakpointsReducer(b, a))
  {
    match a
    case AddBreakpoint(n, bp) =>
      if IndexOf(b, bp.file, bp.line) == -1 {
        AddBreakpointInserts(b, n, bp);
      } else {
        AddBreakpointMerges(b, n, bp);
      }
    case RemoveBreakpoint(n, bp) =>
      if bp.state == BpState.Busy {
        RemoveBusyMarksInPlace(b, n, bp);
      } else {
        RemoveBreakpointDeletes(b, n, bp);
      }
    case Stop(_) =>
      SameLocationsKeepOrder(b, BreakpointsReducer(b, a));
    case InitStore(_) =>
      SameLocationsKeepOrder(b, BreakpointsReducer(b, a));
    case _ =>
  }

  /** Every session's breakpoints are sorted with one entry per location. */
  predicate RegistryInvariant(s: StoreState) {
    forall k :: k in s.debuggers ==> StrictlySorted(s.debuggers[k].breakpoints)
  }

  /** A busy removal that targets a location the session has (the only kind
      the command layer dispatches). */
  predicate BusyRemovalTargetsExisting(s: StoreState, a: Action) {
    a.RemoveBreakpoint? && a.bp.state == BpState.Busy ==>
      IndexOf(Lookup(s.debuggers, a.name).breakpoints, a.bp.file, a.bp.line) != -1
  }

  lemma ReduceKeepsRegistryInvariant(s: StoreState, a: Action)
    requires RegistryInvariant(s)
    requires BusyRemovalTargetsExisting(s, a)
    requires Reduce(s, a).Ok?
    ensures RegistryInvariant(Reduce(s, a).value)
  {
    DebuggersKeepSorted(s.debuggers, a);
  }

  /** The `debuggers` reducer on its own keeps every breakpoint list sorted. */
  lemma DebuggersKeepSorted(m: map<string, Session>, a: Action)
    requires forall k :: k in m ==> StrictlySorted(m[k].breakpoints)
    requires a.RemoveBreakpoint? && a.bp.state == BpState.Busy ==>
               IndexOf(Lookup(m, a.name).breakpoints, a.bp.file, a.bp.line) != -1
    requires DebuggersReducer(m, a).Ok?
    ensures var d := DebuggersReducer(m, a).value;
            forall k :: k in d ==> StrictlySorted(d[k].breakpoints)
  {
    var d := DebuggersReducer(m, a).value;
    forall k | k in d ensures StrictlySorted(d[k].breakpoints) {
      if a.InitStore? || a.AddDebugger? || a.RemoveDebugger? {
        if a.InitStore? || k == a.name {
          var before := if a.InitStore? then m[k] else Lookup(m, k);
          assert d[k] == Provider(before, a).value;
          assert StrictlySorted(before.breakpoints);
          ProviderIdentity(before, a);
          BreakpointsKeepInvariant(before.breakpoints, a);
        }
      } else if SessionScoped(a) && k == a.name {
        ProviderIdentity(Lookup(m, k), a);
        BreakpointsKeepInvariant(Lookup(m, k).breakpoints, a);
      }
    }
  }

  /** The store after each action in turn; the first throwing dispatch stops. */
  function ReduceAll(s: StoreState, actions: seq<Action>): Result<StoreState>
    decreases |actions|
  {
    if |actions| == 0 then Ok(s)
    else match Reduce(s, actions[0])
      case Err(e) => Err(e)
      case Ok(s') => ReduceAll(s', actions[1..])
  }

  /** Any run of actions without a busy removal keeps every session's
      breakpoints sorted by (file, line) with at most one per location. */
  lemma {:induction false} ReduceAllKeepsRegistryInvariant(s: StoreState, actions: seq<Action>)
    requires RegistryInvariant(s)
    requires forall i :: 0 <= i < |actions| ==>
               !(actions[i].RemoveBreakpoint? && actions[i].bp.state == BpState.Busy)
    requires ReduceAll(s, actions).Ok?
    ensures RegistryInvariant(ReduceAll(s, actions).value)
    decreases |actions|
  {
    if |actions| > 0 {
      ReduceKeepsRegistryInvariant(s, actions[0]);
      ReduceAllKeepsRegistryInvariant(Reduce(s, actions[0]).value, actions[1..]);
    }
  }

  // ------------------------------------------------------------------ STOP

  /** STOP resets a session: every breakpoint becomes exactly
      `{file, line, state: 'notStarted'}` in the same order, threads and
      stacktrace are emptied, the state is notStarted and both selections 0;
      nothing else changes. */
  lemma StopResetsSession(s: Session, n: string)
    ensures Provider(s, Stop(n)).Ok?
    ensures var r := Provider(s, Stop(n)).value;
            && |r.breakpoints| == |s.breakpoints|
            && (forall i :: 0 <= i < |s.breakpoints| ==>
                  r.breakpoints[i] == Breakpoint(s.breakpoints[i].file, s.breakpoints[i].line,
                                                 BpState.NotStarted, None, None))
            && r.threads == [] && r.stacktrace == []
            && r.state == RunState.NotStarted
            && r.selectedThread == 0 && r.selectedStacktrace == 0
            && r.(breakpoints := s.breakpoints, threads := s.threads, stacktrace := s.stacktrace,
                  state := s.state, selectedThread := s.selectedThread,
                  selectedStacktrace := s.selectedStacktrace) == s
  {
  }

  /** RESTART empties threads and stacktrace and marks the session started,
      leaving its breakpoints alone. */
  lemma RestartClearsSession(s: Session, n: string)
    ensures Provider(s, Restart(n)).Ok?
    ensures var r := Provider(s, Restart(n)).value;
            && r.threads == [] && r.stacktrace == []
            && r.state == RunState.Started
            && r.selectedThread == 0 && r.selectedStacktrace == 0
            && r.breakpoints == s.breakpoints && r.api == s.api
  {
  }

  // ------------------------------------------------------------ INIT_STORE

  /** INIT_STORE sets every breakpoint's state to notStarted, keeping its
      other keys, and repairs a non-boolean `panel.visible` from the
      configured default; nothing else in a session changes. */
  lemma InitStoreResets(s: StoreState, initial: Flag)
    ensures Reduce(s, InitStore(initial)).Ok?
    ensures var r := Reduce(s, InitStore(initial)).value;
            && r.debuggers.Keys == s.debuggers.Keys
            && (forall k :: k in s.debuggers ==>
                  var b := s.debuggers[k].breakpoints;
                  var b' := r.debuggers[k].breakpoints;
                  && |b'| == |b|
                  && (forall i :: 0 <= i < |b| ==> b'[i] == b[i].(state := BpState.NotStarted))
                  && r.debuggers[k] == s.debuggers[k].(breakpoints := b'))
            && r.panel.width == s.panel.width
            && (s.panel.visible.Bool? ==> r.panel.visible == s.panel.visible)
            && (!s.panel.visible.Bool? ==> r.panel.visible == initial)
            && (initial.Bool? ==> r.panel.visible.Bool?)
            && r.selectedDebugger == s.selectedDebugger && r.output == s.output
  {
  }

  // ----------------------------------------------------- stacktrace/thread

  /** UPDATE_STACKTRACE installs the new frames (with variables carried over,
      see `CarryForward`), resets the selected frame to 0 and does not read the
      `state` key it carries. */
  lemma UpdateStacktraceEffect(s: StoreState, n: string, st: RunState, frames: seq<Frame>)
    ensures Reduce(s, UpdateStacktrace(n, st, frames)).Ok?
    ensures var r := Reduce(s, UpdateStacktrace(n, st, frames)).value;
            var prior := Lookup(s.debuggers, n);
            && n in r.debuggers
            && r.debuggers[n].stacktrace == CarryForward(prior.stacktrace, frames)
            && r.debuggers[n].selectedStacktrace == 0
            && r.debuggers[n].state == prior.state
            && r.debuggers[n].threads == prior.threads
            && r.debuggers[n].breakpoints == prior.breakpoints
  {
  }

  /** The `state` key of SET_SELECTED_STACKTRACE, UPDATE_STACKTRACE,
      UPDATE_THREADS and UPDATE_VARIABLES is ignored; SET_STATE and
      SET_SELECTED_THREAD do set it. */
  lemma StateKeyIgnored(s: Session, a: Action)
    requires a.SetSelectedStacktrace? || a.UpdateStacktrace? || a.UpdateThreads? || a.UpdateVariables?
    requires Provider(s, a).Ok?
    ensures Provider(s, a).value.state == s.state
    ensures a.SetSelectedStacktrace? ==> Provider(s, a).value.selectedStacktrace == a.index
    ensures Provider(s, SetState(a.name, a.state)).value.state == a.state
    ensures forall id :: Provider(s, SetSelectedThread(a.name, a.state, id)).value.state == a.state
  {
  }

  /** UPDATE_VARIABLES throws exactly when the frame index is out of range, or
      a path is given for a frame without variables; otherwise it changes only
      the frame at that index and leaves everything but the stacktrace alone. */
  lemma UpdateVariablesTouchesOneFrame(s: StoreState, n: string, st: RunState, path: string,
                                       returned: VarMap, index: int)
    ensures var prior := Lookup(s.debuggers, n).stacktrace;
            Reduce(s, UpdateVariables(n, st, path, returned, index)).Ok? <==>
              0 <= index < |prior| && (path == "" || prior[index].variables.Some?)
    ensures Reduce(s, UpdateVariables(n, st, path, returned, index)).Ok? ==>
              var r := Reduce(s, UpdateVariables(n, st, path, returned, index)).value;
              var before := Lookup(s.debuggers, n);
              var after := r.debuggers[n];
              && after == before.(stacktrace := after.stacktrace)
              && |after.stacktrace| == |before.stacktrace|
              && (forall j :: 0 <= j < |before.stacktrace| && j != index ==>
                    after.stacktrace[j] == before.stacktrace[j])
              && (forall k :: k in returned ==>
                    (k in after.stacktrace[index].variables.value &&
                     after.stacktrace[index].variables.value[k] == returned[k]))
              && (path != "" && path !in returned ==>
                    path in after.stacktrace[index].variables.value &&
                    after.stacktrace[index].variables.value[path].loaded)
  {
  }

  // ------------------------------------------------------ debuggers routing

  /** A session-scoped action changes only the session it names, and nothing
      outside `debuggers`. */
  lemma SessionScopedIsLocal(s: StoreState, a: Action)
    requires SessionScoped(a)
    requires Reduce(s, a).Ok?
    ensures var r := Reduce(s, a).value;
            && r.debuggers.Keys == s.debuggers.Keys + {a.name}
            && (forall k :: k in s.debuggers && k != a.name ==> r.debuggers[k] == s.debuggers[k])
            && r.panel == s.panel && r.selectedDebugger == s.selectedDebugger
            && r.output == s.output && r.variables == s.variables
  {
  }

  /** As written, a session-scoped action naming an unknown session creates a
      default entry for it (no back-end, empty name), which `getDebuggers`
      does not report. */
  lemma UnknownSessionCreatesEntry(s: StoreState, a: Action)
    requires SessionScoped(a) && !a.UpdateVariables?
    requires a.name !in s.debuggers
    ensures Reduce(s, a).Ok?
    ensures var r := Reduce(s, a).value;
            && a.name in r.debuggers
            && r.debuggers[a.name] == Provider(DefaultSession, a).value
            && r.debuggers[a.name].api.None? && r.debuggers[a.name].name == ""
            && GetDebuggers(r) == GetDebuggers(s)
  {
    var entry := Provider(DefaultSession, a).value;
    assert entry.api.None? && entry.name == "" by {
      assert !a.AddDebugger? && !a.RemoveDebugger?;
    }
    assert DebuggersReducer(s.debuggers, a) == Ok(s.debuggers[a.name := entry]);
    var r := Reduce(s, a).value;
    assert r.debuggers == s.debuggers[a.name := entry];
    assert GetDebuggers(r).Keys == GetDebuggers(s).Keys;
  }

  /** REMOVE_DEBUGGER: a known session keeps everything (its breakpoints
      included) except its back-end; an unknown name leaves `debuggers` as it
      is; the selection is cleared only when it named that session; and the
      session is no longer reported by `getDebuggers`. */
  lemma RemoveDebuggerEffect(s: StoreState, n: string)
    ensures Reduce(s, RemoveDebugger(n)).Ok?
    ensures var r := Reduce(s, RemoveDebugger(n)).value;
            && (n in s.debuggers ==> r.debuggers == s.debuggers[n := s.debuggers[n].(api := None)])
            && (n !in s.debuggers ==> r.debuggers == s.debuggers)
            && r.selectedDebugger == (if s.selectedDebugger == n then "" else s.selectedDebugger)
            && GetDebuggers(r).Keys == GetDebuggers(s).Keys - {n}
            && (n != "" ==> GetDebugger(r, n).None?)
  {
  }

  /** ADD_DEBUGGER registers the back-end under the given name and keeps the
      session's breakpoints from before. */
  lemma AddDebuggerRegisters(s: StoreState, n: string, dbg: DebuggerDef)
    requires dbg.api.Some?
    ensures Reduce(s, AddDebugger(n, dbg)).Ok?
    ensures var r := Reduce(s, AddDebugger(n, dbg)).value;
            && n in GetDebuggers(r)
            && r.debuggers[n].name == n
            && r.debuggers[n].api == dbg.api
            && r.debuggers[n].breakpoints == Lookup(s.debuggers, n).breakpoints
            && r.debuggers[n].state == Lookup(s.debuggers, n).state
            && r.debuggers[n].configs == dbg.configs.GetOr([])
            && r.debuggers[n].scopes == dbg.scopes.GetOr([])
  {
  }

  /** Sessions with a registered back-end are stored under their own name. */
  predicate LiveNamed(s: StoreState) {
    forall k :: k in s.debuggers && s.debuggers[k].api.Some? ==> s.debuggers[k].name == k
  }

  lemma ReduceKeepsLiveNamed(s: StoreState, a: Action)
    requires LiveNamed(s)
    requires Reduce(s, a).Ok?
    ensures LiveNamed(Reduce(s, a).value)
  {
    DebuggersKeepLiveNamed(s.debuggers, a);
  }

  /** The `debuggers` reducer on its own keeps registered sessions under
      their own name. */
  lemma DebuggersKeepLiveNamed(m: map<string, Session>, a: Action)
    requires forall k :: k in m && m[k].api.Some? ==> m[k].name == k
    requires DebuggersReducer(m, a).Ok?
    ensures var d := DebuggersReducer(m, a).value;
            forall k :: k in d && d[k].api.Some? ==> d[k].name == k
  {
    var d := DebuggersReducer(m, a).value;
    forall k | k in d && d[k].api.Some? ensures d[k].name == k {
      if a.AddDebugger? || a.RemoveDebugger? {
        if k != a.name {
          assert d[k] == m[k];
        }
      } else if a.InitStore? {
        ProviderIdentity(m[k], a);
      } else if SessionScoped(a) && k == a.name {
        ProviderIdentity(Lookup(m, k), a);
      } else {
        assert d[k] == m[k];
      }
    }
  }

  /** A session's name and back-end change only on ADD_DEBUGGER and
      REMOVE_DEBUGGER. */
  lemma ProviderIdentity(s: Session, a: Action)
    requires Provider(s, a).Ok?
    ensures !a.AddDebugger? ==> Provider(s, a).value.name == s.name
    ensures !a.AddDebugger? && !a.RemoveDebugger? ==> Provider(s, a).value.api == s.api
    ensures Provider(s, a).value.breakpoints == BreakpointsReducer(s.breakpoints, a)
  {
  }

  /** An action of a type no reducer handles leaves the store unchanged. */
  lemma UnknownActionIsNoop(s: StoreState, tag: string)
    ensures Reduce(s, Unknown(tag)) == Ok(s)
  {
  }

  // ----------------------------------------------------------------- panel

  /** TOGGLE_PANEL without a `visible` key flips the panel's truthiness, so
      toggling a boolean twice restores it. */
  lemma TogglePanelTwice(s: StoreState)
    requires s.panel.visible.Bool?
    ensures var once := Reduce(s, TogglePanel(None)).value;
            && once.panel.visible == Bool(!s.panel.visible.b)
            && Reduce(once, TogglePanel(None)).value.panel == s.panel
  {
  }

  // ------------------------------------------------------ configs, output, variables

  /** UPDATE_CONFIGS replaces the named session's configurations, with no
      configurations meaning none; nothing else changes. */
  lemma UpdateConfigsEffect(s: StoreState, name: string, configs: Option<seq<Config>>)
    ensures var t := Reduce(s, UpdateConfigs(name, configs)).value;
            var d := Lookup(s.debuggers, name);
            && t.debuggers == s.debuggers[name := d.(configs := if configs.Some? then configs.value else [])]
            && t.(debuggers := s.debuggers) == s
  {
  }

  /** UPDATE_CONFIGS with the configurations already stored changes nothing. */
  lemma UpdateConfigsIdempotent(s: StoreState, name: string, configs: seq<Config>)
    requires name in s.debuggers && s.debuggers[name].configs == configs
    ensures Reduce(s, UpdateConfigs(name, Some(configs))).value == s
  {
    UpdateConfigsEffect(s, name, Some(configs));
  }

  /** TOGGLE_OUTPUT sets the output pane's visibility to the given value,
      or to the opposite of the current one; nothing else changes. */
  lemma ToggleOutputEffect(s: StoreState, visible: Option<bool>)
    ensures var t := Reduce(s, ToggleOutput(visible)).value;
            && t.output.visible == (if visible.Some? then visible.value else !s.output.visible)
            && t.output.messages == s.output.messages && t.output.filters == s.output.filters
            && t.(output := s.output) == s
  {
  }

  /** Toggling the output pane twice without a value restores the store. */
  lemma ToggleOutputTwice(s: StoreState)
    ensures Reduce(Reduce(s, ToggleOutput(None)).value, ToggleOutput(None)).value == s
  {
    ToggleOutputEffect(s, None);
    ToggleOutputEffect(Reduce(s, ToggleOutput(None)).value, None);
  }

  /** CLEAN_OUTPUT empties the messages and keeps the visibility and the
      filters; the next message is then the only one. */
  lemma CleanOutputEffect(s: StoreState, name: string, m: Message)
    ensures var t := Reduce(s, CleanOutput).value;
            && t.output == s.output.(messages := [])
            && t.(output := s.output) == s
            && Reduce(t, AddOutputMessage(name, m)).value.output.messages == [OutputMessage(name, m)]
  {
  }

  /** A message filter is shown unless it is explicitly switched off. */
  predicate FilterShown(o: Output, f: string) {
    f !in o.filters || o.filters[f]
  }

  /** TOGGLE_OUTPUT_FILTER flips whether filter `f` is shown, a missing
      filter counting as shown, and stores the result explicitly; the other
      filters, the messages, the visibility and the rest of the store are
      kept. */
  lemma ToggleOutputFilterFlips(s: StoreState, f: string)
    ensures var t := Reduce(s, ToggleOutputFilter(f)).value;
            && f in t.output.filters
            && FilterShown(t.output, f) == !FilterShown(s.output, f)
            && (forall g :: g != f ==> (g in t.output.filters <==> g in s.output.filters))
            && (forall g :: g != f && g in s.output.filters ==> t.output.filters[g] == s.output.filters[g])
            && t.output.messages == s.output.messages && t.output.visible == s.output.visible
            && t.(output := s.output) == s
  {
  }

  /** Toggling a filter twice shows it as before; a filter that was
      already stored comes back exactly. */
  lemma ToggleOutputFilterTwice(s: StoreState, f: string)
    ensures var t := Reduce(Reduce(s, ToggleOutputFilter(f)).value, ToggleOutputFilter(f)).value;
            && FilterShown(t.output, f) == FilterShown(s.output, f)
            && (f in s.output.filters ==> t == s)
  {
    var once := Reduce(s, ToggleOutputFilter(f)).value;
    ToggleOutputFilterFlips(s, f);
    ToggleOutputFilterFlips(once, f);
    var t := Reduce(once, ToggleOutputFilter(f)).value;
    if f in s.output.filters {
      assert t.output.filters == s.output.filters;
    }
  }

  /** A variable path is expanded only when it is stored as expanded. */
  predicate Expanded(v: VariablesUi, path: string) {
    path in v.expanded && v.expanded[path]
  }

  /** TOGGLE_VARIABLE sets whether `path` is expanded to the given value, or
      flips it, a missing path counting as collapsed; the other paths and
      the rest of the store are kept. */
  lemma ToggleVariableFlips(s: StoreState, path: string, expanded: Option<bool>)
    ensures var t := Reduce(s, ToggleVariable(path, expanded)).value;
            && path in t.variables.expanded
            && Expanded(t.variables, path) == (if expanded.Some? then expanded.value
                                               else !Expanded(s.variables, path))
            && (forall p :: p != path ==> (p in t.variables.expanded <==> p in s.variables.expanded))
            && (forall p :: p != path && p in s.variables.expanded ==>
                  t.variables.expanded[p] == s.variables.expanded[p])
            && t.(variables := s.variables) == s
  {
  }

  /** Toggling a stored path twice without a value restores the store. */
  lemma ToggleVariableTwice(s: StoreState, path: string)
    requires path in s.variables.expanded
    ensures Reduce(Reduce(s, ToggleVariable(path, None)).value, ToggleVariable(path, None)).value == s
  {
    var once := Reduce(s, ToggleVariable(path, None)).value;
    ToggleVariableFlips(s, path, None);
    ToggleVariableFlips(once, path, None);
    var t := Reduce(once, ToggleVariable(path, None)).value;
    assert t.variables.expanded == s.variables.expanded;
  }
}
