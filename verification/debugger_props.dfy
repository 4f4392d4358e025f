/** Properties of the command layer: which guards make a command dispatch
    nothing or call nothing, what a breakpoint looks like once its command
    settles, and what start, stop and the step commands leave behind. */
module DebuggerProps {
  import opened Util
  import opened Breakpoints
  import opened Frames
  import opened Actions
  import opened Store
  import opened StoreProps
  import opened Debugger

  // --------------------------------------------------------------- helpers

  /** A session-scoped dispatch replaces one entry of `debuggers` and nothing else. */
  lemma SessionDispatch(r: Run, a: Action)
    requires SessionScoped(a) && !a.UpdateVariables?
    ensures var r' := Dispatch(r, a);
            && r'.store.debuggers == r.store.debuggers[a.name := Provider(Lookup(r.store.debuggers, a.name), a).value]
            && r'.store.(debuggers := r.store.debuggers) == r.store
  {
  }

  /** A session-scoped action keeps the session's back-end and name. */
  lemma ScopedKeepsIdentity(s: Session, a: Action)
    requires SessionScoped(a) && Provider(s, a).Ok?
    ensures Provider(s, a).value.api == s.api && Provider(s, a).value.name == s.name
  {
  }

  /** Logging appends one message and touches nothing else. */
  lemma LogEffect(r: Run, m: Message)
    ensures Log(r, m).store == r.store.(output := r.store.output.(
              messages := r.store.output.messages + [OutputMessage("debug", m)]))
    ensures Log(r, m).status == r.status
  {
  }

  // ------------------------------------------------------------ isStarted

  /** `isStarted` is false exactly when the session is missing (or has no
      back-end) or its state is notStarted or starting. */
  lemma NotStartedCases(s: StoreState, name: string)
    ensures !IsStarted(s, name) <==>
              GetDebugger(s, name).None? ||
              GetDebugger(s, name).value.state == RunState.NotStarted ||
              GetDebugger(s, name).value.state == RunState.Starting
  {
  }

  // -------------------------------------------------------- addBreakpoint

  /** With the selected session not started, `addBreakpoint` records the
      breakpoint as notStarted with one dispatch and no back-end call. */
  lemma AddBreakpointWhenNotStarted(s: StoreState, replies: seq<Reply>, name: string,
                                    file: string, line: int)
    requires !IsStarted(s, "")
    ensures var r := Debugger.AddBreakpoint(Begin(s, replies), name, file, line);
            && r.status == Resolved && r.requests == [] && r.replies == replies
            && r.actions == [Action.AddBreakpoint(name, Breakpoint(file, line, BpState.NotStarted, None, None))]
            && name in r.store.debuggers
            && var b := r.store.debuggers[name].breakpoints;
               IndexOf(b, file, line) != -1 && b[IndexOf(b, file, line)].state == BpState.NotStarted
  {
    var bp := Breakpoint(file, line, BpState.NotStarted, None, None);
    AddBreakpointLands(Lookup(s.debuggers, name).breakpoints, name, bp);
  }

  /** With the selected session started and the breakpoint already busy,
      `addBreakpoint` dispatches nothing and calls nothing. */
  lemma AddBreakpointWhileBusy(s: StoreState, replies: seq<Reply>, name: string,
                               file: string, line: int)
    requires IsStarted(s, "")
    requires GetBreakpoint(s, name, file, line).Some?
    requires GetBreakpoint(s, name, file, line).value.state == BpState.Busy
    ensures Debugger.AddBreakpoint(Begin(s, replies), name, file, line) == Begin(s, replies)
  {
  }

  /** The synchronous half of `addBreakpoint` on the started path: log,
      busy ADD_BREAKPOINT, one back-end call; the rest is the completion. */
  lemma AddBreakpointSteps(s: StoreState, replies: seq<Reply>, name: string, file: string, line: int)
    requires IsStarted(s, "") && name != "" && GetDebugger(s, name).Some?
    requires GetBreakpoint(s, name, file, line).None? ||
             GetBreakpoint(s, name, file, line).value.state != BpState.Busy
    requires |replies| > 0
    ensures var busy := Action.AddBreakpoint(name, Breakpoint(file, line, BpState.Busy, None, None));
            var api := s.debuggers[name].api.value;
            var r3 := Issue(Dispatch(Log(Begin(s, replies), AddingBreakpoint(file, line)), busy),
                            api, AddBreakpointCall(file, line));
            && r3.status == Resolved && r3.replies == replies[1..]
            && r3.requests == [Request(api, AddBreakpointCall(file, line))]
            && r3.actions == [AddOutputMessage("debug", AddingBreakpoint(file, line)), busy]
            && r3.store.debuggers == s.debuggers[name := Provider(s.debuggers[name], busy).value]
            && Debugger.AddBreakpoint(Begin(s, replies), name, file, line) ==
               AddBreakpointComplete(r3, name, PendingAdd(file, line, Some(replies[0])), replies[0])
  {
    var adding := AddOutputMessage("debug", AddingBreakpoint(file, line));
    var busy := Action.AddBreakpoint(name, Breakpoint(file, line, BpState.Busy, None, None));
    var call := Request(s.debuggers[name].api.value, AddBreakpointCall(file, line));
    AddBreakpointStarted(Begin(s, replies), name, file, line);
    AppendTwo([], adding, busy);
    assert [] + [adding, busy] == [adding, busy];
    assert [] + [call] == [call];
  }

  /** On a started session with no busy entry at the location, `addBreakpoint`
      logs, stores the busy entry, makes one back-end call and completes
      with the answer. */
  lemma AddBreakpointStarted(r: Run, name: string, file: string, line: int)
    requires r.status.Resolved? && IsStarted(r.store, "") && name != "" && GetDebugger(r.store, name).Some?
    requires GetBreakpoint(r.store, name, file, line).None? ||
             GetBreakpoint(r.store, name, file, line).value.state != BpState.Busy
    requires |r.replies| > 0
    ensures var busy := Action.AddBreakpoint(name, Breakpoint(file, line, BpState.Busy, None, None));
            var api := r.store.debuggers[name].api.value;
            var r3 := Issue(Dispatch(Log(r, AddingBreakpoint(file, line)), busy),
                            api, AddBreakpointCall(file, line));
            && r3.status == Resolved && r3.replies == r.replies[1..]
            && r3.requests == r.requests + [Request(api, AddBreakpointCall(file, line))]
            && r3.actions == (r.actions + [AddOutputMessage("debug", AddingBreakpoint(file, line))]) + [busy]
            && r3.store.debuggers == r.store.debuggers[name := Provider(r.store.debuggers[name], busy).value]
            && Debugger.AddBreakpoint(r, name, file, line) ==
               AddBreakpointComplete(r3, name, PendingAdd(file, line, Some(r.replies[0])), r.replies[0])
  {
    var busy := Action.AddBreakpoint(name, Breakpoint(file, line, BpState.Busy, None, None));
    var r1 := Log(r, AddingBreakpoint(file, line));
    LogEffect(r, AddingBreakpoint(file, line));
    var r2 := Dispatch(r1, busy);
    SessionDispatch(r1, busy);
    ScopedKeepsIdentity(Lookup(r1.store.debuggers, name), busy);
    assert r2.store.debuggers[name].api == r.store.debuggers[name].api;
    assert GetDebugger(r2.store, name) == Some(r2.store.debuggers[name]);
    var api := r.store.debuggers[name].api.value;
    var r3 := Issue(r2, api, AddBreakpointCall(file, line));
    assert AddBreakpointIssue(r, name, file, line) == (r3, Some(PendingAdd(file, line, Some(r.replies[0]))));
  }

  /** The actions the completion of `addBreakpoint` dispatches: "Added"
      when the call was fulfilled, a failure message when it was refused or
      its `undefined` answer threw, then the completed entry. */
  lemma AddBreakpointCompleteActions(r: Run, name: string, p: PendingAdd, reply: Reply)
    requires r.status.Resolved?
    ensures var acts := AddBreakpointComplete(r, name, p, reply).actions;
            var added := AddOutputMessage("debug", AddedBreakpoint(p.file, p.line));
            var final := Action.AddBreakpoint(name, Completed(p, reply));
            && (reply.Fulfil? && !reply.value.Done? ==> acts == r.actions + [added, final])
            && (reply == Fulfil(Done) ==>
                  acts == r.actions + [added, AddOutputMessage("debug", AddBreakpointFailed(p.file, p.line, TypeError)), final])
            && (reply.Fail? ==>
                  acts == r.actions + [AddOutputMessage("debug", AddBreakpointFailed(p.file, p.line, reply.error)), final])
  {
    var final := Action.AddBreakpoint(name, Completed(p, reply));
    var added := AddOutputMessage("debug", AddedBreakpoint(p.file, p.line));
    assert AddBreakpointComplete(r, name, p, reply).actions == CompletionLog(r, p, reply).actions + [final];
    match reply {
      case Fulfil(Done) =>
        AppendThree(r.actions, added, AddOutputMessage("debug", AddBreakpointFailed(p.file, p.line, TypeError)), final);
      case Fulfil(_) =>
        AppendTwo(r.actions, added, final);
      case Fail(e) =>
        AppendTwo(r.actions, AddOutputMessage("debug", AddBreakpointFailed(p.file, p.line, e)), final);
    }
  }

  lemma AppendTwo<T>(s: seq<T>, a: T, b: T)
    ensures (s + [a]) + [b] == s + [a, b]
  {
  }

  lemma AppendToEmpty<T>(s: seq<T>, a: T, b: T)
    requires s == []
    ensures (s + [a]) + [b] == [a, b]
  {
  }

  lemma TailOfCons<T>(a: T, s: seq<T>)
    ensures ([a] + s)[1..] == s
  {
  }

  lemma AppendThree<T>(s: seq<T>, a: T, b: T, c: T)
    ensures (s + [a, b]) + [c] == s + [a, b, c]
  {
  }

  /** With the selected session started, the named session registered and
      the breakpoint not already busy, `addBreakpoint` calls the back-end once
      and the breakpoint ends up `valid` with the returned id, or `invalid`
      with the error as its message; an `undefined` answer makes it `invalid`
      with a TypeError. */
  lemma AddBreakpointOutcome(s: StoreState, replies: seq<Reply>, name: string,
                             file: string, line: int)
    requires IsStarted(s, "") && name != "" && GetDebugger(s, name).Some?
    requires GetBreakpoint(s, name, file, line).None? ||
             GetBreakpoint(s, name, file, line).value.state != BpState.Busy
    requires |replies| > 0
    ensures var r := Debugger.AddBreakpoint(Begin(s, replies), name, file, line);
            && r.status == Resolved && r.replies == replies[1..]
            && r.requests == [Request(s.debuggers[name].api.value, AddBreakpointCall(file, line))]
            && name in r.store.debuggers
            && var b := r.store.debuggers[name].breakpoints;
               var j := IndexOf(b, file, line);
               && j != -1
               && (replies[0].Fulfil? && replies[0].value.BreakpointId? ==>
                     b[j].state == BpState.Valid && b[j].id == Some(replies[0].value.id))
               && (replies[0].Fulfil? && !replies[0].value.Done? ==> b[j].state == BpState.Valid)
               && (replies[0] == Fulfil(Done) ==>
                     b[j].state == BpState.Invalid && b[j].message == Some(TypeError))
               && (replies[0].Fail? ==>
                     b[j].state == BpState.Invalid && b[j].message == Some(replies[0].error))
  {
    AddBreakpointSteps(s, replies, name, file, line);
    var busy := Action.AddBreakpoint(name, Breakpoint(file, line, BpState.Busy, None, None));
    var r3 := Issue(Dispatch(Log(Begin(s, replies), AddingBreakpoint(file, line)), busy),
                    s.debuggers[name].api.value, AddBreakpointCall(file, line));
    var p := PendingAdd(file, line, Some(replies[0]));
    var fin := Completed(p, replies[0]);
    var r4 := CompletionLog(r3, p, replies[0]);
    var done := Action.AddBreakpoint(name, fin);
    assert AddBreakpointComplete(r3, name, p, replies[0]) == Dispatch(r4, done);
    SessionDispatch(r4, done);
    AddBreakpointLands(Lookup(r4.store.debuggers, name).breakpoints, name, fin);
  }

  /** The actions `addBreakpoint` dispatches on the started path: the
      "Adding" message and the busy ADD_BREAKPOINT, then "Added" or the
      failure message (both for an `undefined` answer), then the final
      ADD_BREAKPOINT, `valid` with the id or `invalid` with the error. */
  lemma AddBreakpointDispatches(s: StoreState, replies: seq<Reply>, name: string,
                                file: string, line: int)
    requires IsStarted(s, "") && name != "" && GetDebugger(s, name).Some?
    requires GetBreakpoint(s, name, file, line).None? ||
             GetBreakpoint(s, name, file, line).value.state != BpState.Busy
    requires |replies| > 0
    ensures var acts := Debugger.AddBreakpoint(Begin(s, replies), name, file, line).actions;
            var head := [AddOutputMessage("debug", AddingBreakpoint(file, line)),
                         Action.AddBreakpoint(name, Breakpoint(file, line, BpState.Busy, None, None))];
            var added := AddOutputMessage("debug", AddedBreakpoint(file, line));
            var final := Action.AddBreakpoint(name, Completed(PendingAdd(file, line, Some(replies[0])), replies[0]));
            && (replies[0].Fulfil? && !replies[0].value.Done? ==> acts == head + [added, final])
            && (replies[0] == Fulfil(Done) ==>
                  acts == head + [added, AddOutputMessage("debug", AddBreakpointFailed(file, line, TypeError)), final])
            && (replies[0].Fail? ==>
                  acts == head + [AddOutputMessage("debug", AddBreakpointFailed(file, line, replies[0].error)), final])
  {
    AddBreakpointSteps(s, replies, name, file, line);
    var busy := Action.AddBreakpoint(name, Breakpoint(file, line, BpState.Busy, None, None));
    var r3 := Issue(Dispatch(Log(Begin(s, replies), AddingBreakpoint(file, line)), busy),
                    s.debuggers[name].api.value, AddBreakpointCall(file, line));
    AddBreakpointCompleteActions(r3, name, PendingAdd(file, line, Some(replies[0])), replies[0]);
  }

  // ----------------------------------------------------- removeBreakpoint

  /** `removeBreakpoint` for a location the session does not have does nothing. */
  lemma RemoveBreakpointAbsent(s: StoreState, replies: seq<Reply>, name: string,
                               file: string, line: int)
    requires GetBreakpoint(s, name, file, line).None?
    ensures Debugger.RemoveBreakpoint(Begin(s, replies), name, file, line) == Begin(s, replies)
  {
  }

  /** An invalid breakpoint, or any breakpoint while the selected session is
      not started, is removed from the store alone: one dispatch, no call. */
  lemma RemoveBreakpointLocally(s: StoreState, replies: seq<Reply>, name: string,
                                file: string, line: int)
    requires name != "" && GetBreakpoint(s, name, file, line).Some?
    requires GetBreakpoint(s, name, file, line).value.state == BpState.Invalid || !IsStarted(s, "")
    requires UniqueLocations(s.debuggers[name].breakpoints)
    ensures var r := Debugger.RemoveBreakpoint(Begin(s, replies), name, file, line);
            && r.status == Resolved && r.requests == [] && r.replies == replies
            && r.actions == [Action.RemoveBreakpoint(name, Breakpoint(file, line, BpState.Removed, None, None))]
            && name in r.store.debuggers
            && |r.store.debuggers[name].breakpoints| == |s.debuggers[name].breakpoints| - 1
            && IndexOf(r.store.debuggers[name].breakpoints, file, line) == -1
  {
    var r0 := Begin(s, replies);
    var removed := Action.RemoveBreakpoint(name, Breakpoint(file, line, BpState.Removed, None, None));
    var r := Dispatch(r0, removed);
    assert Debugger.RemoveBreakpoint(r0, name, file, line) == r;
    SessionDispatch(r0, removed);
    RemoveBreakpointDeletes(s.debuggers[name].breakpoints, name, removed.bp);
  }

  /** The command sequence of a remote removal that gets an answer. */
  lemma RemoveRemoteSteps(r0: Run, name: string, file: string, line: int)
    requires r0.status.Resolved? && name != ""
    requires GetBreakpoint(r0.store, name, file, line).Some?
    requires GetBreakpoint(r0.store, name, file, line).value.state != BpState.Invalid && IsStarted(r0.store, "")
    requires |r0.replies| > 0
    ensures var bp := GetBreakpoint(r0.store, name, file, line).value;
            var reply := r0.replies[0];
            var busy := Action.RemoveBreakpoint(name, Breakpoint(file, line, BpState.Busy, None, None));
            var r2 := Dispatch(Log(r0, RemovingBreakpoint(file, line)), busy);
            var r3 := Issue(r2, r0.store.debuggers[name].api.value, RemoveBreakpointCall(bp));
            Debugger.RemoveBreakpoint(r0, name, file, line) ==
              if reply.Fail? then
                Dispatch(Log(r3, RemoveBreakpointFailed(file, line, reply.error)),
                         Action.RemoveBreakpoint(name, Breakpoint(file, line, BpState.Invalid, None, Some(reply.error))))
              else
                Dispatch(Log(r3, RemovedBreakpoint(file, line)),
                         Action.RemoveBreakpoint(name, Breakpoint(file, line, BpState.Removed, None, None)))
  {
    var r1 := Log(r0, RemovingBreakpoint(file, line));
    LogEffect(r0, RemovingBreakpoint(file, line));
    var busy := Action.RemoveBreakpoint(name, Breakpoint(file, line, BpState.Busy, None, None));
    var r2 := Dispatch(r1, busy);
    SessionDispatch(r1, busy);
    ScopedKeepsIdentity(Lookup(r1.store.debuggers, name), busy);
    assert GetDebugger(r2.store, name) == Some(r2.store.debuggers[name]);
    assert NextReply(r2) == Some(r0.replies[0]);
  }

  /** The effect of a remote removal that gets an answer: one call; the busy
      marking keeps the entry in place and the final removal
      deletes it. */
  lemma RemoveRemoteEffect(r0: Run, name: string, file: string, line: int, fin: Breakpoint, l: Message,
                          call: Request, rest: seq<Reply>)
    requires r0.status.Resolved? && name != "" && name in r0.store.debuggers
    requires IndexOf(r0.store.debuggers[name].breakpoints, file, line) != -1
    requires StrictlySorted(r0.store.debuggers[name].breakpoints)
    requires fin.file == file && fin.line == line && fin.state != BpState.Busy
    ensures var busy := Action.RemoveBreakpoint(name, Breakpoint(file, line, BpState.Busy, None, None));
            var r2 := Dispatch(Log(r0, RemovingBreakpoint(file, line)), busy);
            var r3 := r2.(requests := r2.requests + [call], replies := rest);
            var r := Dispatch(Log(r3, l), Action.RemoveBreakpoint(name, fin));
            var b := r0.store.debuggers[name].breakpoints;
            && r.status == r0.status && r.replies == rest && r.requests == r0.requests + [call]
            && name in r.store.debuggers
            && |r.store.debuggers[name].breakpoints| == |b| - 1
            && IndexOf(r.store.debuggers[name].breakpoints, file, line) == -1
            && StrictlySorted(r.store.debuggers[name].breakpoints)
  {
    var b := r0.store.debuggers[name].breakpoints;
    var r1 := Log(r0, RemovingBreakpoint(file, line));
    LogEffect(r0, RemovingBreakpoint(file, line));
    var busy := Action.RemoveBreakpoint(name, Breakpoint(file, line, BpState.Busy, None, None));
    var r2 := Dispatch(r1, busy);
    SessionDispatch(r1, busy);
    RemoveBusyMarksInPlace(b, name, busy.bp);
    var b2 := r2.store.debuggers[name].breakpoints;
    StrictlySortedIsSortedAndUnique(b2);
    var r3 := r2.(requests := r2.requests + [call], replies := rest);
    var r4 := Log(r3, l);
    LogEffect(r3, l);
    var done := Action.RemoveBreakpoint(name, fin);
    SessionDispatch(r4, done);
    RemoveBreakpointDeletes(b2, name, fin);
  }

  /** With the selected session started, removing a valid (or not yet
      confirmed) breakpoint calls the back-end once with the stored
      breakpoint; whatever the answer, the location is gone from the session
      afterwards and its list stays strictly sorted. */
  lemma RemoveBreakpointRemotely(s: StoreState, replies: seq<Reply>, name: string,
                                 file: string, line: int)
    requires name != "" && GetBreakpoint(s, name, file, line).Some?
    requires GetBreakpoint(s, name, file, line).value.state != BpState.Invalid && IsStarted(s, "")
    requires StrictlySorted(s.debuggers[name].breakpoints)
    requires |replies| > 0
    ensures var r := Debugger.RemoveBreakpoint(Begin(s, replies), name, file, line);
            var bp := GetBreakpoint(s, name, file, line).value;
            && r.status == Resolved && r.replies == replies[1..]
            && r.requests == [Request(s.debuggers[name].api.value, RemoveBreakpointCall(bp))]
            && name in r.store.debuggers
            && |r.store.debuggers[name].breakpoints| == |s.debuggers[name].breakpoints| - 1
            && IndexOf(r.store.debuggers[name].breakpoints, file, line) == -1
            && StrictlySorted(r.store.debuggers[name].breakpoints)
  {
    var r0 := Begin(s, replies);
    var bp := GetBreakpoint(s, name, file, line).value;
    var call := Request(s.debuggers[name].api.value, RemoveBreakpointCall(bp));
    var fin := if replies[0].Fail? then Breakpoint(file, line, BpState.Invalid, None, Some(replies[0].error))
               else Breakpoint(file, line, BpState.Removed, None, None);
    var l := if replies[0].Fail? then RemoveBreakpointFailed(file, line, replies[0].error)
             else RemovedBreakpoint(file, line);
    var busy := Action.RemoveBreakpoint(name, Breakpoint(file, line, BpState.Busy, None, None));
    var r2 := Dispatch(Log(r0, RemovingBreakpoint(file, line)), busy);
    var r3 := Issue(r2, s.debuggers[name].api.value, RemoveBreakpointCall(bp));
    assert r3 == r2.(requests := r2.requests + [call], replies := replies[1..]);
    var r := Dispatch(Log(r3, l), Action.RemoveBreakpoint(name, fin));
    assert Debugger.RemoveBreakpoint(r0, name, file, line) == r by {
      RemoveRemoteSteps(r0, name, file, line);
    }
    RemoveRemoteEffect(r0, name, file, line, fin, l, call, replies[1..]);
  }

  // ------------------------------------------------------------------ stop

  /** `stop` on a session that is not started does nothing. */
  lemma StopWhenNotStarted(s: StoreState, replies: seq<Reply>, name: string)
    requires !IsStarted(s, name)
    ensures Debugger.Stop(Begin(s, replies), name) == Begin(s, replies)
  {
  }

  /** `stop` on a started session calls the back-end's stop; once that
      succeeds STOP resets the session (every breakpoint back to notStarted,
      no threads or frames), and when it fails nothing is dispatched. With
      every live session stored under its own name, STOP goes to the session
      that was stopped whether it was named or selected. */
  lemma StopOutcome(s: StoreState, replies: seq<Reply>, name: string)
    requires IsStarted(s, name) && LiveNamed(s)
    requires |replies| > 0
    ensures var r := Debugger.Stop(Begin(s, replies), name);
            var k := ResolveName(s, name);
            && r.requests == [Request(s.debuggers[k].api.value, StopCall)]
            && r.replies == replies[1..]
            && (replies[0].Fail? ==> r.status == Rejected(replies[0].error) && r.actions == [] && r.store == s)
            && (replies[0].Fulfil? ==>
                  && r.status == Resolved && r.actions == [Action.Stop(k)]
                  && k in r.store.debuggers
                  && var d := r.store.debuggers[k];
                     && d.state == RunState.NotStarted && d.threads == [] && d.stacktrace == []
                     && |d.breakpoints| == |s.debuggers[k].breakpoints|
                     && (forall i :: 0 <= i < |d.breakpoints| ==>
                           d.breakpoints[i].state == BpState.NotStarted &&
                           d.breakpoints[i].file == s.debuggers[k].breakpoints[i].file &&
                           d.breakpoints[i].line == s.debuggers[k].breakpoints[i].line))
  {
    var r0 := Begin(s, replies);
    var k := ResolveName(s, name);
    var r1 := Issue(r0, s.debuggers[k].api.value, StopCall);
    if replies[0].Fulfil? {
      var r := Dispatch(r1, Action.Stop(k));
      assert Debugger.Stop(r0, name) == r;
      SessionDispatch(r1, Action.Stop(k));
      StopResetsSession(Lookup(s.debuggers, k), k);
    } else {
      assert Debugger.Stop(r0, name) == r1.(status := Rejected(replies[0].error));
    }
  }

  // ----------------------------------------------------------------- start

  /** The opening leaves the panel visible, the session starting and one
      start call issued. */
  lemma StartOpeningEffect(r: Run, name: string, config: Config, file: string, api: Api)
    requires r.status.Resolved?
    ensures var o := StartOpening(r, name, config, file, api);
            && o.status == Resolved && o.requests == r.requests + [Request(api, StartCall(config, file))]
            && o.replies == (if |r.replies| == 0 then [] else r.replies[1..])
            && Truthy(o.store.panel.visible)
            && name in o.store.debuggers
            && o.store.debuggers[name].state == RunState.Starting
            && o.store.selectedDebugger == r.store.selectedDebugger
            && (name in r.store.debuggers ==>
                  (o.store.debuggers[name].api == r.store.debuggers[name].api &&
                   o.store.debuggers[name].breakpoints == r.store.debuggers[name].breakpoints))
  {
    var r0 := if !Truthy(r.store.panel.visible) then Dispatch(r, TogglePanel(None)) else r;
    assert Truthy(r0.store.panel.visible);
    assert r0.store.debuggers == r.store.debuggers;
    var setState := SetState(name, RunState.Starting);
    SessionDispatch(r0, setState);
    ScopedKeepsIdentity(Lookup(r0.store.debuggers, name), setState);
    var r1 := Dispatch(r0, setState);
    LogEffect(r1, StartingDebugger(name, config.name));
  }

  /** When the back-end fails to start the selected session, `start` logs
      the failure and its `stop()` finds the session not started, so the
      session is left in state starting and no stop call is made; the
      returned promise resolves. */
  lemma StartFailureStaysStarting(s: StoreState, replies: seq<Reply>, name: string,
                                  config: Config, file: string)
    requires name == s.selectedDebugger && GetDebugger(s, name).Some?
    requires |replies| > 0 && replies[0].Fail?
    ensures var r := Start(Begin(s, replies), name, config, file);
            && r.status == Resolved
            && r.requests == [Request(s.debuggers[name].api.value, StartCall(config, file))]
            && name in r.store.debuggers
            && r.store.debuggers[name].state == RunState.Starting
            && Truthy(r.store.panel.visible)
  {
    var r0 := Begin(s, replies);
    var api := s.debuggers[name].api.value;
    var o := StartOpening(r0, name, config, file, api);
    StartOpeningEffect(r0, name, config, file, api);
    var msg := StartFailed(name, config.name, replies[0].error);
    var l := Log(o, msg);
    LogEffect(o, msg);
    assert !IsStarted(l.store, "");
    assert Start(r0, name, config, file) == StartFailure(o, name, config, replies[0].error);
  }

  /** Once the back-end has started a selected session with no breakpoints,
      nothing is replayed: the session is marked started and resumed. */
  lemma StartContinueWithoutBreakpoints(r: Run, name: string, config: Config, api: Api)
    requires r.status.Resolved? && r.replies == []
    requires name == r.store.selectedDebugger && name in r.store.debuggers
    requires r.store.debuggers[name].api == Some(api) && r.store.debuggers[name].breakpoints == []
    ensures var c := StartContinue(r, name, config);
            && c.status == Pending
            && c.requests == r.requests + [Request(api, ResumeCall)]
            && name in c.store.debuggers
            && c.store.debuggers[name].state == RunState.Started
            && c.store.panel == r.store.panel
  {
    var l := Log(r, StartedDebugger(name, config.name));
    LogEffect(r, StartedDebugger(name, config.name));
    var setState := SetState(name, RunState.Started);
    var r4 := Dispatch(l, setState);
    SessionDispatch(l, setState);
    ScopedKeepsIdentity(Lookup(l.store.debuggers, name), setState);
    assert GetDebugger(r4.store, "") == Some(r4.store.debuggers[name]);
    ReplayNothing(r4, name);
    StepUnanswered(r4, Resume);
    assert StartContinue(r, name, config) == Step(r4, Resume);
  }

  /** With no breakpoints stored for the session, the replay issues nothing. */
  lemma ReplayNothing(r: Run, name: string)
    requires r.status.Resolved? && GetBreakpoints(r.store, name, "") == []
    ensures Replay(r, name) == r
  {
  }

  /** A step the back-end never answers leaves the promise pending after the
      one call, with the store as it was. */
  lemma StepUnanswered(r: Run, k: StepKind)
    requires r.status.Resolved? && r.replies == [] && GetDebugger(r.store, "").Some?
    ensures var c := Step(r, k);
            && c.status == Pending && c.store == r.store
            && c.requests == r.requests + [Request(GetDebugger(r.store, "").value.api.value, StepCall(k))]
  {
  }

  /** Starting the selected session when it has no breakpoints and the
      back-end starts but never answers the resume: the session is started,
      the start and resume calls were made, and the promise stays pending. */
  lemma StartWithoutBreakpoints(s: StoreState, reply: Value, name: string,
                                config: Config, file: string)
    requires name == s.selectedDebugger && GetDebugger(s, name).Some?
    requires s.debuggers[name].breakpoints == []
    ensures var r := Start(Begin(s, [Fulfil(reply)]), name, config, file);
            var api := s.debuggers[name].api.value;
            && r.status == Pending
            && r.requests == [Request(api, StartCall(config, file)), Request(api, ResumeCall)]
            && name in r.store.debuggers
            && r.store.debuggers[name].state == RunState.Started
            && Truthy(r.store.panel.visible)
  {
    var r0 := Begin(s, [Fulfil(reply)]);
    var api := s.debuggers[name].api.value;
    StartResumeUnanswered(r0, name, config, file);
    AppendToEmpty(r0.requests, Request(api, StartCall(config, file)), Request(api, ResumeCall));
  }

  /** A start whose back-end call is answered but whose resume is not, for a
      selected session with no breakpoints: the start and resume calls are
      made, the session is started and the panel shown. */
  lemma StartResumeUnanswered(r: Run, name: string, config: Config, file: string)
    requires r.status.Resolved? && |r.replies| == 1 && r.replies[0].Fulfil?
    requires name == r.store.selectedDebugger && GetDebugger(r.store, name).Some?
    requires r.store.debuggers[name].breakpoints == []
    ensures var c := Start(r, name, config, file);
            var api := r.store.debuggers[name].api.value;
            && c.status == Pending
            && c.requests == (r.requests + [Request(api, StartCall(config, file))]) + [Request(api, ResumeCall)]
            && name in c.store.debuggers
            && c.store.debuggers[name].state == RunState.Started
            && Truthy(c.store.panel.visible)
  {
    var api := r.store.debuggers[name].api.value;
    var o := StartOpening(r, name, config, file, api);
    StartOpeningEffect(r, name, config, file, api);
    StartContinueWithoutBreakpoints(o, name, config, api);
    StartStarted(r, name, config, file);
  }

  // ------------------------------------------------------ threads & frames

  /** `getStacktrace` on the started selected session calls the back-end once
      and installs the returned frames, with variables carried over and the
      first frame selected. As written the session stays busy: the waiting
      state UPDATE_STACKTRACE carries is not read by any reducer. */
  lemma GetStacktraceOutcome(s: StoreState, replies: seq<Reply>, threadID: ThreadId, frames: seq<Frame>)
    requires IsStarted(s, "") && LiveNamed(s)
    requires |replies| > 0 && replies[0] == Fulfil(Stacktrace(frames))
    ensures var r := GetStacktrace(Begin(s, replies), threadID);
            var k := s.selectedDebugger;
            && r.status == Resolved && r.replies == replies[1..]
            && r.requests == [Request(s.debuggers[k].api.value, GetStacktraceCall(threadID))]
            && k in r.store.debuggers
            && r.store.debuggers[k].stacktrace == CarryForward(s.debuggers[k].stacktrace, frames)
            && r.store.debuggers[k].selectedStacktrace == 0
            && r.store.debuggers[k].state == RunState.Busy
  {
    var r0 := Begin(s, replies);
    var k := s.selectedDebugger;
    var busy := SetState(k, RunState.Busy);
    var r1 := Dispatch(r0, busy);
    SessionDispatch(r0, busy);
    var r2 := Issue(r1, s.debuggers[k].api.value, GetStacktraceCall(threadID));
    var upd := UpdateStacktrace(k, RunState.Waiting, frames);
    var r := Dispatch(r2, upd);
    assert GetStacktrace(r0, threadID) == r;
    UpdateStacktraceEffect(r2.store, k, RunState.Waiting, frames);
  }

  /** `getThreads` on the started selected session, once the back-end
      answers: one call, the session marked busy and the answered threads
      stored (kept when the answer carries none). */
  lemma GetThreadsEffect(r: Run, ts: Option<seq<Thread>>)
    requires r.status.Resolved? && IsStarted(r.store, "") && LiveNamed(r.store)
    requires |r.replies| > 0 && r.replies[0] == Fulfil(Threads(ts))
    ensures var g := GetThreads(r);
            var k := r.store.selectedDebugger;
            var d := r.store.debuggers[k];
            && g.status == Resolved && g.replies == r.replies[1..]
            && g.requests == r.requests + [Request(d.api.value, GetThreadsCall)]
            && g.store.selectedDebugger == k
            && g.store.debuggers == r.store.debuggers[k := d.(state := RunState.Busy, threads := ts.GetOr(d.threads))]
            && IsStarted(g.store, "") && LiveNamed(g.store)
  {
    var k := r.store.selectedDebugger;
    var d := r.store.debuggers[k];
    var busy := SetState(k, RunState.Busy);
    var r1 := Dispatch(r, busy);
    SessionDispatch(r, busy);
    var r2 := Issue(r1, d.api.value, GetThreadsCall);
    var upd := UpdateThreads(k, RunState.Waiting, ts);
    SessionDispatch(r2, upd);
    assert GetThreads(r) == Dispatch(r2, upd);
  }

  /** `getStacktrace` on the started selected session, once the back-end
      answers: one call, the session marked busy, the frames installed with
      variables carried over and the first frame selected. */
  lemma GetStacktraceEffect(r: Run, threadID: ThreadId, frames: seq<Frame>)
    requires r.status.Resolved? && IsStarted(r.store, "") && LiveNamed(r.store)
    requires |r.replies| > 0 && r.replies[0] == Fulfil(Stacktrace(frames))
    ensures var g := GetStacktrace(r, threadID);
            var k := r.store.selectedDebugger;
            var d := r.store.debuggers[k];
            && g.status == Resolved && g.replies == r.replies[1..]
            && g.requests == r.requests + [Request(d.api.value, GetStacktraceCall(threadID))]
            && g.store.selectedDebugger == k
            && g.store.debuggers == r.store.debuggers[k := d.(state := RunState.Busy,
                 stacktrace := CarryForward(d.stacktrace, frames), selectedStacktrace := 0)]
            && GetDebugger(g.store, "") == Some(g.store.debuggers[k])
  {
    var k := r.store.selectedDebugger;
    var d := r.store.debuggers[k];
    var busy := SetState(k, RunState.Busy);
    var r1 := Dispatch(r, busy);
    SessionDispatch(r, busy);
    var r2 := Issue(r1, d.api.value, GetStacktraceCall(threadID));
    var upd := UpdateStacktrace(k, RunState.Waiting, frames);
    SessionDispatch(r2, upd);
    assert GetStacktrace(r, threadID) == Dispatch(r2, upd);
  }

  /** `updateState` for a program that has not exited, when the reported
      thread is already selected: the threads are refreshed, then that
      thread's stacktrace is fetched, and the final `selectStacktrace(0)`
      finds frame 0 already selected, so exactly two calls are made. */
  lemma UpdateStateRefreshes(r: Run, threadID: ThreadId, ts: Option<seq<Thread>>, frames: seq<Frame>)
    requires r.status.Resolved? && IsStarted(r.store, "") && LiveNamed(r.store)
    requires r.store.debuggers[r.store.selectedDebugger].selectedThread == threadID
    requires |r.replies| > 1 && r.replies[0] == Fulfil(Threads(ts))
    requires r.replies[1] == Fulfil(Stacktrace(frames))
    ensures var u := UpdateState(r, false, threadID);
            var k := r.store.selectedDebugger;
            var d := r.store.debuggers[k];
            && u.status == Resolved && u.replies == r.replies[2..]
            && u.requests == r.requests + [Request(d.api.value, GetThreadsCall),
                                           Request(d.api.value, GetStacktraceCall(threadID))]
            && k in u.store.debuggers
            && u.store.debuggers[k].threads == ts.GetOr(d.threads)
            && u.store.debuggers[k].stacktrace == CarryForward(d.stacktrace, frames)
            && u.store.debuggers[k].selectedStacktrace == 0
  {
    var k := r.store.selectedDebugger;
    var d := r.store.debuggers[k];
    var g := GetThreads(r);
    GetThreadsEffect(r, ts);
    assert g.replies[0] == r.replies[1];
    var st := GetStacktrace(g, threadID);
    GetStacktraceEffect(g, threadID, frames);
    SelectCurrentThread(g, threadID);
    SelectCurrentStacktrace(st, 0);
    UpdateStateSteps(r, threadID);
    assert [Request(d.api.value, GetThreadsCall)] + [Request(d.api.value, GetStacktraceCall(threadID))]
        == [Request(d.api.value, GetThreadsCall), Request(d.api.value, GetStacktraceCall(threadID))];
  }

  /** `selectThread` of another thread on the started selected session,
      once the back-end confirms: the thread is recorded with the session
      waiting, then its stacktrace is fetched. */
  lemma SelectOtherThreadSteps(r: Run, id: ThreadId)
    requires r.status.Resolved? && IsStarted(r.store, "") && LiveNamed(r.store)
    requires r.store.debuggers[r.store.selectedDebugger].selectedThread != id
    requires |r.replies| > 0 && r.replies[0].Fulfil?
    ensures var k := r.store.selectedDebugger;
            var d := r.store.debuggers[k];
            var r3 := Dispatch(Issue(Dispatch(r, SetSelectedThread(k, RunState.Busy, id)), d.api.value, SelectThreadCall(id)),
                               SetSelectedThread(k, RunState.Waiting, id));
            && SelectThread(r, id) == GetStacktrace(r3, id)
            && r3.status == Resolved && r3.replies == r.replies[1..]
            && r3.requests == r.requests + [Request(d.api.value, SelectThreadCall(id))]
            && r3.store.selectedDebugger == k
            && r3.store.debuggers == r.store.debuggers[k := d.(state := RunState.Waiting, selectedThread := id)]
            && IsStarted(r3.store, "") && LiveNamed(r3.store)
  {
    var k := r.store.selectedDebugger;
    var d := r.store.debuggers[k];
    var a1 := SetSelectedThread(k, RunState.Busy, id);
    var r1 := Dispatch(r, a1);
    SessionDispatch(r, a1);
    var r2 := Issue(r1, d.api.value, SelectThreadCall(id));
    var a2 := SetSelectedThread(k, RunState.Waiting, id);
    var r3 := Dispatch(r2, a2);
    SessionDispatch(r2, a2);
    assert SelectThread(r, id) == GetStacktrace(r3, id);
  }

  /** `updateState` for a program that has not exited, when the reported
      thread is not the selected one: the threads are refreshed, the thread
      is selected on the back-end and its stacktrace fetched; the final
      `selectStacktrace(0)` finds frame 0 already selected, so exactly three
      calls are made. The session is left busy, since the `waiting` of
      UPDATE_STACKTRACE is not read. */
  lemma UpdateStateSwitchesThread(r: Run, threadID: ThreadId, ts: Option<seq<Thread>>, frames: seq<Frame>)
    requires r.status.Resolved? && IsStarted(r.store, "") && LiveNamed(r.store)
    requires r.store.debuggers[r.store.selectedDebugger].selectedThread != threadID
    requires |r.replies| > 2 && r.replies[0] == Fulfil(Threads(ts)) && r.replies[1].Fulfil?
    requires r.replies[2] == Fulfil(Stacktrace(frames))
    ensures var u := UpdateState(r, false, threadID);
            var k := r.store.selectedDebugger;
            var d := r.store.debuggers[k];
            && u.status == Resolved && u.replies == r.replies[3..]
            && u.requests == r.requests + [Request(d.api.value, GetThreadsCall),
                                           Request(d.api.value, SelectThreadCall(threadID)),
                                           Request(d.api.value, GetStacktraceCall(threadID))]
            && u.store.selectedDebugger == k && k in u.store.debuggers
            && u.store.debuggers[k].threads == ts.GetOr(d.threads)
            && u.store.debuggers[k].selectedThread == threadID
            && u.store.debuggers[k].stacktrace == CarryForward(d.stacktrace, frames)
            && u.store.debuggers[k].selectedStacktrace == 0
            && u.store.debuggers[k].state == RunState.Busy
  {
    var k := r.store.selectedDebugger;
    var d := r.store.debuggers[k];
    var api := d.api.value;
    var g := GetThreads(r);
    GetThreadsEffect(r, ts);
    SelectOtherThreadSteps(g, threadID);
    var r3 := Dispatch(Issue(Dispatch(g, SetSelectedThread(k, RunState.Busy, threadID)), api, SelectThreadCall(threadID)),
                       SetSelectedThread(k, RunState.Waiting, threadID));
    assert r3.replies[0] == r.replies[2];
    var st := GetStacktrace(r3, threadID);
    GetStacktraceEffect(r3, threadID, frames);
    SelectCurrentStacktrace(st, 0);
    UpdateStateSteps(r, threadID);
    assert ((r.requests + [Request(api, GetThreadsCall)]) + [Request(api, SelectThreadCall(threadID))])
             + [Request(api, GetStacktraceCall(threadID))]
        == r.requests + [Request(api, GetThreadsCall), Request(api, SelectThreadCall(threadID)),
                         Request(api, GetStacktraceCall(threadID))];
  }

  /** An `undefined` answer to getThreads acts as an answer without threads:
      the reducer's `action.threads || state` keeps the old ones. */
  lemma GetThreadsUndefined(r: Run)
    requires r.status.Resolved? && IsStarted(r.store, "")
    requires |r.replies| > 0 && r.replies[0] == Fulfil(Done)
    ensures GetThreads(r) == GetThreads(r.(replies := [Fulfil(Threads(None))] + r.replies[1..]))
  {
    TailOfCons(Fulfil(Threads(None)), r.replies[1..]);
  }

  /** `updateState` for a program that has not exited chains its three
      steps, each one starting only when the previous one resolved. */
  lemma UpdateStateSteps(r: Run, threadID: ThreadId)
    requires r.status.Resolved? && GetThreads(r).status.Resolved?
    requires SelectThread(GetThreads(r), threadID).status.Resolved?
    ensures UpdateState(r, false, threadID) == SelectStacktrace(SelectThread(GetThreads(r), threadID), 0)
  {
  }

  /** `selectThread` of the thread already selected only fetches its stacktrace. */
  lemma SelectCurrentThread(r: Run, id: ThreadId)
    requires r.status.Resolved? && IsStarted(r.store, "")
    requires r.store.debuggers[r.store.selectedDebugger].selectedThread == id
    ensures SelectThread(r, id) == GetStacktrace(r, id)
  {
  }

  /** `selectStacktrace` of the frame already selected does nothing. */
  lemma SelectCurrentStacktrace(r: Run, index: int)
    requires r.status.Resolved? && GetDebugger(r.store, "").Some?
    requires GetDebugger(r.store, "").value.selectedStacktrace == index
    ensures SelectStacktrace(r, index) == r
  {
  }

  /** Reselecting the current thread makes no back-end selection: the only
      call is the stacktrace fetch. */
  lemma SelectSameThread(s: StoreState, replies: seq<Reply>, id: ThreadId)
    requires IsStarted(s, "") && s.debuggers[s.selectedDebugger].selectedThread == id
    ensures var r := SelectThread(Begin(s, replies), id);
            r.requests == [Request(s.debuggers[s.selectedDebugger].api.value, GetStacktraceCall(id))]
  {
    var r0 := Begin(s, replies);
    assert SelectThread(r0, id) == GetStacktrace(r0, id);
  }

  /** Selecting a different thread makes the back-end selection first and
      then fetches that thread's stacktrace. */
  lemma SelectOtherThread(s: StoreState, replies: seq<Reply>, id: ThreadId)
    requires IsStarted(s, "") && LiveNamed(s)
    requires s.debuggers[s.selectedDebugger].selectedThread != id
    requires |replies| > 0 && replies[0].Fulfil?
    ensures var r := SelectThread(Begin(s, replies), id);
            var api := s.debuggers[s.selectedDebugger].api.value;
            && |r.requests| == 2
            && r.requests[0] == Request(api, SelectThreadCall(id))
            && r.requests[1] == Request(api, GetStacktraceCall(id))
  {
    var r0 := Begin(s, replies);
    var k := s.selectedDebugger;
    var api := s.debuggers[k].api.value;
    var a1 := SetSelectedThread(k, RunState.Busy, id);
    var r1 := Dispatch(r0, a1);
    SessionDispatch(r0, a1);
    ScopedKeepsIdentity(Lookup(r0.store.debuggers, k), a1);
    var r2 := Issue(r1, api, SelectThreadCall(id));
    var a2 := SetSelectedThread(k, RunState.Waiting, id);
    var r3 := Dispatch(r2, a2);
    SessionDispatch(r2, a2);
    ScopedKeepsIdentity(Lookup(r2.store.debuggers, k), a2);
    assert SelectThread(r0, id) == GetStacktrace(r3, id);
    assert IsStarted(r3.store, "") by {
      assert r3.store.debuggers[k].state == RunState.Waiting;
    }
    assert GetDebugger(r3.store, "") == Some(r3.store.debuggers[k]);
    assert GetStacktrace(r3, id).requests == r3.requests + [Request(api, GetStacktraceCall(id))];
  }

  /** Reselecting the current frame does nothing. */
  lemma SelectSameStacktrace(s: StoreState, replies: seq<Reply>, index: int)
    requires GetDebugger(s, "").Some? && GetDebugger(s, "").value.selectedStacktrace == index
    ensures SelectStacktrace(Begin(s, replies), index) == Begin(s, replies)
  {
  }

  /** Selecting another frame calls the back-end and, once it answers,
      records the selection on the selected session. As written the first
      dispatch carries no name, so it lands on (and creates) the session
      keyed "undefined". */
  lemma SelectOtherStacktrace(s: StoreState, replies: seq<Reply>, index: int)
    requires GetDebugger(s, "").Some? && GetDebugger(s, "").value.selectedStacktrace != index
    requires LiveNamed(s) && s.selectedDebugger != UndefinedKey
    requires |replies| > 0 && replies[0].Fulfil?
    ensures var r := SelectStacktrace(Begin(s, replies), index);
            var k := s.selectedDebugger;
            && r.status == Resolved
            && r.requests == [Request(s.debuggers[k].api.value, SelectStacktraceCall(index))]
            && k in r.store.debuggers && UndefinedKey in r.store.debuggers
            && r.store.debuggers[k].selectedStacktrace == index
            && r.store.debuggers[k].state == s.debuggers[k].state
            && r.store.debuggers[UndefinedKey].selectedStacktrace == index
  {
    var r0 := Begin(s, replies);
    var k := s.selectedDebugger;
    var a1 := SetSelectedStacktrace(UndefinedKey, RunState.Busy, index);
    var r1 := Dispatch(r0, a1);
    SessionDispatch(r0, a1);
    StateKeyIgnored(Lookup(r0.store.debuggers, UndefinedKey), a1);
    var r2 := Issue(r1, s.debuggers[k].api.value, SelectStacktraceCall(index));
    var a2 := SetSelectedStacktrace(k, RunState.Waiting, index);
    var r := Dispatch(r2, a2);
    SessionDispatch(r2, a2);
    StateKeyIgnored(Lookup(r2.store.debuggers, k), a2);
    assert SelectStacktrace(r0, index) == r;
  }

  /** An `undefined` answer to loadVariable acts as an empty variable map,
      which `assign` skips in the same way. */
  lemma LoadVariableUndefined(r: Run, path: string, variable: Variable)
    requires r.status.Resolved? && GetDebugger(r.store, "").Some?
    requires |r.replies| > 0 && r.replies[0] == Fulfil(Done)
    ensures LoadVariable(r, path, variable) ==
            LoadVariable(r.(replies := [Fulfil(Variables(map[]))] + r.replies[1..]), path, variable)
  {
    TailOfCons(Fulfil(Variables(map[])), r.replies[1..]);
  }

  /** `loadVariable` merges the answer into the frame that was selected when
      it was called. It rejects with a TypeError exactly when that frame does
      not exist, or a path is given and the frame has no variables yet; on
      success only that frame changes, and (as written) the session stays
      busy because UPDATE_VARIABLES's state is not read. */
  lemma LoadVariableOutcome(s: StoreState, replies: seq<Reply>, path: string, variable: Variable,
                            vars: VarMap)
    requires GetDebugger(s, "").Some? && LiveNamed(s)
    requires |replies| > 0 && replies[0] == Fulfil(Variables(vars))
    ensures var r := LoadVariable(Begin(s, replies), path, variable);
            var d := s.debuggers[s.selectedDebugger];
            var i := d.selectedStacktrace;
            && r.requests == [Request(d.api.value, LoadVariableCall(path, variable))]
            && (r.status == Resolved <==>
                  0 <= i < |d.stacktrace| && (path == "" || d.stacktrace[i].variables.Some?))
            && (r.status != Resolved ==> r.status == Rejected(TypeError))
  {
    LoadVariableSteps(s, replies, path, variable, vars);
    var r0 := Begin(s, replies);
    var k := s.selectedDebugger;
    var upd := UpdateVariables(k, RunState.Waiting, path, vars, s.debuggers[k].selectedStacktrace);
    var r2 := Issue(Dispatch(r0, SetState(k, RunState.Busy)), s.debuggers[k].api.value, LoadVariableCall(path, variable));
    assert Lookup(r2.store.debuggers, k) == s.debuggers[k].(state := RunState.Busy);
    UpdateVariablesTouchesOneFrame(r2.store, k, RunState.Waiting, path, vars, s.debuggers[k].selectedStacktrace);
  }

  /** The command unfolded: mark the session busy, issue the call, dispatch
      the returned variables. */
  lemma LoadVariableSteps(s: StoreState, replies: seq<Reply>, path: string, variable: Variable,
                          vars: VarMap)
    requires GetDebugger(s, "").Some? && LiveNamed(s)
    requires |replies| > 0 && replies[0] == Fulfil(Variables(vars))
    ensures var k := s.selectedDebugger;
            var d := s.debuggers[k];
            var r2 := Issue(Dispatch(Begin(s, replies), SetState(k, RunState.Busy)), d.api.value,
                            LoadVariableCall(path, variable));
            && r2.status == Resolved && r2.requests == [Request(d.api.value, LoadVariableCall(path, variable))]
            && k in r2.store.debuggers && r2.store.debuggers[k] == d.(state := RunState.Busy)
            && LoadVariable(Begin(s, replies), path, variable)
               == Dispatch(r2, UpdateVariables(k, RunState.Waiting, path, vars, d.selectedStacktrace))
  {
    var r0 := Begin(s, replies);
    var k := s.selectedDebugger;
    var d := s.debuggers[k];
    var busy := SetState(k, RunState.Busy);
    SessionDispatch(r0, busy);
  }

  /** When the reply can be stored, the selected frame receives every returned
      variable, the other frames are untouched, and the session stays busy:
      the command dispatches no state change after the reply. */
  lemma LoadVariableFills(s: StoreState, replies: seq<Reply>, path: string, variable: Variable,
                          vars: VarMap)
    requires GetDebugger(s, "").Some? && LiveNamed(s)
    requires |replies| > 0 && replies[0] == Fulfil(Variables(vars))
    requires var d := s.debuggers[s.selectedDebugger];
             0 <= d.selectedStacktrace < |d.stacktrace|
             && (path == "" || d.stacktrace[d.selectedStacktrace].variables.Some?)
    ensures var r := LoadVariable(Begin(s, replies), path, variable);
            var k := s.selectedDebugger;
            var d := s.debuggers[k];
            var i := d.selectedStacktrace;
            && r.status == Resolved
            && k in r.store.debuggers
            && var after := r.store.debuggers[k];
               && after.state == RunState.Busy
               && |after.stacktrace| == |d.stacktrace|
               && (forall j :: 0 <= j < |d.stacktrace| && j != i ==> after.stacktrace[j] == d.stacktrace[j])
               && after.stacktrace[i].variables.Some?
               && (forall n :: n in vars ==>
                     n in after.stacktrace[i].variables.value &&
                     after.stacktrace[i].variables.value[n] == vars[n])
  {
    LoadVariableSteps(s, replies, path, variable, vars);
    var r0 := Begin(s, replies);
    var k := s.selectedDebugger;
    var r2 := Issue(Dispatch(r0, SetState(k, RunState.Busy)), s.debuggers[k].api.value, LoadVariableCall(path, variable));
    assert Lookup(r2.store.debuggers, k) == s.debuggers[k].(state := RunState.Busy);
    UpdateVariablesTouchesOneFrame(r2.store, k, RunState.Waiting, path, vars, s.debuggers[k].selectedStacktrace);
    var upd := UpdateVariables(k, RunState.Waiting, path, vars, s.debuggers[k].selectedStacktrace);
    assert Dispatch(r2, upd).store == Reduce(r2.store, upd).value;
  }

  // ------------------------------------------------------------ execution

  /** A step the back-end refuses rejects with its error after the one call,
      changing nothing in the store. */
  lemma StepRefused(s: StoreState, replies: seq<Reply>, k: StepKind)
    requires GetDebugger(s, "").Some?
    requires |replies| > 0 && replies[0].Fail?
    ensures var r := Step(Begin(s, replies), k);
            && r.status == Rejected(replies[0].error)
            && r.requests == [Request(s.debuggers[s.selectedDebugger].api.value, StepCall(k))]
            && r.store == s && r.actions == []
  {
  }

  /** A step after which the program has exited stops the session: the
      back-end's stop is called next and, once it answers, the session is
      reset to notStarted. */
  lemma StepExited(s: StoreState, replies: seq<Reply>, k: StepKind, threadID: ThreadId)
    requires IsStarted(s, "") && LiveNamed(s)
    requires |replies| > 1 && replies[0] == Fulfil(ExecState(true, threadID)) && replies[1].Fulfil?
    ensures var r := Step(Begin(s, replies), k);
            var n := s.selectedDebugger;
            var api := s.debuggers[n].api.value;
            && r.status == Resolved
            && r.requests == [Request(api, StepCall(k)), Request(api, StopCall)]
            && n in r.store.debuggers
            && r.store.debuggers[n].state == RunState.NotStarted
            && r.store.debuggers[n].threads == [] && r.store.debuggers[n].stacktrace == []
  {
    var r0 := Begin(s, replies);
    var n := s.selectedDebugger;
    var api := s.debuggers[n].api.value;
    var r1 := Issue(r0, api, StepCall(k));
    assert Step(r0, k) == Debugger.Stop(r1, "");
    var r2 := Issue(r1, api, StopCall);
    var r := Dispatch(r2, Action.Stop(n));
    assert Debugger.Stop(r1, "") == r;
    SessionDispatch(r2, Action.Stop(n));
    StopResetsSession(Lookup(s.debuggers, n), n);
  }

  /** `restart` on the started selected session: after the back-end restarts
      it, RESTART clears threads and frames and marks it started, and a resume
      is issued that the returned promise does not wait for. */
  lemma RestartOutcome(s: StoreState, v: Value)
    requires IsStarted(s, "") && LiveNamed(s)
    ensures var r := Debugger.Restart(Begin(s, [Fulfil(v)]));
            var n := s.selectedDebugger;
            var api := s.debuggers[n].api.value;
            && r.status == Resolved
            && r.requests == [Request(api, RestartCall), Request(api, ResumeCall)]
            && n in r.store.debuggers
            && r.store.debuggers[n].state == RunState.Started
            && r.store.debuggers[n].threads == [] && r.store.debuggers[n].stacktrace == []
            && r.store.debuggers[n].breakpoints == s.debuggers[n].breakpoints
  {
    var r0 := Begin(s, [Fulfil(v)]);
    var n := s.selectedDebugger;
    var api := s.debuggers[n].api.value;
    var r1 := Issue(r0, api, RestartCall);
    var r2 := Dispatch(r1, Action.Restart(n));
    SessionDispatch(r1, Action.Restart(n));
    RestartClearsSession(Lookup(s.debuggers, n), n);
    assert GetDebugger(r2.store, "") == Some(r2.store.debuggers[n]);
    var r3 := Issue(r2, api, ResumeCall).(status := Pending);
    assert Step(r2, Resume) == r3;
    assert Debugger.Restart(r0) == r3.(status := Resolved);
  }

  // ---------------------------------------------------------------- replay

  /** No breakpoint of `b` that sits at one of the locations of `bps` is busy. */
  predicate NoneBusyAt(b: seq<Breakpoint>, bps: seq<Breakpoint>) {
    forall j, i :: 0 <= j < |b| && 0 <= i < |bps| && b[j].state == BpState.Busy ==>
      !At(b[j], bps[i].file, bps[i].line)
  }

  /** ADD_BREAKPOINT changes only a session's breakpoints. */
  lemma AddKeepsSession(s: Session, a: Action)
    requires a.AddBreakpoint?
    ensures Provider(s, a).value == s.(breakpoints := BreakpointsReducer(s.breakpoints, a))
  {
  }

  /** A busy ADD_BREAKPOINT at one location leaves the other locations'
      entries as un-busy as they were. */
  lemma AddKeepsNoneBusy(b: seq<Breakpoint>, n: string, file: string, line: int, rest: seq<Breakpoint>)
    requires NoneBusyAt(b, rest)
    requires forall i :: 0 <= i < |rest| ==> !At(rest[i], file, line)
    ensures NoneBusyAt(BreakpointsReducer(b, Action.AddBreakpoint(n, Breakpoint(file, line, BpState.Busy, None, None))), rest)
  {
    var bp := Breakpoint(file, line, BpState.Busy, None, None);
    var b2 := BreakpointsReducer(b, Action.AddBreakpoint(n, bp));
    AddBreakpointTouchesItsLocation(b, n, bp);
    forall j, i | 0 <= j < |b2| && 0 <= i < |rest| && b2[j].state == BpState.Busy
      ensures !At(b2[j], rest[i].file, rest[i].line)
    {
      assert b2[j] in b2;
      if !At(b2[j], file, line) {
        var j' :| 0 <= j' < |b| && b[j'] == b2[j];
      }
    }
  }

  /** Splitting a list of locations into its head and tail. */
  lemma SplitLocations(b: seq<Breakpoint>, bps: seq<Breakpoint>)
    requires |bps| > 0 && NoneBusyAt(b, bps) && UniqueLocations(bps)
    ensures NoneBusyAt(b, [bps[0]]) && NoneBusyAt(b, bps[1..]) && UniqueLocations(bps[1..])
    ensures forall i :: 0 <= i < |bps| - 1 ==> !At(bps[1..][i], bps[0].file, bps[0].line)
  {
    var rest := bps[1..];
    forall j, i | 0 <= j < |b| && 0 <= i < |rest| && b[j].state == BpState.Busy
      ensures !At(b[j], rest[i].file, rest[i].line)
    {
      assert rest[i] == bps[i + 1];
    }
    forall i | 0 <= i < |rest| ensures !At(rest[i], bps[0].file, bps[0].line) {
      assert rest[i] == bps[i + 1];
    }
    forall i, j | 0 <= i < j < |rest| ensures !At(rest[i], rest[j].file, rest[j].line) {
      assert rest[i] == bps[i + 1] && rest[j] == bps[j + 1];
    }
  }

  /** One call per listed location, in order, appended to `q`. */
  predicate AddCallsAppended(q: seq<Request>, q': seq<Request>, api: Api, bps: seq<Breakpoint>) {
    && |q'| == |q| + |bps|
    && q'[..|q|] == q
    && (forall i :: 0 <= i < |bps| ==> q'[|q| + i] == Request(api, AddBreakpointCall(bps[i].file, bps[i].line)))
  }

  lemma AddCallsCons(q0: seq<Request>, q1: seq<Request>, q2: seq<Request>, api: Api, bps: seq<Breakpoint>)
    requires |bps| > 0
    requires q1 == q0 + [Request(api, AddBreakpointCall(bps[0].file, bps[0].line))]
    requires AddCallsAppended(q1, q2, api, bps[1..])
    ensures AddCallsAppended(q0, q2, api, bps)
  {
    forall i | 0 <= i < |bps|
      ensures q2[|q0| + i] == Request(api, AddBreakpointCall(bps[i].file, bps[i].line))
    {
      if i > 0 {
        assert q2[|q1| + (i - 1)] == Request(api, AddBreakpointCall(bps[1..][i - 1].file, bps[1..][i - 1].line));
      } else {
        assert q2[|q0|] == q2[..|q1|][|q0|];
      }
    }
    assert q2[..|q0|] == q2[..|q1|][..|q0|];
  }

  /** One replayed `addBreakpoint`, while the selected session is started and
      the location is not busy: it issues the back-end call and leaves every
      other location of `rest` as un-busy as it was. */
  lemma ReplayIssueStep(r: Run, name: string, bp: Breakpoint, rest: seq<Breakpoint>)
    requires r.status.Resolved? && IsStarted(r.store, "") && name != "" && GetDebugger(r.store, name).Some?
    requires NoneBusyAt(r.store.debuggers[name].breakpoints, [bp])
    requires NoneBusyAt(r.store.debuggers[name].breakpoints, rest)
    requires forall i :: 0 <= i < |rest| ==> !At(rest[i], bp.file, bp.line)
    ensures var out := AddBreakpointIssue(r, name, bp.file, bp.line);
            var r1 := out.0;
            && r1.status.Resolved? && out.1 == Some(PendingAdd(bp.file, bp.line, NextReply(r)))
            && r1.requests == r.requests + [Request(r.store.debuggers[name].api.value,
                                                    AddBreakpointCall(bp.file, bp.line))]
            && r1.replies == (if |r.replies| == 0 then [] else r.replies[1..])
            && IsStarted(r1.store, "") && GetDebugger(r1.store, name).Some?
            && r1.store.debuggers[name].api == r.store.debuggers[name].api
            && NoneBusyAt(r1.store.debuggers[name].breakpoints, rest)
  {
    var b := r.store.debuggers[name].breakpoints;
    assert GetBreakpoint(r.store, name, bp.file, bp.line).None? ||
           GetBreakpoint(r.store, name, bp.file, bp.line).value.state != BpState.Busy by {
      if GetBreakpoint(r.store, name, bp.file, bp.line).Some? {
        var j := IndexOf(b, bp.file, bp.line);
        assert [bp][0] == bp;
      }
    }
    var r1 := Log(r, AddingBreakpoint(bp.file, bp.line));
    LogEffect(r, AddingBreakpoint(bp.file, bp.line));
    var add := Action.AddBreakpoint(name, Breakpoint(bp.file, bp.line, BpState.Busy, None, None));
    var r2 := Dispatch(r1, add);
    SessionDispatch(r1, add);
    AddKeepsSession(Lookup(r1.store.debuggers, name), add);
    AddKeepsNoneBusy(r.store.debuggers[name].breakpoints, name, bp.file, bp.line, rest);
    assert GetDebugger(r2.store, name) == Some(r2.store.debuggers[name]);
    assert AddBreakpointIssue(r, name, bp.file, bp.line) ==
           (Issue(r2, r.store.debuggers[name].api.value, AddBreakpointCall(bp.file, bp.line)),
            Some(PendingAdd(bp.file, bp.line, NextReply(r2))));
  }

  /** The synchronous half of the replay in `start`: while the selected
      session is started, every listed breakpoint whose location is not busy
      gets one back-end addBreakpoint call, in list order. */
  lemma {:induction false} ReplayIssuesEveryBreakpoint(r: Run, name: string, bps: seq<Breakpoint>)
    requires r.status.Resolved? && IsStarted(r.store, "") && name != "" && GetDebugger(r.store, name).Some?
    requires NoneBusyAt(r.store.debuggers[name].breakpoints, bps)
    requires UniqueLocations(bps)
    ensures var out := ReplayIssue(r, name, bps);
            && out.0.status.Resolved? && |out.1| == |bps|
            && AddCallsAppended(r.requests, out.0.requests, r.store.debuggers[name].api.value, bps)
    decreases |bps|
  {
    if |bps| > 0 {
      SplitLocations(r.store.debuggers[name].breakpoints, bps);
      ReplayIssueStep(r, name, bps[0], bps[1..]);
      var (r1, p) := AddBreakpointIssue(r, name, bps[0].file, bps[0].line);
      ReplayIssuesEveryBreakpoint(r1, name, bps[1..]);
      var (r2, ps) := ReplayIssue(r1, name, bps[1..]);
      assert ReplayIssue(r, name, bps) == (r2, [p.value] + ps);
      AddCallsCons(r.requests, r1.requests, r2.requests, r.store.debuggers[name].api.value, bps);
    } else {
      assert r.requests[..|r.requests|] == r.requests;
    }
  }

  /** The replay in `start`, while the selected session is started and none
      of the named session's breakpoints is busy: one back-end addBreakpoint
      call per stored breakpoint, in the stored order; the replay then
      resolves, or stays pending when an answer never comes. */
  lemma ReplayReissuesStoredBreakpoints(r: Run, name: string)
    requires r.status.Resolved? && IsStarted(r.store, "") && name != "" && GetDebugger(r.store, name).Some?
    requires StrictlySorted(r.store.debuggers[name].breakpoints)
    requires forall j :: 0 <= j < |r.store.debuggers[name].breakpoints| ==>
               r.store.debuggers[name].breakpoints[j].state != BpState.Busy
    ensures var out := Replay(r, name);
            && (out.status.Resolved? || out.status.Pending?)
            && AddCallsAppended(r.requests, out.requests, r.store.debuggers[name].api.value,
                                r.store.debuggers[name].breakpoints)
  {
    var b := r.store.debuggers[name].breakpoints;
    assert GetBreakpoints(r.store, name, "") == b;
    StrictlySortedIsSortedAndUnique(b);
    ReplayIssuesEveryBreakpoint(r, name, b);
  }

  /** Whatever follows the replay in `start` only appends calls. */
  lemma StartContinueKeepsReplay(r: Run, name: string, config: Config)
    requires r.status.Resolved?
    ensures var r1 := Dispatch(Log(r, StartedDebugger(name, config.name)), SetState(name, RunState.Started));
            r1.status.Resolved? && Replay(r1, name).requests <= StartContinue(r, name, config).requests
  {
    var r1 := Dispatch(Log(r, StartedDebugger(name, config.name)), SetState(name, RunState.Started));
    var r2 := Replay(r1, name);
    match r2.status
    case Pending =>
    case Rejected(e) =>
      assert StartContinue(r, name, config) == StartFailure(r2.(status := Resolved), name, config, e);
    case Resolved =>
      var r3 := Step(r2, Resume);
      if r3.status.Rejected? {
        assert StartContinue(r, name, config) == StartFailure(r3.(status := Resolved), name, config, r3.status.error);
      }
  }

  /** Once the back-end has started the session, `start` goes on with its
      continuation. */
  lemma StartStarted(r: Run, name: string, config: Config, file: string)
    requires r.status.Resolved? && GetDebugger(r.store, name).Some?
    requires |r.replies| > 0 && r.replies[0].Fulfil?
    ensures Start(r, name, config, file) ==
            StartContinue(StartOpening(r, name, config, file, GetDebugger(r.store, name).value.api.value), name, config)
  {
  }

  /** A first call followed by the replayed calls, kept at the front of a
      longer call list. */
  lemma CallsAfterFirst(first: Request, q2: seq<Request>, q: seq<Request>, api: Api, b: seq<Breakpoint>)
    requires AddCallsAppended([first], q2, api, b) && q2 <= q
    ensures |q| >= 1 + |b| && q[0] == first
    ensures forall i :: 0 <= i < |b| ==> q[1 + i] == Request(api, AddBreakpointCall(b[i].file, b[i].line))
  {
    assert q[..|q2|] == q2;
    assert q2[..1] == [first];
    forall i | 0 <= i < |b| ensures q[1 + i] == Request(api, AddBreakpointCall(b[i].file, b[i].line)) {
      assert q[1 + i] == q2[1 + i];
    }
    assert q[0] == q2[0] == q2[..1][0];
  }

  /** Starting the selected session, once the back-end has started it, calls
      the back-end's start first and then re-adds every stored breakpoint in
      order (provided none is busy), whatever happens after. */
  lemma StartReplaysStoredBreakpoints(s: StoreState, replies: seq<Reply>, name: string,
                                      config: Config, file: string)
    requires name == s.selectedDebugger && name != "" && GetDebugger(s, name).Some?
    requires StrictlySorted(s.debuggers[name].breakpoints)
    requires forall j :: 0 <= j < |s.debuggers[name].breakpoints| ==>
               s.debuggers[name].breakpoints[j].state != BpState.Busy
    requires |replies| > 0 && replies[0].Fulfil?
    ensures var r := Start(Begin(s, replies), name, config, file);
            var b := s.debuggers[name].breakpoints;
            var api := s.debuggers[name].api.value;
            && |r.requests| >= 1 + |b|
            && r.requests[0] == Request(api, StartCall(config, file))
            && (forall i :: 0 <= i < |b| ==>
                  r.requests[1 + i] == Request(api, AddBreakpointCall(b[i].file, b[i].line)))
  {
    var r0 := Begin(s, replies);
    var b := s.debuggers[name].breakpoints;
    var api := s.debuggers[name].api.value;
    var o := StartOpening(r0, name, config, file, api);
    StartOpeningEffect(r0, name, config, file, api);
    var l := Log(o, StartedDebugger(name, config.name));
    LogEffect(o, StartedDebugger(name, config.name));
    var setState := SetState(name, RunState.Started);
    var r1 := Dispatch(l, setState);
    SessionDispatch(l, setState);
    assert r1.store.debuggers[name] == o.store.debuggers[name].(state := RunState.Started);
    assert GetDebugger(r1.store, name) == Some(r1.store.debuggers[name]);
    ReplayReissuesStoredBreakpoints(r1, name);
    StartContinueKeepsReplay(o, name, config);
    StartStarted(r0, name, config, file);
    CallsAfterFirst(Request(api, StartCall(config, file)), Replay(r1, name).requests,
                    Start(r0, name, config, file).requests, api, b);
  }
}
