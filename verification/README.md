# Debugger session core in Dafny

This project models the session logic of an editor debugger front-end in two layers.

- **The state store** (`lib/store.js`). Every reducer is a pure function from the old state and an action to the new state:
  - the per-session record combined by `provider` (stacktrace, threads, breakpoints, state, selections, name, scopes, configs, back-end `api`);
  - the `debuggers` map from session name to record;
  - the global `panel`, `output`, `variables` and `selectedDebugger` state.

  The read helpers `getDebuggers`, `getDebugger`, `indexOfBreakpoint`, `getBreakpoints` and `getBreakpoint` are modelled, and so is the persisted form produced by `serialize`.
- **The command layer** (`lib/debugger.js`). Each command is a function of the store and the back-end's answers. It yields:
  - the actions dispatched;
  - the back-end calls issued, in order;
  - the resulting store;
  - how the returned promise settles: resolved, rejected with an error, or pending when an answer never comes.

  The commands modelled are `start`, `stop`, `addBreakpoint`, `removeBreakpoint`, `resume`/`next`/`stepIn`/`stepOut` with `updateState`, `restart`, `selectStacktrace`, `selectThread`, `getStacktrace`, `getThreads`, `loadVariable` and `isStarted`. Back-end answers are consumed in the order the calls are issued.

The model follows the code as written, including paths that differ from what the comments suggest:
- A failed removal dispatches an `invalid` REMOVE_BREAKPOINT, and the reducer deletes the entry anyway.
- A failed `start` of the selected session leaves it in `starting`, because the no-name `stop()` reads the selected session, which is not started.
- Session-scoped actions naming an unknown session create a default entry for it.
- `selectStacktrace` first dispatches to the session keyed `"undefined"`.
- The `state` key of UPDATE_STACKTRACE, UPDATE_THREADS, UPDATE_VARIABLES and SET_SELECTED_STACKTRACE is ignored.
- `addBreakpoint`, `removeBreakpoint` and `restart` check whether the *selected* session is started, not the named one. `resume`, `next`, `stepIn` and `stepOut` make no started check at all.
- An `addBreakpoint` answer of `undefined` logs "Added", then throws when its `id` is read, so the catch logs the failure and marks the entry `invalid`.

Modules:
- `Util`: `Option`, `Result`, the `updateArrayItem` slice rule.
- `Order`: the file-name order.
- `Breakpoints`: lookup, merge and the sorted insertion.
- `Frames`: carrying variables forward, loading variables.
- `Actions`: the action union.
- `Store`: reducers and helpers.
- `StoreProps`: properties of the reducers.
- `Debugger`: the commands.
- `DebuggerProps`: properties of the commands.

## Model

| member | source | states |
|---|---|---|
| Util.UpdateArrayItem | lib/store.js:7-12 | At a found index, only that element is replaced and the length is kept. At index -1, JavaScript's negative slice yields all but the last element, the item, then the whole array again. |
| Order.StrLessIrreflexive | lib/store.js:62-65 | No file name sorts before itself. |
| Order.StrLessTransitive | lib/store.js:62-65 | The file-name order is transitive. |
| Order.StrLessTotal | lib/store.js:62-65 | Any two distinct file names are ordered one way or the other. |
| Order.StrLessAsymmetric | lib/store.js:62-65 | The file-name order is asymmetric. |
| Breakpoints.BeforeTransitive | lib/store.js:62-65 | The (file, line) comparator is transitive. |
| Breakpoints.BeforeIrreflexive | lib/store.js:62-65 | A breakpoint never sorts before one at its own location. |
| Breakpoints.BeforeAsymmetric | lib/store.js:62-65 | The (file, line) comparator is asymmetric. |
| Breakpoints.BeforeTotal | lib/store.js:62-65 | Two breakpoints are at the same location or ordered one way or the other. |
| Breakpoints.NotBeforeTransitive | lib/store.js:62-65 | "Does not sort before" is transitive, as a stable sort needs. |
| Breakpoints.StrictlySortedIsSortedAndUnique | lib/store.js:60-67 | A strictly sorted list is sorted and holds each location at most once. |
| Breakpoints.IndexOf | lib/store.js:357-359 | Returns the first index whose file and line match, or -1 exactly when none matches. |
| Breakpoints.InsertPermutes | lib/store.js:62-65 | Insertion adds exactly the new element: the multiset grows by it and the length by one. |
| Breakpoints.InsertSorted | lib/store.js:62-65 | Inserting into a sorted list keeps it sorted. |
| Breakpoints.InsertStrictlySorted | lib/store.js:60-66 | Inserting a new location into a strictly sorted list keeps it strictly sorted. |
| Breakpoints.SortOfSorted | lib/store.js:62-65 | The stable sort leaves an already sorted list unchanged. |
| Breakpoints.SortSortsAndPermutes | lib/store.js:62-65 | The sort returns a sorted permutation of its input. |
| Breakpoints.RemoveAt | lib/store.js:71 | Deleting one index keeps the elements before it and shifts the ones after it down by one. |
| Breakpoints.Project | lib/store.js:315-322 | Each breakpoint is projected to its `{file, line}` in the same order. |
| Frames.FrameIndex | lib/store.js:23 | Returns the first frame with the id, or -1 exactly when none has it. |
| Frames.CarryForward | lib/store.js:20-28 | Each new frame is kept except for its variables. A frame without variables takes those of the first old frame with its id, or stays without when there is none. Frames that carry variables are unchanged. |
| Frames.LoadVariables | lib/store.js:30-40 | Throws exactly when the index is out of range, or a path is given and the frame has no variables. Otherwise only that frame changes. Returned entries win, the path is marked loaded when not returned, and other prior entries are kept. |
| Store.Provider | lib/store.js:174-186 | A session reducer throws only on UPDATE_VARIABLES, and then with a TypeError. |
| Store.Reduce | lib/store.js:296-303 | The whole store's reducer throws only on UPDATE_VARIABLES. |
| Store.GetDebuggers | lib/store.js:334-344 | Returns exactly the sessions with a registered back-end, unchanged. |
| Store.GetDebugger | lib/store.js:345-355 | An empty name means the selected session. The session is returned exactly when that key holds one with a back-end. |
| Store.FileBreakpoints | lib/store.js:360-363 | With no file given, the whole list is returned; otherwise never more than the list. |
| Store.FileBreakpointsKeeps | lib/store.js:362 | A breakpoint is kept exactly when it is in the list and either no file is given or it belongs to that file. |
| Store.FileBreakpointsAppend | lib/store.js:362 | Filtering distributes over concatenation, so the kept breakpoints stay in list order. |
| Store.FilterKeepsFirstMatch | lib/store.js:360-368 | Looking a location up in the file-filtered list finds the same breakpoint as in the whole list, and finds none exactly when the whole list has none. |
| Store.GetBreakpoint | lib/store.js:364-368 | None exactly when the session is not registered or has no breakpoint there. Otherwise it returns the first breakpoint at that location. |
| Store.SavedSessionsNamed | lib/store.js:318-325 | Every saved entry comes from a non-empty key whose session carries that name, holding that session's projected breakpoints. |
| Store.SavedSessionsByKey | lib/store.js:318-325 | When sessions are stored under their own names, the saved keys are exactly the non-empty keys, each with its projected breakpoints. |
| Store.SavedSessionsCover | lib/store.js:318-325 | Every visited non-empty key's session is saved under its name. |
| Store.SavedSessionsLastWins | lib/store.js:318-325 | On a name clash the key visited last wins: a non-empty key that no later non-empty key shares a name with has its own projected breakpoints saved. |
| Store.Serialize | lib/store.js:313-330 | The panel is copied as it is. Every saved entry comes from a non-empty key whose session has that name, and every non-empty key's session name is saved, including the empty name of an entry created by an unknown session name. When sessions are stored under their own names, the saved keys are exactly the non-empty keys. |
| StoreProps.AddBreakpointInserts | lib/store.js:60-66 | ADD_BREAKPOINT at a new location adds exactly that breakpoint (a multiset fact). The list grows by one and stays strictly sorted. |
| StoreProps.SameLocationsKeepOrder | lib/store.js:60-73 | Changing entries in place without moving their locations keeps a list strictly sorted. |
| StoreProps.AddBreakpointMerges | lib/store.js:60-67 | ADD_BREAKPOINT at an existing location merges the new keys into that entry in place. The length is kept, no other entry changes, and strict order is kept. |
| StoreProps.AddBreakpointLands | lib/store.js:55-67 | Afterwards the location holds the dispatched breakpoint, or the old entry merged with it. |
| StoreProps.AddBreakpointTouchesItsLocation | lib/store.js:55-67 | Every entry of the result was already in the list or is at the added location. |
| StoreProps.RemoveBreakpointDeletes | lib/store.js:69-72 | A non-busy REMOVE_BREAKPOINT deletes exactly the matching entry and keeps the others in order. An absent location leaves the list unchanged. With unique locations the location is gone, and strict order is kept. |
| StoreProps.RemoveBusyMarksInPlace | lib/store.js:69-73 | A busy REMOVE_BREAKPOINT merges `busy` into the existing entry in place, touching nothing else. |
| StoreProps.RemoveBusyAbsentDuplicates | lib/store.js:69-73 | A busy REMOVE_BREAKPOINT for an absent location duplicates the list around the breakpoint, through the -1 index. |
| StoreProps.BreakpointsKeepInvariant | lib/store.js:55-93 | Every routed breakpoint action keeps the list strictly sorted, except a busy removal of an absent location. |
| StoreProps.ReduceKeepsRegistryInvariant | lib/store.js:188-226 | Every dispatch keeps every session's breakpoints strictly sorted, except a busy removal of an absent location. |
| StoreProps.DebuggersKeepSorted | lib/store.js:188-226 | The `debuggers` reducer keeps every session's list strictly sorted. |
| StoreProps.ReduceAllKeepsRegistryInvariant | lib/store.js:188-226 | Any sequence of dispatches without busy removals keeps the invariant (induction on the sequence). |
| StoreProps.StopResetsSession | lib/store.js:14-134 | STOP maps each breakpoint to exactly `{file, line, notStarted}` with count and order kept. Threads and frames are emptied, the state becomes notStarted, both selections become 0, and nothing else changes. |
| StoreProps.RestartClearsSession | lib/store.js:14-134 | RESTART empties threads and frames, sets both selections to 0 and the state to started, and keeps breakpoints and back-end. |
| StoreProps.InitStoreResets | lib/store.js:215-253 | INIT_STORE sets every breakpoint's state to notStarted with its other keys kept, changes nothing else in a session, and replaces `panel.visible` by the default only when it is not a boolean. |
| StoreProps.UpdateStacktraceEffect | lib/store.js:20-28 | UPDATE_STACKTRACE installs the carried-forward frames, resets the selected frame to 0, and keeps state, threads and breakpoints. |
| StoreProps.StateKeyIgnored | lib/store.js:94-122 | The `state` key of SET_SELECTED_STACKTRACE, UPDATE_STACKTRACE, UPDATE_THREADS and UPDATE_VARIABLES is not read. SET_STATE and SET_SELECTED_THREAD do set it. |
| StoreProps.UpdateVariablesTouchesOneFrame | lib/store.js:30-40 | UPDATE_VARIABLES fails exactly on a bad index, or on a path into a frame without variables. Otherwise only that frame's variables change, and they include every returned entry and the loaded path. |
| StoreProps.SessionScopedIsLocal | lib/store.js:201-213 | A session-scoped action changes only the named entry and nothing outside `debuggers`. |
| StoreProps.UnknownSessionCreatesEntry | lib/store.js:213 | Naming an unknown session creates a default entry for it, which `getDebuggers` does not report. |
| StoreProps.RemoveDebuggerEffect | lib/store.js:193-199 | REMOVE_DEBUGGER clears only a known session's back-end, keeping its breakpoints, and ignores an unknown name. The selection is cleared only when it named that session. `getDebuggers` then lacks the name. |
| StoreProps.AddDebuggerRegisters | lib/store.js:142-172 | ADD_DEBUGGER registers the back-end under the name, takes the configurations and scopes of the definition (none when missing), and keeps the earlier breakpoints and state. |
| StoreProps.ReduceKeepsLiveNamed | lib/store.js:188-226 | Every dispatch keeps each registered session stored under its own name. |
| StoreProps.DebuggersKeepLiveNamed | lib/store.js:188-226 | The `debuggers` reducer keeps each registered session stored under its own name. |
| StoreProps.ProviderIdentity | lib/store.js:142-172 | Only ADD_DEBUGGER changes a session's name, and only ADD_DEBUGGER and REMOVE_DEBUGGER change its back-end. |
| StoreProps.UnknownActionIsNoop | lib/store.js:225 | An action no reducer handles leaves the store unchanged. |
| StoreProps.TogglePanelTwice | lib/store.js:242-243 | TOGGLE_PANEL without `visible` negates a boolean visibility, so toggling twice restores the panel. |
| StoreProps.UpdateConfigsEffect | lib/store.js:148-156 | UPDATE_CONFIGS replaces the named session's configurations, with none given meaning an empty list, and changes nothing else. |
| StoreProps.UpdateConfigsIdempotent | lib/store.js:148-156 | UPDATE_CONFIGS with the configurations already stored leaves the store unchanged. |
| StoreProps.ToggleOutputEffect | lib/store.js:264-265 | TOGGLE_OUTPUT sets the pane's visibility to the given value, or to the opposite of the current one. Messages, filters and the rest of the store are kept. |
| StoreProps.ToggleOutputTwice | lib/store.js:264-265 | Toggling the output pane twice without a value restores the store. |
| StoreProps.CleanOutputEffect | lib/store.js:267-272 | CLEAN_OUTPUT empties the messages and keeps visibility and filters. The next message is then the only one. |
| StoreProps.ToggleOutputFilterFlips | lib/store.js:274-279 | TOGGLE_OUTPUT_FILTER flips whether the filter is shown, a missing filter counting as shown, and stores the result explicitly. Other filters, messages, visibility and the rest of the store are kept. |
| StoreProps.ToggleOutputFilterTwice | lib/store.js:274-279 | Toggling a filter twice shows it as before; a filter already stored comes back exactly. |
| StoreProps.ToggleVariableFlips | lib/store.js:283-292 | TOGGLE_VARIABLE sets the path's expansion to the given value, or flips it, a missing path counting as collapsed. Other paths and the rest of the store are kept. |
| StoreProps.ToggleVariableTwice | lib/store.js:283-292 | Toggling a stored path twice without a value restores the store. |
| Debugger.IsStarted | lib/debugger.js:300-304 | True exactly when the resolved key holds a registered session whose state is started, busy or waiting. |
| Debugger.AddBreakpointIssue | lib/debugger.js:68-83 | A pending back-end call is returned only when the selected session is started; it is for the requested location and is the one call added. When the selected session is not started, nothing is called and the promise resolves. No earlier call is retracted. |
| Debugger.AddBreakpointComplete | lib/debugger.js:84-91 | The completion never rejects and issues no further call. |
| Debugger.Completed | lib/debugger.js:84-91 | The final entry is at the location. It is `valid` exactly when the call was fulfilled with a defined value, carrying the returned id when there is one. Otherwise it is `invalid`, with the refusal's error, or a TypeError for an `undefined` answer. |
| Debugger.CompletionLog | lib/debugger.js:84-90 | The completion logs "Added" on a fulfilled call, the failure on a refused one, and both for an `undefined` answer. It leaves the sessions as they were. |
| Debugger.ReplayComplete | lib/debugger.js:31-35 | The replay's `Promise.all` resolves, or stays pending when an answer never comes. It issues no calls. |
| DebuggerProps.NotStartedCases | lib/debugger.js:300-304 | `isStarted` is false exactly when the session is missing, or its state is notStarted or starting. |
| DebuggerProps.SessionDispatch | lib/store.js:201-213 | Dispatching a session-scoped action replaces only that session entry, by the session reducer applied to it, or to a default entry when the name is unknown. |
| DebuggerProps.ScopedKeepsIdentity | lib/store.js:142-172 | A session-scoped action keeps the session's back-end and name. |
| DebuggerProps.LogEffect | lib/store.js:257-282 | Logging appends one debug message to the output and changes nothing else. |
| DebuggerProps.AddBreakpointWhenNotStarted | lib/debugger.js:69-72 | If the selected session is not started: one notStarted ADD_BREAKPOINT, no call, and the location is present as notStarted. |
| DebuggerProps.AddBreakpointWhileBusy | lib/debugger.js:74-78 | An existing busy breakpoint there means nothing is dispatched or called. |
| DebuggerProps.AddBreakpointCompleteActions | lib/debugger.js:84-91 | The completion dispatches exactly: "Added" and the entry (fulfilled); "Added", the failure and the invalid entry (`undefined` answer); or the failure and the invalid entry (refused). |
| DebuggerProps.AddBreakpointOutcome | lib/debugger.js:80-91 | Exactly one addBreakpoint call. The entry stays listed: valid with the returned id, valid for any defined answer, invalid with a TypeError for an `undefined` answer, or invalid with the error as message. |
| DebuggerProps.AddBreakpointDispatches | lib/debugger.js:80-91 | The dispatched actions are exactly "Adding", the busy ADD_BREAKPOINT, then the completion's messages and the final ADD_BREAKPOINT, as listed above for each kind of answer. |
| DebuggerProps.RemoveBreakpointAbsent | lib/debugger.js:105-108 | No breakpoint there means nothing is dispatched or called. |
| DebuggerProps.RemoveBreakpointLocally | lib/debugger.js:111-117 | An invalid breakpoint, or any breakpoint while not started: one REMOVE_BREAKPOINT, no call, and the location is gone. |
| DebuggerProps.RemoveBreakpointRemotely | lib/debugger.js:119-128 | Exactly one removeBreakpoint call with the stored breakpoint. Whatever the answer, the location is gone afterwards (an invalid dispatch deletes too) and the list stays strictly sorted. |
| DebuggerProps.StopWhenNotStarted | lib/debugger.js:51-54 | `stop` on a session that is not started does nothing. |
| DebuggerProps.StopOutcome | lib/debugger.js:55-58 | One stop call. On failure: rejected, with no dispatch and the store unchanged. On success: exactly one STOP for the stopped session, which is then reset. |
| DebuggerProps.StartOpeningEffect | lib/debugger.js:12-26 | Before the back-end answers, the panel is visible, the session is starting and one start call has been made. |
| DebuggerProps.StartFailureStaysStarting | lib/debugger.js:40-43 | A failed start leaves the session starting with no stop call, and the promise resolves. |
| DebuggerProps.StartContinueWithoutBreakpoints | lib/debugger.js:27-38 | With no breakpoints, the started session is marked started and resumed. The promise stays pending if the resume never answers. |
| DebuggerProps.StartWithoutBreakpoints | lib/debugger.js:12-39 | A whole start without breakpoints makes the calls start then resume, and leaves the session started and the panel visible. |
| DebuggerProps.ReplayIssuesEveryBreakpoint | lib/debugger.js:31-34 | The replay issues one addBreakpoint call per listed non-busy location, in list order (induction on the list). |
| DebuggerProps.ReplayIssueStep | lib/debugger.js:31-34 | One replayed breakpoint issues exactly one addBreakpoint call for its location and keeps the other locations non-busy. |
| DebuggerProps.ReplayReissuesStoredBreakpoints | lib/debugger.js:31-35 | The replay of a session's stored breakpoints calls addBreakpoint for each, in stored order, then resolves or stays pending. |
| DebuggerProps.StartReplaysStoredBreakpoints | lib/debugger.js:26-35 | Once the back-end starts, the calls begin with start followed by one addBreakpoint per stored breakpoint, in order. |
| DebuggerProps.GetThreadsEffect | lib/debugger.js:258-267 | One getThreads call. The session is marked busy and the answered threads are stored; threads are kept when the answer has none. |
| DebuggerProps.GetThreadsUndefined | lib/debugger.js:258-267 | An `undefined` answer to getThreads acts as an answer without threads, so the old threads are kept and the command resolves. |
| DebuggerProps.GetStacktraceEffect | lib/debugger.js:247-256 | One getStacktrace call. The frames are carried forward, frame 0 is selected, and the session stays busy. |
| DebuggerProps.GetStacktraceOutcome | lib/debugger.js:247-256 | The same, starting from a fresh command. The session stays busy because the waiting state is not read. |
| DebuggerProps.SelectSameThread | lib/debugger.js:236-239 | Reselecting the current thread only fetches its stacktrace. |
| DebuggerProps.SelectOtherThread | lib/debugger.js:240-244 | Another thread: the selectThread call, then the getStacktrace call. |
| DebuggerProps.SelectOtherThreadSteps | lib/debugger.js:240-244 | After the back-end confirms another thread, the session records it and is waiting. Its stacktrace is fetched next, and the one call so far is the selectThread call. |
| DebuggerProps.SelectSameStacktrace | lib/debugger.js:215-218 | Reselecting the current frame does nothing. |
| DebuggerProps.SelectCurrentStacktrace | lib/debugger.js:215-218 | Reselecting the current frame does nothing, at any point of a command. |
| DebuggerProps.SelectOtherStacktrace | lib/debugger.js:219-222 | One selectStacktrace call. The selected session records the index, its state is unchanged, and the session keyed "undefined" is created with that index. |
| DebuggerProps.UpdateStateRefreshes | lib/debugger.js:181-188 | For the current thread: exactly the getThreads and getStacktrace calls, with the final frame-0 selection making no call. The answered threads and carried-forward frames are stored, and frame 0 is selected. |
| DebuggerProps.UpdateStateSwitchesThread | lib/debugger.js:181-188 | For another thread: exactly getThreads, selectThread and getStacktrace, with the final frame-0 selection making no call. The answered threads, the new thread, the carried-forward frames and frame 0 are recorded, and the session is left busy. |
| DebuggerProps.LoadVariableOutcome | lib/debugger.js:275-293 | One loadVariable call. The command resolves exactly when the selected frame exists (and has variables when a path is given), and otherwise rejects with a TypeError. |
| DebuggerProps.LoadVariableFills | lib/debugger.js:275-293 | On success only the selected frame changes: it gets every returned variable and the session stays busy. |
| DebuggerProps.LoadVariableUndefined | lib/debugger.js:275-293 | An `undefined` answer to loadVariable acts as an empty variable map, which `assign` skips in the same way. |
| DebuggerProps.StepRefused | lib/debugger.js:153-179 | A refused step rejects with the back-end's error after one call, with the store unchanged. |
| DebuggerProps.StepUnanswered | lib/debugger.js:153-179 | An unanswered step stays pending after one call, with the store unchanged. |
| DebuggerProps.StepExited | lib/debugger.js:181-184 | When the program has exited, the step call is followed by the stop call and the session is reset. |
| DebuggerProps.RestartOutcome | lib/debugger.js:194-205 | The calls are restart then resume. The session is started with no threads or frames and its breakpoints kept, and the promise resolves without waiting for the resume. |

## Left out

- The React views, `lib/editors.js`, `lib/main.js` and `lib/commands.js`: rendering, editor gutters and package wiring are not part of this model.
- `toggleBreakpoint`: it calls `getBreakpoint` on the Redux store object, which has no such method, so it cannot run as written.
- UPDATE_BREAKPOINT_LINE: the `breakpoints` reducer case is modelled, but `debuggers` never routes this action to a session, so no property is stated about it.
- Redux `createStore`, subscriptions, the rehydration of a persisted state by `init`, and `dispose` with its `!store` guards are left out. `combineReducers` is modelled directly as field-wise application.
- The configured initial panel visibility is read from the editor configuration. Here it is a field of the INIT_STORE action.
- `localeCompare` is replaced by code-point lexicographic order, and the two differ. The locale collation ignores case at first: "/a.js" sorts before "/B.js", where code points put "/B.js" first. It also ranks canonically equivalent names such as "\u00e9" and "e\u0301" as equal, so it is not strict on file names. The stored order, and so the replay order in `start`, can therefore differ from the program's.
- Promise interleavings are not modelled. Each command runs to completion against a list of back-end answers, so races between overlapping commands and stale completions are out of scope.
- The output messages' text formatting is left out. Messages are kept as structured values.
- An `undefined` answer is modelled as the program treats it: getThreads keeps the old threads, loadVariable merges nothing, and addBreakpoint marks the entry invalid. Any other unexpected answer is modelled as a TypeError rejection. That matches the program when an `undefined` stacktrace or step answer is read. For a defined answer of the wrong kind the program would carry on with the foreign value, which the model does not follow.
- Debugger.Completed: an answer without an `id` property gives no id, so the stored entry keeps an id it had before. The program stores `id: undefined` instead, because the value model has no explicitly undefined key.
- Debugger.AddBreakpoint / Debugger.RemoveBreakpoint: an undefined `name` is modelled as the empty string. The program reaches that case when the editor's grammar matches no registered debugger, so `editor.name` is undefined. The lookups agree, since both fall back to the selected session. The stored entry does not. The program's dispatch stores it under the key `"undefined"`, and `serialize` keeps that truthy key and saves the entry under `''`. The model stores it under `""`, which `serialize` skips.
- A synchronous throw from `getDebugger(...)` being undefined is modelled as a TypeError rejection.
- When the replay in `start` throws part-way, the calls already issued have their completions dropped.
- Reference equality (the `hasChanged` test of INIT_STORE) is not observable in a value model and is left out.
- DebuggerProps.RemoveBreakpointRemotely: states the calls and the resulting breakpoint list but not the exact list of dispatched actions.
- DebuggerProps.StartReplaysStoredBreakpoints: requires that no stored breakpoint is busy and that the list is strictly sorted, as the store keeps it.
- StoreProps.ReduceAllKeepsRegistryInvariant: excludes every busy removal, rather than only those of an absent location.
