/** Threads, stack frames and the lazily loaded variable maps a frame carries
    (lib/store.js, the `stacktrace` and `threads` reducers). */
module Frames {
  import opened Util

  type ThreadId = int
  type FrameId = int

  datatype Thread = Thread(id: ThreadId, func: string, file: string, line: int)

  /** The fields a back-end reports for a variable node. */
  datatype VarInfo = VarInfo(name: string, value: string, hasChildren: bool, parentPath: string)

  /** A variable node. Marking a path loaded that has no node yet creates one
      that holds only the `loaded` flag, hence the optional `info`. An absent
      `loaded` key reads as false. */
  datatype Variable = Variable(info: Option<VarInfo>, loaded: bool)

  /** Variable nodes keyed by their path. */
  type VarMap = map<string, Variable>

  /** A stack frame; `variables` is absent until something loads them. */
  datatype Frame = Frame(id: FrameId, func: string, file: string, line: int,
                         variables: Option<VarMap>)

  /** `frames.findIndex((st) => st.id === id)`. */
  function FrameIndex(s: seq<Frame>, id: FrameId): (i: int)
    ensures -1 <= i < |s|
    ensures 0 <= i ==> s[i].id == id && forall k :: 0 <= k < i ==> s[k].id != id
    ensures i == -1 <==> forall k :: 0 <= k < |s| ==> s[k].id != id
    decreases |s|
  {
    if |s| == 0 then -1
    else if s[0].id == id then 0
    else
      var j := FrameIndex(s[1..], id);
      if j == -1 then -1 else j + 1
  }

  /** One frame of a stacktrace update: a frame that arrives without variables
      takes them from the first earlier frame with the same id, if any. */
  function Carry(prior: seq<Frame>, frame: Frame): Frame {
    var j := FrameIndex(prior, frame.id);
    if frame.variables.None? && j != -1 then frame.(variables := prior[j].variables) else frame
  }

  /** The UPDATE_STACKTRACE rule: the new frames, with variables carried over
      from the previous stacktrace where the back-end did not resend them. */
  function CarryForward(prior: seq<Frame>, incoming: seq<Frame>): (r: seq<Frame>)
    ensures |r| == |incoming|
    ensures forall i :: 0 <= i < |incoming| ==> r[i].(variables := incoming[i].variables) == incoming[i]
    ensures forall i :: 0 <= i < |incoming| && incoming[i].variables.Some? ==> r[i] == incoming[i]
    ensures forall i, j :: 0 <= i < |incoming| && 0 <= j < |prior| && incoming[i].variables.None? &&
              prior[j].id == incoming[i].id && (forall k :: 0 <= k < j ==> prior[k].id != incoming[i].id)
              ==> r[i].variables == prior[j].variables
    ensures forall i :: 0 <= i < |incoming| && incoming[i].variables.None? &&
              (forall k :: 0 <= k < |prior| ==> prior[k].id != incoming[i].id)
              ==> r[i].variables.None?
  {
    seq(|incoming|, i requires 0 <= i < |incoming| => Carry(prior, incoming[i]))
  }

  /** The variable map UPDATE_VARIABLES computes from a frame's map `vars`:
      the node at `path` (when `path` is non-empty) is marked loaded, then the
      returned nodes are laid over everything. */
  function MergeVariables(vars: VarMap, path: string, returned: VarMap): VarMap {
    var marked := if path == "" then vars
                  else vars[path := Variable(if path in vars then vars[path].info else None, true)];
    marked + returned
  }

  /** UPDATE_VARIABLES on a stacktrace. Reading a frame past the end, or a
      path of a frame that has no variable map, throws a TypeError. */
  function LoadVariables(stack: seq<Frame>, index: int, path: string, returned: VarMap)
    : (r: Result<seq<Frame>>)
    ensures r.Ok? <==> 0 <= index < |stack| && (path == "" || stack[index].variables.Some?)
    ensures r.Ok? ==> |r.value| == |stack|
    ensures r.Ok? ==> forall j :: 0 <= j < |stack| && j != index ==> r.value[j] == stack[j]
    ensures r.Ok? ==> r.value[index].variables.Some? &&
                      r.value[index] == stack[index].(variables := r.value[index].variables)
    ensures r.Ok? ==> var m := r.value[index].variables.value;
                      var prior := stack[index].variables.GetOr(map[]);
                      && (forall k :: k in returned ==> k in m && m[k] == returned[k])
                      && (forall k :: k in m ==> k in returned || k in prior || k == path)
                      && (forall k :: k in prior && k != path && k !in returned ==> k in m && m[k] == prior[k])
                      && (path != "" && path !in returned ==>
                            path in m && m[path].loaded &&
                            m[path].info == (if path in prior then prior[path].info else None))
  {
    if !(0 <= index < |stack|) then Err(TypeError)
    else if path != "" && stack[index].variables.None? then Err(TypeError)
    else
      var vars := MergeVariables(stack[index].variables.GetOr(map[]), path, returned);
      Ok(UpdateArrayItem(stack, index, stack[index].(variables := Some(vars))))
  }
}
