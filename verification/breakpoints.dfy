/** The breakpoint registry: the per-session list of breakpoints, the lookup by
    location, and the sorted insertion the ADD_BREAKPOINT reducer performs
    (lib/store.js, `breakpoints` and `indexOfBreakpoint`). */
module Breakpoints {
  import opened Util
  import opened Order

  /** The per-breakpoint state machine. */
  datatype BpState = NotStarted | Busy | Valid | Invalid | Removed

  /** The identifier a back-end hands out for a breakpoint it accepted. */
  type BpId = int

  /** `{file, line, state, id?, message?}`; `None` means the key is absent. */
  datatype Breakpoint = Breakpoint(file: string, line: int, state: BpState,
                                   id: Option<BpId>, message: Option<string>)

  /** The persisted form of a breakpoint: `{file, line}`. */
  datatype Location = Location(file: string, line: int)

  /** A breakpoint's identity for matching is its location, never its id. */
  predicate At(bp: Breakpoint, file: string, line: int) {
    bp.file == file && bp.line == line
  }

  /** The sort comparator is negative: file first, then line. */
  predicate Before(a: Breakpoint, b: Breakpoint) {
    StrLess(a.file, b.file) || (a.file == b.file && a.line < b.line)
  }

  /** Sorted by (file, line), ties allowed. */
  predicate Sorted(s: seq<Breakpoint>) {
    forall i, j :: 0 <= i < j < |s| ==> !Before(s[j], s[i])
  }

  /** Sorted by (file, line) with no location twice: the registry invariant. */
  predicate StrictlySorted(s: seq<Breakpoint>) {
    forall i, j :: 0 <= i < j < |s| ==> Before(s[i], s[j])
  }

  /** At most one breakpoint per location. */
  predicate UniqueLocations(s: seq<Breakpoint>) {
    forall i, j :: 0 <= i < j < |s| ==> !At(s[i], s[j].file, s[j].line)
  }

  lemma BeforeIrreflexive(a: Breakpoint, b: Breakpoint)
    requires At(a, b.file, b.line)
    ensures !Before(a, b)
  {
    StrLessIrreflexive(a.file);
  }

  lemma BeforeTransitive(a: Breakpoint, b: Breakpoint, c: Breakpoint)
    requires Before(a, b) && Before(b, c)
    ensures Before(a, c)
  {
    if StrLess(a.file, b.file) && StrLess(b.file, c.file) {
      StrLessTransitive(a.file, b.file, c.file);
    }
  }

  lemma BeforeAsymmetric(a: Breakpoint, b: Breakpoint)
    requires Before(a, b)
    ensures !Before(b, a)
  {
    if StrLess(a.file, b.file) {
      StrLessAsymmetric(a.file, b.file);
      StrLessIrreflexive(a.file);
    } else {
      StrLessIrreflexive(a.file);
    }
  }

  lemma BeforeTotal(a: Breakpoint, b: Breakpoint)
    ensures At(a, b.file, b.line) || Before(a, b) || Before(b, a)
  {
    StrLessTotal(a.file, b.file);
  }

  /** Not-before is transitive, since Before is a strict total order on locations. */
  lemma NotBeforeTransitive(a: Breakpoint, b: Breakpoint, c: Breakpoint)
    requires !Before(a, b) && !Before(b, c)
    ensures !Before(a, c)
  {
    BeforeTotal(a, b);
    BeforeTotal(b, c);
    if Before(b, a) && Before(c, b) {
      BeforeTransitive(c, b, a);
      BeforeAsymmetric(c, a);
    } else {
      BeforeTotal(c, a);
      if Before(c, a) {
        BeforeAsymmetric(c, a);
      } else {
        BeforeIrreflexive(a, c);
      }
    }
  }

  /** The strict invariant implies the two weaker ones. */
  lemma StrictlySortedIsSortedAndUnique(s: seq<Breakpoint>)
    requires StrictlySorted(s)
    ensures Sorted(s) && UniqueLocations(s)
  {
    forall i, j | 0 <= i < j < |s|
      ensures !Before(s[j], s[i]) && !At(s[i], s[j].file, s[j].line)
    {
      BeforeAsymmetric(s[i], s[j]);
      if At(s[i], s[j].file, s[j].line) {
        BeforeIrreflexive(s[i], s[j]);
      }
    }
  }

  /** `findIndex` by location: the first match, or -1 when there is none. */
  function IndexOf(s: seq<Breakpoint>, file: string, line: int): (i: int)
    ensures -1 <= i < |s|
    ensures 0 <= i ==> At(s[i], file, line)
    ensures 0 <= i ==> forall k :: 0 <= k < i ==> !At(s[k], file, line)
    ensures i == -1 <==> forall k :: 0 <= k < |s| ==> !At(s[k], file, line)
    decreases |s|
  {
    if |s| == 0 then -1
    else if At(s[0], file, line) then 0
    else
      var j := IndexOf(s[1..], file, line);
      if j == -1 then -1 else j + 1
  }

  /** `Object.assign({}, prior, patch)`: the keys the patch carries win. A
      dispatched breakpoint always carries file, line and state. */
  function Merge(prior: Breakpoint, patch: Breakpoint): Breakpoint {
    Breakpoint(patch.file, patch.line, patch.state,
               if patch.id.Some? then patch.id else prior.id,
               if patch.message.Some? then patch.message else prior.message)
  }

  /** Stable insertion of `x` behind every element that does not sort after it. */
  function Insert(s: seq<Breakpoint>, x: Breakpoint): seq<Breakpoint>
    decreases |s|
  {
    if |s| == 0 then [x]
    else if Before(x, s[|s| - 1]) then Insert(s[..|s| - 1], x) + [s[|s| - 1]]
    else s + [x]
  }

  /** `Array.prototype.sort` with the (file, line) comparator; the sort is
      stable, so insertion sort computes the same permutation. */
  function Sort(s: seq<Breakpoint>): seq<Breakpoint>
    decreases |s|
  {
    if |s| == 0 then [] else Insert(Sort(s[..|s| - 1]), s[|s| - 1])
  }

  lemma {:induction false} InsertPermutes(s: seq<Breakpoint>, x: Breakpoint)
    ensures multiset(Insert(s, x)) == multiset(s) + multiset{x}
    ensures |Insert(s, x)| == |s| + 1
    decreases |s|
  {
    if |s| > 0 && Before(x, s[|s| - 1]) {
      InsertPermutes(s[..|s| - 1], x);
      assert s == s[..|s| - 1] + [s[|s| - 1]];
    }
  }

  lemma {:induction false} InsertSorted(s: seq<Breakpoint>, x: Breakpoint)
    requires Sorted(s)
    ensures Sorted(Insert(s, x))
    decreases |s|
  {
    InsertPermutes(s, x);
    if |s| > 0 {
      var last := s[|s| - 1];
      var init := s[..|s| - 1];
      if Before(x, last) {
        InsertSorted(init, x);
        var front := Insert(init, x);
        InsertPermutes(init, x);
        forall e | e in front
          ensures !Before(last, e)
        {
          assert e in multiset(front);
          if e == x {
            BeforeAsymmetric(x, last);
          } else {
            assert e in multiset(init);
            var i :| 0 <= i < |init| && init[i] == e;
            assert s[i] == e;
          }
        }
      } else {
        forall i | 0 <= i < |s|
          ensures !Before(x, s[i])
        {
          if i < |s| - 1 {
            NotBeforeTransitive(x, last, s[i]);
          }
        }
      }
    }
  }

  lemma {:induction false} InsertStrictlySorted(s: seq<Breakpoint>, x: Breakpoint)
    requires StrictlySorted(s)
    requires IndexOf(s, x.file, x.line) == -1
    ensures StrictlySorted(Insert(s, x))
    decreases |s|
  {
    if |s| > 0 {
      var last := s[|s| - 1];
      var init := s[..|s| - 1];
      if Before(x, last) {
        assert IndexOf(init, x.file, x.line) == -1 by {
          forall k | 0 <= k < |init| ensures !At(init[k], x.file, x.line) {
            assert init[k] == s[k];
          }
        }
        InsertStrictlySorted(init, x);
        var front := Insert(init, x);
        InsertPermutes(init, x);
        forall e | e in front
          ensures Before(e, last)
        {
          assert e in multiset(front);
          if e != x {
            assert e in multiset(init);
            var i :| 0 <= i < |init| && init[i] == e;
            assert s[i] == e;
          }
        }
      } else {
        BeforeTotal(x, last);
        assert !At(last, x.file, x.line);
        assert Before(last, x);
        forall i | 0 <= i < |s| - 1
          ensures Before(s[i], x)
        {
          BeforeTransitive(s[i], last, x);
        }
      }
    }
  }

  /** On an already sorted list the sort changes nothing. */
  lemma {:induction false} SortOfSorted(s: seq<Breakpoint>)
    requires Sorted(s)
    ensures Sort(s) == s
    decreases |s|
  {
    if |s| > 0 {
      var init := s[..|s| - 1];
      SortOfSorted(init);
      if |init| > 0 {
        assert !Before(s[|s| - 1], init[|init| - 1]);
      }
      assert init + [s[|s| - 1]] == s;
    }
  }

  /** The sort returns a sorted permutation of its input. */
  lemma {:induction false} SortSortsAndPermutes(s: seq<Breakpoint>)
    ensures Sorted(Sort(s))
    ensures multiset(Sort(s)) == multiset(s)
    decreases |s|
  {
    if |s| > 0 {
      var init := s[..|s| - 1];
      SortSortsAndPermutes(init);
      InsertSorted(Sort(init), s[|s| - 1]);
      InsertPermutes(Sort(init), s[|s| - 1]);
      assert s == init + [s[|s| - 1]];
    }
  }

  /** Deletes the element at `i` and keeps the others in order. */
  function RemoveAt(s: seq<Breakpoint>, i: nat): (r: seq<Breakpoint>)
    requires i < |s|
    ensures |r| == |s| - 1
    ensures forall k :: 0 <= k < i ==> r[k] == s[k]
    ensures forall k :: i <= k < |r| ==> r[k] == s[k + 1]
  {
    s[..i] + s[i + 1..]
  }

  /** What STOP leaves of a breakpoint: `{file, line, state: 'notStarted'}`. */
  function Stopped(bp: Breakpoint): Breakpoint {
    Breakpoint(bp.file, bp.line, NotStarted, None, None)
  }

  /** The persisted projection `{file, line}` of each breakpoint. */
  function Project(s: seq<Breakpoint>): (r: seq<Location>)
    ensures |r| == |s|
    ensures forall i :: 0 <= i < |s| ==> r[i] == Location(s[i].file, s[i].line)
    decreases |s|
  {
    if |s| == 0 then [] else [Location(s[0].file, s[0].line)] + Project(s[1..])
  }
}
