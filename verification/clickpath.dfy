/** The path bar: a path split into components, each of which can be selected, and the walk
    from a path to its parents. */
module Clickpaths {
  import opened Options
  import opened Text

  const DEVICES := "devices://"

  /** The path shown, the path that is current, and the end of the selected component, -1
      for the view of the devices. */
  datatype State = State(path: Option<string>, current: Option<string>, position: int)

  // ----- Components -------------------------------------------------------------------------

  predicate IsSeparator(c: char) {
    c == ':' || c == '/'
  }

  /** The position after the next separator, or the end of the path. */
  function NextStart(s: string, i: nat): (n: nat)
    requires i <= |s|
    ensures i <= n <= |s| && (i < |s| ==> i < n)
    decreases |s| - i
  {
    if i == |s| then i else if IsSeparator(s[i]) then i + 1 else NextStart(s, i + 1)
  }

  /** The ends of the components from position `i` on. */
  function Ends(s: string, i: nat): (es: seq<nat>)
    requires i <= |s|
    ensures i < |s| ==> es != [] && es[|es| - 1] == |s|
    ensures i == |s| ==> es == []
    ensures forall k :: 0 <= k < |es| ==> i < es[k] <= |s|
    decreases |s| - i
  {
    if i == |s| then [] else [NextStart(s, i)] + Ends(s, NextStart(s, i))
  }

  lemma {:induction false} EndsIncrease(s: string, i: nat, j: nat, k: nat)
    requires i <= |s| && j < k < |Ends(s, i)|
    ensures Ends(s, i)[j] < Ends(s, i)[k]
    decreases |s| - i
  {
    var n := NextStart(s, i);
    if j > 0 {
      EndsIncrease(s, n, j - 1, k - 1);
    } else {
      assert Ends(s, n)[k - 1] > n;
    }
  }

  function Components(s: string, i: nat): seq<string>
    requires i <= |s|
    decreases |s| - i
  {
    if i == |s| then [] else [s[i..NextStart(s, i)]] + Components(s, NextStart(s, i))
  }

  function Flatten(cs: seq<string>): string {
    if cs == [] then "" else cs[0] + Flatten(cs[1..])
  }

  /** The components, one after the other, are the path. */
  lemma {:induction false} ComponentsAreThePath(s: string, i: nat)
    requires i <= |s|
    ensures Flatten(Components(s, i)) == s[i..]
    decreases |s| - i
  {
    if i < |s| {
      var n := NextStart(s, i);
      ComponentsAreThePath(s, n);
      assert s[i..] == s[i..n] + s[n..];
      assert Components(s, i)[1..] == Components(s, n);
    }
  }

  // ----- The steps ------------------------------------------------------------------------------

  /** The path leads through `above`. */
  predicate IsAbove(above: string, path: string) {
    && 0 < |above| < |path| && SameWord(path[..|above|], above)
    && (path[|above|] == '/' || path[|above| - 1] == ':')
  }

  /** A new path. The path shown stays when the new one is above it. */
  function AfterSetPath(s: State, path: string): State {
    var keep := s.path.Some? && (path == "" || IsAbove(path, s.path.value));
    State(if keep then s.path else Some(path), Some(path), if path != "" && s.position == -1 then 0 else s.position)
  }

  /** A selected component, by the position of its end. */
  function AfterSetPosition(s: State, position: nat): State
    requires s.path.Some?
  {
    var n := if position <= |s.path.value| then position else |s.path.value|;
    State(s.path, Some(s.path.value[..n]), position)
  }

  function AfterDevices(s: State): State {
    State(s.path, Some(DEVICES), -1)
  }

  /** Where the last component starts, looking from `i` on. */
  function LastStart(s: string, i: nat): (n: nat)
    requires i < |s|
    ensures i <= n < |s|
    decreases |s| - i
  {
    if NextStart(s, i) >= |s| then i else LastStart(s, NextStart(s, i))
  }

  /** The parent of the current path: it without its last component, or the devices. */
  function AfterParent(s: State): State {
    if s.path.None? || s.current.None? || s.current.value == "" then s
    else
      var n := LastStart(s.current.value, 0);
      if n > 0 then AfterSetPosition(s, n) else AfterDevices(s)
  }

  function Walk(s: State, k: nat): State {
    if k == 0 then s else AfterParent(Walk(s, k - 1))
  }

  // ----- The current path lies on the path shown -----------------------------------------------------

  /** The current path is the start of the path shown, but for case, or the devices. */
  ghost predicate OnPath(s: State) {
    && (s.path.Some? <==> s.current.Some?)
    && (s.current.Some? && s.current.value != DEVICES ==>
          |s.current.value| <= |s.path.value| && SameWord(s.path.value[..|s.current.value|], s.current.value))
  }

  lemma StepsKeepOnPath(s: State, path: string, position: nat)
    requires OnPath(s)
    ensures OnPath(AfterSetPath(s, path))
    ensures s.path.Some? ==> OnPath(AfterSetPosition(s, position)) && OnPath(AfterDevices(s)) && OnPath(AfterParent(s))
  {
  }

  // ----- The walk --------------------------------------------------------------------------------------

  lemma {:induction false} NextStartSame(s: string, t: string, i: nat)
    requires i <= |s| <= |t| && SameWord(t[..|s|], s)
    ensures NextStart(t, i) == NextStart(s, i) || (NextStart(s, i) == |s| && NextStart(t, i) >= |s|)
    ensures NextStart(t, i) <= |s| ==> NextStart(t, i) == NextStart(s, i)
    decreases |s| - i
  {
    if i < |s| {
      assert Fold(t[..|s|])[i] == Fold(s)[i] && t[..|s|][i] == t[i];
      if !IsSeparator(s[i]) {
        NextStartSame(s, t, i + 1);
      }
    }
  }

  /** The components of the start of a path that ends with a component are the path's. */
  lemma {:induction false} EndsOfStart(s: string, t: string, i: nat, j: nat)
    requires i <= |s| <= |t| && SameWord(t[..|s|], s) && j < |Ends(t, i)| && Ends(t, i)[j] == |s|
    ensures Ends(s, i) == Ends(t, i)[..j + 1]
    decreases |t| - i
  {
    var n := NextStart(t, i);
    NextStartSame(s, t, i);
    if j > 0 {
      EndsIncrease(t, i, 0, j);
      EndsOfStart(s, t, n, j - 1);
      assert Ends(t, i)[..j + 1] == [n] + Ends(t, n)[..j];
    } else {
      assert Ends(s, i) == [n] + Ends(s, n);
      assert Ends(t, i)[..1] == [n];
    }
  }

  lemma {:induction false} LastStartIs(s: string, i: nat)
    requires i < |s|
    ensures LastStart(s, i) == if |Ends(s, i)| > 1 then Ends(s, i)[|Ends(s, i)| - 2] else i
    decreases |s| - i
  {
    var n := NextStart(s, i);
    if n < |s| {
      LastStartIs(s, n);
    }
  }

  lemma {:induction false} SameStart(path: string, c: string, n: nat)
    requires |c| <= |path| && SameWord(path[..|c|], c) && n <= |c|
    ensures SameWord(c[..n], path[..n])
  {
    forall i | 0 <= i < n
      ensures Fold(c[..n])[i] == Fold(path[..n])[i]
    {
      assert Fold(path[..|c|])[i] == Fold(c)[i];
    }
  }

  /** The state after `k` steps of a walk from a current path with the ends `es`. */
  function Stop(s: State, es: seq<nat>, k: nat): State
    requires s.path.Some? && 0 < k <= |es| && forall i :: 0 <= i < |es| ==> es[i] <= |s.path.value|
  {
    if k == |es| then State(s.path, Some("devices://"), -1)
    else State(s.path, Some(s.path.value[..es[|es| - 1 - k]]), es[|es| - 1 - k])
  }

  /** From any non-empty current path, going to the parent again and again visits the paths
      that end with one of its components, the longest first and each once, and then the
      devices. */
  lemma {:induction false} WalkVisitsParents(s: State, k: nat)
    requires OnPath(s) && s.current.Some? && s.current.value != "" && s.current.value != DEVICES
    requires 0 < k <= |Ends(s.current.value, 0)|
    ensures forall i :: 0 <= i < |Ends(s.current.value, 0)| ==> Ends(s.current.value, 0)[i] <= |s.path.value|
    ensures Walk(s, k) == Stop(s, Ends(s.current.value, 0), k)
  {
    var path, c := s.path.value, s.current.value;
    var es := Ends(c, 0);
    if k == 1 {
      LastStartIs(c, 0);
      assert Walk(s, 0) == s;
    } else {
      WalkVisitsParents(s, k - 1);
      var n := es[|es| - k];
      var q := path[..n];
      SameStart(path, c, n);
      EndsOfStart(q, c, 0, |es| - k);
      LastStartIs(q, 0);
    }
  }

  /** The stops get shorter from step to step. */
  lemma StopsAreDifferent(s: State, k: nat, l: nat)
    requires OnPath(s) && s.current.Some? && s.current.value != "" && s.current.value != DEVICES
    requires 0 < k < l < |Ends(s.current.value, 0)|
    ensures Walk(s, k).current.Some? && Walk(s, l).current.Some?
    ensures |Walk(s, l).current.value| < |Walk(s, k).current.value| < |s.current.value|
  {
    var es := Ends(s.current.value, 0);
    WalkVisitsParents(s, k);
    WalkVisitsParents(s, l);
    EndsIncrease(s.current.value, 0, |es| - 1 - l, |es| - 1 - k);
    EndsIncrease(s.current.value, 0, |es| - 1 - k, |es| - 1);
  }

  /** The devices have no parent, but asking for it selects the first nine characters of the
      path shown: the name of the view is split like a path. */
  lemma ParentOfDevices(s: State)
    requires s.path.Some? && s.current == Some(DEVICES)
    ensures AfterParent(s) == AfterSetPosition(s, 9)
  {
    assert NextStart(DEVICES, 8) == 9 && NextStart(DEVICES, 9) == 10;
    assert NextStart(DEVICES, 7) == 8 && NextStart(DEVICES, 4) == 8 && NextStart(DEVICES, 0) == 8 by {
      FirstColon(DEVICES, 0, 7);
      FirstColon(DEVICES, 4, 7);
    }
    assert LastStart(DEVICES, 8) == 9;
  }

  lemma {:induction false} FirstColon(s: string, i: nat, n: nat)
    requires i <= n < |s| && IsSeparator(s[n]) && forall k :: i <= k < n ==> !IsSeparator(s[k])
    ensures NextStart(s, i) == n + 1
    decreases n - i
  {
    if i < n {
      FirstColon(s, i + 1, n);
    }
  }

  // ----- The button that is highlighted ----------------------------------------------------------------

  lemma {:induction false} NextStartAbove(s: string, t: string, i: nat)
    requires i < |s| < |t| && SameWord(t[..|s|], s) && (t[|s|] == '/' || IsSeparator(t[|s| - 1]))
    requires NextStart(s, i) == |s|
    ensures NextStart(t, i) == if IsSeparator(t[|s| - 1]) then |s| else |s| + 1
    decreases |s| - i
  {
    assert Fold(t[..|s|])[i] == Fold(s)[i] && t[..|s|][i] == t[i];
    if !IsSeparator(s[i]) && i + 1 < |s| {
      NextStartAbove(s, t, i + 1);
    }
  }

  lemma {:induction false} EndsAbove(s: string, t: string, i: nat)
    requires i < |s| < |t| && SameWord(t[..|s|], s) && (t[|s|] == '/' || IsSeparator(t[|s| - 1]))
    ensures var j := |Ends(s, i)| - 1;
      j < |Ends(t, i)| && Ends(t, i)[j] == if IsSeparator(t[|s| - 1]) then |s| else |s| + 1
    decreases |s| - i
  {
    var n := NextStart(s, i);
    NextStartSame(s, t, i);
    if n < |s| {
      EndsAbove(s, t, n);
    } else {
      NextStartAbove(s, t, i);
    }
  }

  /** The number of the button that is highlighted for a new path: the last component of it. */
  function LastButton(path: string): nat {
    if path == "" then 0 else |Ends(path, 0)| - 1
  }

  /** When the path shown stays, the highlighted button is the one that selects the new path,
      with the separator after it if the path has none at its end; otherwise it is the last. */
  lemma HighlightedSelectsPath(s: State, path: string)
    requires OnPath(s) && path != ""
    ensures var s' := AfterSetPath(s, path);
      var es, j := Ends(s'.path.value, 0), LastButton(path);
      && j < |es| && s'.current == Some(path) && s'.position == (if s.position == -1 then 0 else s.position)
      && AfterSetPosition(s', es[j]).current.value
           == if s'.path.value == path || IsSeparator(s'.path.value[|path| - 1]) then s'.path.value[..|path|]
              else s'.path.value[..|path|] + "/"
  {
    if s.path.Some? && IsAbove(path, s.path.value) {
      EndsAbove(path, s.path.value, 0);
    } else {
      assert path[..|path|] == path;
    }
  }

  // ----- When the path shown stays --------------------------------------------------------------------------

  lemma {:induction false} EndsAtSeparator(s: string, i: nat, k: nat)
    requires i <= |s| && k < |Ends(s, i)|
    ensures var e := Ends(s, i)[k]; e == |s| || (i < e && (s[e - 1] == ':' || s[e - 1] == '/'))
    decreases |s| - i
  {
    if k == 0 {
      NextAtSeparator(s, i);
    } else {
      EndsAtSeparator(s, NextStart(s, i), k - 1);
    }
  }

  lemma {:induction false} NextAtSeparator(s: string, i: nat)
    requires i < |s|
    ensures var n := NextStart(s, i); n == |s| || s[n - 1] == ':' || s[n - 1] == '/'
    decreases |s| - i
  {
    if !IsSeparator(s[i]) && i + 1 < |s| {
      NextAtSeparator(s, i + 1);
    }
  }

  /** Going to the path up to one of its components, in any case and without the slash at
      its end, leaves the path shown as it is; with that slash it replaces it, unless another
      slash follows. */
  lemma ComponentKeepsPath(s: State, k: nat, q: string)
    requires s.path.Some? && k < |Ends(s.path.value, 0)| && Ends(s.path.value, 0)[k] < |s.path.value|
    ensures var path, e := s.path.value, Ends(s.path.value, 0)[k];
      && (path[e - 1] == ':' || path[e - 1] == '/')
      && var n := if path[e - 1] == '/' then e - 1 else e;
      && (q != "" && SameWord(path[..n], q) ==>
            AfterSetPath(s, q).path == s.path && AfterSetPath(s, q).current == Some(q))
      && (path[e - 1] == '/' && path[e] != '/' && SameWord(path[..e], q) ==> AfterSetPath(s, q).path == Some(q))
  {
    EndsAtSeparator(s.path.value, 0, k);
    hide Ends;
  }

  // ----- The program -------------------------------------------------------------------------------------

  method GetNext(path: string, at: nat) returns (next: nat)
    requires at <= |path|
    ensures next == NextStart(path, at)
  {
    next := at;
    while next < |path| && path[next] != ':' && path[next] != '/'
      invariant at <= next <= |path| && NextStart(path, at) == NextStart(path, next)
    {
      next := next + 1;
    }
    if next < |path| {
      next := next + 1;
    }
  }

  /** The ends of the components of a path. */
  method Buttons(path: string) returns (ends: seq<nat>)
    ensures ends == Ends(path, 0)
  {
    var p: nat := 0;
    ends := [];
    while p < |path|
      invariant p <= |path| && ends + Ends(path, p) == Ends(path, 0)
      decreases |path| - p
    {
      ghost var before := ends;
      ghost var from := p;
      p := GetNext(path, p);
      ends := ends + [p];
      assert before + Ends(path, from) == ends + Ends(path, p);
    }
  }

  /** The number of the last component of a path. */
  method CountButtons(path: string) returns (count: nat)
    ensures count == LastButton(path)
  {
    var next := GetNext(path, 0);
    count := 0;
    while next < |path|
      invariant next <= |path| && (path == "" ==> count == 0)
      invariant path != "" ==> |Ends(path, 0)| == count + 1 + |Ends(path, next)|
      decreases |path| - next
    {
      next := GetNext(path, next);
      count := count + 1;
    }
  }

  /** Whether the path shown leads through a new one. */
  method LeadsThrough(path: string, newPath: string, before: char) returns (above: bool)
    ensures above == if newPath == "" then EmptyIsAbove(Some(path), before) else IsAbove(newPath, path)
  {
    above := false;
    if |path| > |newPath| && SameWord(path[..|newPath|], newPath) {
      above := path[|newPath|] == '/' || (if newPath == "" then before else path[|newPath| - 1]) == ':';
    }
  }

  /** An empty path is taken to be above the path shown. */
  predicate EmptyIsAbove(path: Option<string>, before: char) {
    path.Some? && path.value != "" && (path.value[0] == '/' || before == ':')
  }

  class Clickpath {
    var path: Option<string>
    var current: Option<string>
    var position: int

    function Abstract(): State
      reads this
    {
      State(path, current, position)
    }

    constructor ()
      ensures Abstract() == State(None, None, 0)
    {
      path, current, position := None, None, 0;
    }

    /** Shows a path. `ends` are the positions that the component buttons select, `marked` is
        the number of the highlighted one; `devices` tells that the button of the devices is
        highlighted. `before` is the byte before the path shown, read for an empty path. */
    method SetPath(newPath: string, before: char) returns (ends: seq<nat>, marked: Option<nat>, devices: bool)
      modifies this
      ensures Abstract() == AfterSetPath(old(Abstract()), newPath)
      ensures devices <==> position == -1 || (newPath == "" && !EmptyIsAbove(old(path), before))
      ensures ends == if devices && position != -1 then [] else Ends(path.value, 0)
      ensures marked == if devices then None else Some(LastButton(newPath))
    {
      hide Ends, SameWord;
      var parent, above := newPath == "", false;
      var number: nat := 0;
      current := Some(newPath);
      if newPath != "" && position == -1 {
        position := 0;
      }
      if path.Some? {
        above := LeadsThrough(path.value, newPath, before);
        if above {
          number := CountButtons(newPath);
          parent := true;
        }
      }
      if path.None? || !parent {
        path := Some(newPath);
      }
      var text := if above then path.value else newPath;
      devices := text == "" || position == -1;
      ends := Buttons(if position == -1 then path.value else text);
      marked := None;
      if position != -1 && ends != [] {
        marked := Some(if parent then number else |ends| - 1);
      }
    }

    /** Selects the component that ends at a position, or the devices for -1. */
    method SetPosition(pos: int)
      requires path.Some? && pos >= -1
      modifies this`current, this`position
      ensures Abstract() == if pos == -1 then AfterDevices(old(Abstract())) else AfterSetPosition(old(Abstract()), pos)
    {
      position := pos;
      if pos == -1 {
        current := Some(DEVICES);
      } else {
        current := Some(path.value[..if pos <= |path.value| then pos else |path.value|]);
      }
    }

    /** Goes to the parent. `owner` is the directory that contains a virtual device. */
    method Parent(owner: string -> Option<string>, before: char)
      requires OnPath(Abstract())
      modifies this
      ensures var s := old(Abstract());
        Abstract() ==
          if s.current.Some? && s.current.value != "" && owner(s.current.value).Some?
             && s.current.value[|s.current.value| - 1] == ':' then
            var above := AfterSetPath(s, owner(s.current.value).value);
            AfterSetPosition(above, |above.path.value|)
          else AfterParent(s)
    {
      if path.Some? && current.Some? {
        var c := current.value;
        if c != "" && owner(c).Some? && c[|c| - 1] == ':' {
          var _, _, _ := SetPath(owner(c).value, before);
          SetPosition(|path.value|);
        } else {
          var p: nat := 0;
          while p < |c|
            invariant p <= |c| && (c != "" ==> p < |c| && LastStart(c, p) == LastStart(c, 0))
            invariant Abstract() == old(Abstract())
            decreases |c| - p
          {
            var np := GetNext(c, p);
            if np >= |c| {
              SetPosition(if p > 0 then p else -1);
              return;
            }
            p := np;
          }
        }
      }
    }
  }
}
