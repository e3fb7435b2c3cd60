/** Runs of the cache: steps of several tasks, in any order. */
module CacheRuns {
  import opened Caches
  import opened Thumbnails

  datatype Step =
    | GetStep(task: nat, hash: nat, tag: Tag, now: nat)
    | SetStep(task: nat, hash: nat, source: Source, now: nat, node: nat, copy: nat)
    | InvalidateStep(task: nat, hash: nat, which: Which)
    | CleanupStep(task: nat, now: nat, memory: bool)
    | FlushStep(task: nat)
    | UnlockStep(task: nat)

  /** Invalidation waits for the semaphore; only the task that holds it unlocks; bitmaps
      to be stored can be read. */
  ghost predicate Enabled(s: State, step: Step) {
    match step
    case SetStep(_, _, source, _, _, _) => CanCopy(source)
    case InvalidateStep(task, _, _) => Available(s.lock, task)
    case UnlockStep(task) => s.lock.Held? && s.lock.task == task
    case _ => true
  }

  ghost function After(s: State, step: Step): State
    requires Enabled(s, step)
  {
    match step
    case GetStep(task, hash, tag, now) => AfterGet(s, task, hash, tag, now)
    case SetStep(task, hash, source, now, node, copy) => AfterSet(s, task, hash, source, now, node, copy)
    case InvalidateStep(_, hash, which) => AfterInvalidate(s, hash, which)
    case CleanupStep(task, now, memory) => AfterDeleteUnused(s, task, now, memory)
    case FlushStep(task) => AfterFlush(s, task)
    case UnlockStep(_) => AfterUnlock(s)
  }

  /** The states of a run, one more than its steps. */
  ghost predicate IsRun(states: seq<State>, steps: seq<Step>) {
    && |states| == |steps| + 1
    && forall k :: 0 <= k < |steps| ==> Enabled(states[k], steps[k]) && states[k + 1] == After(states[k], steps[k])
  }

  /** The value for a hash and a tag, whoever holds the semaphore. */
  function ValueAt(tree: seq<Node>, hash: nat, tag: Tag): Reply {
    var i := IndexOf(tree, hash);
    if i < |tree| && tag in tree[i].values then Hit(tree[i].values[tag]) else Miss
  }

  // ----- What a step does to one value ----------------------------------------------------------

  /** The step gets the semaphore, has a node and replaces the value for the tag. */
  ghost predicate Replaces(s: State, step: Step, hash: nat, tag: Tag) {
    && step.SetStep? && Available(s.lock, step.task) && step.hash == hash && TagOf(step.source) == tag
    && (IndexOf(s.tree, hash) < |s.tree| || step.node != 0)
  }

  ghost predicate Stores(s: State, step: Step, hash: nat, tag: Tag) {
    Replaces(s, step, hash, tag) && (step.source.PointerTo? || step.copy != 0)
  }

  /** The step invalidates the value, evicts its node, flushes it, or fails to copy a
      replacement. */
  ghost predicate Clears(s: State, step: Step, hash: nat, tag: Tag) {
    match step
    case SetStep(_, _, _, _, _, _) => Replaces(s, step, hash, tag) && !Stores(s, step, hash, tag)
    case InvalidateStep(_, h, which) => (h == 0 || h == hash) && (which.AllTags? || which.tag == tag)
    case CleanupStep(task, now, memory) =>
      var i := IndexOf(s.tree, hash);
      Available(s.lock, task) && memory && i < |s.tree| && Stale(s.tree[i], Threshold(now))
    case FlushStep(task) => Available(s.lock, task)
    case _ => false
  }

  lemma IndexIs(tree: seq<Node>, i: nat)
    requires UniqueKeys(tree) && i < |tree|
    ensures IndexOf(tree, tree[i].key) == i
  {
  }

  /** Only the key decides where a node is found. */
  lemma SameKeysSameIndex(a: seq<Node>, b: seq<Node>, key: nat)
    requires |a| == |b| && forall i :: 0 <= i < |a| ==> a[i].key == b[i].key
    ensures IndexOf(a, key) == IndexOf(b, key)
  {
  }

  lemma {:induction false} KeptUnique(tree: seq<Node>, threshold: nat)
    requires UniqueKeys(tree)
    ensures UniqueKeys(Kept(tree, threshold))
  {
    if tree != [] {
      hide Stale;
      KeptUnique(tree[1..], threshold);
      var rest := Kept(tree[1..], threshold);
      forall j | 0 <= j < |rest|
        ensures rest[j].key != tree[0].key
      {
        assert rest[j] in rest;
      }
    }
  }

  lemma KeptIndex(tree: seq<Node>, threshold: nat, key: nat)
    requires UniqueKeys(tree)
    ensures var i, kept := IndexOf(tree, key), Kept(tree, threshold);
      var j := IndexOf(kept, key);
      if i < |tree| && !Stale(tree[i], threshold) then j < |kept| && kept[j] == tree[i] else j == |kept|
  {
    hide IndexOf, Kept, Stale;
    var i, kept := IndexOf(tree, key), Kept(tree, threshold);
    var j := IndexOf(kept, key);
    if i < |tree| && !Stale(tree[i], threshold) {
      assert tree[i] in kept;
      var k :| 0 <= k < |kept| && kept[k] == tree[i];
      assert kept[k].key == key;
    }
    if j < |kept| {
      assert kept[j] in kept;
      var k :| 0 <= k < |tree| && tree[k] == kept[j];
      IndexIs(tree, k);
    }
  }

  lemma AppendIndex(tree: seq<Node>, n: Node, key: nat)
    requires IndexOf(tree, n.key) == |tree|
    ensures IndexOf(tree + [n], key) ==
      if key == n.key then |tree| else if IndexOf(tree, key) < |tree| then IndexOf(tree, key) else |tree| + 1
  {
    hide IndexOf;
    var i := IndexOf(tree + [n], key);
    if i < |tree| + 1 {
      assert (tree + [n])[i].key == key;
    }
    var j := IndexOf(tree, key);
    if j < |tree| {
      assert (tree + [n])[j].key == key;
    }
    assert (tree + [n])[|tree|].key == n.key;
  }

  lemma StepKeepsKeys(s: State, step: Step)
    requires Enabled(s, step) && UniqueKeys(s.tree)
    ensures UniqueKeys(After(s, step).tree)
  {
    hide IndexOf, Stale, Kept;
    match step
    case CleanupStep(_, now, _) => KeptUnique(s.tree, Threshold(now));
    case _ =>
  }

  /** What any step of any task does to the value for a hash and a tag. */
  lemma StepOnValue(s: State, step: Step, hash: nat, tag: Tag)
    requires Enabled(s, step) && UniqueKeys(s.tree)
    ensures ValueAt(After(s, step).tree, hash, tag) ==
      if Stores(s, step, hash, tag) then Hit(CopyOf(step.source, step.copy))
      else if Clears(s, step, hash, tag) then Miss
      else ValueAt(s.tree, hash, tag)
  {
    hide IndexOf, Stale, Kept, CopyOf, CanCopy;
    var t := After(s, step).tree;
    match step {
      case CleanupStep(_, now, _) => KeptIndex(s.tree, Threshold(now), hash);
      case FlushStep(_) => assert IndexOf([], hash) == 0;
      case SetStep(_, h, source, now, node, copy) =>
        SetOnValue(s, step, hash, tag);
      case _ => SameKeysSameIndex(s.tree, t, hash);
    }
  }

  lemma SetOnValue(s: State, step: Step, hash: nat, tag: Tag)
    requires step.SetStep? && Enabled(s, step) && UniqueKeys(s.tree)
    ensures ValueAt(After(s, step).tree, hash, tag) ==
      if Stores(s, step, hash, tag) then Hit(CopyOf(step.source, step.copy))
      else if Clears(s, step, hash, tag) then Miss
      else ValueAt(s.tree, hash, tag)
  {
    hide IndexOf, CopyOf, CanCopy;
    var i, t := IndexOf(s.tree, step.hash), After(s, step).tree;
    if Available(s.lock, step.task) && i == |s.tree| && step.node != 0 {
      AppendIndex(s.tree, t[i], hash);
    } else {
      SameKeysSameIndex(s.tree, t, hash);
    }
  }

  // ----- A hit is the last value set -------------------------------------------------------------

  /** Step `k` is the last that stored a value, and no step after it cleared it. */
  ghost predicate LastStored(states: seq<State>, steps: seq<Step>, hash: nat, tag: Tag, k: nat)
    requires IsRun(states, steps)
  {
    && k < |steps| && Stores(states[k], steps[k], hash, tag)
    && forall j :: k < j < |steps| ==>
         !Stores(states[j], steps[j], hash, tag) && !Clears(states[j], steps[j], hash, tag)
  }

  ghost predicate Starts(states: seq<State>) {
    states != [] && states[0] == State([], 1, Free)
  }

  lemma RunPrefix(states: seq<State>, steps: seq<Step>)
    requires IsRun(states, steps) && steps != []
    ensures IsRun(states[..|steps|], steps[..|steps| - 1])
  {
  }

  lemma {:induction false} RunKeepsKeys(states: seq<State>, steps: seq<Step>)
    requires IsRun(states, steps) && Starts(states)
    ensures UniqueKeys(states[|steps|].tree)
    decreases |steps|
  {
    if steps != [] {
      var last := |steps| - 1;
      RunPrefix(states, steps);
      RunKeepsKeys(states[..|steps|], steps[..last]);
      StepKeepsKeys(states[last], steps[last]);
    }
  }

  /** In every run from the empty cache, the value for a hash and a tag is there exactly if
      some step stored it and it has not been cleared since, and it is the copy made by the
      last such step. */
  lemma {:induction false} HitIsLastStored(states: seq<State>, steps: seq<Step>, hash: nat, tag: Tag, v: Value)
    requires IsRun(states, steps) && Starts(states)
    ensures ValueAt(states[|steps|].tree, hash, tag) == Hit(v) <==>
      exists k: nat :: LastStored(states, steps, hash, tag, k) && v == CopyOf(steps[k].source, steps[k].copy)
    decreases |steps|
  {
    if steps == [] {
      assert IndexOf(states[0].tree, hash) == 0;
    } else {
      hide Stores, Clears, ValueAt, CopyOf, After, Enabled, UniqueKeys;
      var last := |steps| - 1;
      var states', steps' := states[..|steps|], steps[..last];
      RunPrefix(states, steps);
      RunKeepsKeys(states', steps');
      assert states'[last] == states[last];
      StepOnValue(states[last], steps[last], hash, tag);
      HitIsLastStored(states', steps', hash, tag, v);
      LastStoredNext(states, steps, hash, tag);
    }
  }

  /** How the last storing step changes with one more step. */
  lemma LastStoredNext(states: seq<State>, steps: seq<Step>, hash: nat, tag: Tag)
    requires IsRun(states, steps) && steps != [] && IsRun(states[..|steps|], steps[..|steps| - 1])
    ensures var last := |steps| - 1;
      forall k: nat :: LastStored(states, steps, hash, tag, k) <==>
        if Stores(states[last], steps[last], hash, tag) then k == last
        else !Clears(states[last], steps[last], hash, tag) && LastStored(states[..|steps|], steps[..last], hash, tag, k)
  {
    hide Stores, Clears, After, Enabled;
    var last := |steps| - 1;
    forall k: nat
      ensures LastStored(states, steps, hash, tag, k) <==>
        if Stores(states[last], steps[last], hash, tag) then k == last
        else !Clears(states[last], steps[last], hash, tag) && LastStored(states[..|steps|], steps[..last], hash, tag, k)
    {
    }
  }

  /** A look-up replies with that value, or not at all when another task is in the cache. */
  lemma ReplyIsLastStored(states: seq<State>, steps: seq<Step>, task: nat, hash: nat, tag: Tag, v: Value)
    requires IsRun(states, steps) && Starts(states)
    ensures var s := states[|steps|];
      Found(s, task, hash, tag) == Hit(v) <==>
        && Available(s.lock, task)
        && exists k: nat :: LastStored(states, steps, hash, tag, k) && v == CopyOf(steps[k].source, steps[k].copy)
  {
    HitIsLastStored(states, steps, hash, tag, v);
  }

  // ----- A thumbnail that has been handed out -------------------------------------------------------

  ghost predicate HeldBy(lock: Lock, task: nat) {
    lock.Held? && lock.task == task
  }

  /** While a task holds the semaphore, steps of other tasks change nothing at all. */
  lemma OthersChangeNothing(s: State, step: Step, task: nat)
    requires HeldBy(s.lock, task) && step.task != task && Enabled(s, step)
    ensures After(s, step) == s
  {
  }

  /** Looking up and unlocking change no value. */
  lemma ReadsChangeNoValue(s: State, step: Step, hash: nat, tag: Tag)
    requires UniqueKeys(s.tree) && Enabled(s, step) && (step.GetStep? || step.UnlockStep?)
    ensures UniqueKeys(After(s, step).tree)
    ensures ValueAt(After(s, step).tree, hash, tag) == ValueAt(s.tree, hash, tag)
  {
    StepOnValue(s, step, hash, tag);
    StepKeepsKeys(s, step);
  }

  /** The task keeps the semaphore, and does nothing itself but look up and unlock. */
  ghost predicate Reading(states: seq<State>, steps: seq<Step>, task: nat)
    requires IsRun(states, steps)
  {
    && (forall k :: 0 <= k < |states| ==> HeldBy(states[k].lock, task))
    && (forall k :: 0 <= k < |steps| && steps[k].task == task ==> steps[k].GetStep? || steps[k].UnlockStep?)
  }

  lemma {:induction false} ReadingKeepsValues(states: seq<State>, steps: seq<Step>, task: nat, hash: nat, tag: Tag)
    requires IsRun(states, steps) && Reading(states, steps, task) && UniqueKeys(states[0].tree)
    ensures UniqueKeys(states[|steps|].tree)
    ensures ValueAt(states[|steps|].tree, hash, tag) == ValueAt(states[0].tree, hash, tag)
    decreases |steps|
  {
    if steps != [] {
      hide After, Enabled, ValueAt, UniqueKeys;
      var last := |steps| - 1;
      RunPrefix(states, steps);
      ReadingKeepsValues(states[..|steps|], steps[..last], task, hash, tag);
      assert states[..|steps|][last] == states[last];
      if steps[last].task == task {
        ReadsChangeNoValue(states[last], steps[last], hash, tag);
      } else {
        OthersChangeNothing(states[last], steps[last], task);
      }
    }
  }

  /** A thumbnail handed to a task stays in the cache, at its address and with its pixels,
      until the task unlocks, whatever the other tasks do. */
  lemma ThumbnailIsSafe(s: State, task: nat, hash: nat, now: nat, v: Value, states: seq<State>, steps: seq<Step>)
    requires UniqueKeys(s.tree) && Found(s, task, hash, Thumbnail) == Hit(v)
    requires IsRun(states, steps) && states[0] == AfterGet(s, task, hash, Thumbnail, now)
    requires Reading(states, steps, task)
    ensures ValueAt(states[|steps|].tree, hash, Thumbnail) == Hit(v)
    ensures forall step: Step :: step.task != task && Enabled(states[|steps|], step) ==>
      After(states[|steps|], step) == states[|steps|]
  {
    var get := GetStep(task, hash, Thumbnail, now);
    assert states[0] == After(s, get);
    ReadsChangeNoValue(s, get, hash, Thumbnail);
    ReadingKeepsValues(states, steps, task, hash, Thumbnail);
    forall step: Step | step.task != task && Enabled(states[|steps|], step)
      ensures After(states[|steps|], step) == states[|steps|]
    {
      OthersChangeNothing(states[|steps|], step, task);
    }
  }

  /** A hit for a thumbnail leaves the task holding the semaphore; unlocking gives it back
      as it was. */
  lemma ThumbnailHitLocks(s: State, task: nat, hash: nat, now: nat)
    requires Found(s, task, hash, Thumbnail).Hit? && (s.lock.Held? ==> s.lock.nest > 0)
    ensures HeldBy(AfterGet(s, task, hash, Thumbnail, now).lock, task)
    ensures AfterUnlock(AfterGet(s, task, hash, Thumbnail, now)).lock == s.lock
  {
  }

  // ----- Eviction -------------------------------------------------------------------------------------

  /** After a clean-up, look-ups by any task find exactly the values they found before whose
      nodes have a stamp above the threshold. */
  lemma CleanupIsExact(s: State, task: nat, now: nat, other: nat, hash: nat, tag: Tag)
    requires UniqueKeys(s.tree) && Available(s.lock, task)
    ensures var i, found := IndexOf(s.tree, hash), Found(s, other, hash, tag);
      Found(AfterDeleteUnused(s, task, now, true), other, hash, tag) ==
        if found.Hit? && s.tree[i].stamp > Threshold(now) then found else Miss
  {
    hide IndexOf, Kept;
    KeptIndex(s.tree, Threshold(now), hash);
  }

  /** A hit replaces the time by a counter: a node that has just been read survives the next
      clean-up if and only if that counter has passed the threshold, however recent the
      read is. */
  lemma ReadNodeSurvives(s: State, task: nat, hash: nat, tag: Tag, now: nat, later: nat, other: nat)
    requires UniqueKeys(s.tree) && Found(s, task, hash, tag).Hit?
    requires var s' := AfterGet(s, task, hash, tag, now); Available(s'.lock, other)
    ensures var s' := AfterDeleteUnused(AfterGet(s, task, hash, tag, now), other, later, true);
      ValueAt(s'.tree, hash, tag).Hit? <==> s.globalStamp > Threshold(later)
  {
    hide IndexOf, Kept, UniqueKeys;
    var get := GetStep(task, hash, tag, now);
    var s' := After(s, get);
    StepKeepsKeys(s, get);
    SameKeysSameIndex(s.tree, s'.tree, hash);
    assert s'.tree[IndexOf(s'.tree, hash)].stamp == s.globalStamp;
    var cleanup := CleanupStep(other, later, true);
    StepOnValue(s', cleanup, hash, tag);
  }

  /** A node that has just been stored survives the next clean-up, by any task, if and only
      if the time it was stored at has passed the threshold. */
  lemma StoredNodeSurvives(s: State, task: nat, hash: nat, source: Source, now: nat, node: nat, copy: nat,
                           later: nat, other: nat)
    requires UniqueKeys(s.tree) && Stores(s, SetStep(task, hash, source, now, node, copy), hash, TagOf(source))
    requires CanCopy(source) && Available(s.lock, other)
    ensures var s' := AfterDeleteUnused(AfterSet(s, task, hash, source, now, node, copy), other, later, true);
      ValueAt(s'.tree, hash, TagOf(source)).Hit? <==> now > Threshold(later)
  {
    hide IndexOf, Kept, UniqueKeys, CopyOf, CanCopy;
    var store := SetStep(task, hash, source, now, node, copy);
    var s' := After(s, store);
    StepKeepsKeys(s, store);
    SetIndex(s, store);
    StepOnValue(s', CleanupStep(other, later, true), hash, TagOf(source));
  }

  lemma SetIndex(s: State, step: Step)
    requires step.SetStep? && UniqueKeys(s.tree) && Enabled(s, step) && Stores(s, step, step.hash, TagOf(step.source))
    ensures var t := After(s, step).tree;
      var i := IndexOf(t, step.hash);
      i < |t| && t[i].stamp == step.now && TagOf(step.source) in t[i].values
  {
    hide IndexOf, CopyOf, CanCopy;
    var i, t := IndexOf(s.tree, step.hash), After(s, step).tree;
    if i == |s.tree| {
      AppendIndex(s.tree, t[i], step.hash);
    } else {
      SameKeysSameIndex(s.tree, t, step.hash);
    }
  }

  // ----- What the stamps are in runs ---------------------------------------------------------------

  predicate IsHit(s: State, step: Step) {
    step.GetStep? && Found(s, step.task, step.hash, step.tag).Hit?
  }

  /** The hits among the first `k` steps. */
  function Hits(states: seq<State>, steps: seq<Step>, k: nat): nat
    requires k <= |steps| < |states|
  {
    if k == 0 then 0 else Hits(states, steps, k - 1) + if IsHit(states[k - 1], steps[k - 1]) then 1 else 0
  }

  /** The counter that hits are stamped with is the number of hits since the start, and one. */
  lemma {:induction false} StampCountsHits(states: seq<State>, steps: seq<Step>, k: nat)
    requires IsRun(states, steps) && Starts(states) && k <= |steps|
    ensures states[k].globalStamp == (1 + Hits(states, steps, k)) % 0x1_0000_0000
  {
    if k > 0 {
      hide IndexOf, Kept, CanCopy;
      StampCountsHits(states, steps, k - 1);
      StepOnCounter(states[k - 1], steps[k - 1]);
      assert states[k] == After(states[k - 1], steps[k - 1]);
    }
  }

  lemma StepOnCounter(s: State, step: Step)
    requires Enabled(s, step)
    ensures After(s, step).globalStamp == if IsHit(s, step) then (s.globalStamp + 1) % WORD else s.globalStamp
  {
    hide IndexOf, Kept, CanCopy;
  }

  /** The step gets the semaphore and stamps the node for a hash. */
  ghost predicate Touches(s: State, step: Step, hash: nat) {
    match step
    case GetStep(task, h, _, _) => h == hash && Available(s.lock, task) && IndexOf(s.tree, hash) < |s.tree|
    case SetStep(_, _, source, _, _, _) => Replaces(s, step, hash, TagOf(source))
    case _ => false
  }

  /** Step `k` is the last that stamped the node for a hash. */
  ghost predicate LastTouch(states: seq<State>, steps: seq<Step>, hash: nat, k: nat)
    requires IsRun(states, steps)
  {
    && k < |steps| && Touches(states[k], steps[k], hash)
    && forall j :: k < j < |steps| ==> !Touches(states[j], steps[j], hash)
  }

  /** What step `k` stamps a node with: the number of hits or the time. */
  function StampBy(states: seq<State>, steps: seq<Step>, k: nat): nat
    requires k < |steps| < |states| && (steps[k].GetStep? || steps[k].SetStep?)
  {
    if IsHit(states[k], steps[k]) then (1 + Hits(states, steps, k)) % 0x1_0000_0000 else steps[k].now
  }

  lemma StepOnStamp(s: State, step: Step, hash: nat)
    requires Enabled(s, step) && UniqueKeys(s.tree)
    ensures var i, t := IndexOf(s.tree, hash), After(s, step).tree;
      var j := IndexOf(t, hash);
      j < |t| ==>
        if Touches(s, step, hash) then t[j].stamp == if IsHit(s, step) then s.globalStamp else step.now
        else i < |s.tree| && t[j].stamp == s.tree[i].stamp
  {
    hide IndexOf, Kept, Stale, CanCopy, CopyOf;
    var t := After(s, step).tree;
    if step.CleanupStep? {
      KeptIndex(s.tree, Threshold(step.now), hash);
    } else if step.SetStep? && |t| > |s.tree| {
      AppendIndex(s.tree, t[|s.tree|], hash);
    } else if !step.FlushStep? {
      SameKeysSameIndex(s.tree, t, hash);
    }
  }

  lemma LastTouchNext(states: seq<State>, steps: seq<Step>, hash: nat, k: nat)
    requires IsRun(states, steps) && steps != [] && IsRun(states[..|steps|], steps[..|steps| - 1])
    requires LastTouch(states[..|steps|], steps[..|steps| - 1], hash, k)
    requires !Touches(states[|steps| - 1], steps[|steps| - 1], hash)
    ensures LastTouch(states, steps, hash, k)
  {
    hide After, Enabled, Touches;
    assert forall j :: 0 <= j < |steps| ==> states[..|steps|][j] == states[j];
  }

  lemma {:induction false} HitsOfPrefix(states: seq<State>, steps: seq<Step>, m: nat, k: nat)
    requires k <= m <= |steps| < |states|
    ensures Hits(states[..m + 1], steps[..m], k) == Hits(states, steps, k)
  {
    if k > 0 {
      HitsOfPrefix(states, steps, m, k - 1);
    }
  }

  /** In every run from the empty cache, a node bears the stamp of the last step that
      stamped it. */
  lemma {:induction false} StampIsOfLastTouch(states: seq<State>, steps: seq<Step>, hash: nat) returns (k: nat)
    requires IsRun(states, steps) && Starts(states)
    requires IndexOf(states[|steps|].tree, hash) < |states[|steps|].tree|
    ensures LastTouch(states, steps, hash, k)
    ensures var t := states[|steps|].tree; t[IndexOf(t, hash)].stamp == StampBy(states, steps, k)
    decreases |steps|
  {
    hide IndexOf, Hits, IsHit, After, Enabled, UniqueKeys, Touches;
    if steps == [] {
      assert false;
    }
    var last := |steps| - 1;
    var states', steps' := states[..|steps|], steps[..last];
    RunPrefix(states, steps);
    RunKeepsKeys(states', steps');
    assert states'[last] == states[last] && states[|steps|] == After(states[last], steps[last]);
    StepOnStamp(states[last], steps[last], hash);
    StampCountsHits(states, steps, last);
    if Touches(states[last], steps[last], hash) {
      k := last;
      TouchesByGetOrSet(states[last], steps[last], hash);
    } else {
      k := StampIsOfLastTouch(states', steps', hash);
      LastTouchNext(states, steps, hash, k);
      HitsOfPrefix(states, steps, last, k);
    }
  }

  lemma TouchesByGetOrSet(s: State, step: Step, hash: nat)
    requires Touches(s, step, hash)
    ensures step.GetStep? || step.SetStep?
  {
  }

  /** In every run from the empty cache, a clean-up keeps a value that is there if and only
      if the step that stamped its node last stamped it above the threshold: one that
      stored, or looked for another value, with the time, and one that hit with the number
      of hits so far. */
  lemma SurvivesByLastTouch(states: seq<State>, steps: seq<Step>, hash: nat, tag: Tag, task: nat, now: nat)
    requires IsRun(states, steps) && Starts(states) && Available(states[|steps|].lock, task)
    requires ValueAt(states[|steps|].tree, hash, tag).Hit?
    ensures var s' := AfterDeleteUnused(states[|steps|], task, now, true);
      exists k: nat ::
        && LastTouch(states, steps, hash, k)
        && (ValueAt(s'.tree, hash, tag).Hit? <==> StampBy(states, steps, k) > Threshold(now))
  {
    hide IndexOf, Kept, UniqueKeys, After, Enabled, Touches, StampBy;
    var s := states[|steps|];
    RunKeepsKeys(states, steps);
    var k := StampIsOfLastTouch(states, steps, hash);
    CleanupIsExact(s, task, now, task, hash, tag);
  }

  /** A run in which a value is stored and read, all at one time: the next clean-up, at that
      same time, takes it away. */
  lemma FreshReadIsEvicted(states: seq<State>, steps: seq<Step>)
    requires IsRun(states, steps) && Starts(states)
    requires steps == [SetStep(1, 7, PointerTo(5), 100_000, 8, 0), GetStep(1, 7, MimeType, 100_000),
                       CleanupStep(1, 100_000, true)]
    ensures ValueAt(states[2].tree, 7, MimeType) == Hit(Pointer(5)) && states[3].tree == []
  {
    assert states[1] == After(states[0], steps[0]);
    var n := Node(7, 8, 100_000, map[MimeType := Pointer(5)]);
    var none: map<Tag, Value> := map[];
    assert none - {MimeType} == none;
    assert IndexOf(states[0].tree, 7) == 0 && states[1].tree == [n];
    assert states[2] == After(states[1], steps[1]) && states[2].tree == [n.(stamp := 1)];
    assert states[3] == After(states[2], steps[2]);
    assert Stale(states[2].tree[0], Threshold(100_000));
  }

  // ----- The semaphore in runs ----------------------------------------------------------------------

  /** Thumbnail hits less unlocks of a task among the first `k` steps. */
  function Excess(states: seq<State>, steps: seq<Step>, task: nat, k: nat): int
    requires k <= |steps| < |states|
  {
    if k == 0 then 0
    else
      var s, step := states[k - 1], steps[k - 1];
      Excess(states, steps, task, k - 1)
      + (if step.task != task then 0
         else if step.UnlockStep? then -1
         else if IsHit(s, step) && step.tag == Thumbnail then 1
         else 0)
  }

  lemma StepOnLock(s: State, step: Step)
    requires Enabled(s, step) && (s.lock.Held? ==> s.lock.nest > 0)
    ensures After(s, step).lock ==
      if step.UnlockStep? then if s.lock.nest == 1 then Free else Held(s.lock.task, s.lock.nest - 1)
      else if IsHit(s, step) && step.tag == Thumbnail then Held(step.task, if s.lock.Free? then 1 else s.lock.nest + 1)
      else s.lock
    ensures step.UnlockStep? ==> s.lock.Held? && s.lock.task == step.task
    ensures IsHit(s, step) ==> s.lock.Free? || s.lock.task == step.task
  {
    hide IndexOf, Kept, CanCopy;
  }

  lemma {:induction false} LockCounts(states: seq<State>, steps: seq<Step>, k: nat)
    requires IsRun(states, steps) && Starts(states) && k <= |steps|
    ensures match states[k].lock
      case Free => forall task: nat :: Excess(states, steps, task, k) == 0
      case Held(holder, nest) =>
        && nest > 0
        && forall task: nat :: Excess(states, steps, task, k) == if task == holder then nest else 0
  {
    if k > 0 {
      hide After, Enabled, IsHit;
      LockCounts(states, steps, k - 1);
      assert states[k] == After(states[k - 1], steps[k - 1]);
      StepOnLock(states[k - 1], steps[k - 1]);
    }
  }

  /** In every run from the empty cache, a task holds the semaphore with a nesting of `nest`
      if and only if it has had exactly that many thumbnail hits more than unlocks; the
      semaphore is free if and only if no task has had more. Whatever is found apart from
      thumbnails, stored, invalidated, cleaned up or flushed, the semaphore is given back. */
  lemma HeldIffUnpaid(states: seq<State>, steps: seq<Step>, k: nat)
    requires IsRun(states, steps) && Starts(states) && k <= |steps|
    ensures forall task: nat, nest: nat :: nest > 0 ==>
      (states[k].lock == Held(task, nest) <==> Excess(states, steps, task, k) == nest)
    ensures states[k].lock == Free <==> forall task: nat :: Excess(states, steps, task, k) <= 0
    ensures forall task: nat :: Excess(states, steps, task, k) >= 0
  {
    LockCounts(states, steps, k);
    hide Excess;
    match states[k].lock
    case Free =>
    case Held(holder, nest) => assert Excess(states, steps, holder, k) > 0;
  }

  // ----- How long a value stays ---------------------------------------------------------------------

  /** Once the clock has run for half an hour, a value that was stored at time `t` survives a
      clean-up if and only if that is less than half an hour ago. */
  lemma StaysHalfAnHour(s: State, task: nat, hash: nat, source: Source, t: nat, node: nat, copy: nat,
                        now: nat, other: nat)
    requires UniqueKeys(s.tree) && Stores(s, SetStep(task, hash, source, t, node, copy), hash, TagOf(source))
    requires CanCopy(source) && Available(s.lock, other) && 1800 <= now < WORD
    ensures var s' := AfterDeleteUnused(AfterSet(s, task, hash, source, t, node, copy), other, now, true);
      ValueAt(s'.tree, hash, TagOf(source)) ==
        if now - t < 1800 then Hit(CopyOf(source, copy)) else Miss
  {
    hide IndexOf, Kept, UniqueKeys, CopyOf, CanCopy, Stores, ValueAt;
    StoredNodeSurvives(s, task, hash, source, t, node, copy, now, other);
    StoredStays(s, task, hash, source, t, node, copy, now, other);
    ThresholdIs(now);
  }

  lemma ThresholdIs(now: nat)
    requires 1800 <= now < WORD
    ensures Threshold(now) == now - 1800
  {
  }

  lemma StoredStays(s: State, task: nat, hash: nat, source: Source, t: nat, node: nat, copy: nat, now: nat, other: nat)
    requires UniqueKeys(s.tree) && Stores(s, SetStep(task, hash, source, t, node, copy), hash, TagOf(source))
    requires CanCopy(source)
    ensures var s' := AfterDeleteUnused(AfterSet(s, task, hash, source, t, node, copy), other, now, true);
      var r := ValueAt(s'.tree, hash, TagOf(source));
      r == Miss || r == Hit(CopyOf(source, copy))
  {
    hide IndexOf, Kept, UniqueKeys, CopyOf, CanCopy, ValueAt, Stale;
    var store := SetStep(task, hash, source, t, node, copy);
    StepOnValue(s, store, hash, TagOf(source));
    StepKeepsKeys(s, store);
    StepOnValue(After(s, store), CleanupStep(other, now, true), hash, TagOf(source));
  }
}
