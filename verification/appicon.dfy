/** Application icons: the list shared between the programs that add and remove entries and
    the desktop that shows them, with icons that load asynchronously. */
module AppIcons {

  /** How the creation of an icon ends: shown at once, failed, or left to a load. */
  datatype Outcome = Shown | Failed | Async

  /** What happens to an entry. `Freed` is the deletion of the pool it lives in. */
  datatype Event = Added | Created(outcome: Outcome) | LoadEnded(ok: bool) | Deleted | Freed

  datatype Entry = Entry(id: nat, isNew: bool, loaded: bool, removed: bool)

  /** The list, the entries whose icons are being loaded, the icons in the view, and for
      every entry there ever was what has happened to it. */
  datatype State = State(entries: seq<Entry>, loading: set<nat>, view: set<nat>, history: seq<seq<Event>>)

  // ----- The steps ---------------------------------------------------------------------------

  function Happened(s: State, id: nat, events: seq<Event>): State {
    if id < |s.history| then s.(history := s.history[id := s.history[id] + events]) else s
  }

  /** The position of an entry on the list, or the length of the list. */
  function IndexOf(entries: seq<Entry>, id: nat): (i: nat)
    ensures i <= |entries| && (i < |entries| ==> entries[i].id == id)
    ensures forall k :: 0 <= k < i ==> entries[k].id != id
  {
    if entries == [] || entries[0].id == id then 0 else IndexOf(entries[1..], id) + 1
  }

  function TakeOff(entries: seq<Entry>, i: nat): seq<Entry>
    requires i < |entries|
  {
    entries[..i] + entries[i + 1..]
  }

  /** A program adds an entry. */
  function AfterAdd(s: State): State {
    State(s.entries + [Entry(|s.history|, true, false, false)], s.loading, s.view, s.history + [[Added]])
  }

  /** A program removes an entry: one that is still new is freed, any other is left to the
      desktop. */
  function AfterRemove(s: State, id: nat): State {
    var i := IndexOf(s.entries, id);
    if i == |s.entries| then s
    else if s.entries[i].isNew then Happened(s, id, [Freed]).(entries := TakeOff(s.entries, i))
    else s.(entries := s.entries[i := s.entries[i].(removed := true)])
  }

  /** The desktop drops an entry with its icon. */
  function Dropped(s: State, i: nat): State
    requires i < |s.entries|
  {
    var id := s.entries[i].id;
    Happened(s, id, [Deleted, Freed]).(entries := TakeOff(s.entries, i), view := s.view - {id})
  }

  /** The desktop creates the icon of an entry. */
  function CreatedIcon(s: State, i: nat, outcome: Outcome): State
    requires i < |s.entries|
  {
    var e := s.entries[i];
    Happened(s, e.id, [Created(outcome)]).(
      entries := s.entries[i := e.(isNew := false, loaded := e.loaded || outcome != Async)],
      loading := if outcome == Async then s.loading + {e.id} else s.loading,
      view := if outcome == Shown then s.view + {e.id} else s.view)
  }

  predicate Removable(e: Entry) {
    e.removed && e.loaded
  }

  /** The first pass, from position `i` on: removed entries that are loaded are dropped. */
  function RemovePass(s: State, i: nat): State
    requires i <= |s.entries|
    decreases |s.entries| - i
  {
    if i == |s.entries| then s
    else if Removable(s.entries[i]) then RemovePass(Dropped(s, i), i)
    else RemovePass(s, i + 1)
  }

  /** The second pass, from position `i` on: the icons of new entries are created. */
  function CreatePass(s: State, outcomes: nat -> Outcome, i: nat): State
    requires i <= |s.entries|
    decreases |s.entries| - i
  {
    if i == |s.entries| then s
    else if s.entries[i].isNew then CreatePass(CreatedIcon(s, i, outcomes(s.entries[i].id)), outcomes, i + 1)
    else CreatePass(s, outcomes, i + 1)
  }

  function AfterSync(s: State, outcomes: nat -> Outcome): State {
    CreatePass(RemovePass(s, 0), outcomes, 0)
  }

  /** The entry is marked as loaded if it is on the list. */
  function Marked(s: State, id: nat): State {
    var i := IndexOf(s.entries, id);
    if i == |s.entries| then s else s.(entries := s.entries[i := s.entries[i].(loaded := true)])
  }

  /** The load of an icon ends. Only after success is the entry marked, and the list
      synchronized again. */
  function AfterLoad(s: State, id: nat, ok: bool, outcomes: nat -> Outcome): State {
    var ended := Happened(s, id, [LoadEnded(ok)]).(loading := s.loading - {id});
    if ok then AfterSync(Marked(ended.(view := s.view + {id}), id), outcomes) else ended
  }

  datatype Step =
    | Add
    | Remove(id: nat)
    | Sync(outcomes: nat -> Outcome)
    | Load(id: nat, ok: bool, outcomes: nat -> Outcome)

  ghost predicate Enabled(s: State, step: Step) {
    step.Load? ==> step.id in s.loading
  }

  function After(s: State, step: Step): State {
    match step
    case Add => AfterAdd(s)
    case Remove(id) => AfterRemove(s, id)
    case Sync(outcomes) => AfterSync(s, outcomes)
    case Load(id, ok, outcomes) => AfterLoad(s, id, ok, outcomes)
  }

  const INITIAL := State([], {}, {}, [])

  // ----- The life of an entry -------------------------------------------------------------------

  /** The complete lives an entry can have: freed while new; created, its icon deleted and
      freed; with a load that ends well in between; or with a load that fails, which is
      never followed by anything. */
  ghost predicate IsLife(es: seq<Event>) {
    || es == [Added, Freed]
    || es == [Added, Created(Shown), Deleted, Freed]
    || es == [Added, Created(Failed), Deleted, Freed]
    || es == [Added, Created(Async), LoadEnded(true), Deleted, Freed]
    || es == [Added, Created(Async), LoadEnded(false)]
  }

  ghost predicate IsLifeSoFar(es: seq<Event>) {
    exists life :: IsLife(life) && es <= life
  }

  /** What has happened to an entry, by its flags and whether it is being loaded. */
  ghost predicate Fits(es: seq<Event>, e: Entry, loading: bool, shown: bool) {
    if e.isNew then es == [Added] && !e.loaded && !e.removed && !loading && !shown
    else if e.loaded then
      && !loading
      && if shown then es == [Added, Created(Shown)] || es == [Added, Created(Async), LoadEnded(true)]
         else es == [Added, Created(Failed)]
    else
      && !shown
      && es == if loading then [Added, Created(Async)] else [Added, Created(Async), LoadEnded(false)]
  }

  ghost predicate IsOver(es: seq<Event>) {
    IsLife(es) && es[|es| - 1] == Freed
  }

  ghost predicate DistinctIds(entries: seq<Entry>) {
    forall i, j :: 0 <= i < j < |entries| ==> entries[i].id != entries[j].id
  }

  ghost predicate OnList(entries: seq<Entry>, id: nat) {
    exists i :: 0 <= i < |entries| && entries[i].id == id
  }

  /** Entries on the list fit what has happened to them; all others are over, and are
      neither loading nor shown. */
  ghost predicate Inv(s: State) {
    && DistinctIds(s.entries)
    && (forall i :: 0 <= i < |s.entries| ==> s.entries[i].id < |s.history|)
    && (forall i :: 0 <= i < |s.entries| ==>
          var id := s.entries[i].id; Fits(s.history[id], s.entries[i], id in s.loading, id in s.view))
    && (forall id: nat :: id < |s.history| && !OnList(s.entries, id) ==> IsOver(s.history[id]))
    && (forall id :: id in s.loading || id in s.view ==> OnList(s.entries, id))
  }

  lemma AddKeepsInv(s: State)
    requires Inv(s)
    ensures Inv(AfterAdd(s))
  {
    var s' := AfterAdd(s);
    assert s'.entries[|s.entries|].id == |s.history|;
    assert forall i :: 0 <= i < |s.entries| ==> s'.entries[i] == s.entries[i];
    forall id: nat | OnList(s.entries, id)
      ensures OnList(s'.entries, id)
    {
    }
  }

  /** Entries other than `id` are on the list as before. */
  lemma TakenOff(entries: seq<Entry>, i: nat)
    requires DistinctIds(entries) && i < |entries|
    ensures DistinctIds(TakeOff(entries, i)) && !OnList(TakeOff(entries, i), entries[i].id)
    ensures forall id :: id != entries[i].id ==> (OnList(TakeOff(entries, i), id) <==> OnList(entries, id))
  {
    var left := TakeOff(entries, i);
    forall id | id != entries[i].id && OnList(entries, id)
      ensures OnList(left, id)
    {
      var k :| 0 <= k < |entries| && entries[k].id == id;
      assert left[if k < i then k else k - 1].id == id;
    }
  }

  /** An entry that is taken off the list and freed. */
  lemma FreedKeepsInv(s: State, i: nat, events: seq<Event>)
    requires Inv(s) && i < |s.entries| && IsOver(s.history[s.entries[i].id] + events)
    ensures var id := s.entries[i].id;
      var s' := Happened(s, id, events);
      Inv(s'.(entries := TakeOff(s.entries, i), view := s.view - {id}, loading := s.loading - {id}))
  {
    hide Fits, IsOver;
    TakenOff(s.entries, i);
  }

  /** An entry that changes, with what happens to it. */
  lemma ChangedKeepsInv(s: State, i: nat, e: Entry, events: seq<Event>, loading: set<nat>, view: set<nat>)
    requires Inv(s) && i < |s.entries| && e.id == s.entries[i].id
    requires Fits(s.history[e.id] + events, e, e.id in loading, e.id in view)
    requires loading - {e.id} == s.loading - {e.id} && view - {e.id} == s.view - {e.id}
    ensures Inv(Happened(s, e.id, events).(entries := s.entries[i := e], loading := loading, view := view))
  {
    hide Fits, IsOver;
    var entries := s.entries[i := e];
    forall id | OnList(s.entries, id)
      ensures OnList(entries, id)
    {
      var k :| 0 <= k < |s.entries| && s.entries[k].id == id;
      assert entries[k].id == id;
    }
    forall id | OnList(entries, id)
      ensures OnList(s.entries, id)
    {
      var k :| 0 <= k < |entries| && entries[k].id == id;
      assert s.entries[k].id == id;
    }
    assert entries[i].id == e.id;
    forall id | id in loading || id in view
      ensures OnList(entries, id)
    {
      if id != e.id {
        assert (id in loading - {e.id}) || (id in view - {e.id});
      }
    }
    forall k | 0 <= k < |entries| && k != i
      ensures entries[k].id != e.id && (entries[k].id in loading <==> entries[k].id in s.loading)
      ensures entries[k].id in view <==> entries[k].id in s.view
    {
      assert entries[k].id in loading <==> entries[k].id in loading - {e.id};
      assert entries[k].id in s.loading <==> entries[k].id in s.loading - {e.id};
      assert entries[k].id in view <==> entries[k].id in view - {e.id};
      assert entries[k].id in s.view <==> entries[k].id in s.view - {e.id};
    }
  }

  lemma RemoveKeepsInv(s: State, id: nat)
    requires Inv(s)
    ensures Inv(AfterRemove(s, id))
  {
    hide IndexOf;
    var i := IndexOf(s.entries, id);
    if i < |s.entries| {
      var e := s.entries[i];
      if e.isNew {
        FreedKeepsInv(s, i, [Freed]);
        assert s.view - {id} == s.view && s.loading - {id} == s.loading;
      } else {
        assert s.history[id] + [] == s.history[id];
        assert s.history[id := s.history[id]] == s.history;
        ChangedKeepsInv(s, i, e.(removed := true), [], s.loading, s.view);
      }
    }
  }

  lemma DroppedKeepsInv(s: State, i: nat)
    requires Inv(s) && i < |s.entries| && s.entries[i].loaded
    ensures Inv(Dropped(s, i))
  {
    var id := s.entries[i].id;
    FreedKeepsInv(s, i, [Deleted, Freed]);
    assert s.loading - {id} == s.loading;
  }

  lemma CreatedKeepsInv(s: State, i: nat, outcome: Outcome)
    requires Inv(s) && i < |s.entries| && s.entries[i].isNew
    ensures Inv(CreatedIcon(s, i, outcome))
  {
    var e := s.entries[i];
    var s' := CreatedIcon(s, i, outcome);
    ChangedKeepsInv(s, i, s'.entries[i], [Created(outcome)], s'.loading, s'.view);
  }

  lemma {:induction false} RemovePassKeepsInv(s: State, i: nat)
    requires Inv(s) && i <= |s.entries|
    ensures Inv(RemovePass(s, i))
    decreases |s.entries| - i
  {
    hide Inv;
    if i < |s.entries| {
      if s.entries[i].removed && s.entries[i].loaded {
        DroppedKeepsInv(s, i);
        RemovePassKeepsInv(Dropped(s, i), i);
      } else {
        RemovePassKeepsInv(s, i + 1);
      }
    }
  }

  lemma {:induction false} CreatePassKeepsInv(s: State, outcomes: nat -> Outcome, i: nat)
    requires Inv(s) && i <= |s.entries|
    ensures Inv(CreatePass(s, outcomes, i))
    decreases |s.entries| - i
  {
    hide Inv;
    if i < |s.entries| {
      if s.entries[i].isNew {
        CreatedKeepsInv(s, i, outcomes(s.entries[i].id));
        CreatePassKeepsInv(CreatedIcon(s, i, outcomes(s.entries[i].id)), outcomes, i + 1);
      } else {
        CreatePassKeepsInv(s, outcomes, i + 1);
      }
    }
  }

  lemma SyncKeepsInv(s: State, outcomes: nat -> Outcome)
    requires Inv(s)
    ensures Inv(AfterSync(s, outcomes))
  {
    hide Inv;
    RemovePassKeepsInv(s, 0);
    CreatePassKeepsInv(RemovePass(s, 0), outcomes, 0);
  }

  /** Loading icons belong to entries that are on the list and not loaded. */
  lemma LoadingIsListed(s: State, id: nat) returns (i: nat)
    requires Inv(s) && id in s.loading
    ensures i < |s.entries| && i == IndexOf(s.entries, id) && s.entries[i].id == id && id < |s.history|
    ensures !s.entries[i].isNew && !s.entries[i].loaded && id !in s.view && s.history[id] == [Added, Created(Async)]
  {
    hide IndexOf;
    assert OnList(s.entries, id);
    i := IndexOf(s.entries, id);
    var k :| 0 <= k < |s.entries| && s.entries[k].id == id;
    assert i < |s.entries|;
    assert Fits(s.history[id], s.entries[i], true, id in s.view);
  }

  lemma MarkedInv(s: State, id: nat)
    requires Inv(s) && id in s.loading
    ensures DistinctIds(s.entries)
    ensures Inv(Marked(Happened(s, id, [LoadEnded(true)]).(loading := s.loading - {id}, view := s.view + {id}), id))
  {
    hide IndexOf;
    var i := LoadingIsListed(s, id);
    assert [Added, Created(Async)] + [LoadEnded(true)] == [Added, Created(Async), LoadEnded(true)];
    ChangedKeepsInv(s, i, s.entries[i].(loaded := true), [LoadEnded(true)], s.loading - {id}, s.view + {id});
  }

  lemma LoadKeepsInv(s: State, id: nat, ok: bool, outcomes: nat -> Outcome)
    requires Inv(s) && id in s.loading
    ensures Inv(AfterLoad(s, id, ok, outcomes))
  {
    hide IndexOf, AfterSync;
    if ok {
      MarkedInv(s, id);
      var ended := Happened(s, id, [LoadEnded(true)]).(loading := s.loading - {id}, view := s.view + {id});
      SyncKeepsInv(Marked(ended, id), outcomes);
    } else {
      var i := LoadingIsListed(s, id);
      var e := s.entries[i];
      assert [Added, Created(Async)] + [LoadEnded(false)] == [Added, Created(Async), LoadEnded(false)];
      ChangedKeepsInv(s, i, e, [LoadEnded(false)], s.loading - {id}, s.view);
      assert s.entries[i := e] == s.entries;
    }
  }

  lemma StepKeepsInv(s: State, step: Step)
    requires Inv(s) && Enabled(s, step)
    ensures Inv(After(s, step))
  {
    hide Inv;
    match step
    case Add => AddKeepsInv(s);
    case Remove(id) => RemoveKeepsInv(s, id);
    case Sync(outcomes) => SyncKeepsInv(s, outcomes);
    case Load(id, ok, outcomes) => LoadKeepsInv(s, id, ok, outcomes);
  }

  // ----- Every run --------------------------------------------------------------------------------

  ghost predicate IsRun(states: seq<State>, steps: seq<Step>) {
    && |states| == |steps| + 1 && states[0] == INITIAL
    && forall k :: 0 <= k < |steps| ==> Enabled(states[k], steps[k]) && states[k + 1] == After(states[k], steps[k])
  }

  lemma {:induction false} RunKeepsInv(states: seq<State>, steps: seq<Step>, k: nat)
    requires IsRun(states, steps) && k < |states|
    ensures Inv(states[k])
  {
    if k > 0 {
      hide Inv, After, Enabled;
      RunKeepsInv(states, steps, k - 1);
      StepKeepsInv(states[k - 1], steps[k - 1]);
    }
  }

  lemma FitsIsLifeSoFar(es: seq<Event>, e: Entry, loading: bool, shown: bool)
    requires Fits(es, e, loading, shown)
    ensures IsLifeSoFar(es)
  {
    var life := if es == [Added] then [Added, Freed]
      else if es[1] == Created(Shown) then [Added, Created(Shown), Deleted, Freed]
      else if es[1] == Created(Failed) then [Added, Created(Failed), Deleted, Freed]
      else if |es| == 3 && es[2] == LoadEnded(false) then [Added, Created(Async), LoadEnded(false)]
      else [Added, Created(Async), LoadEnded(true), Deleted, Freed];
    assert IsLife(life) && es <= life;
  }

  /** In every run, whatever order programs, desktop and loads take their steps in, the
      events of every entry are the start of one of the lives above: its icon is created at
      most once, its pool is deleted at most once and only after its creation and load have
      ended and its icon was deleted, and nothing happens to it afterwards. An entry is off
      the list exactly if its pool has been deleted. */
  lemma EveryLifeIsOrderly(states: seq<State>, steps: seq<Step>, k: nat, id: nat)
    requires IsRun(states, steps) && k < |states| && id < |states[k].history|
    ensures IsLifeSoFar(states[k].history[id])
    ensures OnList(states[k].entries, id) <==> Freed !in states[k].history[id]
  {
    var s := states[k];
    RunKeepsInv(states, steps, k);
    if OnList(s.entries, id) {
      var i :| 0 <= i < |s.entries| && s.entries[i].id == id;
      FitsIsLifeSoFar(s.history[id], s.entries[i], id in s.loading, id in s.view);
      assert Freed !in s.history[id];
    } else {
      assert IsOver(s.history[id]);
      var es := s.history[id];
      assert es[|es| - 1] == Freed;
    }
  }

  // ----- Every new entry gets its icon ---------------------------------------------------------

  /** The second pass leaves no new entry. */
  lemma {:induction false} CreatePassLeavesNoNew(s: State, outcomes: nat -> Outcome, i: nat)
    requires i <= |s.entries| && forall k :: 0 <= k < i ==> !s.entries[k].isNew
    ensures forall e :: e in CreatePass(s, outcomes, i).entries ==> !e.isNew
    decreases |s.entries| - i
  {
    if i < |s.entries| {
      var next := if s.entries[i].isNew then CreatedIcon(s, i, outcomes(s.entries[i].id)) else s;
      CreatePassLeavesNoNew(next, outcomes, i + 1);
    }
  }

  lemma {:induction false} CreatePassOther(s: State, outcomes: nat -> Outcome, i: nat, id: nat)
    requires i <= |s.entries| && id < |s.history| && forall k :: i <= k < |s.entries| ==> s.entries[k].id != id
    ensures var r := CreatePass(s, outcomes, i); |r.history| == |s.history| && r.history[id] == s.history[id]
    decreases |s.entries| - i
  {
    if i < |s.entries| {
      var next := if s.entries[i].isNew then CreatedIcon(s, i, outcomes(s.entries[i].id)) else s;
      CreatePassOther(next, outcomes, i + 1, id);
    }
  }

  /** The second pass creates the icon of each new entry, once. */
  lemma {:induction false} CreatePassCreates(s: State, outcomes: nat -> Outcome, i: nat, k: nat)
    requires DistinctIds(s.entries) && i <= k < |s.entries| && s.entries[k].isNew && s.entries[k].id < |s.history|
    ensures var r, id := CreatePass(s, outcomes, i), s.entries[k].id;
      |r.history| == |s.history| && r.history[id] == s.history[id] + [Created(outcomes(id))]
    decreases |s.entries| - i
  {
    var next := if s.entries[i].isNew then CreatedIcon(s, i, outcomes(s.entries[i].id)) else s;
    if i < k {
      CreatePassCreates(next, outcomes, i + 1, k);
    } else {
      CreatePassOther(next, outcomes, i + 1, s.entries[k].id);
    }
  }

  /** The first pass touches no entry that is to stay. */
  lemma {:induction false} RemovePassOther(s: State, i: nat, id: nat)
    requires i <= |s.entries| && id < |s.history|
    requires forall k :: i <= k < |s.entries| && s.entries[k].id == id ==> !Removable(s.entries[k])
    ensures var r := RemovePass(s, i); |r.history| == |s.history| && r.history[id] == s.history[id]
    decreases |s.entries| - i
  {
    if i < |s.entries| {
      if Removable(s.entries[i]) {
        RemovePassOther(Dropped(s, i), i, id);
      } else {
        RemovePassOther(s, i + 1, id);
      }
    }
  }

  /** A synchronization creates the icon of every new entry and leaves none new. */
  lemma SyncCreatesAll(s: State, outcomes: nat -> Outcome)
    requires Inv(s)
    ensures forall e :: e in AfterSync(s, outcomes).entries ==> !e.isNew
    ensures forall e :: e in s.entries && e.isNew ==>
      var history := AfterSync(s, outcomes).history;
      e.id < |history| && history[e.id] == [Added, Created(outcomes(e.id))]
  {
    var kept := RemovePass(s, 0);
    RemovePassKeeps(s, 0);
    RemovePassKeepsInv(s, 0);
    CreatePassLeavesNoNew(kept, outcomes, 0);
    forall e | e in s.entries && e.isNew
      ensures e.id < |AfterSync(s, outcomes).history|
      ensures AfterSync(s, outcomes).history[e.id] == [Added, Created(outcomes(e.id))]
    {
      var i :| 0 <= i < |s.entries| && s.entries[i] == e;
      assert Fits(s.history[e.id], e, e.id in s.loading, e.id in s.view);
      RemovePassOther(s, 0, e.id);
      assert e in kept.entries;
      var k :| 0 <= k < |kept.entries| && kept.entries[k] == e;
      CreatePassCreates(kept, outcomes, 0, k);
      assert [Added] + [Created(outcomes(e.id))] == [Added, Created(outcomes(e.id))];
    }
  }

  predicate WasCreated(es: seq<Event>) {
    |es| >= 2 && es[0] == Added && es[1].Created?
  }

  /** Every entry on the list has had its icon created. */
  ghost predicate AllCreated(s: State) {
    forall e :: e in s.entries ==> e.id < |s.history| && WasCreated(s.history[e.id])
  }

  lemma ListedIsCreated(s: State)
    requires Inv(s) && forall e :: e in s.entries ==> !e.isNew
    ensures AllCreated(s)
  {
    forall e | e in s.entries
      ensures e.id < |s.history| && WasCreated(s.history[e.id])
    {
      var i :| 0 <= i < |s.entries| && s.entries[i] == e;
      assert Fits(s.history[e.id], e, e.id in s.loading, e.id in s.view);
    }
  }

  /** In every run, each synchronization creates the icon of every entry that was new, with
      the outcome it has, and after it, or after a load that ended well, every entry on the
      list has had its icon created. */
  lemma EveryNewEntryIsCreated(states: seq<State>, steps: seq<Step>, k: nat)
    requires IsRun(states, steps) && k < |steps|
    ensures Inv(states[k]) && Inv(states[k + 1])
    ensures steps[k].Sync? ==> forall e :: e in states[k].entries && e.isNew ==>
      && e.id < |states[k + 1].history|
      && states[k + 1].history[e.id] == [Added, Created(steps[k].outcomes(e.id))]
    ensures steps[k].Sync? || (steps[k].Load? && steps[k].ok) ==> AllCreated(states[k + 1])
  {
    hide Inv, AfterSync;
    RunKeepsInv(states, steps, k);
    RunKeepsInv(states, steps, k + 1);
    match steps[k] {
      case Sync(outcomes) =>
        SyncCreatesAll(states[k], outcomes);
        ListedIsCreated(states[k + 1]);
      case Load(id, ok, outcomes) =>
        if ok {
          MarkedInv(states[k], id);
          var ended := Happened(states[k], id, [LoadEnded(true)]).(loading := states[k].loading - {id});
          SyncCreatesAll(Marked(ended.(view := states[k].view + {id}), id), outcomes);
          ListedIsCreated(states[k + 1]);
        }
      case _ =>
    }
  }

  // ----- Which removed entries stay -----------------------------------------------------------------

  /** The first pass keeps exactly the entries that are not both removed and loaded. */
  lemma {:induction false} RemovePassKeeps(s: State, i: nat)
    requires i <= |s.entries| && forall k :: 0 <= k < i ==> !Removable(s.entries[k])
    ensures forall e :: e in RemovePass(s, i).entries <==> e in s.entries && !Removable(e)
    decreases |s.entries| - i
  {
    if i < |s.entries| {
      if Removable(s.entries[i]) {
        var left := TakeOff(s.entries, i);
        RemovePassKeeps(Dropped(s, i), i);
        forall e | e in s.entries && !Removable(e)
          ensures e in left
        {
          var k :| 0 <= k < |s.entries| && s.entries[k] == e;
          assert left[if k < i then k else k - 1] == e;
        }
      } else {
        RemovePassKeeps(s, i + 1);
      }
    }
  }

  /** The second pass keeps every entry on the list, and those that are not new as they are. */
  lemma {:induction false} CreatePassKeeps(s: State, outcomes: nat -> Outcome, i: nat)
    requires i <= |s.entries|
    ensures var r := CreatePass(s, outcomes, i);
      && |r.entries| == |s.entries|
      && forall k :: 0 <= k < |s.entries| ==>
           && r.entries[k].id == s.entries[k].id && r.entries[k].removed == s.entries[k].removed
           && (!s.entries[k].isNew ==> r.entries[k] == s.entries[k])
    decreases |s.entries| - i
  {
    if i < |s.entries| {
      var next := if s.entries[i].isNew then CreatedIcon(s, i, outcomes(s.entries[i].id)) else s;
      CreatePassKeeps(next, outcomes, i + 1);
    }
  }

  /** A removed entry outlives a synchronization exactly if its icon is still being loaded
      or could not be loaded. */
  lemma RemovedStays(s: State, outcomes: nat -> Outcome, i: nat)
    requires Inv(s) && i < |s.entries| && s.entries[i].removed
    ensures var id := s.entries[i].id;
      OnList(AfterSync(s, outcomes).entries, id) <==>
        id in s.loading || s.history[id] == [Added, Created(Async), LoadEnded(false)]
  {
    var e, kept, synced := s.entries[i], RemovePass(s, 0), AfterSync(s, outcomes);
    RemovePassKeeps(s, 0);
    CreatePassKeeps(kept, outcomes, 0);
    assert Fits(s.history[e.id], e, e.id in s.loading, e.id in s.view);
    assert e in s.entries;
    if e.loaded {
      forall k | 0 <= k < |kept.entries|
        ensures kept.entries[k].id != e.id
      {
        assert kept.entries[k] in kept.entries;
        var j :| 0 <= j < |s.entries| && s.entries[j] == kept.entries[k];
      }
    } else {
      assert e in kept.entries;
      var k :| 0 <= k < |kept.entries| && kept.entries[k] == e;
      assert synced.entries[k].id == e.id;
    }
  }

  lemma {:induction false} RemovePassHistory(s: State, i: nat, id: nat)
    requires i <= |s.entries| && id < |s.history|
    ensures var r := RemovePass(s, i); |r.history| == |s.history| && s.history[id] <= r.history[id]
    decreases |s.entries| - i
  {
    if i < |s.entries| {
      if Removable(s.entries[i]) {
        RemovePassHistory(Dropped(s, i), i, id);
      } else {
        RemovePassHistory(s, i + 1, id);
      }
    }
  }

  lemma {:induction false} CreatePassHistory(s: State, outcomes: nat -> Outcome, i: nat, id: nat)
    requires i <= |s.entries| && id < |s.history|
    ensures var r := CreatePass(s, outcomes, i); |r.history| == |s.history| && s.history[id] <= r.history[id]
    decreases |s.entries| - i
  {
    if i < |s.entries| {
      var next := if s.entries[i].isNew then CreatedIcon(s, i, outcomes(s.entries[i].id)) else s;
      CreatePassHistory(next, outcomes, i + 1, id);
    }
  }

  lemma SyncHistory(s: State, outcomes: nat -> Outcome, id: nat)
    requires id < |s.history|
    ensures var r := AfterSync(s, outcomes); |r.history| == |s.history| && s.history[id] <= r.history[id]
  {
    RemovePassHistory(s, 0, id);
    CreatePassHistory(RemovePass(s, 0), outcomes, 0, id);
  }

  lemma StepHistory(s: State, step: Step, id: nat)
    requires id < |s.history|
    ensures id < |After(s, step).history| && s.history[id] <= After(s, step).history[id]
  {
    match step
    case Sync(outcomes) => SyncHistory(s, outcomes, id);
    case Load(l, ok, outcomes) =>
      var ended := Happened(s, l, [LoadEnded(ok)]).(loading := s.loading - {l});
      if ok {
        SyncHistory(Marked(ended.(view := s.view + {l}), l), outcomes, id);
      }
    case _ =>
  }

  /** After a load has failed nothing ever happens to the entry again; it stays on the list,
      removed or not. */
  lemma FailedLoadStays(s: State, step: Step, id: nat)
    requires Inv(s) && Enabled(s, step) && id < |s.history|
    requires s.history[id] == [Added, Created(Async), LoadEnded(false)]
    ensures var s' := After(s, step);
      id < |s'.history| && s'.history[id] == s.history[id] && OnList(s'.entries, id)
  {
    hide After;
    var s' := After(s, step);
    StepHistory(s, step, id);
    StepKeepsInv(s, step);
    var es := s'.history[id];
    assert es[0] == Added && es[1] == Created(Async) && es[2] == LoadEnded(false);
    assert OnList(s'.entries, id) || IsOver(es);
    if OnList(s'.entries, id) {
      var i :| 0 <= i < |s'.entries| && s'.entries[i].id == id;
      assert Fits(es, s'.entries[i], id in s'.loading, id in s'.view);
    }
  }

  /** So it is in every run, from the failure on. */
  lemma {:induction false} FailedLoadStaysForever(states: seq<State>, steps: seq<Step>, k: nat, l: nat, id: nat)
    requires IsRun(states, steps) && k <= l < |states| && id < |states[k].history|
    requires states[k].history[id] == [Added, Created(Async), LoadEnded(false)]
    ensures id < |states[l].history| && states[l].history[id] == states[k].history[id]
    ensures OnList(states[l].entries, id)
  {
    hide After, Inv;
    if k < l {
      FailedLoadStaysForever(states, steps, k, l - 1, id);
      RunKeepsInv(states, steps, l - 1);
      FailedLoadStays(states[l - 1], steps[l - 1], id);
    } else {
      RunKeepsInv(states, steps, k);
      FailedIsListed(states[k], id);
    }
  }

  lemma FailedIsListed(s: State, id: nat)
    requires Inv(s) && id < |s.history| && s.history[id] == [Added, Created(Async), LoadEnded(false)]
    ensures OnList(s.entries, id)
  {
  }

  // ----- The order of the list ------------------------------------------------------------------------

  /** Entries are numbered in the order in which they were added. */
  ghost predicate InOrder(entries: seq<Entry>) {
    forall i, j :: 0 <= i < j < |entries| ==> entries[i].id < entries[j].id
  }

  lemma {:induction false} RemovePassOrder(s: State, i: nat)
    requires i <= |s.entries| && InOrder(s.entries)
    ensures InOrder(RemovePass(s, i).entries)
    decreases |s.entries| - i
  {
    if i < |s.entries| {
      if Removable(s.entries[i]) {
        RemovePassOrder(Dropped(s, i), i);
      } else {
        RemovePassOrder(s, i + 1);
      }
    }
  }

  lemma SyncOrder(s: State, outcomes: nat -> Outcome)
    requires InOrder(s.entries)
    ensures InOrder(AfterSync(s, outcomes).entries)
  {
    RemovePassOrder(s, 0);
    CreatePassKeeps(RemovePass(s, 0), outcomes, 0);
  }

  lemma StepOrder(s: State, step: Step)
    requires Inv(s) && InOrder(s.entries)
    ensures InOrder(After(s, step).entries)
  {
    hide AfterSync, IndexOf;
    match step
    case Sync(outcomes) => SyncOrder(s, outcomes);
    case Load(l, ok, outcomes) =>
      var ended := Happened(s, l, [LoadEnded(ok)]).(loading := s.loading - {l});
      SyncOrder(Marked(ended.(view := s.view + {l}), l), outcomes);
    case _ =>
  }

  /** In every run the entries on the list are in the order in which they were added. */
  lemma {:induction false} ListInOrder(states: seq<State>, steps: seq<Step>, k: nat)
    requires IsRun(states, steps) && k < |states|
    ensures InOrder(states[k].entries)
  {
    if k > 0 {
      hide Inv, After, Enabled, InOrder;
      ListInOrder(states, steps, k - 1);
      RunKeepsInv(states, steps, k - 1);
      StepOrder(states[k - 1], steps[k - 1]);
    }
  }

  // ----- What removing an entry leads to ----------------------------------------------------------------

  /** Some step before step `k` has removed the entry, after it was added. */
  ghost predicate WasRemoved(states: seq<State>, steps: seq<Step>, k: nat, id: nat)
    requires k <= |steps| < |states|
  {
    exists j :: 0 <= j < k && steps[j] == Remove(id) && id < |states[j].history|
  }

  /** The entry's flag, if it is on the list, says whether it was removed; if it is not, it was. */
  ghost predicate RemovedIs(s: State, id: nat, removed: bool) {
    && (forall i :: 0 <= i < |s.entries| && s.entries[i].id == id ==> s.entries[i].removed == removed)
    && (!OnList(s.entries, id) ==> removed)
  }

  /** An entry on the list after a synchronization was on it before. */
  lemma SyncedFrom(s: State, outcomes: nat -> Outcome, k: nat) returns (i: nat)
    requires k < |AfterSync(s, outcomes).entries|
    ensures i < |s.entries| && !Removable(s.entries[i])
    ensures var e, was := AfterSync(s, outcomes).entries[k], s.entries[i];
      e.id == was.id && e.removed == was.removed && (!was.isNew ==> e == was)
  {
    var kept := RemovePass(s, 0);
    RemovePassKeeps(s, 0);
    CreatePassKeeps(kept, outcomes, 0);
    hide RemovePass, CreatePass;
    var was := kept.entries[k];
    assert was in kept.entries;
    i :| 0 <= i < |s.entries| && s.entries[i] == was;
  }

  lemma StaysOnList(s: State, outcomes: nat -> Outcome, i: nat)
    requires i < |s.entries| && !Removable(s.entries[i])
    ensures OnList(AfterSync(s, outcomes).entries, s.entries[i].id)
  {
    var kept := RemovePass(s, 0);
    RemovePassKeeps(s, 0);
    CreatePassKeeps(kept, outcomes, 0);
    hide RemovePass, CreatePass;
    assert s.entries[i] in kept.entries;
    var k :| 0 <= k < |kept.entries| && kept.entries[k] == s.entries[i];
    assert AfterSync(s, outcomes).entries[k].id == s.entries[i].id;
  }

  lemma SyncRemoved(s: State, outcomes: nat -> Outcome, id: nat, removed: bool)
    requires RemovedIs(s, id, removed)
    ensures RemovedIs(AfterSync(s, outcomes), id, removed)
  {
    hide AfterSync;
    var synced := AfterSync(s, outcomes);
    forall k | 0 <= k < |synced.entries| && synced.entries[k].id == id
      ensures synced.entries[k].removed == removed
    {
      var i := SyncedFrom(s, outcomes, k);
    }
    if !OnList(synced.entries, id) && OnList(s.entries, id) {
      var i :| 0 <= i < |s.entries| && s.entries[i].id == id;
      if !Removable(s.entries[i]) {
        StaysOnList(s, outcomes, i);
      }
    }
  }

  lemma RemoveRemoved(s: State, id: nat, other: nat, removed: bool)
    requires DistinctIds(s.entries) && RemovedIs(s, other, removed)
    ensures RemovedIs(AfterRemove(s, id), other, removed || id == other)
  {
    hide IndexOf;
    var i, s' := IndexOf(s.entries, id), AfterRemove(s, id);
    if i < |s.entries| && s.entries[i].isNew {
      TakenOff(s.entries, i);
    } else if i < |s.entries| {
      assert s'.entries[i].id == id;
      if OnList(s.entries, other) {
        var k :| 0 <= k < |s.entries| && s.entries[k].id == other;
        assert s'.entries[k].id == other;
      }
    }
  }

  lemma MarkRemoved(s: State, id: nat, other: nat, removed: bool)
    requires RemovedIs(s, other, removed)
    ensures RemovedIs(Marked(s, id), other, removed)
  {
    hide IndexOf;
    var s' := Marked(s, id);
    if OnList(s.entries, other) {
      var k :| 0 <= k < |s.entries| && s.entries[k].id == other;
      assert s'.entries[k].id == other;
    }
  }

  lemma StepRemoved(s: State, step: Step, id: nat, removed: bool)
    requires Inv(s) && Enabled(s, step) && id < |s.history| && RemovedIs(s, id, removed)
    ensures RemovedIs(After(s, step), id, removed || step == Remove(id))
  {
    hide RemovedIs, AfterSync, AfterRemove, Marked;
    match step
    case Add => AddRemoved(s, id, removed);
    case Remove(r) => RemoveRemoved(s, r, id, removed);
    case Sync(outcomes) => SyncRemoved(s, outcomes, id, removed);
    case Load(l, ok, outcomes) =>
      var ended := Happened(s, l, [LoadEnded(ok)]).(loading := s.loading - {l});
      SameRemoved(s, ended, id, removed);
      if ok {
        var shown := ended.(view := s.view + {l});
        SameRemoved(s, shown, id, removed);
        MarkRemoved(shown, l, id, removed);
        MarkedInv(s, l);
        MarkedDistinct(shown, l);
        SyncRemoved(Marked(shown, l), outcomes, id, removed);
      }
  }

  lemma SameRemoved(s: State, s': State, id: nat, removed: bool)
    requires RemovedIs(s, id, removed) && s'.entries == s.entries
    ensures RemovedIs(s', id, removed)
  {
  }

  lemma MarkedDistinct(s: State, id: nat)
    requires DistinctIds(s.entries)
    ensures DistinctIds(Marked(s, id).entries)
  {
    hide IndexOf;
  }

  lemma AddRemoved(s: State, id: nat, removed: bool)
    requires id < |s.history| && RemovedIs(s, id, removed)
    ensures RemovedIs(AfterAdd(s), id, removed)
  {
    if OnList(s.entries, id) {
      var k :| 0 <= k < |s.entries| && s.entries[k].id == id;
      assert AfterAdd(s).entries[k].id == id;
    }
  }

  lemma AddedIsNotRemoved(s: State)
    requires Inv(s)
    ensures RemovedIs(AfterAdd(s), |s.history|, false)
  {
    assert AfterAdd(s).entries[|s.entries|].id == |s.history|;
  }

  lemma OnlyAddAdds(s: State, step: Step)
    ensures |After(s, step).history| == if step.Add? then |s.history| + 1 else |s.history|
  {
    match step
    case Sync(outcomes) => SyncLength(s, outcomes);
    case Load(l, ok, outcomes) =>
      var ended := Happened(s, l, [LoadEnded(ok)]).(loading := s.loading - {l});
      SyncLength(Marked(ended.(view := s.view + {l}), l), outcomes);
    case _ =>
  }

  lemma SyncLength(s: State, outcomes: nat -> Outcome)
    ensures |AfterSync(s, outcomes).history| == |s.history|
  {
    RemovePassLength(s, 0);
    CreatePassLength(RemovePass(s, 0), outcomes, 0);
  }

  lemma {:induction false} RemovePassLength(s: State, i: nat)
    requires i <= |s.entries|
    ensures |RemovePass(s, i).history| == |s.history|
    decreases |s.entries| - i
  {
    if i < |s.entries| {
      if Removable(s.entries[i]) {
        RemovePassLength(Dropped(s, i), i);
      } else {
        RemovePassLength(s, i + 1);
      }
    }
  }

  lemma {:induction false} CreatePassLength(s: State, outcomes: nat -> Outcome, i: nat)
    requires i <= |s.entries|
    ensures |CreatePass(s, outcomes, i).history| == |s.history|
    decreases |s.entries| - i
  {
    if i < |s.entries| {
      var next := if s.entries[i].isNew then CreatedIcon(s, i, outcomes(s.entries[i].id)) else s;
      CreatePassLength(next, outcomes, i + 1);
    }
  }

  lemma {:induction false} RemovedInRun(states: seq<State>, steps: seq<Step>, k: nat, id: nat)
    requires IsRun(states, steps) && k <= |steps| && id < |states[k].history|
    ensures RemovedIs(states[k], id, WasRemoved(states, steps, k, id))
  {
    hide Inv, After, RemovedIs, Enabled;
    if k > 0 {
      var s, step := states[k - 1], steps[k - 1];
      assert states[k] == After(s, step) && Enabled(s, step);
      RunKeepsInv(states, steps, k - 1);
      OnlyAddAdds(s, step);
      if id < |s.history| {
        RemovedInRun(states, steps, k - 1, id);
        StepRemoved(s, step, id, WasRemoved(states, steps, k - 1, id));
        assert WasRemoved(states, steps, k, id) <==>
          WasRemoved(states, steps, k - 1, id) || step == Remove(id);
      } else {
        AddedIsNotRemoved(s);
        NotYetAdded(states, steps, k, id);
        AfterOfAdd(s);
      }
    }
  }

  lemma AfterOfAdd(s: State)
    ensures After(s, Add) == AfterAdd(s)
  {
  }

  lemma {:induction false} HistoryGrows(states: seq<State>, steps: seq<Step>, j: nat, k: nat)
    requires IsRun(states, steps) && j <= k <= |steps|
    ensures |states[j].history| <= |states[k].history|
  {
    hide After, Enabled;
    if j < k {
      HistoryGrows(states, steps, j, k - 1);
      OnlyAddAdds(states[k - 1], steps[k - 1]);
    }
  }

  lemma NotYetAdded(states: seq<State>, steps: seq<Step>, k: nat, id: nat)
    requires IsRun(states, steps) && 0 < k <= |steps| && id >= |states[k - 1].history|
    ensures !WasRemoved(states, steps, k, id)
  {
    hide After, Enabled;
    forall j | 0 <= j < k
      ensures id >= |states[j].history|
    {
      HistoryGrows(states, steps, j, k - 1);
    }
  }

  /** The entry's load is pending or has failed. */
  predicate IsStuck(es: seq<Event>) {
    es == [Added, Created(Async)] || es == [Added, Created(Async), LoadEnded(false)]
  }

  /** A synchronization leaves no entry that is both removed and loaded. */
  lemma NothingRemovable(s: State, outcomes: nat -> Outcome)
    requires Inv(s)
    ensures forall e :: e in AfterSync(s, outcomes).entries ==> !Removable(e)
  {
    NewIsNotRemoved(s);
    hide AfterSync, Inv;
    var synced := AfterSync(s, outcomes);
    forall e | e in synced.entries
      ensures !Removable(e)
    {
      var k :| 0 <= k < |synced.entries| && synced.entries[k] == e;
      var i := SyncedFrom(s, outcomes, k);
    }
  }

  lemma NewIsNotRemoved(s: State)
    requires Inv(s)
    ensures forall e :: e in s.entries && e.isNew ==> !e.removed
  {
    forall e | e in s.entries && e.isNew
      ensures !e.removed
    {
      var i :| 0 <= i < |s.entries| && s.entries[i] == e;
      assert Fits(s.history[e.id], e, e.id in s.loading, e.id in s.view);
    }
  }

  lemma SyncDrops(s: State, outcomes: nat -> Outcome, id: nat)
    requires Inv(s) && id < |s.history| && RemovedIs(s, id, true)
    ensures Ended(AfterSync(s, outcomes), id)
  {
    var s' := AfterSync(s, outcomes);
    NothingRemovable(s, outcomes);
    hide AfterSync;
    SyncKeepsInv(s, outcomes);
    SyncLength(s, outcomes);
    SyncRemoved(s, outcomes, id, true);
    if OnList(s'.entries, id) {
      var k :| 0 <= k < |s'.entries| && s'.entries[k].id == id;
      assert s'.entries[k] in s'.entries;
      assert Fits(s'.history[id], s'.entries[k], id in s'.loading, id in s'.view);
    }
  }

  /** The entry is off the list and out of the view and its pool is deleted, unless its load
      is pending or has failed. */
  ghost predicate Ended(s: State, id: nat) {
    && id < |s.history|
    && (IsStuck(s.history[id]) ||
          var es := s.history[id];
          !OnList(s.entries, id) && id !in s.view && es != [] && es[|es| - 1] == Freed)
  }

  /** In every run, an entry that was removed by some step is off the list, out of the view
      and freed after each later synchronization, unless its load is pending or has failed. */
  lemma RemovedIsFreed(states: seq<State>, steps: seq<Step>, j: nat, k: nat, id: nat)
    requires IsRun(states, steps) && j < k < |steps| && steps[j] == Remove(id) && id < |states[j].history|
    ensures steps[k].Sync? || (steps[k].Load? && steps[k].ok) ==> Ended(states[k + 1], id)
  {
    hide Inv, After, RemovedIs, Enabled, AfterSync, Ended;
    HistoryGrows(states, steps, j, k);
    RunKeepsInv(states, steps, k);
    assert Enabled(states[k], steps[k]) && states[k + 1] == After(states[k], steps[k]);
    assert WasRemoved(states, steps, k, id);
    RemovedInRun(states, steps, k, id);
    SynchronizesDrops(states[k], steps[k], id);
  }

  lemma SynchronizesDrops(s: State, step: Step, id: nat)
    requires Inv(s) && Enabled(s, step) && id < |s.history| && RemovedIs(s, id, true)
    ensures step.Sync? || (step.Load? && step.ok) ==> Ended(After(s, step), id)
  {
    hide RemovedIs, AfterSync, Marked, Ended;
    match step
    case Sync(outcomes) => SyncDrops(s, outcomes, id);
    case Load(l, ok, outcomes) =>
      if ok {
        var ended := Happened(s, l, [LoadEnded(true)]).(loading := s.loading - {l});
        var shown := ended.(view := s.view + {l});
        SameRemoved(s, shown, id, true);
        MarkRemoved(shown, l, id, true);
        MarkedInv(s, l);
        MarkedLength(shown, l);
        SyncDrops(Marked(shown, l), outcomes, id);
      }
    case _ =>
  }

  lemma MarkedLength(s: State, id: nat)
    ensures |Marked(s, id).history| == |s.history|
  {
  }

  /** Conversely, in every run only an entry that some earlier step removed has its icon
      deleted or is freed. */
  lemma OnlyRemovedIsFreed(states: seq<State>, steps: seq<Step>, k: nat, id: nat)
    requires IsRun(states, steps) && k <= |steps| && id < |states[k].history|
    requires Deleted in states[k].history[id] || Freed in states[k].history[id]
    ensures exists j :: 0 <= j < k && steps[j] == Remove(id) && id < |states[j].history|
  {
    hide After, Enabled;
    var s := states[k];
    RunKeepsInv(states, steps, k);
    RemovedInRun(states, steps, k, id);
    assert WasRemoved(states, steps, k, id);
  }

  lemma PassStep(s: State, outcomes: nat -> Outcome, i: nat)
    requires i < |s.entries|
    ensures RemovePass(s, i) == if Removable(s.entries[i]) then RemovePass(Dropped(s, i), i) else RemovePass(s, i + 1)
    ensures CreatePass(s, outcomes, i) ==
      CreatePass(if s.entries[i].isNew then CreatedIcon(s, i, outcomes(s.entries[i].id)) else s, outcomes, i + 1)
  {
  }

  lemma PassEnd(s: State, outcomes: nat -> Outcome)
    ensures RemovePass(s, |s.entries|) == s && CreatePass(s, outcomes, |s.entries|) == s
  {
  }

  lemma KnownId(s: State, i: nat)
    requires Inv(s) && i < |s.entries|
    ensures s.entries[i].id < |s.history|
  {
  }

  // ----- The program -----------------------------------------------------------------------------------

  class AppIconList {
    var entries: seq<Entry>
    var loading: set<nat>
    var view: set<nat>
    var history: seq<seq<Event>>

    function Abstract(): State
      reads this
    {
      State(entries, loading, view, history)
    }

    constructor ()
      ensures Abstract() == INITIAL
    {
      entries, loading, view, history := [], {}, {}, [];
    }

    method Note(id: nat, events: seq<Event>)
      requires id < |history|
      modifies this`history
      ensures Abstract() == Happened(old(Abstract()), id, events)
    {
      history := history[id := history[id] + events];
    }

    /** Puts a new entry at the end of the list. */
    method AddAppIcon() returns (id: nat)
      modifies this`entries, this`history
      ensures Abstract() == AfterAdd(old(Abstract())) && id == |old(history)|
    {
      id := |history|;
      entries, history := entries + [Entry(id, true, false, false)], history + [[Added]];
    }

    /** Searches the list for an entry to remove. */
    method RemoveAppIcon(id: nat)
      requires Inv(Abstract())
      modifies this`entries, this`history
      ensures Abstract() == AfterRemove(old(Abstract()), id)
    {
      hide Fits, IsOver;
      var i := 0;
      while i < |entries|
        invariant i <= |entries| && forall k :: 0 <= k < i ==> entries[k].id != id
        invariant Abstract() == old(Abstract())
      {
        if entries[i].id == id {
          assert i == IndexOf(entries, id);
          if entries[i].isNew {
            Note(id, [Freed]);
            entries := TakeOff(entries, i);
          } else {
            entries := entries[i := entries[i].(removed := true)];
          }
          break;
        }
        i := i + 1;
      }
    }

    /** Creates the icon of an entry; false while it is still being loaded. */
    method Create(i: nat, outcome: Outcome) returns (done: bool)
      requires i < |entries| && entries[i].id < |history|
      modifies this`loading, this`view, this`history
      ensures done == (outcome != Async)
      ensures history == old(Happened(Abstract(), entries[i].id, [Created(outcome)])).history
      ensures loading == if outcome == Async then old(loading) + {entries[i].id} else old(loading)
      ensures view == if outcome == Shown then old(view) + {entries[i].id} else old(view)
    {
      var id := entries[i].id;
      Note(id, [Created(outcome)]);
      if outcome == Async {
        loading := loading + {id};
      } else if outcome == Shown {
        view := view + {id};
      }
      done := outcome != Async;
    }

    /** Drops the entries that are removed and loaded, then creates the icons of new ones. */
    method Synchronize(outcomes: nat -> Outcome)
      requires Inv(Abstract())
      modifies this
      ensures Abstract() == AfterSync(old(Abstract()), outcomes)
      ensures Inv(Abstract())
    {
      hide Inv, RemovePass, CreatePass;
      var i := 0;
      while i < |entries|
        invariant i <= |entries| && Inv(Abstract())
        invariant RemovePass(Abstract(), i) == RemovePass(old(Abstract()), 0)
        decreases |entries| - i
      {
        PassStep(Abstract(), outcomes, i);
        if entries[i].removed && entries[i].loaded {
          DroppedKeepsInv(Abstract(), i);
          var id := entries[i].id;
          assert id < |history| by { KnownId(Abstract(), i); }
          view := view - {id};
          entries := TakeOff(entries, i);
          Note(id, [Deleted, Freed]);
        } else {
          i := i + 1;
        }
      }
      PassEnd(Abstract(), outcomes);
      ghost var kept := Abstract();
      i := 0;
      while i < |entries|
        invariant i <= |entries| && Inv(Abstract())
        invariant CreatePass(Abstract(), outcomes, i) == CreatePass(kept, outcomes, 0)
        decreases |entries| - i
      {
        PassStep(Abstract(), outcomes, i);
        KnownId(Abstract(), i);
        var e := entries[i];
        if e.isNew {
          CreatedKeepsInv(Abstract(), i, outcomes(e.id));
          var done := Create(i, outcomes(e.id));
          entries := entries[i := e.(isNew := false, loaded := e.loaded || done)];
        }
        i := i + 1;
      }
      PassEnd(Abstract(), outcomes);
    }

    /** The load of an icon has ended. */
    method LoadFinished(id: nat, ok: bool, outcomes: nat -> Outcome)
      requires Inv(Abstract()) && id in loading
      modifies this
      ensures Abstract() == AfterLoad(old(Abstract()), id, ok, outcomes)
      ensures Inv(Abstract())
    {
      hide Inv, AfterSync, IndexOf;
      LoadKeepsInv(Abstract(), id, ok, outcomes);
      ghost var i := LoadingIsListed(Abstract(), id);
      Note(id, [LoadEnded(ok)]);
      loading := loading - {id};
      if ok {
        view := view + {id};
        MarkedInv(old(Abstract()), id);
        MarkAsLoaded(id);
        Synchronize(outcomes);
      }
    }

    method MarkAsLoaded(id: nat)
      requires DistinctIds(entries)
      modifies this`entries
      ensures Abstract() == Marked(old(Abstract()), id)
    {
      ghost var j := IndexOf(entries, id);
      for i := 0 to |entries|
        invariant |entries| == |old(entries)|
        invariant entries == if j < i then old(entries)[j := old(entries)[j].(loaded := true)] else old(entries)
      {
        if entries[i].id == id {
          entries := entries[i := entries[i].(loaded := true)];
        }
      }
    }
  }
}
