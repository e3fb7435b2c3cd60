/** The background pictures of the screens, and the transition from one to the next. */
module Backgrounds {
  import opened Memory

  const SCREENS: nat := 4

  /** The pictures of a screen, 0 for none: the one shown and, during a transition, the
      one it comes from and the one it goes to. */
  datatype Slots = Slots(root: nat, from: nat, to: nat)

  const NO_PICTURES := Slots(0, 0, 0)

  /** `handlers` counts how often the timer handler is installed. */
  datatype State = State(slots: seq<Slots>, window: nat, active: bool, handlers: nat, mixLevel: nat)

  /** What centering meets: whether there is a screen, and for which pictures a new bitmap
      is needed and cannot be made. */
  datatype Screen = Screen(present: bool, rootFails: bool, fromFails: bool, toFails: bool)

  // ----- What the operations do --------------------------------------------------------------

  /** Centering keeps a picture, or deletes it when there is no screen or no bitmap. */
  function Centered(screen: Screen, picture: nat, fails: bool): nat {
    if !screen.present || fails then 0 else picture
  }

  /** The transition is running and needs both its pictures. */
  predicate Mixing(active: bool, mixLevel: nat) {
    active && mixLevel != 255
  }

  /** The pictures of a screen after centering, before any are disposed. */
  function CenteredSlots(c: Slots, screen: Screen, mixing: bool): Slots {
    var root := Centered(screen, c.root, screen.rootFails);
    if root == 0 || c.to == 0 || !mixing then c.(root := root)
    else Slots(root, Centered(screen, c.from, screen.fromFails), Centered(screen, c.to, screen.toFails))
  }

  /** The screen draws a mixture of its two transition pictures. */
  predicate IsMixed(c: Slots, screen: Screen, mixing: bool) {
    var after := CenteredSlots(c, screen, mixing);
    mixing && after.root != 0 && c.to != 0 && after.from != 0 && after.to != 0
  }

  function Disposed(c: Slots, dispose: bool): Slots {
    if dispose then c.(from := 0, to := 0) else c
  }

  /** The first `n` screens after centering. Once a screen is mixed, no transition picture
      of it or of a later screen is disposed. */
  function CenterScreens(slots: seq<Slots>, screens: seq<Screen>, mixing: bool, n: nat): (r: (seq<Slots>, bool))
    requires n <= |slots| == |screens|
    ensures |r.0| == n
  {
    if n == 0 then ([], true)
    else
      var (done, dispose) := CenterScreens(slots, screens, mixing, n - 1);
      var next := dispose && !IsMixed(slots[n - 1], screens[n - 1], mixing);
      (done + [Disposed(CenteredSlots(slots[n - 1], screens[n - 1], mixing), next)], next)
  }

  predicate Shaped(s: State) {
    |s.slots| == SCREENS
  }

  function AfterCenter(s: State, screens: seq<Screen>): State
    requires Shaped(s) && |screens| == SCREENS
  {
    s.(slots := CenterScreens(s.slots, screens, Mixing(s.active, s.mixLevel), SCREENS).0)
  }

  /** A transition that is running is stopped. */
  function AfterStop(s: State): State {
    if s.active then s.(active := false, handlers := if s.handlers > 0 then s.handlers - 1 else 0) else s
  }

  /** The level is a byte. */
  function AfterTick(s: State): State {
    var level := (s.mixLevel + 5) % 256;
    if level == 255 then AfterStop(s.(mixLevel := level)) else s.(mixLevel := level)
  }

  /** A new picture for a screen; `mixture` is the picture made for a transition to it, 0
      when there is none. */
  function AfterAddRoot(s: State, sid: nat, picture: nat, mixture: nat): State
    requires Shaped(s) && sid < SCREENS
  {
    var stopped := AfterStop(s);
    if mixture == 0 then stopped.(slots := s.slots[sid := Slots(picture, 0, 0)])
    else
      stopped.(slots := s.slots[sid := Slots(mixture, s.slots[sid].root, picture)],
               active := true, handlers := stopped.handlers + 1, mixLevel := 0)
  }

  function AfterCenters(s: State, redraws: seq<seq<Screen>>): (r: State)
    requires Shaped(s) && forall k :: 0 <= k < |redraws| ==> |redraws[k]| == SCREENS
    ensures Shaped(r)
    decreases |redraws|
  {
    if redraws == [] then s else AfterCenters(AfterCenter(s, redraws[0]), redraws[1..])
  }

  function AfterAddWindow(s: State, picture: nat): State {
    s.(window := picture)
  }

  // ----- Every run -------------------------------------------------------------------------------

  datatype Step =
    | Center(screens: seq<Screen>)
    | Tick
    | AddRoot(sid: nat, picture: nat, mixture: nat)
    | AddWindow(picture: nat)

  /** The timer ticks only while its handler is installed. A transition needs the picture
      shown before and the new one. */
  predicate Enabled(s: State, step: Step) {
    && Shaped(s)
    && match step
      case Center(screens) => |screens| == SCREENS
      case Tick => s.handlers > 0
      case AddRoot(sid, picture, mixture) =>
        sid < SCREENS && (mixture != 0 ==> picture != 0 && s.slots[sid].root != 0)
      case AddWindow(_) => true
  }

  function After(s: State, step: Step): State
    requires Enabled(s, step)
  {
    match step
    case Center(screens) => AfterCenter(s, screens)
    case Tick => AfterTick(s)
    case AddRoot(sid, picture, mixture) => AfterAddRoot(s, sid, picture, mixture)
    case AddWindow(picture) => AfterAddWindow(s, picture)
  }

  const INITIAL := State([NO_PICTURES, NO_PICTURES, NO_PICTURES, NO_PICTURES], 0, false, 0, 0)

  ghost predicate IsRun(states: seq<State>, steps: seq<Step>) {
    && |states| == |steps| + 1
    && forall k :: 0 <= k < |steps| ==> Enabled(states[k], steps[k]) && states[k + 1] == After(states[k], steps[k])
  }

  /** The handler is installed once exactly while the transition runs, whose level is a
      multiple of 5 below 255. */
  ghost predicate Inv(s: State) {
    && Shaped(s) && s.handlers == (if s.active then 1 else 0)
    && s.mixLevel % 5 == 0 && s.mixLevel <= 255 && (s.active ==> s.mixLevel < 255)
  }

  lemma StepKeepsInv(s: State, step: Step)
    requires Inv(s) && Enabled(s, step)
    ensures Inv(After(s, step))
  {
  }

  lemma {:induction false} RunKeepsInv(states: seq<State>, steps: seq<Step>, k: nat)
    requires IsRun(states, steps) && states[0] == INITIAL && k < |states|
    ensures Inv(states[k])
  {
    if k > 0 {
      hide Inv, After, Enabled;
      RunKeepsInv(states, steps, k - 1);
      StepKeepsInv(states[k - 1], steps[k - 1]);
    } else {
      assert Inv(INITIAL);
    }
  }

  function Ticks(steps: seq<Step>): nat {
    if steps == [] then 0 else Ticks(steps[..|steps| - 1]) + if steps[|steps| - 1].Tick? then 1 else 0
  }

  ghost predicate NoAddRoot(steps: seq<Step>) {
    forall k :: 0 <= k < |steps| ==> !steps[k].AddRoot?
  }

  /** Only ticks move the level while no transition is started. */
  lemma LevelStep(s: State, step: Step)
    requires Inv(s) && Enabled(s, step) && !step.AddRoot?
    ensures var s' := After(s, step);
      && s'.mixLevel == (if step.Tick? then s.mixLevel + 5 else s.mixLevel)
      && (s'.active <==> s.active && s'.mixLevel != 255)
      && (step.Tick? ==> s.active)
  {
  }

  /** A transition that is not restarted, however often the screens are redrawn in between,
      is at level 5 k after k ticks; it ends with the 51st, at exactly 255, and there are
      no ticks after that. */
  lemma {:induction false} TransitionEnds(states: seq<State>, steps: seq<Step>)
    requires IsRun(states, steps) && NoAddRoot(steps)
    requires Inv(states[0]) && states[0].active && states[0].mixLevel == 0
    ensures var s, k := states[|steps|], Ticks(steps);
      Inv(s) && k <= 51 && s.mixLevel == 5 * k && (s.active <==> k < 51)
    decreases |steps|
  {
    if steps != [] {
      hide After, Enabled, Inv;
      var last := |steps| - 1;
      TransitionEnds(states[..|steps|], steps[..last]);
      assert states[..|steps|][last] == states[last];
      StepKeepsInv(states[last], steps[last]);
      LevelStep(states[last], steps[last]);
    }
  }

  lemma AddStartsTransition(s: State, sid: nat, picture: nat, mixture: nat)
    requires Inv(s) && sid < SCREENS
    ensures var s' := AfterAddRoot(s, sid, picture, mixture);
      (s'.active <==> mixture != 0) && (mixture != 0 ==> s'.mixLevel == 0)
  {
  }

  /** The last step that adds a picture to a screen, -1 if there is none. */
  function LastAdd(steps: seq<Step>): (k: int)
    ensures -1 <= k < |steps| && (k >= 0 ==> steps[k].AddRoot?)
    ensures NoAddRoot(steps[k + 1..])
  {
    if steps == [] then -1
    else
      var last := |steps| - 1;
      if steps[last].AddRoot? then last else LastAdd(steps[..last])
  }

  lemma RunSuffix(states: seq<State>, steps: seq<Step>, k: nat)
    requires IsRun(states, steps) && k <= |steps|
    ensures IsRun(states[k..], steps[k..])
  {
    hide Enabled, After;
  }

  lemma {:induction false} NothingRuns(states: seq<State>, steps: seq<Step>)
    requires IsRun(states, steps) && NoAddRoot(steps) && Inv(states[0]) && !states[0].active
    ensures Inv(states[|steps|]) && !states[|steps|].active && Ticks(steps) == 0
    decreases |steps|
  {
    if steps != [] {
      hide After, Enabled, Inv;
      var last := |steps| - 1;
      NothingRuns(states[..|steps|], steps[..last]);
      assert states[..|steps|][last] == states[last];
      StepKeepsInv(states[last], steps[last]);
      LevelStep(states[last], steps[last]);
    }
  }

  /** In every run, a transition is active if and only if the last picture added to a screen
      came with a mixture and the timer has ticked fewer than 51 times since; its level is
      5 for each of these ticks. Without a transition there are no ticks. */
  lemma ActiveIffStarted(states: seq<State>, steps: seq<Step>)
    requires IsRun(states, steps) && states[0] == INITIAL
    ensures var s, k := states[|steps|], LastAdd(steps);
      var ticks := Ticks(steps[k + 1..]);
      if k >= 0 && steps[k].mixture != 0 then
        ticks <= 51 && s.mixLevel == 5 * ticks && (s.active <==> ticks < 51)
      else
        ticks == 0 && !s.active
  {
    hide After, Enabled, Inv, LastAdd, Ticks;
    var k := LastAdd(steps);
    RunSuffix(states, steps, k + 1);
    RunKeepsInv(states, steps, k + 1);
    if k >= 0 {
      RunKeepsInv(states, steps, k);
      AddedStarts(states[k], steps[k]);
      if steps[k].mixture != 0 {
        TransitionEnds(states[k + 1..], steps[k + 1..]);
      } else {
        NothingRuns(states[k + 1..], steps[k + 1..]);
      }
    } else {
      NothingRuns(states[k + 1..], steps[k + 1..]);
    }
  }

  lemma AddedStarts(s: State, step: Step)
    requires Inv(s) && step.AddRoot? && Enabled(s, step)
    ensures var s' := After(s, step);
      (s'.active <==> step.mixture != 0) && (step.mixture != 0 ==> s'.mixLevel == 0)
  {
    AddStartsTransition(s, step.sid, step.picture, step.mixture);
  }

  // ----- What is left of a transition ---------------------------------------------------------------

  lemma {:induction false} CenterScreensIs(slots: seq<Slots>, screens: seq<Screen>, mixing: bool, n: nat, i: nat)
    requires i < n <= |slots| == |screens|
    ensures var dispose := !exists j :: 0 <= j <= i && IsMixed(slots[j], screens[j], mixing);
      CenterScreens(slots, screens, mixing, n).0[i] == Disposed(CenteredSlots(slots[i], screens[i], mixing), dispose)
    ensures CenterScreens(slots, screens, mixing, i + 1).1
      <==> !exists j :: 0 <= j <= i && IsMixed(slots[j], screens[j], mixing)
    decreases n, i
  {
    hide IsMixed, Disposed, CenteredSlots;
    if i < n - 1 {
      CenterScreensIs(slots, screens, mixing, n - 1, i);
    } else if i > 0 {
      CenterScreensIs(slots, screens, mixing, n - 1, i - 1);
    }
  }

  /** A redraw disposes the transition pictures of a screen exactly if neither it nor a
      screen before it is mixed. */
  lemma CenterDisposes(s: State, screens: seq<Screen>, i: nat)
    requires Shaped(s) && |screens| == SCREENS && i < SCREENS
    ensures var mixing := Mixing(s.active, s.mixLevel);
      var c, kept := AfterCenter(s, screens).slots[i], CenteredSlots(s.slots[i], screens[i], mixing);
      && c.root == kept.root
      && if exists j :: 0 <= j <= i && IsMixed(s.slots[j], screens[j], mixing) then c == kept
         else c.from == 0 && c.to == 0
  {
    CenterScreensIs(s.slots, screens, Mixing(s.active, s.mixLevel), SCREENS, i);
  }

  /** After the end of a transition, the next redraw leaves only the pictures shown. */
  lemma RedrawAfterEnd(s: State, screens: seq<Screen>, i: nat)
    requires Shaped(s) && |screens| == SCREENS && i < SCREENS && !Mixing(s.active, s.mixLevel)
    ensures AfterCenter(s, screens).slots[i] == Slots(Centered(screens[i], s.slots[i].root, screens[i].rootFails), 0, 0)
  {
    CenterDisposes(s, screens, i);
  }

  // ----- Redraws in runs -----------------------------------------------------------------------------

  /** The last picture added to a screen came with a mixture, and the timer has ticked fewer
      than 51 times since. */
  predicate IsRunning(steps: seq<Step>) {
    var k := LastAdd(steps);
    k >= 0 && steps[k].mixture != 0 && Ticks(steps[k + 1..]) < 51
  }

  /** All three pictures of a screen are there, and so is the screen with a bitmap for each. */
  predicate CanMix(c: Slots, screen: Screen) {
    && c.root != 0 && c.from != 0 && c.to != 0
    && screen.present && !screen.rootFails && !screen.fromFails && !screen.toFails
  }

  /** In every run, a redraw while a transition runs leaves the three pictures of each screen
      that can mix them as they are. A screen loses its two transition pictures exactly if
      neither it nor a screen before it can mix; after a screen that can, another one loses
      only what it has no bitmap for. Without a transition, every screen loses them. */
  lemma RedrawInRun(states: seq<State>, steps: seq<Step>, screens: seq<Screen>, i: nat)
    requires IsRun(states, steps) && states[0] == INITIAL && |screens| == SCREENS && i < SCREENS
    ensures Shaped(states[|steps|])
    ensures var slots, c' := states[|steps|].slots, AfterCenter(states[|steps|], screens).slots[i];
      var c, screen := slots[i], screens[i];
      && c'.root == (if screen.present && !screen.rootFails then c.root else 0)
      && if IsRunning(steps) then
           && (CanMix(c, screen) ==> c' == c)
           && ((forall j :: 0 <= j <= i ==> !CanMix(slots[j], screens[j])) ==> c'.from == 0 && c'.to == 0)
           && ((exists j :: 0 <= j < i && CanMix(slots[j], screens[j])) ==>
                 if c'.root == 0 || c.to == 0 then c'.from == c.from && c'.to == c.to
                 else
                   && c'.from == (if screen.fromFails then 0 else c.from)
                   && c'.to == (if screen.toFails then 0 else c.to))
         else
           c'.from == 0 && c'.to == 0
  {
    var s := states[|steps|];
    ActiveIffStarted(states, steps);
    RunKeepsInv(states, steps, |steps|);
    var mixing := Mixing(s.active, s.mixLevel);
    assert mixing == IsRunning(steps);
    forall j | 0 <= j < SCREENS
      ensures IsMixed(s.slots[j], screens[j], mixing) <==> mixing && CanMix(s.slots[j], screens[j])
    {
    }
    CenterDisposes(s, screens, i);
    hide IsMixed, CanMix, Ticks, LastAdd, AfterCenter;
    CenteredIs(s.slots[i], screens[i], mixing);
  }

  lemma CenteredIs(c: Slots, screen: Screen, mixing: bool)
    ensures var r, root := CenteredSlots(c, screen, mixing), if screen.present && !screen.rootFails then c.root else 0;
      && r.root == root
      && (root == 0 || c.to == 0 || !mixing ==> r.from == c.from && r.to == c.to)
      && (root != 0 && c.to != 0 && mixing ==>
            && r.from == (if screen.fromFails then 0 else c.from)
            && r.to == (if screen.toFails then 0 else c.to))
    ensures CanMix(c, screen) ==> CenteredSlots(c, screen, mixing) == c
  {
  }

  /** In every redraw from step `k` on, the screen is there with a bitmap for each picture. */
  ghost predicate RedrawnWell(steps: seq<Step>, k: nat, sid: nat)
    requires sid < SCREENS
  {
    forall j :: k <= j < |steps| && steps[j].Center? && |steps[j].screens| == SCREENS ==>
      var screen := steps[j].screens[sid];
      screen.present && !screen.rootFails && !screen.fromFails && !screen.toFails
  }

  /** While a transition runs, the screen it was started on keeps, through all redraws that do
      not fail on it, the mixture, the picture shown before and the new picture. */
  lemma {:induction false} TransitionKept(states: seq<State>, steps: seq<Step>)
    requires IsRun(states, steps) && states[0] == INITIAL && IsRunning(steps)
    requires var k := LastAdd(steps); steps[k].sid < SCREENS && RedrawnWell(steps, k + 1, steps[k].sid)
    ensures var k := LastAdd(steps);
      && Shaped(states[k]) && Shaped(states[|steps|])
      && states[|steps|].slots[steps[k].sid]
           == Slots(steps[k].mixture, states[k].slots[steps[k].sid].root, steps[k].picture)
    decreases |steps|
  {
    hide Enabled, After, LastAdd, Ticks, Inv, RedrawnWell, CanMix;
    var k, last := LastAdd(steps), |steps| - 1;
    var sid := steps[k].sid;
    RunKeepsInv(states, steps, k);
    RunKeepsInv(states, steps, last);
    assert Enabled(states[k], steps[k]) && states[k + 1] == After(states[k], steps[k]);
    assert Enabled(states[last], steps[last]) && states[last + 1] == After(states[last], steps[last]);
    MixtureAdded(states[k], steps[k]);
    InvShaped(states[last]);
    if k < last {
      var states', steps' := states[..|steps|], steps[..last];
      RunStart(states, steps);
      LastAddBefore(steps);
      WellBefore(steps, k + 1, sid);
      TransitionKept(states', steps');
      if steps[last].Center? {
        CenterIs(states[last], steps[last]);
        assert states'[last] == states[last];
        RedrawInRun(states', steps', steps[last].screens, sid);
        WellAt(steps, k + 1, sid, states[last].slots[sid]);
      } else {
        SlotsStay(states[last], steps[last]);
      }
    }
  }

  lemma InvShaped(s: State)
    requires Inv(s)
    ensures Shaped(s)
  {
  }

  lemma CenterIs(s: State, step: Step)
    requires Enabled(s, step) && step.Center?
    ensures Shaped(s) && |step.screens| == SCREENS && After(s, step) == AfterCenter(s, step.screens)
  {
  }

  lemma MixtureAdded(s: State, step: Step)
    requires Enabled(s, step) && step.AddRoot? && step.mixture != 0
    ensures Shaped(s) && Shaped(After(s, step)) && step.sid < SCREENS
    ensures step.picture != 0 && s.slots[step.sid].root != 0
    ensures After(s, step).slots[step.sid] == Slots(step.mixture, s.slots[step.sid].root, step.picture)
  {
  }

  lemma SlotsStay(s: State, step: Step)
    requires Enabled(s, step) && !step.AddRoot? && !step.Center?
    ensures After(s, step).slots == s.slots
  {
  }

  lemma WellBefore(steps: seq<Step>, k: nat, sid: nat)
    requires sid < SCREENS && RedrawnWell(steps, k, sid) && steps != []
    ensures RedrawnWell(steps[..|steps| - 1], k, sid)
  {
    var before := steps[..|steps| - 1];
    assert forall j :: 0 <= j < |before| ==> before[j] == steps[j];
  }

  lemma WellAt(steps: seq<Step>, k: nat, sid: nat, c: Slots)
    requires sid < SCREENS && RedrawnWell(steps, k, sid) && k < |steps|
    requires var step := steps[|steps| - 1]; step.Center? && |step.screens| == SCREENS
    requires c.root != 0 && c.from != 0 && c.to != 0
    ensures CanMix(c, steps[|steps| - 1].screens[sid])
  {
  }

  lemma RunStart(states: seq<State>, steps: seq<Step>)
    requires IsRun(states, steps) && steps != []
    ensures IsRun(states[..|steps|], steps[..|steps| - 1])
  {
    hide Enabled, After;
  }

  /** A step that adds no picture, at the end of the steps. */
  lemma LastAddBefore(steps: seq<Step>)
    requires steps != [] && LastAdd(steps) < |steps| - 1
    ensures var k, before := LastAdd(steps), steps[..|steps| - 1];
      && LastAdd(before) == k && !steps[|steps| - 1].AddRoot?
      && Ticks(before[k + 1..]) <= Ticks(steps[k + 1..])
  {
    var k, before := LastAdd(steps), steps[..|steps| - 1];
    var after := steps[k + 1..];
    assert after[..|after| - 1] == before[k + 1..];
  }

  // ----- Ownership -----------------------------------------------------------------------------------

  ghost function Held(picture: nat): multiset<nat> {
    if picture == 0 then multiset{} else multiset{picture}
  }

  ghost function HeldBy(c: Slots): multiset<nat> {
    Held(c.root) + Held(c.from) + Held(c.to)
  }

  ghost function HeldByAll(slots: seq<Slots>): multiset<nat> {
    if slots == [] then multiset{} else HeldBy(slots[0]) + HeldByAll(slots[1..])
  }

  lemma {:induction false} HeldAt(slots: seq<Slots>, i: nat, c: Slots)
    requires i < |slots|
    ensures HeldByAll(slots[i := c]) + HeldBy(slots[i]) == HeldByAll(slots) + HeldBy(c)
  {
    hide HeldBy;
    if i > 0 {
      HeldAt(slots[1..], i - 1, c);
      assert slots[i := c][1..] == slots[1..][i - 1 := c];
      AddFirst(HeldBy(slots[0]), HeldByAll(slots[1..][i - 1 := c]), HeldBy(slots[i]), HeldByAll(slots[1..]), HeldBy(c));
    } else {
      assert slots[i := c][1..] == slots[1..];
    }
  }

  /** The screens' pictures other than those of screen `i`. */
  lemma HeldSplit(slots: seq<Slots>, i: nat) returns (others: multiset<nat>)
    requires i < |slots|
    ensures HeldByAll(slots) == HeldBy(slots[i]) + others
  {
    hide HeldBy;
    HeldAt(slots, i, NO_PICTURES);
    assert HeldBy(NO_PICTURES) == multiset{} by { NothingHeld(); }
    others := HeldByAll(slots[i := NO_PICTURES]);
    assert HeldByAll(slots) + multiset{} == HeldByAll(slots);
  }

  lemma HeldPut(slots: seq<Slots>, i: nat, c: Slots, others: multiset<nat>)
    requires i < |slots| && HeldByAll(slots) == HeldBy(slots[i]) + others
    ensures HeldByAll(slots[i := c]) == HeldBy(c) + others
  {
    hide HeldBy, HeldByAll;
    HeldAt(slots, i, c);
    CancelHeld(HeldByAll(slots[i := c]), HeldBy(slots[i]), HeldByAll(slots), HeldBy(c), others);
  }

  lemma AddFirst(a: multiset<nat>, r': multiset<nat>, b: multiset<nat>, r: multiset<nat>, c: multiset<nat>)
    requires r' + b == r + c
    ensures (a + r') + b == (a + r) + c
  {
    assert (a + r') + b == a + (r' + b);
  }

  lemma Rotate(a: multiset<nat>, b: multiset<nat>, c: multiset<nat>, rest: multiset<nat>)
    ensures a + b + c + rest == a + (b + c + rest) == b + (a + c + rest) == c + (a + b + rest)
  {
  }

  lemma HeldNone(a: multiset<nat>, b: multiset<nat>, rest: multiset<nat>)
    ensures a + b + rest == b + (a + rest) && a + Held(0) + Held(0) + rest == a + rest
  {
  }

  lemma Regroup(a: multiset<nat>, b: multiset<nat>, w: multiset<nat>, others: multiset<nat>)
    ensures (a + b) + w + others == a + (b + w + others)
  {
  }

  lemma NoneHeld()
    ensures HeldByAll(INITIAL.slots) == multiset{}
  {
    assert HeldByAll([]) == multiset{};
    assert HeldByAll([NO_PICTURES]) == multiset{};
    assert HeldByAll([NO_PICTURES, NO_PICTURES]) == multiset{};
    assert HeldByAll([NO_PICTURES, NO_PICTURES, NO_PICTURES]) == multiset{};
  }

  lemma StartReplace(c: Slots, rest: multiset<nat>, w: multiset<nat>, p: multiset<nat>, others: multiset<nat>)
    ensures (HeldBy(c) + rest) + w + (p + others)
         == Held(c.from) + (Held(c.to) + (Held(c.root) + (rest + w + p + others)))
  {
  }

  lemma EndReplace(picture: nat, rest: multiset<nat>, w: multiset<nat>, t: multiset<nat>, others: multiset<nat>)
    ensures t + (rest + w + Held(picture) + others) == (HeldBy(Slots(picture, 0, 0)) + rest) + w + (t + others)
  {
  }

  lemma StartTransition(m: nat, t: nat, p: nat, rest: multiset<nat>, w: multiset<nat>, others: multiset<nat>)
    ensures Held(m) + (Held(t) + (rest + w + Held(p) + others))
         == (HeldBy(Slots(m, t, p)) + rest) + w + (Held(0) + others)
  {
  }

  lemma NoMixture(m: multiset<nat>)
    ensures Held(0) + m == m
  {
  }

  lemma DisposeNext(slots: seq<Slots>, i: nat, w: multiset<nat>, others: multiset<nat>)
    requires i < |slots|
    ensures var c := slots[i];
      HeldByAll(slots[i..]) + w + others
        == Held(c.root) + (Held(c.from) + (Held(c.to) + (HeldByAll(slots[i + 1..]) + w + others)))
  {
  }

  lemma NoScreens(slots: seq<Slots>, w: multiset<nat>, others: multiset<nat>)
    requires slots == []
    ensures HeldByAll(slots) + w + others == w + others
  {
  }

  lemma TakeOut(screens: multiset<nat>, w: multiset<nat>, t: multiset<nat>, others: multiset<nat>)
    ensures screens + w + (t + others) == t + (screens + w + others)
  {
  }

  lemma CentersNext(s: State, redraws: seq<seq<Screen>>)
    requires Shaped(s) && forall k :: 0 <= k < |redraws| ==> |redraws[k]| == SCREENS
    requires redraws != []
    ensures AfterCenters(s, redraws) == AfterCenters(AfterCenter(s, redraws[0]), redraws[1..])
  {
  }

  lemma CentersNone(s: State, redraws: seq<seq<Screen>>)
    requires Shaped(s) && redraws == []
    ensures AfterCenters(s, redraws) == s
  {
  }

  lemma CenterNone(slots: seq<Slots>, screens: seq<Screen>, mixing: bool)
    requires |slots| == |screens|
    ensures CenterScreens(slots, screens, mixing, 0) == ([], true) && slots[..0] == [] && slots[0..] == slots
  {
  }

  lemma CenterNext(slots: seq<Slots>, screens: seq<Screen>, mixing: bool, i: nat)
    requires i < |slots| == |screens|
    ensures var (done, dispose) := CenterScreens(slots, screens, mixing, i);
      var next := dispose && !IsMixed(slots[i], screens[i], mixing);
      CenterScreens(slots, screens, mixing, i + 1)
        == (done + [Disposed(CenteredSlots(slots[i], screens[i], mixing), next)], next)
  {
  }

  lemma NothingHeld()
    ensures HeldBy(NO_PICTURES) == multiset{}
  {
  }

  lemma CancelHeld(a: multiset<nat>, b: multiset<nat>, all: multiset<nat>, c: multiset<nat>, others: multiset<nat>)
    requires a + b == all + c && all == b + others
    ensures a == c + others
  {
    assert (a + b) - b == a;
    assert ((b + others) + c) - b == c + others;
  }

  class Application {
    const heap: Heap
    const slots: array<Slots>
    var window: nat
    var active: bool
    var handlers: nat
    var mixLevel: nat

    ghost function Abstract(): State
      reads this, slots
    {
      State(slots[..], window, active, handlers, mixLevel)
    }

    /** The pictures that exist are those in the slots, each in one slot only, and those of
        `others`. */
    ghost predicate Owns(others: multiset<nat>)
      reads this`window, slots, heap
    {
      heap.Valid() && heap.Blocks() == HeldByAll(slots[..]) + Held(window) + others
    }

    ghost predicate Valid()
      reads this, slots
    {
      slots.Length == SCREENS && Inv(Abstract())
    }

    constructor (heap: Heap)
      requires heap.Valid()
      ensures this.heap == heap && Valid() && Owns(heap.Blocks()) && Abstract() == INITIAL && fresh(slots)
    {
      this.heap := heap;
      slots := new Slots[SCREENS](_ => NO_PICTURES);
      window, active, handlers, mixLevel := 0, false, 0, 0;
      new;
      assert slots[..] == INITIAL.slots;
      NoneHeld();
    }

    method DeletePicture(picture: nat, ghost rest: multiset<nat>)
      requires heap.Valid() && heap.Blocks() == Held(picture) + rest
      modifies heap
      ensures heap.Valid() && heap.Blocks() == rest
    {
      if picture != 0 {
        heap.Free(picture);
      }
    }

    /** Centers one picture: it is kept, with a bitmap of the screen's size, or deleted. */
    method CenterImage(screen: Screen, picture: nat, fails: bool, ghost rest: multiset<nat>) returns (kept: nat)
      requires heap.Valid() && heap.Blocks() == Held(picture) + rest
      modifies heap
      ensures kept == Centered(screen, picture, fails)
      ensures heap.Valid() && heap.Blocks() == Held(kept) + rest
    {
      kept := picture;
      if screen.present && picture != 0 {
        if fails {
          DeletePicture(picture, rest);
          kept := 0;
        }
      } else if !screen.present {
        DeletePicture(picture, rest);
        kept := 0;
      }
    }

    /** Centers the pictures of one screen. */
    method CenterScreen(i: nat, screen: Screen, dispose: bool, ghost rest: multiset<nat>)
      returns (c: Slots, next: bool)
      requires slots.Length == SCREENS && i < SCREENS
      requires heap.Valid() && heap.Blocks() == HeldBy(slots[i]) + rest
      modifies heap
      ensures heap.Valid() && heap.Blocks() == HeldBy(c) + rest
      ensures next == (dispose && !IsMixed(slots[i], screen, Mixing(active, mixLevel)))
      ensures c == Disposed(CenteredSlots(slots[i], screen, Mixing(active, mixLevel)), next)
    {
      hide Held, Heap.Valid, Heap.Blocks;
      next := dispose;
      var root, from, to := slots[i].root, slots[i].from, slots[i].to;
      Rotate(Held(root), Held(from), Held(to), rest);
      root := CenterImage(screen, root, screen.rootFails, Held(from) + Held(to) + rest);
      if root != 0 && to != 0 {
        if mixLevel != 255 && active {
          Rotate(Held(root), Held(from), Held(to), rest);
          from := CenterImage(screen, from, screen.fromFails, Held(root) + Held(to) + rest);
          Rotate(Held(root), Held(from), Held(to), rest);
          to := CenterImage(screen, to, screen.toFails, Held(root) + Held(from) + rest);
          if from != 0 && to != 0 {
            next := false;
          }
        }
      }
      Rotate(Held(root), Held(from), Held(to), rest);
      if next {
        DeletePicture(from, Held(root) + Held(to) + rest);
        HeldNone(Held(root), Held(to), rest);
        DeletePicture(to, Held(root) + rest);
        HeldNone(Held(root), multiset{}, rest);
        from, to := 0, 0;
      }
      c := Slots(root, from, to);
    }

    /** Redraws the screens. */
    method CenterBackground(screens: seq<Screen>, ghost others: multiset<nat>)
      requires Valid() && Owns(others) && |screens| == SCREENS
      modifies slots, heap
      ensures Valid() && Owns(others) && Abstract() == AfterCenter(old(Abstract()), screens)
    {
      hide Held, HeldBy, HeldByAll, Heap.Valid, Heap.Blocks, IsMixed, CenteredSlots, Disposed, CenterScreens, Inv;
      CenterNone(slots[..], screens, Mixing(active, mixLevel));
      ghost var before := slots[..];
      ghost var mixing := Mixing(active, mixLevel);
      var dispose := true;
      for i := 0 to SCREENS
        invariant slots.Length == SCREENS && heap.Valid()
        invariant heap.Blocks() == HeldByAll(slots[..]) + Held(window) + others
        invariant slots[..i] == CenterScreens(before, screens, mixing, i).0 && slots[i..] == before[i..]
        invariant dispose == CenterScreens(before, screens, mixing, i).1
      {
        ghost var now := slots[..];
        assert now[i] == slots[i] == slots[i..][0] == before[i];
        ghost var rest := HeldSplit(now, i);
        Regroup(HeldBy(now[i]), rest, Held(window), others);
        var c, next := CenterScreen(i, screens[i], dispose, rest + Held(window) + others);
        Regroup(HeldBy(c), rest, Held(window), others);
        HeldPut(now, i, c, rest);
        CenterNext(before, screens, mixing, i);
        slots[i], dispose := c, next;
        assert slots[..] == now[i := c];
        assert slots[..i + 1] == now[..i] + [c] && slots[i + 1..] == now[i..][1..];
      }
      assert slots[..SCREENS] == slots[..];
      assert Abstract() == After(old(Abstract()), Center(screens));
      StepKeepsInv(old(Abstract()), Center(screens));
    }

    method RemoveTransition()
      requires handlers == if active then 1 else 0
      modifies this`active, this`handlers
      ensures Abstract() == AfterStop(old(Abstract())) && !active && handlers == 0
    {
      if active {
        active := false;
        handlers := handlers - 1;
      }
    }

    /** The timer handler. */
    method UpdateTransitionEffect()
      requires Valid() && handlers > 0
      modifies this`active, this`handlers, this`mixLevel
      ensures Valid() && Abstract() == AfterTick(old(Abstract()))
    {
      mixLevel := (mixLevel + 5) % 256;
      if mixLevel == 255 {
        RemoveTransition();
      }
    }

    /** A picture for a transition, 0 when there is no memory for it. */
    method CreatePicture(memory: bool, ghost rest: multiset<nat>) returns (picture: nat)
      requires heap.Valid() && heap.Blocks() == rest
      modifies heap
      ensures heap.Valid() && heap.Blocks() == Held(picture) + rest && (picture != 0 <==> memory)
    {
      picture := 0;
      if memory {
        picture := heap.Allocate();
      }
    }

    /** Puts a new picture in the slots of a screen, which drops its transition pictures;
        the picture shown before is handed over. */
    method ReplaceSlots(sid: nat, picture: nat, ghost others: multiset<nat>) returns (tmp: nat)
      requires sid < slots.Length && Owns(Held(picture) + others)
      modifies slots, heap
      ensures slots[..] == old(slots[..])[sid := Slots(picture, 0, 0)] && tmp == old(slots[sid]).root
      ensures Owns(Held(tmp) + others)
    {
      hide HeldByAll, Heap.Valid, Heap.Blocks, Held, HeldBy;
      ghost var now := slots[..];
      ghost var rest := HeldSplit(now, sid);
      tmp := slots[sid].root;
      StartReplace(slots[sid], rest, Held(window), Held(picture), others);
      ghost var more := rest + Held(window) + Held(picture) + others;
      DeletePicture(slots[sid].from, Held(slots[sid].to) + (Held(tmp) + more));
      DeletePicture(slots[sid].to, Held(tmp) + more);
      slots[sid] := Slots(picture, 0, 0);
      assert slots[..] == now[sid := Slots(picture, 0, 0)];
      HeldPut(now, sid, Slots(picture, 0, 0), rest);
      EndReplace(picture, rest, Held(window), Held(tmp), others);
    }

    /** Makes a picture for the transition and puts all three in the slots, if there is memory
        for it. */
    method StartMixture(sid: nat, tmp: nat, memory: bool, ghost others: multiset<nat>) returns (mixture: nat)
      requires sid < slots.Length && slots[sid].from == slots[sid].to == 0 && Owns(Held(tmp) + others)
      modifies slots, heap
      ensures mixture != 0 <==> memory
      ensures var c := if memory then Slots(mixture, tmp, old(slots[sid]).root) else old(slots[sid]);
        slots[..] == old(slots[..])[sid := c]
      ensures Owns(Held(if memory then 0 else tmp) + others)
    {
      hide HeldByAll, Heap.Valid, Heap.Blocks, Held, HeldBy;
      ghost var now := slots[..];
      var picture := slots[sid].root;
      ghost var rest := HeldSplit(now, sid);
      EndReplace(picture, rest, Held(window), Held(tmp), others);
      ghost var all := Held(tmp) + (rest + Held(window) + Held(picture) + others);
      mixture := CreatePicture(memory, all);
      if mixture != 0 {
        slots[sid] := Slots(mixture, tmp, picture);
        assert slots[..] == now[sid := Slots(mixture, tmp, picture)];
        HeldPut(now, sid, Slots(mixture, tmp, picture), rest);
        StartTransition(mixture, tmp, picture, rest, Held(window), others);
      } else {
        NoMixture(all);
        assert slots[..] == now[sid := now[sid]];
      }
    }

    /** Puts a new picture in the slots of a screen; `tmp` is the picture shown before,
        unless a transition from it starts. */
    method ReplaceRoot(sid: nat, picture: nat, wanted: bool, memory: bool, ghost others: multiset<nat>)
      returns (tmp: nat, mixture: nat)
      requires Valid() && sid < SCREENS && Owns(Held(picture) + others)
      modifies this`active, this`handlers, this`mixLevel, slots, heap
      ensures Valid() && Owns(Held(tmp) + others)
      ensures mixture != 0 <==> old(slots[sid]).root != 0 && picture != 0 && wanted && memory
      ensures Abstract() == AfterAddRoot(old(Abstract()), sid, picture, mixture)
    {
      hide HeldByAll, Held, Owns;
      mixture := 0;
      tmp := ReplaceSlots(sid, picture, others);
      RemoveTransition();
      if tmp != 0 && picture != 0 && wanted {
        mixture := StartMixture(sid, tmp, memory, others);
        if mixture != 0 {
          active, handlers, mixLevel := true, handlers + 1, 0;
          tmp := 0;
        }
      }
    }

    /** Takes over a new picture for the windows. */
    method AddBackgroundWindow(picture: nat, ghost others: multiset<nat>)
      requires Valid() && Owns(Held(picture) + others)
      modifies this`window, heap
      ensures Valid() && Owns(others) && Abstract() == AfterAddWindow(old(Abstract()), picture)
    {
      hide HeldByAll, Heap.Valid, Heap.Blocks, Held;
      ghost var screens := HeldByAll(slots[..]);
      assert screens + Held(window) + (Held(picture) + others) == Held(window) + (screens + Held(picture) + others);
      DeletePicture(window, screens + Held(picture) + others);
      window := picture;
    }

    /** At the end of the program all pictures are deleted. */
    method Dispose(ghost others: multiset<nat>)
      requires Valid() && Owns(others)
      modifies heap
      ensures heap.Valid() && heap.Blocks() == others
    {
      hide HeldByAll, Heap.Valid, Heap.Blocks, Held;
      for i := 0 to SCREENS
        invariant heap.Valid() && heap.Blocks() == HeldByAll(slots[i..]) + Held(window) + others
      {
        var c := slots[i];
        ghost var rest := HeldByAll(slots[i + 1..]) + Held(window) + others;
        DisposeNext(slots[..], i, Held(window), others);
        DeletePicture(c.root, Held(c.from) + (Held(c.to) + rest));
        DeletePicture(c.from, Held(c.to) + rest);
        DeletePicture(c.to, rest);
      }
      NoScreens(slots[SCREENS..], Held(window), others);
      DeletePicture(window, others);
    }

    /** Takes over a new picture for a screen. `wanted` tells whether transitions are turned
        on and the screen can do them; `redraws` are the redraws that follow before the
        picture shown before is deleted. */
    method AddBackgroundRoot(sid: nat, picture: nat, wanted: bool, memory: bool, redraws: seq<seq<Screen>>,
                             ghost others: multiset<nat>)
      returns (mixture: nat)
      requires Valid() && sid < SCREENS && Owns(Held(picture) + others)
      requires forall k :: 0 <= k < |redraws| ==> |redraws[k]| == SCREENS
      modifies this`active, this`handlers, this`mixLevel, slots, heap
      ensures Valid() && Owns(others)
      ensures mixture != 0 <==> old(slots[sid]).root != 0 && picture != 0 && wanted && memory
      ensures Abstract() == AfterCenters(AfterAddRoot(old(Abstract()), sid, picture, mixture), redraws)
    {
      hide HeldBy, HeldByAll, Heap.Valid, Heap.Blocks, AfterCenters, Held;
      var tmp;
      tmp, mixture := ReplaceRoot(sid, picture, wanted, memory, others);
      assert Abstract() == AfterAddRoot(old(Abstract()), sid, picture, mixture);
      ghost var s := Abstract();
      assert redraws[..0] == [];
      for k := 0 to |redraws|
        invariant Valid() && Owns(Held(tmp) + others)
        invariant AfterCenters(s, redraws) == AfterCenters(Abstract(), redraws[k..])
      {
        CentersNext(Abstract(), redraws[k..]);
        assert redraws[k..][1..] == redraws[k + 1..];
        CenterBackground(redraws[k], Held(tmp) + others);
      }
      CentersNone(Abstract(), redraws[|redraws|..]);
      TakeOut(HeldByAll(slots[..]), Held(window), Held(tmp), others);
      DeletePicture(tmp, HeldByAll(slots[..]) + Held(window) + others);
    }
  }
}
