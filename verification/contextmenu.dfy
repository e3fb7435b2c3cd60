/** The context menu builder: one pass over a table of entries that filters them, collapses
    separators and nests entries by their depth. */
module ContextMenus {
  import opened Options
  import opened Sequences

  /** The bit of an allow mask that keeps an entry, disabled, where it is not allowed. */
  const DISABLED: nat := 31

  /** An entry of the table: separators have an empty name; `permitted` and `enabled` are the
      answers of the entry's own functions. */
  datatype Entry = Entry(name: string, depth: nat, allow: set<nat>, permitted: bool, enabled: bool)

  /** An item of the menu: its parent is the number of an item, -1 for the menu itself. */
  datatype Member = Member(entry: Entry, enabled: bool, parent: int)

  /** Whether the last item is a separator: no item yet, no, or yes and which. */
  datatype BarLabel = AtStart | NotBar | IsBarItem(member: nat)

  /** The pass: the items, the stack of parents, the parent of the next item, the last item,
      the depth; `undefined` once a parent was read before it was set. */
  datatype Build = Build(
    members: seq<Member>, stack: seq<int>, current: int, lurking: int, depth: nat, bar: BarLabel, undefined: bool)

  const NEW_BUILD := Build([], [], -1, -1, 0, AtStart, false)

  predicate IsBar(e: Entry) {
    e.name == ""
  }

  predicate Allowed(e: Entry, mask: set<nat>) {
    (e.allow == {} || e.allow * mask != {} || DISABLED in e.allow) && e.permitted
  }

  predicate IsEnabled(e: Entry, mask: set<nat>) {
    e.enabled && !(DISABLED in e.allow && e.allow * mask == {})
  }

  // ----- The steps -----------------------------------------------------------------------------

  /** Moves to the depth of the next item. A step down, however deep, opens one submenu; a
      step up returns to the menu itself or stays with the parent it has. */
  function MovedTo(b: Build, depth: nat): Build {
    if depth > b.depth then
      b.(stack := b.stack + [b.lurking], current := b.lurking, undefined := b.undefined || b.members == [])
    else if depth < b.depth then
      var up := b.depth - depth;
      var stack := if up <= |b.stack| then b.stack[..|b.stack| - up] else [];
      b.(stack := stack, current := if stack == [] then -1 else b.current)
    else b
  }

  function WithItem(b: Build, e: Entry, mask: set<nat>): Build {
    var moved := MovedTo(b, e.depth);
    moved.(members := moved.members + [Member(e, IsEnabled(e, mask), moved.current)],
           lurking := |moved.members|, depth := e.depth,
           bar := if IsBar(e) then IsBarItem(|moved.members|) else NotBar)
  }

  predicate Skipped(b: Build, e: Entry, mask: set<nat>) {
    !Allowed(e, mask) || (IsBar(e) && b.bar != NotBar)
  }

  /** The pass over the first `n` entries. */
  function After(table: seq<Entry>, mask: set<nat>, n: nat): Build
    requires n <= |table|
  {
    if n == 0 then NEW_BUILD
    else
      var b := After(table, mask, n - 1);
      if Skipped(b, table[n - 1], mask) then b else WithItem(b, table[n - 1], mask)
  }

  /** The items without a separator at the end. */
  function Trimmed(b: Build): seq<Member> {
    if b.bar.IsBarItem? && b.members != [] then b.members[..|b.members| - 1] else b.members
  }

  // ----- Which entries the menu has ---------------------------------------------------------------

  function AllowedOf(es: seq<Entry>, mask: set<nat>): seq<Entry> {
    if es == [] then []
    else (if Allowed(es[0], mask) then [es[0]] else []) + AllowedOf(es[1..], mask)
  }

  /** Of each run of separators between two items the first, and none before the first item
      or after the last. `pending` is a separator seen since the last item. */
  function Separated(es: seq<Entry>, pending: Option<Entry>, started: bool): seq<Entry> {
    if es == [] then []
    else if IsBar(es[0]) then
      Separated(es[1..], if started && pending == None then Some(es[0]) else pending, started)
    else (if pending.Some? then [pending.value] else []) + [es[0]] + Separated(es[1..], None, true)
  }

  function EntriesOf(ms: seq<Member>): (es: seq<Entry>)
    ensures |es| == |ms|
  {
    seq(|ms|, i requires 0 <= i < |ms| => ms[i].entry)
  }

  /** The number of the separator the pass may still take back is that of its last item,
      which has the current parent. */
  ghost predicate BarIsLast(b: Build) {
    && (b.members == [] <==> b.bar == AtStart)
    && (b.bar.IsBarItem? ==>
          && b.bar.member == |b.members| - 1
          && b.members[b.bar.member].parent == b.current && IsBar(b.members[b.bar.member].entry))
    && (b.bar == NotBar ==> !IsBar(b.members[|b.members| - 1].entry))
  }

  ghost function PendingOf(b: Build): Option<Entry>
    requires BarIsLast(b)
  {
    if b.bar.IsBarItem? then Some(b.members[b.bar.member].entry) else None
  }

  lemma {:induction false} AfterBarIsLast(table: seq<Entry>, mask: set<nat>, n: nat)
    requires n <= |table|
    ensures BarIsLast(After(table, mask, n))
  {
    if n > 0 {
      AfterBarIsLast(table, mask, n - 1);
    }
  }

  /** What the rest of the table adds to the items so far. */
  lemma {:induction false} BuiltSoFar(table: seq<Entry>, mask: set<nat>, n: nat)
    requires n <= |table|
    ensures BarIsLast(After(table, mask, n))
    ensures var b := After(table, mask, n);
      EntriesOf(Trimmed(b)) + Separated(AllowedOf(table[n..], mask), PendingOf(b), b.bar != AtStart)
        == Separated(AllowedOf(table, mask), None, false)
    decreases n
  {
    AfterBarIsLast(table, mask, n);
    if n == 0 {
      assert table[0..] == table;
    } else {
      var b, b', e := After(table, mask, n - 1), After(table, mask, n), table[n - 1];
      BuiltSoFar(table, mask, n - 1);
      assert table[n - 1..][1..] == table[n..];
      NextBuilt(b, e, mask, AllowedOf(table[n..], mask));
    }
  }

  lemma NextBuilt(b: Build, e: Entry, mask: set<nat>, rest: seq<Entry>)
    requires BarIsLast(b)
    ensures var b' := if Skipped(b, e, mask) then b else WithItem(b, e, mask);
      && BarIsLast(b')
      && EntriesOf(Trimmed(b')) + Separated(rest, PendingOf(b'), b'.bar != AtStart)
        == EntriesOf(Trimmed(b)) +
           Separated((if Allowed(e, mask) then [e] else []) + rest, PendingOf(b), b.bar != AtStart)
  {
    assert ([e] + rest)[1..] == rest && [] + rest == rest;
    if !Skipped(b, e, mask) {
      WithItemMembers(b, e, mask);
      hide WithItem, MovedTo, IsEnabled;
      if IsBar(e) {
        BarAdded(b, e, mask, rest);
      } else {
        ItemAdded(b, e, mask, rest);
      }
    }
  }

  lemma WithItemMembers(b: Build, e: Entry, mask: set<nat>)
    ensures var b' := WithItem(b, e, mask);
      && |b'.members| == |b.members| + 1 && b'.members[..|b.members|] == b.members
      && b'.members[|b.members|] == Member(e, IsEnabled(e, mask), b'.current)
      && b'.bar == if IsBar(e) then IsBarItem(|b.members|) else NotBar
  {
  }

  lemma BarAdded(b: Build, e: Entry, mask: set<nat>, rest: seq<Entry>)
    requires BarIsLast(b) && !Skipped(b, e, mask) && IsBar(e)
    ensures var b' := WithItem(b, e, mask);
      && BarIsLast(b')
      && EntriesOf(Trimmed(b')) + Separated(rest, PendingOf(b'), b'.bar != AtStart)
        == EntriesOf(Trimmed(b)) + Separated([e] + rest, PendingOf(b), b.bar != AtStart)
  {
  }

  lemma ItemAdded(b: Build, e: Entry, mask: set<nat>, rest: seq<Entry>)
    requires BarIsLast(b) && !Skipped(b, e, mask) && !IsBar(e)
    ensures var b' := WithItem(b, e, mask);
      && BarIsLast(b')
      && EntriesOf(Trimmed(b')) + Separated(rest, PendingOf(b'), b'.bar != AtStart)
        == EntriesOf(Trimmed(b)) + Separated([e] + rest, PendingOf(b), b.bar != AtStart)
  {
    var b' := WithItem(b, e, mask);
    WithItemMembers(b, e, mask);
    hide WithItem, MovedTo, IsEnabled;
    assert ([e] + rest)[1..] == rest;
    var p := if b.bar.IsBarItem? then [b.members[b.bar.member].entry] else [];
    assert EntriesOf(b.members) == EntriesOf(Trimmed(b)) + p;
    assert EntriesOf(Trimmed(b')) == EntriesOf(Trimmed(b)) + p + [e];
    Reassociate(EntriesOf(Trimmed(b)), p, [e], Separated(rest, None, true));
  }

  lemma Reassociate(a: seq<Entry>, b: seq<Entry>, c: seq<Entry>, d: seq<Entry>)
    ensures a + b + c + d == a + (b + c + d)
  {
  }

  /** The menu's entries, in the order in which they were added, are the allowed entries with
      their separators collapsed. */
  lemma MenuIsSeparated(table: seq<Entry>, mask: set<nat>)
    ensures EntriesOf(Trimmed(After(table, mask, |table|))) == Separated(AllowedOf(table, mask), None, false)
  {
    BuiltSoFar(table, mask, |table|);
    assert table[|table|..] == [];
  }

  function Items(es: seq<Entry>): seq<Entry> {
    if es == [] then [] else (if IsBar(es[0]) then [] else [es[0]]) + Items(es[1..])
  }

  /** Every separator is followed by an item. */
  predicate BarsBeforeItems(es: seq<Entry>) {
    es != [] ==> (IsBar(es[0]) ==> |es| > 1 && !IsBar(es[1])) && BarsBeforeItems(es[1..])
  }

  /** No separator is first, last or next to another. */
  predicate WellSeparated(es: seq<Entry>) {
    (es != [] ==> !IsBar(es[0])) && BarsBeforeItems(es)
  }

  function Listed(o: Option<Entry>): seq<Entry> {
    if o.Some? then [o.value] else []
  }

  lemma SeparatedNext(es: seq<Entry>, pending: Option<Entry>, started: bool)
    requires es != []
    ensures Separated(es, pending, started) ==
      if IsBar(es[0]) then Separated(es[1..], if started && pending == None then Some(es[0]) else pending, started)
      else Listed(pending) + ([es[0]] + Separated(es[1..], None, true))
  {
  }

  lemma ItemsCons(e: Entry, es: seq<Entry>)
    ensures Items([e] + es) == (if IsBar(e) then [] else [e]) + Items(es)
  {
  }

  lemma {:induction false} SeparatedItems(es: seq<Entry>, pending: Option<Entry>, started: bool)
    requires pending.Some? ==> IsBar(pending.value)
    ensures Items(Separated(es, pending, started)) == Items(es)
  {
    if es != [] {
      hide Separated, Items;
      SeparatedNext(es, pending, started);
      assert es == [es[0]] + es[1..];
      ItemsCons(es[0], es[1..]);
      if IsBar(es[0]) {
        SeparatedItems(es[1..], if started && pending == None then Some(es[0]) else pending, started);
      } else {
        var rest := Separated(es[1..], None, true);
        SeparatedItems(es[1..], None, true);
        ItemsCons(es[0], rest);
        if pending.Some? {
          ItemsCons(pending.value, [es[0]] + rest);
        }
        assert [] + ([es[0]] + rest) == [es[0]] + rest;
      }
    }
  }

  lemma BarsCons(e: Entry, es: seq<Entry>)
    requires BarsBeforeItems(es) && (IsBar(e) ==> es != [] && !IsBar(es[0]))
    ensures BarsBeforeItems([e] + es)
  {
  }

  lemma {:induction false} SeparatedBars(es: seq<Entry>, pending: Option<Entry>, started: bool)
    requires pending.Some? ==> IsBar(pending.value)
    ensures BarsBeforeItems(Separated(es, pending, started))
    ensures !started && pending == None ==> WellSeparated(Separated(es, pending, started))
  {
    if es != [] {
      hide Separated, BarsBeforeItems;
      SeparatedNext(es, pending, started);
      if IsBar(es[0]) {
        SeparatedBars(es[1..], if started && pending == None then Some(es[0]) else pending, started);
      } else {
        var rest := Separated(es[1..], None, true);
        SeparatedBars(es[1..], None, true);
        BarsCons(es[0], rest);
        if pending.Some? {
          BarsCons(pending.value, [es[0]] + rest);
        }
        assert [] + ([es[0]] + rest) == [es[0]] + rest;
      }
    } else {
      assert Separated(es, pending, started) == [];
    }
  }

  /** For every table and mask the menu has the allowed entries that are not separators, all
      of them and in order, and no separator is first, last or next to another. */
  lemma MenuHasAllowedItems(table: seq<Entry>, mask: set<nat>)
    ensures var menu := EntriesOf(Trimmed(After(table, mask, |table|)));
      Items(menu) == Items(AllowedOf(table, mask)) && WellSeparated(menu)
  {
    MenuIsSeparated(table, mask);
    SeparatedItems(AllowedOf(table, mask), None, false);
    SeparatedBars(AllowedOf(table, mask), None, false);
  }

  // ----- Which items are there and enabled ---------------------------------------------------------------

  ghost predicate SharesBit(allow: set<nat>, mask: set<nat>) {
    exists bit :: bit in allow && bit in mask
  }

  lemma {:induction false} InItems(es: seq<Entry>, e: Entry)
    ensures e in Items(es) <==> e in es && e.name != ""
  {
    if es != [] {
      InItems(es[1..], e);
    }
  }

  lemma {:induction false} InAllowed(es: seq<Entry>, mask: set<nat>, e: Entry)
    ensures e in AllowedOf(es, mask) <==>
      e in es && e.permitted && (e.allow == {} || SharesBit(e.allow, mask) || 31 in e.allow)
  {
    if es != [] {
      InAllowed(es[1..], mask, e);
      AllowedIff(es[0], mask);
      hide Allowed, SharesBit;
    }
  }

  lemma AllowedIff(e: Entry, mask: set<nat>)
    ensures Allowed(e, mask) <==> e.permitted && (e.allow == {} || SharesBit(e.allow, mask) || 31 in e.allow)
  {
    if e.allow * mask != {} {
      var bit :| bit in e.allow * mask;
      assert bit in e.allow && bit in mask;
    }
    if SharesBit(e.allow, mask) {
      var bit :| bit in e.allow && bit in mask;
      assert bit in e.allow * mask;
    }
  }

  /** An entry with a name is in the menu if and only if it is in the table, its own function
      permits it, and it asks for nothing, for something the mask has, or to be shown
      disabled otherwise. */
  lemma InMenuIff(table: seq<Entry>, mask: set<nat>, e: Entry)
    requires e.name != ""
    ensures e in EntriesOf(Trimmed(After(table, mask, |table|))) <==>
      e in table && e.permitted && (e.allow == {} || SharesBit(e.allow, mask) || 31 in e.allow)
  {
    MenuHasAllowedItems(table, mask);
    InItems(EntriesOf(Trimmed(After(table, mask, |table|))), e);
    InItems(AllowedOf(table, mask), e);
    InAllowed(table, mask, e);
  }

  lemma {:induction false} MembersEnabled(table: seq<Entry>, mask: set<nat>, n: nat, i: nat)
    requires n <= |table| && i < |After(table, mask, n).members|
    ensures var m := After(table, mask, n).members[i]; m.enabled == IsEnabled(m.entry, mask)
  {
    if n > 0 {
      hide Skipped, IsEnabled;
      WithItemMembers(After(table, mask, n - 1), table[n - 1], mask);
      hide WithItem;
      var before := After(table, mask, n - 1).members;
      if i < |before| {
        MembersEnabled(table, mask, n - 1, i);
        assert After(table, mask, n).members[..|before|][i] == After(table, mask, n).members[i];
      }
    }
  }

  /** An item of the menu is enabled if and only if its table entry is and, should the entry
      ask to be shown disabled otherwise, the mask has something that it asks for. */
  lemma {:induction false} EnabledIff(table: seq<Entry>, mask: set<nat>, m: Member)
    requires m in Trimmed(After(table, mask, |table|))
    ensures m.enabled <==> m.entry.enabled && (31 in m.entry.allow ==> SharesBit(m.entry.allow, mask))
  {
    var ms := After(table, mask, |table|).members;
    var i :| 0 <= i < |ms| && ms[i] == m;
    MembersEnabled(table, mask, |table|, i);
    if SharesBit(m.entry.allow, mask) {
      var bit :| bit in m.entry.allow && bit in mask;
      assert bit in m.entry.allow * mask;
    }
  }

  // ----- How they are nested ---------------------------------------------------------------------------

  /** The parents come before their items. */
  ghost predicate IsForest(ms: seq<Member>) {
    forall i :: 0 <= i < |ms| ==> -1 <= ms[i].parent < i
  }

  function DepthOf(ms: seq<Member>, i: nat): nat
    requires IsForest(ms) && i < |ms|
    decreases i
  {
    if ms[i].parent == -1 then 0 else DepthOf(ms, ms[i].parent) + 1
  }

  lemma {:induction false} DepthOfPrefix(ms: seq<Member>, n: nat, i: nat)
    requires i < n <= |ms| && IsForest(ms) && IsForest(ms[..n])
    ensures DepthOf(ms[..n], i) == DepthOf(ms, i)
    decreases i
  {
    if ms[i].parent != -1 {
      DepthOfPrefix(ms, n, ms[i].parent);
    }
  }

  /** Every item sits as deep in the menu as its entry says. */
  ghost predicate RightDepths(ms: seq<Member>) {
    IsForest(ms) && forall i :: 0 <= i < |ms| ==> DepthOf(ms, i) == ms[i].entry.depth
  }

  /** The depths of the items go down by one at a time, and up only all the way. */
  ghost predicate Buildable(ms: seq<Member>) {
    && (ms != [] ==> ms[0].entry.depth == 0)
    && forall i {:trigger ms[i]} :: 0 < i < |ms| ==>
         var d, d' := ms[i - 1].entry.depth, ms[i].entry.depth;
         d' <= d + 1 && (d' < d ==> d' == 0)
  }

  /** What the pass keeps while the depths are buildable: the stack is as high as the depth,
      and the next item at this depth becomes a sibling of the last. */
  ghost predicate Nesting(b: Build) {
    && IsForest(b.members) && |b.stack| == b.depth && b.lurking == |b.members| - 1
    && (b.members == [] ==> b.depth == 0 && b.current == -1)
    && (b.members != [] ==>
          && b.current == b.members[b.lurking].parent && b.depth == b.members[b.lurking].entry.depth)
  }

  lemma NextNesting(b: Build, e: Entry, mask: set<nat>)
    requires Nesting(b) && RightDepths(b.members) && !b.undefined
    ensures var b' := WithItem(b, e, mask);
      if b.members == [] && e.depth > 0 then b'.undefined
      else if e.depth <= b.depth + 1 && (e.depth < b.depth ==> e.depth == 0) then
        Nesting(b') && RightDepths(b'.members) && !b'.undefined
      else IsForest(b'.members) && !RightDepths(b'.members)
  {
    var b' := WithItem(b, e, mask);
    assert b'.members[..|b.members|] == b.members;
    if !(b.members == [] && e.depth > 0) {
      assert IsForest(b'.members);
      forall i | 0 <= i < |b.members|
        ensures DepthOf(b'.members, i) == DepthOf(b.members, i)
      {
        DepthOfPrefix(b'.members, |b.members|, i);
      }
      var last := |b.members|;
      var parent := MovedTo(b, e.depth).current;
      assert b'.members[last] == Member(e, IsEnabled(e, mask), parent);
      assert DepthOf(b'.members, last) == if parent == -1 then 0 else DepthOf(b'.members, parent) + 1;
      assert b'.members[last].entry.depth == e.depth;
      if b.members != [] {
        assert DepthOf(b'.members, b.lurking) == b.depth;
        assert b.depth == if b.current == -1 then 0 else DepthOf(b'.members, b.current) + 1;
      }
    }
  }

  /** The parent of an item is the item before it, that item's parent, or the menu. */
  ghost predicate Nested(ms: seq<Member>) {
    && (ms != [] ==> ms[0].parent == -1)
    && forall i {:trigger ms[i]} :: 0 < i < |ms| ==>
         ms[i].parent == i - 1 || ms[i].parent == ms[i - 1].parent || ms[i].parent == -1
  }

  lemma {:induction false} NestedIsForest(ms: seq<Member>, i: nat)
    requires Nested(ms) && i < |ms|
    ensures -1 <= ms[i].parent < i
  {
    if i > 0 {
      NestedIsForest(ms, i - 1);
    }
  }

  ghost predicate Linked(b: Build) {
    && Nested(b.members) && b.lurking == |b.members| - 1
    && (b.members == [] ==> b.current == -1)
    && (b.members != [] ==> b.current == b.members[b.lurking].parent)
  }

  lemma ForestOf(ms: seq<Member>)
    requires Nested(ms)
    ensures IsForest(ms)
  {
    forall i | 0 <= i < |ms|
      ensures -1 <= ms[i].parent < i
    {
      NestedIsForest(ms, i);
    }
  }

  lemma LinkedNext(b: Build, e: Entry, mask: set<nat>)
    requires Linked(b)
    ensures Linked(WithItem(b, e, mask))
  {
    var b' := WithItem(b, e, mask);
    WithItemMembers(b, e, mask);
    assert forall i :: 0 <= i < |b.members| ==> b'.members[i] == b'.members[..|b.members|][i];
  }

  lemma AfterStep(table: seq<Entry>, mask: set<nat>, n: nat)
    requires 0 < n <= |table|
    ensures var b := After(table, mask, n - 1);
      After(table, mask, n) == if Skipped(b, table[n - 1], mask) then b else WithItem(b, table[n - 1], mask)
  {
  }

  lemma {:induction false} AfterLinked(table: seq<Entry>, mask: set<nat>, n: nat)
    requires n <= |table|
    ensures Linked(After(table, mask, n)) && IsForest(After(table, mask, n).members)
  {
    if n > 0 {
      hide Linked, IsForest, Skipped, WithItem;
      AfterLinked(table, mask, n - 1);
      AfterStep(table, mask, n);
      LinkedNext(After(table, mask, n - 1), table[n - 1], mask);
    }
    LinkedForest(After(table, mask, n));
  }

  lemma LinkedForest(b: Build)
    requires Linked(b)
    ensures IsForest(b.members)
  {
    ForestOf(b.members);
  }

  lemma BuildableSnoc(ms: seq<Member>, m: Member)
    ensures Buildable(ms + [m]) <==>
      && Buildable(ms)
      && if ms == [] then m.entry.depth == 0
         else var d := ms[|ms| - 1].entry.depth;
           m.entry.depth <= d + 1 && (m.entry.depth < d ==> m.entry.depth == 0)
  {
    var more := ms + [m];
    assert forall i :: 0 <= i < |ms| ==> more[i] == ms[i];
    if Buildable(more) && ms != [] {
      assert more[|ms|] == m;
    }
  }

  lemma WrongStaysWrong(ms: seq<Member>, m: Member)
    requires IsForest(ms) && IsForest(ms + [m]) && !RightDepths(ms)
    ensures !RightDepths(ms + [m])
  {
    var i :| 0 <= i < |ms| && DepthOf(ms, i) != ms[i].entry.depth;
    assert (ms + [m])[..|ms|] == ms;
    DepthOfPrefix(ms + [m], |ms|, i);
    assert (ms + [m])[i] == ms[i];
  }

  /** For every table and mask: no parent is read before it is set and every item sits as
      deep as its entry says if and only if the first item that is kept has depth 0 and the
      depths go down by one at a time and up only all the way. */
  lemma {:induction false} DepthsRightIffBuildable(table: seq<Entry>, mask: set<nat>, n: nat)
    requires n <= |table|
    ensures var b := After(table, mask, n);
      && (!b.undefined && RightDepths(b.members) <==> Buildable(b.members))
      && (Buildable(b.members) ==> Nesting(b))
  {
    hide Buildable, RightDepths, After, Linked, Nesting, Skipped, IsForest, WithItem;
    AfterLinked(table, mask, n);
    if n > 0 {
      var b, e := After(table, mask, n - 1), table[n - 1];
      DepthsRightIffBuildable(table, mask, n - 1);
      AfterLinked(table, mask, n - 1);
      AfterStep(table, mask, n);
      if !Skipped(b, e, mask) {
        NextDepth(b, e, mask);
      }
    } else {
      NothingBuilt(table, mask);
    }
  }

  lemma NothingBuilt(table: seq<Entry>, mask: set<nat>)
    ensures var b := After(table, mask, 0);
      Nesting(b) && RightDepths(b.members) && Buildable(b.members) && !b.undefined
  {
  }

  lemma NextDepth(b: Build, e: Entry, mask: set<nat>)
    requires var b' := WithItem(b, e, mask); IsForest(b'.members) && IsForest(b.members)
    requires Linked(b)
    requires !b.undefined && RightDepths(b.members) <==> Buildable(b.members)
    requires Buildable(b.members) ==> Nesting(b)
    ensures var b' := WithItem(b, e, mask);
      && (!b'.undefined && RightDepths(b'.members) <==> Buildable(b'.members))
      && (Buildable(b'.members) ==> Nesting(b'))
  {
    var b' := WithItem(b, e, mask);
    WithItemMembers(b, e, mask);
    var m := b'.members[|b.members|];
    assert b'.members == b.members + [m];
    BuildableSnoc(b.members, m);
    if Buildable(b.members) {
      hide Buildable;
      NextNesting(b, e, mask);
      SameDepth(b);
    } else if !RightDepths(b.members) {
      WrongStaysWrong(b.members, m);
    }
  }

  lemma SameDepth(b: Build)
    requires Nesting(b)
    ensures b.members != [] ==> b.depth == b.members[|b.members| - 1].entry.depth
  {
  }

  lemma NothingYet(table: seq<Entry>, mask: set<nat>)
    ensures After(table, mask, 0) == NEW_BUILD
  {
  }

  /** Depths 0, 1, 2, 1 are built wrongly: the last item ends up in the inner submenu. */
  lemma TwoLevelsGoWrong(names: string, mask: set<nat>)
    requires names != ""
    ensures var e := (d: nat) => Entry(names, d, {}, true, true);
      var b := After([e(0), e(1), e(2), e(1)], mask, 4);
      |b.members| == 4 && b.members[3].entry.depth == 1 && b.members[3].parent == 1 && b.members[1].parent == 0
  {
    var e := (d: nat) => Entry(names, d, {}, true, true);
    var table := [e(0), e(1), e(2), e(1)];
    hide After;
    assert After(table, mask, 0) == NEW_BUILD by { NothingYet(table, mask); }
    AfterStep(table, mask, 1);
    AfterStep(table, mask, 2);
    AfterStep(table, mask, 3);
    AfterStep(table, mask, 4);
  }

  // ----- Which parent an item gets ------------------------------------------------------------------

  /** The last position of a depth below `d`, -1 if there is none. */
  function LastBelow(depths: seq<nat>, d: nat): (i: int)
    ensures -1 <= i < |depths| && (i >= 0 ==> depths[i] < d)
    ensures forall k :: i < k < |depths| ==> depths[k] >= d
  {
    if depths == [] then -1
    else
      var last := |depths| - 1;
      if depths[last] < d then last else LastBelow(depths[..last], d)
  }

  lemma LastBelowIs(depths: seq<nat>, d: nat, i: int)
    requires -1 <= i < |depths| && (i >= 0 ==> depths[i] < d)
    requires forall k :: i < k < |depths| ==> depths[k] >= d
    ensures LastBelow(depths, d) == i
  {
  }

  function Depths(es: seq<Entry>): (ds: seq<nat>)
    ensures |ds| == |es| && forall i :: 0 <= i < |es| ==> ds[i] == es[i].depth
  {
    seq(|es|, i requires 0 <= i < |es| => es[i].depth)
  }

  /** The parent that the table gives entry `j`: the last entry before it that is less deep. */
  function TableParent(table: seq<Entry>, j: nat): (i: int)
    requires j < |table|
    ensures -1 <= i < j
  {
    LastBelow(Depths(table)[..j], table[j].depth)
  }

  /** The numbers of the entries that are kept. */
  function Origins(table: seq<Entry>, mask: set<nat>, n: nat): seq<nat>
    requires n <= |table|
  {
    if n == 0 then []
    else
      Origins(table, mask, n - 1) + if Skipped(After(table, mask, n - 1), table[n - 1], mask) then [] else [n - 1]
  }

  lemma {:induction false} OriginsAre(table: seq<Entry>, mask: set<nat>, n: nat)
    requires n <= |table|
    ensures var o, ms := Origins(table, mask, n), After(table, mask, n).members;
      && |o| == |ms| && (forall m :: 0 <= m < |o| ==> o[m] < n && ms[m].entry == table[o[m]])
      && forall m, k :: 0 <= m < k < |o| ==> o[m] < o[k]
  {
    if n > 0 {
      hide After, Skipped, WithItem;
      OriginsAre(table, mask, n - 1);
      AfterStep(table, mask, n);
      WithItemMembers(After(table, mask, n - 1), table[n - 1], mask);
    } else {
      NothingYet(table, mask);
    }
  }

  /** Where all depths are right, the parent of an item is the last item before it that is
      less deep. */
  lemma {:induction false} ParentIsLastBelow(ms: seq<Member>, m: nat)
    requires Nested(ms) && RightDepths(ms) && m < |ms|
    ensures ms[m].parent == LastBelow(Depths(EntriesOf(ms))[..m], ms[m].entry.depth)
  {
    hide RightDepths, LastBelow, Nested, Depths, EntriesOf;
    DepthsOfItems(ms, m);
    LastBelowCases(Depths(EntriesOf(ms)), m);
    if ms[m].parent != m - 1 && ms[m].parent != -1 {
      ParentIsLastBelow(ms, m - 1);
      DepthsOfItems(ms, m - 1);
    }
  }

  lemma LastBelowCases(ds: seq<nat>, m: nat)
    requires m < |ds|
    ensures ds[m] == 0 ==> LastBelow(ds[..m], ds[m]) == -1
    ensures m > 0 && ds[m - 1] < ds[m] ==> LastBelow(ds[..m], ds[m]) == m - 1
    ensures m > 0 && ds[m - 1] == ds[m] ==> LastBelow(ds[..m], ds[m]) == LastBelow(ds[..m - 1], ds[m - 1])
  {
    if m > 0 {
      assert ds[..m][..m - 1] == ds[..m - 1];
    }
  }

  lemma DepthsOfItems(ms: seq<Member>, m: nat)
    requires Nested(ms) && RightDepths(ms) && m < |ms|
    ensures var ds, p := Depths(EntriesOf(ms)), ms[m].parent;
      && -1 <= p < m && ds[m] == ms[m].entry.depth && (p == -1 ==> ds[m] == 0)
      && (p == m - 1 >= 0 ==> ds[p] < ds[m])
      && (p != -1 && p != m - 1 ==> m > 0 && p == ms[m - 1].parent && ds[m - 1] == ds[m])
  {
    hide DepthOf;
    DepthStep(ms, m);
    if m > 0 {
      DepthStep(ms, m - 1);
    }
  }

  lemma DepthStep(ms: seq<Member>, i: nat)
    requires IsForest(ms) && i < |ms|
    ensures DepthOf(ms, i) == if ms[i].parent == -1 then 0 else DepthOf(ms, ms[i].parent) + 1
  {
  }

  lemma KeptBelow(table: seq<Entry>, o: seq<nat>, ds: seq<nat>, m: nat, p: int)
    requires |o| == |ds| && m < |o| && forall k :: 0 <= k < |o| ==> o[k] < |table| && ds[k] == table[o[k]].depth
    requires forall k, l :: 0 <= k < l < |o| ==> o[k] < o[l]
    requires p == LastBelow(ds[..m], ds[m])
    ensures var tp := TableParent(table, o[m]);
      tp == (if p == -1 then -1 else o[p]) <==> tp == -1 || tp in o
  {
    var tp := TableParent(table, o[m]);
    var before := Depths(table)[..o[m]];
    if tp == -1 {
      forall k | 0 <= k < m
        ensures ds[k] >= ds[m]
      {
        assert before[o[k]] == ds[k];
      }
    } else if tp in o {
      var q :| 0 <= q < |o| && o[q] == tp;
      assert q < m && before[tp] == ds[q];
      forall k | q < k < m
        ensures ds[k] >= ds[m]
      {
        assert before[o[k]] == ds[k];
      }
      LastBelowIs(ds[..m], ds[m], q);
    }
  }

  /** In a menu whose depths are right, an item hangs under the last kept entry before it
      that is less deep. This is the parent that the table gives it if and only if that
      parent is kept, or there is none. */
  lemma ParentIsTablesIffKept(table: seq<Entry>, mask: set<nat>, n: nat, m: nat)
    requires n <= |table| && Buildable(After(table, mask, n).members) && m < |After(table, mask, n).members|
    ensures var ms, o := After(table, mask, n).members, Origins(table, mask, n);
      && |o| == |ms| && (forall k :: 0 <= k < |o| ==> o[k] < |table| && ms[k].entry == table[o[k]])
      && var p, tp := ms[m].parent, TableParent(table, o[m]);
      && p == LastBelow(Depths(EntriesOf(ms))[..m], table[o[m]].depth)
      && (tp == (if p == -1 then -1 else o[p]) <==> tp == -1 || tp in o)
  {
    hide After, Origins, Buildable, LastBelow, TableParent, DepthOf;
    var ms, o := After(table, mask, n).members, Origins(table, mask, n);
    OriginsAre(table, mask, n);
    DepthsRightIffBuildable(table, mask, n);
    AfterLinked(table, mask, n);
    ParentIsLastBelow(ms, m);
    KeptBelow(table, o, Depths(EntriesOf(ms)), m, ms[m].parent);
  }

  /** Depths 0, 0, 1 of which the second is not permitted: the menu is built at the right
      depths, with the third entry under the first. */
  lemma OrphanMovesUp(names: string, mask: set<nat>)
    requires names != ""
    ensures var table := [Entry(names, 0, {}, true, true), Entry(names, 0, {}, false, true),
                          Entry(names, 1, {}, true, true)];
      var ms := After(table, mask, 3).members;
      Buildable(ms) && |ms| == 2 && ms[1].parent == 0 && Origins(table, mask, 3) == [0, 2] && TableParent(table, 2) == 1
  {
    var table := [Entry(names, 0, {}, true, true), Entry(names, 0, {}, false, true), Entry(names, 1, {}, true, true)];
    hide After;
    assert After(table, mask, 0) == NEW_BUILD by { NothingYet(table, mask); }
    AfterStep(table, mask, 1);
    AfterStep(table, mask, 2);
    AfterStep(table, mask, 3);
    assert Origins(table, mask, 1) == [0];
    assert Origins(table, mask, 2) == [0];
    LastBelowIs(Depths(table)[..2], 1, 1);
    var ms := After(table, mask, 3).members;
    assert |ms| == 2 && ms[0].entry == table[0] && ms[1].entry == table[2] && ms[1].parent == 0;
  }

  // ----- The order in which they are shown -----------------------------------------------------------

  /** The numbers of the items below `p` from number `i` on, each followed by those below it. */
  function Preorder(ms: seq<Member>, p: int, i: nat): seq<nat>
    requires i <= |ms|
    decreases |ms| - i
  {
    if i == |ms| then []
    else if ms[i].parent == p then [i] + Preorder(ms, i, i + 1) + Preorder(ms, p, i + 1)
    else Preorder(ms, p, i + 1)
  }

  /** The first number from `i` on whose parent is at most `p`. */
  function First(ms: seq<Member>, p: int, i: nat): (m: nat)
    requires i <= |ms|
    ensures i <= m <= |ms| && (m < |ms| ==> ms[m].parent <= p) && forall k :: i <= k < m ==> ms[k].parent > p
    decreases |ms| - i
  {
    if i == |ms| || ms[i].parent <= p then i else First(ms, p, i + 1)
  }

  /** Once the submenu of `p` is left, nothing is put in it again. */
  lemma {:induction false} NoReturn(ms: seq<Member>, p: int, j: nat, k: nat)
    requires Nested(ms) && 0 <= p < j <= k < |ms| && ms[j].parent < p
    ensures ms[k].parent < p || ms[k].parent >= j
  {
    if k > j {
      NoReturn(ms, p, j, k - 1);
    }
  }

  lemma {:induction false} NoneBelow(ms: seq<Member>, p: int, i: nat)
    requires i <= |ms| && forall k :: i <= k < |ms| ==> ms[k].parent != p
    ensures Preorder(ms, p, i) == []
    decreases |ms| - i
  {
    if i < |ms| {
      NoneBelow(ms, p, i + 1);
    }
  }

  /** What is below `p` from `i` on is a stretch of the items, in order. */
  lemma {:induction false} PreorderIsRange(ms: seq<Member>, p: int, i: nat)
    requires Nested(ms) && -1 <= p < i <= |ms|
    ensures var m := First(ms, p, i);
      Preorder(ms, p, i) == if m < |ms| && ms[m].parent == p then Range(m, First(ms, p - 1, m)) else []
    decreases |ms| - i
  {
    hide Nested;
    if i < |ms| {
      if ms[i].parent > p {
        PreorderIsRange(ms, p, i + 1);
      } else if ms[i].parent < p {
        NestedIsForest(ms, i);
        forall k | i <= k < |ms|
          ensures ms[k].parent != p
        {
          NoReturn(ms, p, i, k);
        }
        NoneBelow(ms, p, i);
      } else {
        PreorderIsRange(ms, i, i + 1);
        PreorderIsRange(ms, p, i + 1);
        Submenu(ms, p, i);
        PreorderOfSubmenu(ms, p, i);
      }
    }
  }

  lemma PreorderOfSubmenu(ms: seq<Member>, p: int, i: nat)
    requires -1 <= p < i < |ms| && ms[i].parent == p
    requires var e := First(ms, i - 1, i + 1);
      && (i + 1 < |ms| ==> First(ms, i, i + 1) == i + 1)
      && Preorder(ms, i, i + 1) == (if i + 1 < |ms| && ms[i + 1].parent == i then Range(i + 1, e) else [])
      && First(ms, p, i + 1) == e
      && First(ms, p - 1, i) == First(ms, p - 1, e)
      && (e < |ms| && ms[e].parent != p ==> First(ms, p - 1, e) == e)
      && Preorder(ms, p, i + 1) == (if e < |ms| && ms[e].parent == p then Range(e, First(ms, p - 1, e)) else [])
    ensures Preorder(ms, p, i) == Range(i, First(ms, p - 1, i))
  {
    PreorderChild(ms, p, i);
    hide Preorder, First, Range;
    var e, end := First(ms, i - 1, i + 1), First(ms, p - 1, i);
    RangeNone(e);
    RangeNone(i + 1);
    assert Preorder(ms, i, i + 1) == Range(i + 1, e) by { SubmenuEmpty(ms, i); }
    assert Preorder(ms, p, i + 1) == Range(e, end);
    RangeThree(i, e, end);
  }

  lemma PreorderChild(ms: seq<Member>, p: int, i: nat)
    requires i < |ms| && ms[i].parent == p
    ensures Preorder(ms, p, i) == [i] + Preorder(ms, i, i + 1) + Preorder(ms, p, i + 1)
  {
  }

  lemma RangeNone(a: nat)
    ensures Range(a, a) == []
  {
  }

  lemma RangeThree(i: nat, e: nat, end: nat)
    requires i < e <= end
    ensures [i] + Range(i + 1, e) + Range(e, end) == Range(i, end)
  {
  }

  lemma SubmenuEmpty(ms: seq<Member>, i: nat)
    requires i < |ms| && (i + 1 < |ms| ==> First(ms, i, i + 1) == i + 1)
    ensures i + 1 < |ms| && ms[i + 1].parent != i ==> First(ms, i - 1, i + 1) == i + 1
    ensures i + 1 == |ms| ==> First(ms, i - 1, i + 1) == i + 1
  {
  }

  /** Where the submenu of `i` ends, that of `p` goes on or ends too. */
  lemma Submenu(ms: seq<Member>, p: int, i: nat)
    requires Nested(ms) && -1 <= p < i < |ms| && ms[i].parent == p
    ensures var e := First(ms, i - 1, i + 1);
      && First(ms, i, i + 1) == (if i + 1 < |ms| then i + 1 else |ms|)
      && First(ms, p, i + 1) == e
      && First(ms, p - 1, i) == First(ms, p - 1, e)
      && (e < |ms| && ms[e].parent != p ==> First(ms, p - 1, e) == e)
  {
    SubmenuStart(ms, p, i);
    SubmenuEnd(ms, p, i, First(ms, i - 1, i + 1));
  }

  lemma SubmenuStart(ms: seq<Member>, p: int, i: nat)
    requires Nested(ms) && -1 <= p < i < |ms| && ms[i].parent == p
    ensures First(ms, i, i + 1) == (if i + 1 < |ms| then i + 1 else |ms|)
    ensures First(ms, p, i + 1) == First(ms, i - 1, i + 1)
  {
  }

  lemma SubmenuEnd(ms: seq<Member>, p: int, i: nat, e: nat)
    requires Nested(ms) && -1 <= p < i < |ms| && ms[i].parent == p && e == First(ms, i - 1, i + 1)
    ensures First(ms, p - 1, i) == First(ms, p - 1, e)
    ensures e < |ms| && ms[e].parent != p ==> First(ms, p - 1, e) == e
  {
  }

  /** Shown from top to bottom with every submenu opened, the items are in the order in
      which they were added, for every table. */
  lemma ShownInOrder(table: seq<Entry>, mask: set<nat>)
    ensures var ms := After(table, mask, |table|).members; Preorder(ms, -1, 0) == Range(0, |ms|)
  {
    var ms := After(table, mask, |table|).members;
    AfterLinked(table, mask, |table|);
    PreorderIsRange(ms, -1, 0);
    assert First(ms, -2, 0) == |ms|;
  }

  // ----- The pass ---------------------------------------------------------------------------------------

  /** Builds the menu of a table. `undefined` tells that the parent of the last item was read
      before there was an item. */
  method BuildMenu(table: seq<Entry>, mask: set<nat>) returns (menu: seq<Member>, undefined: bool)
    ensures menu == Trimmed(After(table, mask, |table|)) && undefined == After(table, mask, |table|).undefined
    ensures Items(EntriesOf(menu)) == Items(AllowedOf(table, mask)) && WellSeparated(EntriesOf(menu))
  {
    hide After, Items, WellSeparated;
    menu, undefined := [], false;
    var stack: seq<int> := [];
    var current, lurking, bar := -1, -1, AtStart;
    var currentDepth: nat := 0;
    NothingYet(table, mask);
    for i := 0 to |table|
      invariant After(table, mask, i) == Build(menu, stack, current, lurking, currentDepth, bar, undefined)
    {
      AfterStep(table, mask, i + 1);
      var e := table[i];
      if Allowed(e, mask) && !(IsBar(e) && bar != NotBar) {
        if e.depth > currentDepth {
          undefined := undefined || menu == [];
          current := lurking;
          stack := stack + [current];
        } else if e.depth < currentDepth {
          stack := RemoveTail(stack, currentDepth - e.depth);
          if stack == [] {
            current := -1;
          }
        }
        bar := if IsBar(e) then IsBarItem(|menu|) else NotBar;
        lurking := |menu|;
        currentDepth := e.depth;
        menu := menu + [Member(e, IsEnabled(e, mask), current)];
      }
    }
    AfterBarIsLast(table, mask, |table|);
    MenuHasAllowedItems(table, mask);
    if bar.IsBarItem? {
      menu := menu[..bar.member] + menu[bar.member + 1..];
    }
  }

  /** Takes entries off the end of a stack, as long as there are any. */
  method RemoveTail(stack: seq<int>, n: nat) returns (left: seq<int>)
    ensures left == if n <= |stack| then stack[..|stack| - n] else []
  {
    left := stack;
    for b := 0 to n
      invariant left == if b <= |stack| then stack[..|stack| - b] else []
    {
      if left != [] {
        left := left[..|left| - 1];
      }
    }
  }
}
