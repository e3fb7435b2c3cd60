/** The list of entries an action dispatcher works through: its sort order, and the pass
    that joins neighbouring entries of an action that takes several locations at once. */
module EntryLists {
  import opened Actions
  import opened Options
  import opened Sequences
  import opened Text

  /** A location string and the address of its memory block. */
  datatype Str = Str(addr: nat, text: string)

  /** An entry: the address of its own block, the address of its action or 0, and its
      path, file part and uri. */
  datatype RawEntry = Entry(addr: nat, action: nat, location: seq<Option<Str>>, idx: int)

  type Entry = e: RawEntry | |e.location| == 3 witness RawEntry.Entry(0, 0, [None, None, None], 0)

  // ----- The sort order ---------------------------------------------------------------

  function Compare(e1: Entry, e2: Entry): int {
    if e1.action > e2.action then 1
    else if e1.action < e2.action then -1
    else if e1.idx > e2.idx then 1
    else -1
  }

  /** On entries with different indices the comparison is a strict total order. */
  lemma CompareIsStrictOrder(a: Entry, b: Entry, c: Entry)
    requires a.idx != b.idx && b.idx != c.idx && a.idx != c.idx
    ensures Compare(a, b) < 0 <==> Compare(b, a) > 0
    ensures Compare(a, b) < 0 || Compare(b, a) < 0
    ensures Compare(a, b) < 0 && Compare(b, c) < 0 ==> Compare(a, c) < 0
  {
  }

  ghost predicate DistinctIndices(es: seq<Entry>) {
    forall i, j :: 0 <= i < j < |es| ==> es[i].idx != es[j].idx
  }

  ghost predicate IsSorted(es: seq<Entry>) {
    forall i, j :: 0 <= i < j < |es| ==> Compare(es[i], es[j]) < 0
  }

  function Insert(e: Entry, es: seq<Entry>): seq<Entry> {
    if es == [] || Compare(e, es[0]) < 0 then [e] + es else [es[0]] + Insert(e, es[1..])
  }

  /** A sort by comparison. */
  function Sort(es: seq<Entry>): seq<Entry> {
    if es == [] then [] else Insert(es[0], Sort(es[1..]))
  }

  lemma SplitFirst(es: seq<Entry>)
    requires es != []
    ensures multiset(es) == multiset{es[0]} + multiset(es[1..])
  {
    assert es == [es[0]] + es[1..];
  }

  lemma {:induction false} InsertContents(e: Entry, es: seq<Entry>)
    ensures multiset(Insert(e, es)) == multiset{e} + multiset(es)
  {
    if es != [] && Compare(e, es[0]) >= 0 {
      InsertContents(e, es[1..]);
      SplitFirst(es);
    }
  }

  lemma Member(es: seq<Entry>, j: nat, m: multiset<Entry>)
    requires j < |es| && multiset(es) == m
    ensures es[j] in m
  {
  }

  lemma {:induction false} InsertKeeps(e: Entry, es: seq<Entry>)
    requires IsSorted(es) && forall i :: 0 <= i < |es| ==> es[i].idx != e.idx
    ensures IsSorted(Insert(e, es))
  {
    if es != [] && Compare(e, es[0]) >= 0 {
      InsertKeeps(e, es[1..]);
      InsertContents(e, es[1..]);
      var rest := Insert(e, es[1..]);
      forall j | 0 <= j < |rest|
        ensures Compare(es[0], rest[j]) < 0
      {
        Member(rest, j, multiset{e} + multiset(es[1..]));
      }
    }
  }

  lemma {:induction false} SortSorts(es: seq<Entry>)
    requires DistinctIndices(es)
    ensures multiset(Sort(es)) == multiset(es) && IsSorted(Sort(es))
  {
    if es != [] {
      SortSorts(es[1..]);
      forall i | 0 <= i < |Sort(es[1..])|
        ensures Sort(es[1..])[i].idx != es[0].idx
      {
        assert Sort(es[1..])[i] in multiset(es[1..]);
      }
      InsertKeeps(es[0], Sort(es[1..]));
      InsertContents(es[0], Sort(es[1..]));
      SplitFirst(es);
    }
  }

  /** The sorted order of a list is unique, whatever the sort. */
  lemma {:induction false} SortedIsUnique(a: seq<Entry>, b: seq<Entry>)
    requires multiset(a) == multiset(b) && IsSorted(a) && IsSorted(b) && DistinctIndices(a)
    ensures a == b
  {
    if a == [] {
      assert |multiset(b)| == 0;
    } else {
      assert |multiset(a)| == |multiset(b)|;
      SameFirst(a, b);
      SameRest(a, b);
      SortedIsUnique(a[1..], b[1..]);
      Split(a, 1);
      Split(b, 1);
    }
  }

  lemma SameRest(a: seq<Entry>, b: seq<Entry>)
    requires a != [] && b != [] && a[0] == b[0] && multiset(a) == multiset(b)
    ensures multiset(a[1..]) == multiset(b[1..])
  {
    SplitFirst(a);
    SplitFirst(b);
    assert multiset(a[1..]) == multiset(a) - multiset{a[0]};
    assert multiset(b[1..]) == multiset(b) - multiset{b[0]};
  }

  lemma SameFirst(a: seq<Entry>, b: seq<Entry>)
    requires multiset(a) == multiset(b) && IsSorted(a) && IsSorted(b) && DistinctIndices(a)
    requires a != [] && b != []
    ensures a[0] == b[0]
  {
    Member(a, 0, multiset(b));
    Member(b, 0, multiset(a));
    var i :| 0 <= i < |a| && a[i] == b[0];
    var j :| 0 <= j < |b| && b[j] == a[0];
    FirstIsLeast(a, i);
    FirstIsLeast(b, j);
  }

  lemma FirstIsLeast(es: seq<Entry>, i: nat)
    requires IsSorted(es) && i < |es|
    ensures i == 0 || Compare(es[0], es[i]) < 0
  {
  }

  /** In a sorted list the entries of an action stand together and in index order. */
  lemma SortedGroups(es: seq<Entry>, i: nat, j: nat, k: nat)
    requires IsSorted(es) && i < j < k < |es| && es[i].action == es[k].action
    ensures es[j].action == es[i].action && es[i].idx <= es[j].idx <= es[k].idx
  {
  }

  // ----- What the merge does --------------------------------------------------------------

  /** An entry without addresses. */
  datatype View = View(action: nat, texts: seq<Option<string>>, idx: int)

  function ViewOf(e: Entry): (v: View)
    ensures |v.texts| == 3
  {
    View(e.action, seq(3, l requires 0 <= l < 3 => TextOf(e.location[l])), e.idx)
  }

  function TextOf(s: Option<Str>): Option<string> {
    match s
    case None => None
    case Some(str) => Some(str.text)
  }

  function Views(es: seq<Entry>): (vs: seq<View>)
    ensures |vs| == |es| && Shaped(vs)
  {
    seq(|es|, i requires 0 <= i < |es| => ViewOf(es[i]))
  }

  predicate Shaped(vs: seq<View>) {
    forall i :: 0 <= i < |vs| ==> |vs[i].texts| == 3
  }

  /** The number of entries at the front with the same action as the first. */
  function RunLength(vs: seq<View>): (n: nat)
    ensures n <= |vs| && (vs != [] ==> n > 0)
    ensures forall i :: 0 <= i < n ==> vs[i].action == vs[0].action
    ensures 0 < n < |vs| ==> vs[n].action != vs[0].action
  {
    if vs == [] then 0
    else if |vs| > 1 && vs[1].action == vs[0].action then 1 + RunLength(vs[1..])
    else 1
  }

  predicate Mergeable(v: View, multiple: set<nat>) {
    v.action != 0 && v.action in multiple
  }

  /** Which entries end up in one. The entry after a merged group is passed over: it
      starts no group of its own. */
  function Segments(vs: seq<View>, multiple: set<nat>): seq<seq<View>>
    decreases |vs|
  {
    if vs == [] then []
    else
      var n := RunLength(vs);
      if !Mergeable(vs[0], multiple) || n == 1 then [vs[..1]] + Segments(vs[1..], multiple)
      else if n == |vs| then [vs]
      else [vs[..n]] + ([[vs[n]]] + Segments(vs[n + 1..], multiple))
  }

  lemma SegmentsCases(vs: seq<View>, multiple: set<nat>)
    requires vs != []
    ensures var n := RunLength(vs);
      Segments(vs, multiple) ==
        if !Mergeable(vs[0], multiple) || n == 1 then [vs[..1]] + Segments(vs[1..], multiple)
        else if n == |vs| then [vs]
        else [vs[..n]] + ([[vs[n]]] + Segments(vs[n + 1..], multiple))
  {
  }

  /** The text at location `l` of the first `k` entries of a group, a space after each
      but the group's last. */
  function JoinedText(group: seq<View>, l: nat, k: nat): string
    requires Shaped(group) && l < 3 && k <= |group|
  {
    if k == 0 then ""
    else
      var more := match group[k - 1].texts[l]
        case None => ""
        case Some(t) => if k == |group| then t else t + " ";
      JoinedText(group, l, k - 1) + more
  }

  /** The characters at location `l` of the first `k` entries of a group. */
  function TextLength(group: seq<View>, l: nat, k: nat): nat
    requires Shaped(group) && l < 3 && k <= |group|
  {
    if k == 0 then 0
    else
      var more := match group[k - 1].texts[l] case None => 0 case Some(t) => |t|;
      TextLength(group, l, k - 1) + more
  }

  /** The entry that a group becomes. */
  function JoinGroup(group: seq<View>): View
    requires group != [] && Shaped(group)
  {
    if |group| == 1 then group[0]
    else
      View(group[0].action,
           seq(3, l requires 0 <= l < 3 =>
             if TextLength(group, l, |group|) == 0 then None else Some(JoinedText(group, l, |group|))),
           group[|group| - 1].idx)
  }

  function JoinGroups(groups: seq<seq<View>>): seq<View>
    requires forall g :: 0 <= g < |groups| ==> groups[g] != [] && Shaped(groups[g])
  {
    if groups == [] then [] else [JoinGroup(groups[0])] + JoinGroups(groups[1..])
  }

  ghost predicate AllShaped(groups: seq<seq<View>>) {
    forall g :: 0 <= g < |groups| ==> groups[g] != [] && Shaped(groups[g])
  }

  lemma {:induction false} SegmentsShaped(vs: seq<View>, multiple: set<nat>)
    requires Shaped(vs)
    ensures AllShaped(Segments(vs, multiple))
    decreases |vs|
  {
    if vs != [] {
      var n := RunLength(vs);
      assert Shaped(vs[..n]);
      if !Mergeable(vs[0], multiple) || n == 1 {
        SegmentsShaped(vs[1..], multiple);
      } else if n < |vs| {
        SegmentsShaped(vs[n + 1..], multiple);
      }
    }
  }

  /** The list after the merge. */
  function Merged(vs: seq<View>, multiple: set<nat>): seq<View>
    requires Shaped(vs)
  {
    SegmentsShaped(vs, multiple);
    assert AllShaped(Segments(vs, multiple));
    JoinGroups(Segments(vs, multiple))
  }

  // ----- What the merge keeps ---------------------------------------------------------------

  function Flatten(groups: seq<seq<View>>): seq<View> {
    if groups == [] then [] else groups[0] + Flatten(groups[1..])
  }

  ghost predicate IsGroup(group: seq<View>, multiple: set<nat>) {
    && group != []
    && (forall i :: 0 <= i < |group| ==> group[i].action == group[0].action)
    && (|group| > 1 ==> Mergeable(group[0], multiple))
  }

  ghost predicate AllGroups(groups: seq<seq<View>>, multiple: set<nat>) {
    forall g :: 0 <= g < |groups| ==> IsGroup(groups[g], multiple)
  }

  /** No work is lost, added or reordered: the groups, one after the other, are the list,
      and only entries of one action that takes several locations are put together. */
  lemma {:induction false} MergeConserves(vs: seq<View>, multiple: set<nat>)
    ensures Flatten(Segments(vs, multiple)) == vs
    ensures AllGroups(Segments(vs, multiple), multiple)
    decreases |vs|
  {
    if vs != [] {
      hide Segments, Flatten, IsGroup, AllGroups, RunLength, Mergeable;
      var n := RunLength(vs);
      SegmentsCases(vs, multiple);
      RunIsGroup(vs, multiple);
      if !Mergeable(vs[0], multiple) || n == 1 {
        MergeConserves(vs[1..], multiple);
        FlattenCons(vs[..1], Segments(vs[1..], multiple));
        AllGroupsCons(vs[..1], Segments(vs[1..], multiple), multiple);
        Split(vs, 1);
      } else if n < |vs| {
        var rest := Segments(vs[n + 1..], multiple);
        MergeConserves(vs[n + 1..], multiple);
        FlattenCons([vs[n]], rest);
        FlattenCons(vs[..n], [[vs[n]]] + rest);
        AllGroupsCons([vs[n]], rest, multiple);
        AllGroupsCons(vs[..n], [[vs[n]]] + rest, multiple);
        SplitTwo(vs, n);
      } else {
        FlattenCons(vs, []);
        AllGroupsCons(vs, [], multiple);
        assert [vs] + [] == [vs];
      }
    } else {
      assert Flatten([]) == [] && AllGroups(Segments([], multiple), multiple);
    }
  }

  lemma SplitTwo(vs: seq<View>, n: nat)
    requires n < |vs|
    ensures vs == vs[..n] + ([vs[n]] + vs[n + 1..])
  {
  }

  lemma AllGroupsCons(group: seq<View>, groups: seq<seq<View>>, multiple: set<nat>)
    requires IsGroup(group, multiple) && AllGroups(groups, multiple)
    ensures AllGroups([group] + groups, multiple)
  {
  }

  lemma RunIsGroup(vs: seq<View>, multiple: set<nat>)
    requires vs != []
    ensures IsGroup(vs[..1], multiple)
    ensures var n := RunLength(vs);
      && (Mergeable(vs[0], multiple) ==> IsGroup(vs[..n], multiple))
      && (n < |vs| ==> IsGroup([vs[n]], multiple))
      && (n == |vs| ==> vs[..n] == vs)
    ensures Flatten([]) == [] && AllGroups([], multiple)
  {
  }

  lemma FlattenCons(group: seq<View>, groups: seq<seq<View>>)
    ensures Flatten([group] + groups) == group + Flatten(groups)
  {
  }

  function TextsAt(group: seq<View>, l: nat): seq<string>
    requires Shaped(group) && l < 3 && forall i :: 0 <= i < |group| ==> group[i].texts[l].Some?
  {
    seq(|group|, i requires 0 <= i < |group| => group[i].texts[l].value)
  }

  lemma {:induction false} JoinedIsJoin(group: seq<View>, l: nat, k: nat)
    requires Shaped(group) && l < 3 && k <= |group|
    requires forall i :: 0 <= i < |group| ==> group[i].texts[l].Some?
    ensures JoinedText(group, l, k) == Join(TextsAt(group, l)[..k]) + if 0 < k < |group| then " " else ""
  {
    var ts := TextsAt(group, l);
    if k > 0 {
      JoinedIsJoin(group, l, k - 1);
      assert ts[..k] == ts[..k - 1] + [ts[k - 1]];
      JoinEnd(ts[..k - 1], ts[k - 1]);
    }
  }

  lemma {:induction false} JoinEnd(ws: seq<string>, w: string)
    ensures Join(ws + [w]) == if ws == [] then w else Join(ws) + " " + w
  {
    if |ws| > 1 {
      JoinEnd(ws[1..], w);
      assert (ws + [w])[1..] == ws[1..] + [w];
    } else if |ws| == 1 {
      assert (ws + [w])[1..] == [w];
    }
  }

  /** Where all entries of a group have a location, the joined entry has all of them,
      separated by spaces; locations without white space can be told apart again. */
  lemma JoinedLocations(group: seq<View>, l: nat)
    requires |group| > 1 && Shaped(group) && l < 3
    requires forall i :: 0 <= i < |group| ==> group[i].texts[l].Some? && group[i].texts[l].value != ""
    ensures JoinGroup(group).texts[l] == Some(Join(TextsAt(group, l)))
    ensures JoinGroup(group).action == group[0].action && JoinGroup(group).idx == group[|group| - 1].idx
    ensures AreWords(TextsAt(group, l)) ==> Words(JoinGroup(group).texts[l].value) == TextsAt(group, l)
  {
    hide Words, Join;
    var ts := TextsAt(group, l);
    JoinedIsJoin(group, l, |group|);
    assert ts[..|group|] == ts;
    assert Join(ts) + "" == Join(ts);
    assert TextLength(group, l, |group|) >= |ts[|group| - 1]| > 0;
    if AreWords(ts) {
      WordsOfJoin(ts);
    }
  }

  // ----- Where the strings of a group are copied to ------------------------------------------

  /** Every string of a group has somewhere to go: a buffer is allocated for the locations
      that have characters only. */
  ghost predicate CopiesHaveBuffers(group: seq<View>)
    requires Shaped(group)
  {
    forall k, l: nat :: 0 <= k < |group| && l < 3 && group[k].texts[l].Some? ==> TextLength(group, l, |group|) > 0
  }

  ghost predicate HasText(group: seq<View>, l: nat)
    requires Shaped(group) && l < 3
  {
    exists k :: 0 <= k < |group| && group[k].texts[l].Some? && group[k].texts[l].value != ""
  }

  ghost predicate IsAbsent(group: seq<View>, l: nat)
    requires Shaped(group) && l < 3
  {
    forall k :: 0 <= k < |group| ==> group[k].texts[l].None?
  }

  lemma {:induction false} LengthOfText(group: seq<View>, l: nat, n: nat)
    requires Shaped(group) && l < 3 && n <= |group|
    ensures TextLength(group, l, n) > 0 <==>
      exists k :: 0 <= k < n && group[k].texts[l].Some? && group[k].texts[l].value != ""
  {
    if n > 0 {
      LengthOfText(group, l, n - 1);
    }
  }

  /** Every string of a group has a buffer if and only if at each location no entry of the
      group has a string or some entry has one that is not empty. */
  lemma CopiesHaveBuffersIff(group: seq<View>)
    requires Shaped(group)
    ensures CopiesHaveBuffers(group) <==> forall l: nat :: l < 3 ==> IsAbsent(group, l) || HasText(group, l)
  {
    forall l: nat | l < 3
      ensures TextLength(group, l, |group|) > 0 <==> HasText(group, l)
    {
      LengthOfText(group, l, |group|);
    }
    hide TextLength, HasText;
    if forall l: nat :: l < 3 ==> IsAbsent(group, l) || HasText(group, l) {
      forall k, l: nat | 0 <= k < |group| && l < 3 && group[k].texts[l].Some?
        ensures TextLength(group, l, |group|) > 0
      {
        assert IsAbsent(group, l) || HasText(group, l);
      }
    }
  }

  /** The merge copies to allocated buffers only. */
  ghost predicate MergeIsSafe(vs: seq<View>, multiple: set<nat>)
    requires Shaped(vs)
  {
    SegmentsShaped(vs, multiple);
    forall group :: group in Segments(vs, multiple) && |group| > 1 ==> CopiesHaveBuffers(group)
  }

  /** In a merge every copy goes to an allocated buffer if and only if at each location of
      each group that is merged no string is present or some string is not empty. */
  lemma MergeIsSafeIff(vs: seq<View>, multiple: set<nat>)
    requires Shaped(vs)
    ensures AllShaped(Segments(vs, multiple))
    ensures MergeIsSafe(vs, multiple) <==>
      forall group, l: nat :: group in Segments(vs, multiple) && |group| > 1 && l < 3 ==>
        IsAbsent(group, l) || HasText(group, l)
  {
    hide Segments, CopiesHaveBuffers, IsAbsent, HasText;
    SegmentsShaped(vs, multiple);
    forall group | group in Segments(vs, multiple)
      ensures CopiesHaveBuffers(group) <==> forall l: nat :: l < 3 ==> IsAbsent(group, l) || HasText(group, l)
    {
      CopiesHaveBuffersIff(group);
    }
  }

  /** It fails when all file parts of a group are there and empty. */
  lemma EmptyStringsAreNotSafe(a: View, b: View, multiple: set<nat>)
    requires |a.texts| == |b.texts| == 3 && a.action == b.action && Mergeable(a, multiple)
    requires a.texts[1] == b.texts[1] == Some("")
    ensures !MergeIsSafe([a, b], multiple)
  {
    var vs := [a, b];
    assert RunLength(vs) == 2;
    assert vs in Segments(vs, multiple);
    CopiesHaveBuffersIff(vs);
    var l: nat := 1;
    assert vs[0].texts[l].Some? && !HasText(vs, l) && !IsAbsent(vs, l);
  }

  lemma {:induction false} InFlatten(groups: seq<seq<View>>, group: seq<View>, v: View)
    requires group in groups && v in group
    ensures v in Flatten(groups)
  {
    if group != groups[0] {
      InFlatten(groups[1..], group, v);
    }
  }

  /** It holds when no string that is there is empty. */
  lemma NoEmptyStringsAreSafe(vs: seq<View>, multiple: set<nat>)
    requires Shaped(vs) && forall v, l :: v in vs && 0 <= l < 3 && v.texts[l].Some? ==> v.texts[l].value != ""
    ensures MergeIsSafe(vs, multiple)
  {
    hide Segments, Flatten, HasText, IsAbsent, MergeIsSafe;
    MergeIsSafeIff(vs, multiple);
    MergeConserves(vs, multiple);
    forall group: seq<View>, l: nat | group in Segments(vs, multiple) && |group| > 1 && l < 3
      ensures IsAbsent(group, l) || HasText(group, l)
    {
      forall k | 0 <= k < |group|
        ensures group[k].texts[l].Some? ==> group[k].texts[l].value != ""
      {
        InFlatten(Segments(vs, multiple), group, group[k]);
      }
      AbsentOrText(group, l);
    }
  }

  lemma AbsentOrText(group: seq<View>, l: nat)
    requires Shaped(group) && l < 3
    requires forall k :: 0 <= k < |group| && group[k].texts[l].Some? ==> group[k].texts[l].value != ""
    ensures IsAbsent(group, l) || HasText(group, l)
  {
  }

  /** One step over an entry that is left as it is. */
  lemma SafeAfterSingle(vs: seq<View>, multiple: set<nat>)
    requires vs != [] && Shaped(vs) && (!Mergeable(vs[0], multiple) || RunLength(vs) == 1)
    ensures Shaped(vs[1..]) && (MergeIsSafe(vs, multiple) ==> MergeIsSafe(vs[1..], multiple))
  {
    hide RunLength, Segments, CopiesHaveBuffers;
    SegmentsCases(vs, multiple);
    SegmentsShaped(vs, multiple);
    SegmentsShaped(vs[1..], multiple);
    var rest := Segments(vs[1..], multiple);
    assert forall group :: group in rest ==> group in [vs[..1]] + rest;
  }

  /** One step over a group that is merged and the entry after it. */
  lemma SafeAfterGroup(vs: seq<View>, multiple: set<nat>)
    requires vs != [] && Shaped(vs) && Mergeable(vs[0], multiple) && RunLength(vs) > 1
    ensures var n := RunLength(vs);
      && Shaped(vs[..n]) && (n < |vs| ==> Shaped(vs[n + 1..]))
      && (MergeIsSafe(vs, multiple) ==>
            CopiesHaveBuffers(vs[..n]) && (n < |vs| ==> MergeIsSafe(vs[n + 1..], multiple)))
  {
    hide RunLength, Segments, CopiesHaveBuffers;
    var n := RunLength(vs);
    SegmentsCases(vs, multiple);
    SegmentsShaped(vs, multiple);
    if n < |vs| {
      var rest := Segments(vs[n + 1..], multiple);
      SegmentsShaped(vs[n + 1..], multiple);
      var all := [vs[..n]] + ([[vs[n]]] + rest);
      assert all[0] == vs[..n] && vs[..n] in all;
      assert forall group :: group in rest ==> group in all;
    } else {
      assert vs[..n] == vs && vs in [vs];
    }
  }

  // ----- When an action keeps more than one entry -------------------------------------------

  /** A group of at least two entries that could be joined. */
  predicate Big(vs: seq<View>, multiple: set<nat>) {
    vs != [] && Mergeable(vs[0], multiple) && RunLength(vs) > 1
  }

  /** No such group directly follows another. */
  predicate NoBigNeighbours(vs: seq<View>, multiple: set<nat>)
    decreases |vs|
  {
    vs != [] ==>
      var rest := vs[RunLength(vs)..];
      !(Big(vs, multiple) && Big(rest, multiple)) && NoBigNeighbours(rest, multiple)
  }

  /** No two neighbours after the merge could still have been joined. */
  predicate NothingSplit(groups: seq<seq<View>>, multiple: set<nat>)
    requires forall g :: 0 <= g < |groups| ==> groups[g] != []
  {
    |groups| > 1 ==>
      && !(Mergeable(groups[0][0], multiple) && groups[0][0].action == groups[1][0].action)
      && NothingSplit(groups[1..], multiple)
  }

  lemma NoBigNeighboursRest(vs: seq<View>, multiple: set<nat>)
    requires vs != [] && !Big(vs, multiple)
    ensures NoBigNeighbours(vs, multiple) == NoBigNeighbours(vs[1..], multiple)
  {
  }

  lemma NothingSplitCons(group: seq<View>, groups: seq<seq<View>>, multiple: set<nat>)
    requires group != [] && forall g :: 0 <= g < |groups| ==> groups[g] != []
    ensures NothingSplit([group] + groups, multiple) <==>
      && (groups != [] ==> !(Mergeable(group[0], multiple) && group[0].action == groups[0][0].action))
      && NothingSplit(groups, multiple)
  {
  }

  lemma FirstOfSegments(vs: seq<View>, multiple: set<nat>)
    ensures var gs := Segments(vs, multiple);
      if vs == [] then gs == [] else gs != [] && gs[0] != [] && gs[0][0] == vs[0]
  {
  }

  /** Every action that takes several locations keeps one entry per group of neighbours
      exactly when no two such groups of two or more entries meet. */
  lemma {:induction false} OneEntryPerAction(vs: seq<View>, multiple: set<nat>)
    requires Shaped(vs)
    ensures AllShaped(Segments(vs, multiple))
    ensures NothingSplit(Segments(vs, multiple), multiple) <==> NoBigNeighbours(vs, multiple)
    decreases |vs|
  {
    hide RunLength;
    SegmentsShaped(vs, multiple);
    if vs != [] {
      hide Segments, Shaped, Mergeable;
      SegmentsCases(vs, multiple);
      var n := RunLength(vs);
      if !Big(vs, multiple) {
        OneEntryPerAction(vs[1..], multiple);
        NoBigNeighboursRest(vs, multiple);
        FirstOfSegments(vs[1..], multiple);
        NothingSplitCons(vs[..1], Segments(vs[1..], multiple), multiple);
      } else if n == |vs| {
        assert vs[n..] == [];
      } else {
        var rest, tail := vs[n..], vs[n + 1..];
        var gs := Segments(tail, multiple);
        assert rest[1..] == tail;
        OneEntryPerAction(tail, multiple);
        FirstOfSegments(tail, multiple);
        NothingSplitCons([vs[n]], gs, multiple);
        NothingSplitCons(vs[..n], [[vs[n]]] + gs, multiple);
        BigByNext(rest, multiple);
        if !Big(rest, multiple) {
          NoBigNeighboursRest(rest, multiple);
        }
      }
    }
  }

  /** Two entries each of two such actions: the second pair is left apart. */
  lemma SecondPairStaysApart(a: View, b: View, c: View, d: View)
    requires a.action == b.action == 1 && c.action == d.action == 2
    ensures Segments([a, b, c, d], {1, 2}) == [[a, b], [c], [d]]
    ensures !NothingSplit([[a, b], [c], [d]], {1, 2})
  {
    var vs := [a, b, c, d];
    assert vs[1..] == [b, c, d] && RunLength([b, c, d]) == 1;
    assert RunLength(vs) == 2;
    assert vs[..2] == [a, b] && vs[3..] == [d];
    SegmentsCases([d], {1, 2});
    assert [d][..1] == [d] && Segments([d][1..], {1, 2}) == [];
    SegmentsCases(vs, {1, 2});
    assert [[a, b], [c], [d]][1..] == [[c], [d]];
  }

  lemma BigByNext(vs: seq<View>, multiple: set<nat>)
    requires vs != []
    ensures Big(vs, multiple) <==> Mergeable(vs[0], multiple) && |vs| > 1 && vs[1].action == vs[0].action
  {
  }
}
