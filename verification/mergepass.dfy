/** The merge pass over the entry list: strings are joined in buffers of a size computed
    beforehand, and the blocks of joined entries and their strings are freed. */
module MergePass {
  import opened Actions
  import opened EntryLists
  import opened Memory
  import opened Options
  import opened Sequences

  // ----- What the list owns ------------------------------------------------------------

  ghost function OwnedString(s: Option<Str>): multiset<nat> {
    match s
    case None => multiset{}
    case Some(str) => multiset{str.addr}
  }

  ghost function OwnedStrings(e: Entry): multiset<nat> {
    OwnedString(e.location[0]) + OwnedString(e.location[1]) + OwnedString(e.location[2])
  }

  /** The blocks of an entry: its own and those of its strings. */
  ghost function OwnedBy(e: Entry): multiset<nat> {
    multiset{e.addr} + OwnedStrings(e)
  }

  ghost function Owned(es: seq<Entry>): multiset<nat> {
    if es == [] then multiset{} else OwnedBy(es[0]) + Owned(es[1..])
  }

  lemma {:induction false} OwnedConcat(a: seq<Entry>, b: seq<Entry>)
    ensures Owned(a + b) == Owned(a) + Owned(b)
  {
    hide OwnedBy;
    if a == [] {
      assert a + b == b;
    } else {
      OwnedConcat(a[1..], b);
      assert (a + b)[0] == a[0] && (a + b)[1..] == a[1..] + b;
    }
  }

  // ----- The buffers -------------------------------------------------------------------

  /** What one entry adds to the buffer of a location. */
  function Added(t: Option<string>, last: bool): string {
    match t
    case None => ""
    case Some(text) => if last then text else text + " "
  }

  lemma {:induction false} JoinedFits(group: seq<View>, l: nat, k: nat)
    requires Shaped(group) && l < 3 && k <= |group|
    ensures |JoinedText(group, l, k)| <= TextLength(group, l, k) + k
    ensures k > 0 && k == |group| ==> |JoinedText(group, l, k)| <= TextLength(group, l, k) + k - 1
  {
    if k > 0 {
      JoinedFits(group, l, k - 1);
    }
  }

  lemma {:induction false} LengthGrows(group: seq<View>, l: nat, j: nat, k: nat)
    requires Shaped(group) && l < 3 && j <= k <= |group|
    ensures TextLength(group, l, j) <= TextLength(group, l, k)
    decreases k
  {
    if j < k {
      LengthGrows(group, l, j, k - 1);
    }
  }

  /** There is room for the next entry's text, a separator and the terminator. */
  lemma RoomForNext(group: seq<View>, l: nat, k: nat)
    requires Shaped(group) && l < 3 && k < |group|
    ensures |JoinedText(group, l, k + 1)| + 1 <= TextLength(group, l, |group|) + |group| + 1
    ensures JoinedText(group, l, k + 1)
         == JoinedText(group, l, k) + Added(group[k].texts[l], k + 1 == |group|)
  {
    JoinedFits(group, l, k + 1);
    LengthGrows(group, l, k + 1, |group|);
  }

  /** `strcpy` into a buffer at an offset: the text and its terminator. */
  method StrCpy(buf: array<char>, off: nat, s: string)
    requires off + |s| + 1 <= buf.Length
    modifies buf
    ensures buf[..off] == old(buf[..off]) && buf[off..off + |s|] == s && buf[off + |s|] == '\0'
  {
    forall i | 0 <= i < |s| {
      buf[off + i] := s[i];
    }
    buf[off + |s|] := '\0';
  }

  /** Moves a string of an entry to the end of a buffer, with a space after it unless it
      is the last, and frees the string. */
  method MoveString(heap: Heap, s: Option<Str>, last: bool, buf: array<char>, off: nat) returns (off': nat)
    requires heap.Valid() && OwnedString(s) <= heap.Blocks()
    requires off <= buf.Length
    requires s.Some? ==> off + |Added(TextOf(s), last)| + 1 <= buf.Length
    modifies heap, buf
    ensures heap.Valid() && heap.Blocks() == old(heap.Blocks()) - OwnedString(s)
    ensures off' == off + |Added(TextOf(s), last)| <= buf.Length
    ensures buf[..off'] == old(buf[..off]) + Added(TextOf(s), last)
  {
    off' := off;
    if s.Some? {
      ghost var before := buf[..off];
      var text := s.value.text;
      StrCpy(buf, off', text);
      off' := off' + |text|;
      assert buf[..off'] == buf[..off] + buf[off..off'];
      if !last {
        ghost var copied := buf[..off'];
        buf[off'] := ' ';
        off' := off' + 1;
        buf[off'] := '\0';
        assert buf[..off'] == copied + [' '];
      }
      heap.Free(s.value.addr);
    }
  }

  /** The buffer of location `l` holds the strings of the first `k` entries and, if any
      string will go there, has the size computed for all of them. */
  ghost predicate Filled(buf: array<char>, off: nat, group: seq<View>, l: nat, k: nat)
    requires Shaped(group) && l < 3 && k <= |group|
    reads buf
  {
    && off <= buf.Length
    && (TextLength(group, l, |group|) > 0 ==> buf.Length == TextLength(group, l, |group|) + |group| + 1)
    && buf[..off] == JoinedText(group, l, k)
  }

  /** Moves one string of the group's entry `k`. */
  method MoveNext(heap: Heap, s: Option<Str>, last: bool, buf: array<char>, off: nat,
                  ghost group: seq<View>, ghost l: nat, ghost k: nat)
    returns (off': nat)
    requires heap.Valid() && OwnedString(s) <= heap.Blocks()
    requires Shaped(group) && l < 3 && k < |group| && last == (k + 1 == |group|)
    requires group[k].texts[l] == TextOf(s) && (s.Some? ==> TextLength(group, l, |group|) > 0)
    requires Filled(buf, off, group, l, k)
    modifies heap, buf
    ensures heap.Valid() && heap.Blocks() == old(heap.Blocks()) - OwnedString(s)
    ensures Filled(buf, off', group, l, k + 1)
  {
    hide JoinedText, TextLength;
    RoomForNext(group, l, k);
    off' := MoveString(heap, s, last, buf, off);
  }

  /** The buffers of a merge, one for each location, and how far they are filled. */
  datatype Buffers = Buffers(path: array<char>, filePart: array<char>, uri: array<char>)

  datatype Offsets = Offsets(path: nat, filePart: nat, uri: nat)

  ghost predicate AllFilled(b: Buffers, o: Offsets, group: seq<View>, k: nat)
    requires Shaped(group) && k <= |group|
    reads b.path, b.filePart, b.uri
  {
    && b.path != b.filePart && b.path != b.uri && b.filePart != b.uri
    && Filled(b.path, o.path, group, 0, k)
    && Filled(b.filePart, o.filePart, group, 1, k)
    && Filled(b.uri, o.uri, group, 2, k)
  }

  /** A location has a buffer if the entry has a string there. */
  ghost predicate HasBuffers(e: Entry, group: seq<View>)
    requires Shaped(group)
  {
    forall l :: 0 <= l < 3 && e.location[l].Some? ==> TextLength(group, l, |group|) > 0
  }

  lemma TakeThree(all: multiset<nat>, a: multiset<nat>, b: multiset<nat>, c: multiset<nat>)
    requires a + b + c <= all
    ensures a <= all && b <= all - a && c <= all - a - b
    ensures all - a - b - c == all - (a + b + c)
  {
  }

  /** Moves the strings of one entry to the buffers. */
  method MoveStrings(heap: Heap, e: Entry, last: bool, b: Buffers, o: Offsets, ghost group: seq<View>, ghost k: nat)
    returns (o': Offsets)
    requires heap.Valid() && OwnedStrings(e) <= heap.Blocks()
    requires Shaped(group) && k < |group| && group[k] == ViewOf(e) && last == (k + 1 == |group|)
    requires AllFilled(b, o, group, k) && HasBuffers(e, group)
    modifies heap, b.path, b.filePart, b.uri
    ensures heap.Valid() && heap.Blocks() == old(heap.Blocks()) - OwnedStrings(e)
    ensures AllFilled(b, o', group, k + 1)
  {
    hide JoinedText, TextLength, Filled, OwnedString, TextOf, Heap.Blocks, Heap.Valid, Shaped;
    TakeThree(heap.Blocks(), OwnedString(e.location[0]), OwnedString(e.location[1]), OwnedString(e.location[2]));
    assert group[k].texts == ViewOf(e).texts;
    var p := MoveNext(heap, e.location[0], last, b.path, o.path, group, 0, k);
    var f := MoveNext(heap, e.location[1], last, b.filePart, o.filePart, group, 1, k);
    var u := MoveNext(heap, e.location[2], last, b.uri, o.uri, group, 2, k);
    o' := Offsets(p, f, u);
  }

  // ----- One group -------------------------------------------------------------------------

  lemma {:induction false} PrefixLength(vs: seq<View>, n: nat, l: nat, k: nat)
    requires Shaped(vs) && n <= |vs| && l < 3 && k <= n
    ensures TextLength(vs[..n], l, k) == TextLength(vs, l, k)
  {
    if k > 0 {
      PrefixLength(vs, n, l, k - 1);
    }
  }

  lemma RunLengthIs(vs: seq<View>, n: nat)
    requires 0 < n <= |vs| && forall i :: 0 <= i < n ==> vs[i].action == vs[0].action
    requires n < |vs| ==> vs[n].action != vs[0].action
    ensures RunLength(vs) == n
  {
  }

  function LengthAt(s: Option<Str>): nat {
    match s case None => 0 case Some(str) => |str.text|
  }

  lemma NextLength(vs: seq<View>, l: nat, k: nat, e: Entry)
    requires Shaped(vs) && l < 3 && k < |vs| && vs[k] == ViewOf(e)
    ensures TextLength(vs, l, k + 1) == TextLength(vs, l, k) + LengthAt(e.location[l])
  {
  }

  lemma NoLength(vs: seq<View>)
    requires Shaped(vs)
    ensures TextLength(vs, 0, 0) == TextLength(vs, 1, 0) == TextLength(vs, 2, 0) == 0
  {
  }

  /** Counts the entries from `c` on that have the action of entry `c`, and the characters
      of their strings. */
  method CountRun(es: seq<Entry>, c: nat) returns (num: nat, len: Offsets)
    requires c < |es|
    ensures c + num <= |es| && num == RunLength(Views(es[c..]))
    ensures var group := Views(es[c..c + num]);
      len == Offsets(TextLength(group, 0, num), TextLength(group, 1, num), TextLength(group, 2, num))
  {
    hide TextLength, RunLength;
    ghost var vs := Views(es[c..]);
    NoLength(vs);
    num, len := 0, Offsets(0, 0, 0);
    while c + num < |es| && es[c + num].action == es[c].action
      invariant c + num <= |es|
      invariant forall i :: 0 <= i < num ==> vs[i].action == vs[0].action
      invariant len == Offsets(TextLength(vs, 0, num), TextLength(vs, 1, num), TextLength(vs, 2, num))
    {
      var e := es[c + num];
      NextLength(vs, 0, num, e);
      NextLength(vs, 1, num, e);
      NextLength(vs, 2, num, e);
      len := Offsets(len.path + LengthAt(e.location[0]), len.filePart + LengthAt(e.location[1]),
                     len.uri + LengthAt(e.location[2]));
      num := num + 1;
    }
    RunLengthIs(vs, num);
    assert Views(es[c..c + num]) == vs[..num];
    PrefixLength(vs, num, 0, num);
    PrefixLength(vs, num, 1, num);
    PrefixLength(vs, num, 2, num);
  }

  lemma GroupHasBuffers(es: seq<Entry>, k: nat)
    requires CopiesHaveBuffers(Views(es)) && k < |es|
    ensures HasBuffers(es[k], Views(es))
  {
    hide TextLength;
    forall l | 0 <= l < 3 && es[k].location[l].Some?
      ensures TextLength(Views(es), l, |es|) > 0
    {
      assert Views(es)[k].texts[l] == TextOf(es[k].location[l]);
    }
  }

  function NewString(addr: nat, text: string, len: nat): Option<Str> {
    if len > 0 then Some(Str(addr, text)) else None
  }

  /** Allocates the buffer of a location, unless nothing goes into it. */
  method NewBuffer(heap: Heap, len: nat, num: nat) returns (addr: nat, buf: array<char>)
    requires heap.Valid()
    modifies heap
    ensures heap.Valid() && fresh(buf)
    ensures heap.Blocks() == old(heap.Blocks()) + OwnedString(NewString(addr, "", len))
    ensures buf.Length == if len > 0 then len + num + 1 else 0
  {
    if len > 0 {
      addr := heap.Allocate();
      buf := new char[len + num + 1];
    } else {
      addr, buf := 0, new char[0];
    }
  }

  /** The entry left of a group: the last one, with the joined strings. */
  function LeftEntry(last: Entry, a: Offsets, len: Offsets, path: string, filePart: string, uri: string): Entry {
    last.(location := [NewString(a.path, path, len.path), NewString(a.filePart, filePart, len.filePart),
                       NewString(a.uri, uri, len.uri)])
  }

  ghost function Lengths(group: seq<View>): Offsets
    requires Shaped(group)
  {
    Offsets(TextLength(group, 0, |group|), TextLength(group, 1, |group|), TextLength(group, 2, |group|))
  }

  lemma LeftEntryIsJoined(es: seq<Entry>, a: Offsets, texts: (string, string, string))
    requires |es| > 1 && RunLength(Views(es)) == |es|
    requires var g, n := Views(es), |es|;
      texts == (JoinedText(g, 0, n), JoinedText(g, 1, n), JoinedText(g, 2, n))
    ensures var left := LeftEntry(es[|es| - 1], a, Lengths(Views(es)), texts.0, texts.1, texts.2);
      ViewOf(left) == JoinGroup(Views(es))
  {
    hide JoinedText, TextLength, RunLength;
    var g, n := Views(es), |es|;
    var left := LeftEntry(es[n - 1], a, Lengths(g), texts.0, texts.1, texts.2);
    assert g[n - 1].action == g[0].action;
    assert ViewOf(left).texts == JoinGroup(g).texts;
  }

  /** The blocks of the joined strings. */
  ghost function NewStrings(a: Offsets, len: Offsets): multiset<nat> {
    OwnedString(NewString(a.path, "", len.path)) + OwnedString(NewString(a.filePart, "", len.filePart))
    + OwnedString(NewString(a.uri, "", len.uri))
  }

  lemma OwnedLeft(last: Entry, a: Offsets, len: Offsets, texts: (string, string, string))
    ensures Owned([LeftEntry(last, a, len, texts.0, texts.1, texts.2)])
         == multiset{last.addr} + NewStrings(a, len)
  {
    var e := LeftEntry(last, a, len, texts.0, texts.1, texts.2);
    assert [e][1..] == [];
  }

  lemma Regroup(a: multiset<nat>, c: multiset<nat>, n: multiset<nat>, f: multiset<nat>, e: multiset<nat>)
    ensures a + c + n + f + e == a + (e + n) + c + f
  {
  }

  lemma RegroupAround(a: multiset<nat>, r: multiset<nat>, c: multiset<nat>, f: multiset<nat>,
                      n0: multiset<nat>, n1: multiset<nat>, n2: multiset<nat>)
    ensures a + r + c + f + n0 + n1 + n2 == r + (a + c + (n0 + n1 + n2) + f)
  {
  }

  /** The blocks around a group while it is being joined. */
  ghost function Around(es: seq<Entry>, c: nat, num: nat, a: Offsets, len: Offsets, frame: multiset<nat>): multiset<nat>
    requires c + num <= |es|
  {
    Owned(es[..c]) + Owned(es[c + num..]) + NewStrings(a, len) + frame
  }

  ghost function WhenLast(last: bool, addr: nat): multiset<nat> {
    if last then multiset{addr} else multiset{}
  }

  lemma OwnedNone(es: seq<Entry>, around: multiset<nat>)
    requires es == []
    ensures Owned(es) + around == around
  {
  }

  lemma ViewAt(es: seq<Entry>, k: nat)
    requires k < |es|
    ensures Shaped(Views(es)) && Views(es)[k] == ViewOf(es[k])
  {
  }

  lemma Ungroup(a: multiset<nat>, b: multiset<nat>, c: multiset<nat>)
    ensures a + b + c + WhenLast(false, 0) == a + (b + c)
    ensures c + multiset{} == c && multiset{} + c == c
  {
  }

  /** The entry of a group that is joined next, and the list once it is gone. */
  lemma NextOfRun(es: seq<Entry>, c: nat, num: nat, k: nat)
    requires c + num <= |es| && k < num
    ensures (es[..c] + es[c + k..])[c] == es[c..c + num][k]
    ensures (es[..c] + es[c + k..])[..c] + (es[..c] + es[c + k..])[c + 1..] == es[..c] + es[c + k + 1..]
  {
  }

  /** The list once the first `k` entries of the group have been moved. */
  ghost function Remaining(es: seq<Entry>, c: nat, num: nat, k: nat): (r: seq<Entry>)
    requires 0 < num && c + num <= |es| && k <= num
    ensures c < |r|
  {
    if k < num then es[..c] + es[c + k..] else es[..c] + es[c + num - 1..]
  }

  lemma RemainingFirst(es: seq<Entry>, c: nat, num: nat, around: multiset<nat>)
    requires 0 < num && c + num <= |es|
    ensures var run := es[c..c + num];
      && es == Remaining(es, c, num, 0)
      && Owned(run[0..]) + around + WhenLast(false, run[num - 1].addr) == Owned(run) + around
  {
  }

  lemma RemainingLast(es: seq<Entry>, c: nat, num: nat)
    requires 0 < num && c + num <= |es|
    ensures Remaining(es, c, num, num) == es[..c] + es[c + num - 1..]
    ensures WhenLast(true, es[c + num - 1].addr) == multiset{es[c + num - 1].addr}
  {
  }

  lemma PrepareMerge(es: seq<Entry>, c: nat, num: nat, k: nat, around: multiset<nat>)
    requires c + num <= |es| && k < num && CopiesHaveBuffers(Views(es[c..c + num]))
    ensures var run := es[c..c + num];
      && Owned(run[k..]) + around + WhenLast(false, run[num - 1].addr)
           == OwnedBy(run[k]) + (Owned(run[k + 1..]) + around)
      && Remaining(es, c, num, k)[c] == run[k]
      && Views(run)[k] == ViewOf(run[k]) && HasBuffers(run[k], Views(run))
      && Remaining(es, c, num, k + 1) ==
           if k == num - 1 then Remaining(es, c, num, k)
           else Remaining(es, c, num, k)[..c] + Remaining(es, c, num, k)[c + 1..]
  {
    hide Owned, OwnedBy, CopiesHaveBuffers, HasBuffers, Views, ViewOf;
    var run := es[c..c + num];
    OwnedFirst(run, k);
    NextOfRun(es, c, num, k);
    GroupHasBuffers(run, k);
    ViewAt(run, k);
    Ungroup(OwnedBy(run[k]), Owned(run[k + 1..]), around);
  }

  lemma StartAccount(es: seq<Entry>, c: nat, num: nat, a: Offsets, len: Offsets, frame: multiset<nat>)
    requires c + num <= |es| && num > 0
    ensures Owned(es) + frame + OwnedString(NewString(a.path, "", len.path))
        + OwnedString(NewString(a.filePart, "", len.filePart)) + OwnedString(NewString(a.uri, "", len.uri))
      == Owned(es[c..c + num]) + Around(es, c, num, a, len, frame)
    ensures Shaped(Views(es[c..c + num]))
  {
    hide Owned, OwnedString;
    OwnedParts(es, c, num);
    RegroupAround(Owned(es[..c]), Owned(es[c..c + num]), Owned(es[c + num..]), frame,
                  OwnedString(NewString(a.path, "", len.path)), OwnedString(NewString(a.filePart, "", len.filePart)),
                  OwnedString(NewString(a.uri, "", len.uri)));
  }

  lemma OwnedFirst(es: seq<Entry>, k: nat)
    requires k < |es|
    ensures es[k..] == [es[k]] + es[k + 1..]
    ensures Owned(es[k..]) == OwnedBy(es[k]) + Owned(es[k + 1..])
  {
  }

  lemma ThreeParts(es: seq<Entry>, c: nat, num: nat)
    requires c + num <= |es|
    ensures es == es[..c] + es[c..c + num] + es[c + num..]
  {
  }

  lemma OwnedParts(es: seq<Entry>, c: nat, num: nat)
    requires c + num <= |es|
    ensures Owned(es) == Owned(es[..c]) + Owned(es[c..c + num]) + Owned(es[c + num..])
  {
    hide Owned;
    ThreeParts(es, c, num);
    OwnedConcat(es[..c] + es[c..c + num], es[c + num..]);
    OwnedConcat(es[..c], es[c..c + num]);
  }

  lemma NothingFilled(b: Buffers, group: seq<View>)
    requires Shaped(group) && b.path != b.filePart && b.path != b.uri && b.filePart != b.uri
    requires var len := Lengths(group);
      && (len.path > 0 ==> b.path.Length == len.path + |group| + 1)
      && (len.filePart > 0 ==> b.filePart.Length == len.filePart + |group| + 1)
      && (len.uri > 0 ==> b.uri.Length == len.uri + |group| + 1)
    ensures AllFilled(b, Offsets(0, 0, 0), group, 0)
  {
  }

  /** The entries of a dispatcher and the heap their blocks are on. */
  class EntryList {
    const heap: Heap
    var entries: seq<Entry>

    /** The heap holds the blocks of the entries, each once, and those of `frame`. */
    ghost predicate Owns(frame: multiset<nat>)
      reads this, heap
    {
      heap.Valid() && heap.Blocks() == Owned(entries) + frame
    }

    constructor (heap: Heap)
      ensures this.heap == heap && entries == []
    {
      this.heap, entries := heap, [];
    }

    /** Takes entry `c` off the list. */
    method Remove(c: nat)
      requires c < |entries|
      modifies this
      ensures entries == old(entries[..c] + entries[c + 1..])
    {
      entries := entries[..c] + entries[c + 1..];
    }

    /** Moves the strings of the group's entry `k`, which is now at `c`, to the buffers; any
        entry but the last of the group is taken off the list and freed. */
    method MergeOne(c: nat, k: nat, num: nat, b: Buffers, o: Offsets, ghost group: seq<View>, ghost more: multiset<nat>)
      returns (o': Offsets)
      requires k < num == |group| && Shaped(group) && c < |entries| && group[k] == ViewOf(entries[c])
      requires heap.Valid() && heap.Blocks() == OwnedBy(entries[c]) + more
      requires AllFilled(b, o, group, k) && HasBuffers(entries[c], group)
      modifies this, heap, b.path, b.filePart, b.uri
      ensures heap.Valid()
      ensures heap.Blocks() == more + WhenLast(k == num - 1, old(entries[c].addr))
      ensures AllFilled(b, o', group, k + 1)
      ensures entries == if k == num - 1 then old(entries) else old(entries[..c] + entries[c + 1..])
    {
      hide AllFilled, HasBuffers, OwnedStrings, Heap.Valid;
      var e := entries[c];
      assert OwnedStrings(e) <= heap.Blocks();
      o' := MoveStrings(heap, e, k == num - 1, b, o, group, k);
      assert heap.Blocks() == multiset{e.addr} + more;
      if k != num - 1 {
        Remove(c);
        heap.Free(e.addr);
      }
    }

    /** Gives the joined strings to the group's last entry, the only one left. */
    method FinishGroup(c: nat, len: Offsets, addrs: Offsets, b: Buffers, o: Offsets,
                       ghost es: seq<Entry>, ghost num: nat, ghost frame: multiset<nat>)
      requires num > 1 && c + num <= |es| && entries == es[..c] + es[c + num - 1..]
      requires var group := Views(es[c..c + num]);
        && RunLength(group) == num && len == Lengths(group)
        && AllFilled(b, o, group, num)
      requires heap.Valid()
      requires heap.Blocks() == Around(es, c, num, addrs, len, frame) + multiset{es[c + num - 1].addr}
      modifies this
      ensures |entries| == |es| - num + 1
      ensures entries == es[..c] + [entries[c]] + es[c + num..]
      ensures ViewOf(entries[c]) == JoinGroup(Views(es[c..c + num]))
      ensures Owns(frame)
    {
      hide JoinGroup, RunLength, TextLength, JoinedText, Owned, OwnedBy, NewStrings, OwnedString, OwnedStrings,
        Heap.Valid, Heap.Blocks, Views, ViewOf, LeftEntry, Shaped;
      var last := entries[c];
      assert last == es[c + num - 1] == es[c..c + num][num - 1];
      var left := LeftEntry(last, addrs, len, b.path[..o.path], b.filePart[..o.filePart], b.uri[..o.uri]);
      LeftEntryIsJoined(es[c..c + num], addrs, (b.path[..o.path], b.filePart[..o.filePart], b.uri[..o.uri]));
      entries := entries[..c] + [left] + entries[c + 1..];
      assert entries == es[..c] + [left] + es[c + num..];
      OwnedConcat(es[..c], [left]);
      OwnedConcat(es[..c] + [left], es[c + num..]);
      OwnedLeft(last, addrs, len, (b.path[..o.path], b.filePart[..o.filePart], b.uri[..o.uri]));
      Regroup(Owned(es[..c]), Owned(es[c + num..]), NewStrings(addrs, len), frame, multiset{last.addr});
    }

    /** Moves the strings of the group of `num` entries from `c` on to the buffers and takes
        all entries but the last off the list. */
    method FillBuffers(c: nat, num: nat, b: Buffers, ghost es: seq<Entry>, ghost group: seq<View>,
                       ghost around: multiset<nat>)
      returns (o: Offsets)
      requires num > 1 && c + num <= |es| && CopiesHaveBuffers(Views(es[c..c + num])) && entries == es
      requires group == Views(es[c..c + num]) && Shaped(group)
      requires AllFilled(b, Offsets(0, 0, 0), group, 0)
      requires heap.Valid() && heap.Blocks() == Owned(es[c..c + num]) + around
      modifies this, heap, b.path, b.filePart, b.uri
      ensures AllFilled(b, o, group, num) && entries == es[..c] + es[c + num - 1..]
      ensures heap.Valid() && heap.Blocks() == around + multiset{es[c + num - 1].addr}
    {
      ghost var run := es[c..c + num];
      o := Offsets(0, 0, 0);
      hide AllFilled, CopiesHaveBuffers, Owned, OwnedBy, Heap.Valid, Heap.Blocks, Views, ViewOf, Shaped, HasBuffers,
        Remaining, WhenLast;
      RemainingFirst(es, c, num, around);
      for k := 0 to num
        invariant AllFilled(b, o, group, k) && heap.Valid()
        invariant entries == Remaining(es, c, num, k)
        invariant heap.Blocks() == Owned(run[k..]) + around + WhenLast(k == num, run[num - 1].addr)
      {
        PrepareMerge(es, c, num, k, around);
        o := MergeOne(c, k, num, b, o, group, Owned(run[k + 1..]) + around);
      }
      OwnedNone(run[num..], around);
      RemainingLast(es, c, num);
    }

    /** Joins the group of `num` entries from `c` on. */
    method MergeGroup(c: nat, num: nat, len: Offsets, ghost frame: multiset<nat>)
      requires num > 1 && c + num <= |entries| && Owns(frame)
      requires var group := Views(entries[c..c + num]);
        RunLength(group) == num && len == Lengths(group) && CopiesHaveBuffers(group)
      modifies this, heap
      ensures |entries| == |old(entries)| - num + 1
      ensures entries == old(entries[..c]) + [entries[c]] + old(entries[c + num..])
      ensures ViewOf(entries[c]) == JoinGroup(Views(old(entries[c..c + num])))
      ensures Owns(frame)
    {
      ghost var es, group := entries, Views(entries[c..c + num]);
      var ap, path := NewBuffer(heap, len.path, num);
      var af, filePart := NewBuffer(heap, len.filePart, num);
      var au, uri := NewBuffer(heap, len.uri, num);
      var b, addrs := Buffers(path, filePart, uri), Offsets(ap, af, au);
      ghost var around := Around(es, c, num, addrs, len, frame);
      StartAccount(es, c, num, addrs, len, frame);
      NothingFilled(b, group);
      hide AllFilled, CopiesHaveBuffers, Owned, Around, OwnedString, Heap.Valid, Heap.Blocks, Views, Shaped,
        JoinGroup, RunLength, Lengths;
      var o := FillBuffers(c, num, b, es, group, around);
      FinishGroup(c, len, addrs, b, o, es, num, frame);
    }

    /** The merge pass. After a merge the cursor steps over the merged entry and, when
        there is one, the entry after it. The run goes on for `checks` more checks for an
        abort; `done` tells that the pass was not aborted. */
    method MergeAll(multiple: set<nat>, checks: nat, ghost frame: multiset<nat>) returns (left: nat, done: bool)
      requires MergeIsSafe(Views(entries), multiple) && Owns(frame)
      modifies this, heap
      ensures Owns(frame)
      ensures done ==> Views(entries) == Merged(Views(old(entries)), multiple)
      ensures if done then checks <= left + |old(entries)| else checks < |old(entries)|
    {
      hide Merged, MergeIsSafe, Owns, Views, Mergeable, JoinGroup, RunLength;
      var c: nat := 0;
      left := checks;
      ghost var goal := Merged(Views(entries), multiple);
      ViewsSplit(entries, 0);
      while c < |entries|
        invariant c <= |entries| && Owns(frame) && MergeIsSafe(Views(entries[c..]), multiple)
        invariant goal == Views(entries[..c]) + Merged(Views(entries[c..]), multiple)
        invariant checks <= left + |old(entries)| - (|entries| - c)
        decreases |entries| - c
      {
        if left == 0 {
          return 0, false;
        }
        left := left - 1;
        c := MergeAt(c, multiple, frame);
      }
      MergedNone(multiple, entries[c..]);
      assert entries[..c] == entries;
      done := true;
    }

    /** One step of the pass. */
    method MergeAt(c: nat, multiple: set<nat>, ghost frame: multiset<nat>) returns (c': nat)
      requires c < |entries| && MergeIsSafe(Views(entries[c..]), multiple) && Owns(frame)
      modifies this, heap
      ensures c' <= |entries| && |entries| - c' < |old(entries)| - c
      ensures MergeIsSafe(Views(entries[c'..]), multiple) && Owns(frame)
      ensures Views(entries[..c']) + Merged(Views(entries[c'..]), multiple)
           == Views(old(entries[..c])) + Merged(Views(old(entries[c..])), multiple)
    {
      hide Merged, MergeIsSafe, CopiesHaveBuffers, Owns, Mergeable, JoinGroup, RunLength, Views, ViewOf;
      ghost var es := entries;
      ghost var vs := Views(es[c..]);
      c' := c;
      var e := entries[c];
      FirstView(es, c, multiple);
      if e.action != 0 && e.action in multiple {
        var num, len := CountRun(entries, c);
        if num > 1 {
          GroupInRun(es, c, num);
          SafeGroup(es, c, num, multiple);
          MergeGroup(c, num, len, frame);
          AfterGroup(es, c, num, entries[c], multiple);
          c' := if c + 1 != |entries| then c + 2 else c + 1;
          return;
        }
      }
      AfterSingle(es, c, multiple);
      SafeSingle(es, c, multiple);
      c' := c + 1;
    }
  }

  lemma SafeSingle(es: seq<Entry>, c: nat, multiple: set<nat>)
    requires c < |es| && MergeIsSafe(Views(es[c..]), multiple)
    requires !Mergeable(Views(es[c..])[0], multiple) || RunLength(Views(es[c..])) == 1
    ensures MergeIsSafe(Views(es[c + 1..]), multiple)
  {
    hide MergeIsSafe, Mergeable, RunLength, ViewOf;
    SafeAfterSingle(Views(es[c..]), multiple);
    assert Views(es[c..])[1..] == Views(es[c + 1..]);
  }

  /** The group that is merged is safe, and so is what the cursor goes on to. */
  lemma SafeGroup(es: seq<Entry>, c: nat, num: nat, multiple: set<nat>)
    requires num > 1 && c + num <= |es| && num == RunLength(Views(es[c..]))
    requires Mergeable(Views(es[c..])[0], multiple) && MergeIsSafe(Views(es[c..]), multiple)
    ensures CopiesHaveBuffers(Views(es[c..c + num]))
    ensures forall e: Entry :: var es' := es[..c] + [e] + es[c + num..];
      var c' := if c + 1 != |es'| then c + 2 else c + 1;
      MergeIsSafe(Views(es'[c'..]), multiple)
  {
    hide MergeIsSafe, CopiesHaveBuffers, Mergeable, RunLength, ViewOf, Views;
    var vs := Views(es[c..]);
    SafeAfterGroup(vs, multiple);
    ViewsAround(es, c, num, es[c]);
    forall e: Entry
      ensures var es' := es[..c] + [e] + es[c + num..];
        var c' := if c + 1 != |es'| then c + 2 else c + 1;
        MergeIsSafe(Views(es'[c'..]), multiple)
    {
      ViewsAround(es, c, num, e);
      var es' := es[..c] + [e] + es[c + num..];
      if c + num == |es| {
        NothingToMerge(es'[c + 1..], multiple);
      }
    }
  }

  lemma NothingToMerge(es: seq<Entry>, multiple: set<nat>)
    requires es == []
    ensures MergeIsSafe(Views(es), multiple)
  {
  }

  lemma ViewsSplit(es: seq<Entry>, c: nat)
    requires c <= |es|
    ensures Shaped(Views(es[c..])) && Views(es[..0]) == [] && es[0..] == es
    ensures Views(es) == [] + Views(es) && forall m: seq<View> :: [] + m == m
  {
  }

  lemma MergedNone(multiple: set<nat>, es: seq<Entry>)
    requires es == []
    ensures Merged(Views(es), multiple) == [] && forall v: seq<View> :: v + [] == v
  {
  }

  lemma MergedSingle(vs: seq<View>, multiple: set<nat>)
    requires vs != [] && Shaped(vs) && (!Mergeable(vs[0], multiple) || RunLength(vs) == 1)
    ensures Merged(vs, multiple) == [vs[0]] + Merged(vs[1..], multiple)
  {
  }

  lemma MergedGroup(vs: seq<View>, multiple: set<nat>)
    requires vs != [] && Shaped(vs) && Mergeable(vs[0], multiple) && RunLength(vs) > 1
    ensures var n := RunLength(vs);
      Merged(vs, multiple) ==
        if n == |vs| then [JoinGroup(vs)]
        else [JoinGroup(vs[..n])] + ([vs[n]] + Merged(vs[n + 1..], multiple))
  {
    hide Segments, RunLength, Mergeable, JoinGroup, JoinGroups, AllShaped, Merged, Shaped;
    var n := RunLength(vs);
    SegmentsCases(vs, multiple);
    MergedIs(vs, multiple);
    RestShaped(vs, n);
    JoinNone();
    if n == |vs| {
      assert [vs] + [] == [vs];
      JoinGroupsCons(vs, []);
    } else {
      var rest := Segments(vs[n + 1..], multiple);
      RestShaped(vs, n + 1);
      OneShaped(vs, n);
      JoinOne([vs[n]]);
      MergedIs(vs[n + 1..], multiple);
      JoinGroupsCons([vs[n]], rest);
      JoinGroupsCons(vs[..n], [[vs[n]]] + rest);
    }
  }

  lemma RestShaped(vs: seq<View>, n: nat)
    requires Shaped(vs) && n <= |vs|
    ensures Shaped(vs[..n]) && Shaped(vs[n..])
  {
  }

  lemma OneShaped(vs: seq<View>, n: nat)
    requires Shaped(vs) && n < |vs|
    ensures Shaped([vs[n]])
  {
  }

  lemma JoinOne(group: seq<View>)
    requires |group| == 1 && Shaped(group)
    ensures JoinGroup(group) == group[0]
  {
  }

  lemma JoinNone()
    ensures AllShaped([]) && JoinGroups([]) == []
  {
  }

  lemma MergedIs(vs: seq<View>, multiple: set<nat>)
    requires Shaped(vs)
    ensures AllShaped(Segments(vs, multiple)) && Merged(vs, multiple) == JoinGroups(Segments(vs, multiple))
  {
    SegmentsShaped(vs, multiple);
  }

  lemma JoinGroupsCons(group: seq<View>, groups: seq<seq<View>>)
    requires group != [] && Shaped(group) && AllShaped(groups)
    ensures AllShaped([group] + groups)
    ensures JoinGroups([group] + groups) == [JoinGroup(group)] + JoinGroups(groups)
  {
  }

  lemma FirstView(es: seq<Entry>, c: nat, multiple: set<nat>)
    requires c < |es|
    ensures var vs := Views(es[c..]);
      Shaped(vs) && (Mergeable(vs[0], multiple) <==> es[c].action != 0 && es[c].action in multiple)
  {
  }

  lemma GroupInRun(es: seq<Entry>, c: nat, num: nat)
    requires c < |es| && num == RunLength(Views(es[c..]))
    ensures c + num <= |es| && RunLength(Views(es[c..c + num])) == num
  {
    assert Views(es[c..c + num]) == Views(es[c..])[..num];
    RunLengthIs(Views(es[c..c + num]), num);
  }

  /** The cursor steps over an entry that is left as it is. */
  lemma AfterSingle(es: seq<Entry>, c: nat, multiple: set<nat>)
    requires c < |es|
    requires var vs := Views(es[c..]);
      !Mergeable(vs[0], multiple) || RunLength(vs) == 1
    ensures Shaped(Views(es[c..])) && Shaped(Views(es[c + 1..]))
    ensures Views(es[..c]) + Merged(Views(es[c..]), multiple)
         == Views(es[..c + 1]) + Merged(Views(es[c + 1..]), multiple)
  {
    hide Merged, Mergeable, RunLength;
    var vs := Views(es[c..]);
    MergedSingle(vs, multiple);
    assert vs[1..] == Views(es[c + 1..]);
    assert Views(es[..c + 1]) == Views(es[..c]) + [vs[0]];
    Assoc(Views(es[..c]), [vs[0]], Merged(vs[1..], multiple));
  }

  /** The cursor steps over a merged entry and the one after it. */
  lemma AfterGroup(es: seq<Entry>, c: nat, num: nat, e: Entry, multiple: set<nat>)
    requires num > 1 && c + num <= |es| && num == RunLength(Views(es[c..]))
    requires Mergeable(Views(es[c..])[0], multiple) && ViewOf(e) == JoinGroup(Views(es[c..c + num]))
    ensures var es' := es[..c] + [e] + es[c + num..];
      var c' := if c + 1 != |es'| then c + 2 else c + 1;
      && Shaped(Views(es[c..])) && Shaped(Views(es'[c'..]))
      && Views(es[..c]) + Merged(Views(es[c..]), multiple) == Views(es'[..c']) + Merged(Views(es'[c'..]), multiple)
  {
    hide Merged, Mergeable, RunLength, JoinGroup, ViewOf, Views, Shaped;
    var vs, es' := Views(es[c..]), es[..c] + [e] + es[c + num..];
    MergedGroup(vs, multiple);
    ViewsAround(es, c, num, e);
    if c + num == |es| {
      MergedNone(multiple, es'[c + 1..]);
    } else {
      StepOverTwo(Views(es[..c]), ViewOf(e), vs[num], Merged(vs[num + 1..], multiple));
    }
  }

  lemma StepOverTwo(a: seq<View>, v: View, w: View, rest: seq<View>)
    ensures a + ([v] + ([w] + rest)) == (a + [v, w]) + rest
  {
  }

  lemma ViewsAround(es: seq<Entry>, c: nat, num: nat, e: Entry)
    requires num > 1 && c + num <= |es|
    ensures var vs, es' := Views(es[c..]), es[..c] + [e] + es[c + num..];
      && Shaped(vs) && Shaped(vs[..num]) && vs[..num] == Views(es[c..c + num])
      && Views(es'[..c + 1]) == Views(es[..c]) + [ViewOf(e)]
      && (c + num == |es| ==> vs[..num] == vs && es'[c + 1..] == [] && c + 1 == |es'|)
      && (c + num < |es| ==>
            && c + 2 <= |es'| && vs[num + 1..] == Views(es'[c + 2..])
            && Views(es'[..c + 2]) == Views(es[..c]) + [ViewOf(e), vs[num]])
  {
  }
}
