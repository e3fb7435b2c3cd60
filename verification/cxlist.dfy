/** The list of commodities: a rescan marks the entries it meets with a generation count,
    adds new ones and sweeps away what was not marked. */
module CxLists {
  import opened Sequences

  /** The generation count is a 32-bit word. */
  const WORD: nat := 0x1_0000_0000

  /** An entry is known by the address of its broker. */
  datatype Entry = Entry(addr: nat, name: string, cnt: nat)

  /** A broker met in a rescan; `at` is where the order of the list would put it. */
  datatype Offer = Offer(addr: nat, name: string, at: nat)

  function IndexOf(entries: seq<Entry>, addr: nat): (i: nat)
    ensures i <= |entries| && (i < |entries| ==> entries[i].addr == addr)
    ensures forall k :: 0 <= k < i ==> entries[k].addr != addr
  {
    if entries == [] || entries[0].addr == addr then 0 else IndexOf(entries[1..], addr) + 1
  }

  ghost predicate OnList(entries: seq<Entry>, addr: nat) {
    exists i :: 0 <= i < |entries| && entries[i].addr == addr
  }

  ghost predicate DistinctAddresses(entries: seq<Entry>) {
    forall i, j :: 0 <= i < j < |entries| ==> entries[i].addr != entries[j].addr
  }

  /** The list between rescans: every entry has the current count. */
  ghost predicate Swept(entries: seq<Entry>, cnt: nat) {
    DistinctAddresses(entries) && forall i :: 0 <= i < |entries| ==> entries[i].cnt == cnt
  }

  // ----- The operations ----------------------------------------------------------------------

  function NextCount(cnt: nat): nat {
    (cnt + 1) % WORD
  }

  function Inserted(entries: seq<Entry>, e: Entry, at: nat): seq<Entry> {
    var i := if at <= |entries| then at else |entries|;
    entries[..i] + [e] + entries[i..]
  }

  /** A broker that is on the list is marked; one that is not is added if it passes the filter. */
  function AfterTry(entries: seq<Entry>, cnt: nat, filter: string -> bool, o: Offer): seq<Entry> {
    var i := IndexOf(entries, o.addr);
    if i < |entries| then entries[i := entries[i].(cnt := cnt)]
    else if filter(o.name) then Inserted(entries, Entry(o.addr, o.name, cnt), o.at)
    else entries
  }

  function AfterOffers(entries: seq<Entry>, cnt: nat, filter: string -> bool, offers: seq<Offer>): seq<Entry> {
    if offers == [] then entries
    else
      var last := |offers| - 1;
      AfterTry(AfterOffers(entries, cnt, filter, offers[..last]), cnt, filter, offers[last])
  }

  function Sweep(entries: seq<Entry>, cnt: nat): seq<Entry> {
    if entries == [] then []
    else (if entries[0].cnt == cnt then [entries[0]] else []) + Sweep(entries[1..], cnt)
  }

  /** A rescan that meets the brokers `offers`. */
  function AfterRescan(entries: seq<Entry>, cnt: nat, filter: string -> bool, offers: seq<Offer>): seq<Entry> {
    Sweep(AfterOffers(entries, NextCount(cnt), filter, offers), NextCount(cnt))
  }

  // ----- What a rescan leaves --------------------------------------------------------------------

  ghost predicate Offered(offers: seq<Offer>, addr: nat) {
    exists k :: 0 <= k < |offers| && offers[k].addr == addr
  }

  ghost predicate Passes(offers: seq<Offer>, filter: string -> bool, addr: nat) {
    exists k :: 0 <= k < |offers| && offers[k].addr == addr && filter(offers[k].name)
  }

  lemma OnListIndex(entries: seq<Entry>, addr: nat)
    ensures OnList(entries, addr) <==> IndexOf(entries, addr) < |entries|
  {
  }

  /** The list during a rescan: which addresses are on it, and which of them are marked. */
  ghost predicate Marking(before: seq<Entry>, now: seq<Entry>, cnt: nat, filter: string -> bool, offers: seq<Offer>) {
    && DistinctAddresses(now)
    && (forall a: nat :: OnList(now, a) <==> OnList(before, a) || Passes(offers, filter, a))
    && (forall i :: 0 <= i < |now| ==> (now[i].cnt == cnt <==> Offered(offers, now[i].addr)))
  }

  lemma OffersSnoc(offers: seq<Offer>, o: Offer, filter: string -> bool, a: nat)
    ensures Offered(offers + [o], a) <==> Offered(offers, a) || o.addr == a
    ensures Passes(offers + [o], filter, a) <==> Passes(offers, filter, a) || (o.addr == a && filter(o.name))
  {
    var more := offers + [o];
    assert more[|offers|] == o;
    if Offered(offers, a) {
      var k :| 0 <= k < |offers| && offers[k].addr == a;
      assert more[k].addr == a;
    }
    if Passes(offers, filter, a) {
      var k :| 0 <= k < |offers| && offers[k].addr == a && filter(offers[k].name);
      assert more[k].addr == a;
    }
  }

  lemma InsertedOnList(entries: seq<Entry>, e: Entry, at: nat)
    requires DistinctAddresses(entries) && !OnList(entries, e.addr)
    ensures var now := Inserted(entries, e, at);
      && DistinctAddresses(now)
      && (forall a: nat :: OnList(now, a) <==> OnList(entries, a) || a == e.addr)
      && forall i :: 0 <= i < |now| ==> now[i] == e || now[i] in entries
  {
    var now := Inserted(entries, e, at);
    var p := if at <= |entries| then at else |entries|;
    assert now[p] == e;
    forall a: nat | OnList(entries, a)
      ensures OnList(now, a)
    {
      var k :| 0 <= k < |entries| && entries[k].addr == a;
      assert now[if k < p then k else k + 1].addr == a;
    }
  }

  lemma TryKeepsMarking(before: seq<Entry>, now: seq<Entry>, cnt: nat, filter: string -> bool, offers: seq<Offer>,
                        o: Offer)
    requires Marking(before, now, cnt, filter, offers)
    ensures Marking(before, AfterTry(now, cnt, filter, o), cnt, filter, offers + [o])
  {
    hide IndexOf, Offered, Passes, Inserted;
    var i, next := IndexOf(now, o.addr), AfterTry(now, cnt, filter, o);
    OnListIndex(now, o.addr);
    forall a: nat
      ensures Offered(offers + [o], a) <==> Offered(offers, a) || o.addr == a
      ensures Passes(offers + [o], filter, a) <==> Passes(offers, filter, a) || (o.addr == a && filter(o.name))
    {
      OffersSnoc(offers, o, filter, a);
    }
    if i < |now| {
      MarkedOnList(now, i, cnt);
    } else if filter(o.name) {
      var e := Entry(o.addr, o.name, cnt);
      InsertedOnList(now, e, o.at);
      forall k | 0 <= k < |next|
        ensures next[k].cnt == cnt <==> Offered(offers + [o], next[k].addr)
      {
        if next[k] != e {
          var j :| 0 <= j < |now| && now[j] == next[k];
          assert OnList(now, now[j].addr);
        }
      }
    } else {
      forall k | 0 <= k < |now|
        ensures now[k].addr != o.addr
      {
      }
    }
  }

  lemma MarkedOnList(entries: seq<Entry>, i: nat, cnt: nat)
    requires i < |entries|
    ensures var now := entries[i := entries[i].(cnt := cnt)];
      forall a: nat :: OnList(now, a) <==> OnList(entries, a)
  {
    var now := entries[i := entries[i].(cnt := cnt)];
    forall a: nat
      ensures OnList(now, a) <==> OnList(entries, a)
    {
      if OnList(entries, a) {
        var k :| 0 <= k < |entries| && entries[k].addr == a;
        assert now[k].addr == a;
      }
      if OnList(now, a) {
        var k :| 0 <= k < |now| && now[k].addr == a;
        assert entries[k].addr == a;
      }
    }
  }

  lemma {:induction false} OffersMark(before: seq<Entry>, cnt: nat, filter: string -> bool, offers: seq<Offer>)
    requires DistinctAddresses(before) && forall i :: 0 <= i < |before| ==> before[i].cnt != cnt
    ensures Marking(before, AfterOffers(before, cnt, filter, offers), cnt, filter, offers)
    decreases |offers|
  {
    if offers != [] {
      hide Marking, AfterTry;
      var last := |offers| - 1;
      var now := AfterOffers(before, cnt, filter, offers[..last]);
      OffersMark(before, cnt, filter, offers[..last]);
      TryKeepsMarking(before, now, cnt, filter, offers[..last], offers[last]);
      assert offers[..last] + [offers[last]] == offers;
    }
  }

  lemma {:induction false} SweepContents(entries: seq<Entry>, cnt: nat)
    ensures forall e :: e in Sweep(entries, cnt) <==> e in entries && e.cnt == cnt
  {
    if entries != [] {
      SweepContents(entries[1..], cnt);
    }
  }

  lemma {:induction false} SweepKeepsDistinct(entries: seq<Entry>, cnt: nat)
    requires DistinctAddresses(entries)
    ensures Swept(Sweep(entries, cnt), cnt)
  {
    if entries != [] {
      SweepKeepsDistinct(entries[1..], cnt);
      SweepContents(entries[1..], cnt);
      var rest := Sweep(entries[1..], cnt);
      forall j | 0 <= j < |rest|
        ensures rest[j].addr != entries[0].addr
      {
        assert rest[j] in rest;
      }
    }
  }

  /** After any rescan of a swept list, whatever the count and however often it has wrapped
      around, the list is swept and has exactly one entry for each broker that was offered
      and either was on the list or passed the filter, and nothing else. */
  lemma RescanIsExact(entries: seq<Entry>, cnt: nat, filter: string -> bool, offers: seq<Offer>)
    requires Swept(entries, cnt) && cnt < WORD
    ensures var now := AfterRescan(entries, cnt, filter, offers);
      && Swept(now, NextCount(cnt)) && NextCount(cnt) < WORD
      && forall a: nat :: OnList(now, a) <==> Offered(offers, a) && (OnList(entries, a) || Passes(offers, filter, a))
  {
    hide Offered, Passes, AfterOffers;
    var next := NextCount(cnt);
    OffersMark(entries, next, filter, offers);
    var all := AfterOffers(entries, next, filter, offers);
    var now := Sweep(all, next);
    SweepKeepsDistinct(all, next);
    SweepContents(all, next);
    forall a: nat
      ensures OnList(now, a) <==> Offered(offers, a) && (OnList(entries, a) || Passes(offers, filter, a))
    {
      if OnList(now, a) {
        var k :| 0 <= k < |now| && now[k].addr == a;
        assert now[k] in now;
        var j :| 0 <= j < |all| && all[j] == now[k];
        assert OnList(all, a);
      }
      if OnList(all, a) && Offered(offers, a) {
        var j :| 0 <= j < |all| && all[j].addr == a;
        assert all[j] in now;
        var k :| 0 <= k < |now| && now[k] == all[j];
        assert now[k].addr == a;
      }
    }
  }

  /** The list is what the filter lets through if and only if every broker that was on the
      list and is offered again passes the filter. The filter never changes, but an address
      can be used again by a broker of another name. */
  lemma FilteredIff(entries: seq<Entry>, cnt: nat, filter: string -> bool, offers: seq<Offer>)
    requires Swept(entries, cnt) && cnt < WORD
    ensures var now := AfterRescan(entries, cnt, filter, offers);
      (forall a: nat :: OnList(now, a) <==> Passes(offers, filter, a)) <==>
      (forall a: nat :: OnList(entries, a) && Offered(offers, a) ==> Passes(offers, filter, a))
  {
    var now := AfterRescan(entries, cnt, filter, offers);
    RescanIsExact(entries, cnt, filter, offers);
    hide AfterRescan, OnList;
    forall a: nat
      ensures Passes(offers, filter, a) ==> Offered(offers, a)
    {
    }
    if a: nat :| OnList(entries, a) && Offered(offers, a) && !Passes(offers, filter, a) {
      assert OnList(now, a);
    }
  }

  // ----- Names and order -------------------------------------------------------------------------

  /** The entry has the address and the name of a broker that was offered. */
  ghost predicate IsOf(offers: seq<Offer>, e: Entry) {
    exists k :: 0 <= k < |offers| && offers[k].addr == e.addr && offers[k].name == e.name
  }

  /** The entry was on the list, with this name, or was offered and passes the filter. */
  ghost predicate Known(before: seq<Entry>, filter: string -> bool, offers: seq<Offer>, e: Entry) {
    || (exists i :: 0 <= i < |before| && before[i].addr == e.addr && before[i].name == e.name)
    || (filter(e.name) && IsOf(offers, e))
  }

  ghost predicate AllKnown(before: seq<Entry>, filter: string -> bool, offers: seq<Offer>, now: seq<Entry>) {
    forall i :: 0 <= i < |now| ==> Known(before, filter, offers, now[i])
  }

  lemma KnownMore(before: seq<Entry>, filter: string -> bool, offers: seq<Offer>, o: Offer, e: Entry)
    requires Known(before, filter, offers, e)
    ensures Known(before, filter, offers + [o], e)
  {
    if IsOf(offers, e) {
      var k :| 0 <= k < |offers| && offers[k].addr == e.addr && offers[k].name == e.name;
      assert (offers + [o])[k] == offers[k];
    }
  }

  lemma KnownTry(before: seq<Entry>, now: seq<Entry>, cnt: nat, filter: string -> bool, offers: seq<Offer>, o: Offer)
    requires AllKnown(before, filter, offers, now)
    ensures AllKnown(before, filter, offers + [o], AfterTry(now, cnt, filter, o))
  {
    hide IndexOf, Known;
    var i, next := IndexOf(now, o.addr), AfterTry(now, cnt, filter, o);
    forall k | 0 <= k < |next|
      ensures Known(before, filter, offers + [o], next[k])
    {
      var at := if o.at <= |now| then o.at else |now|;
      if i == |now| && filter(o.name) && k == at {
        NewIsKnown(before, filter, offers, o, next[k]);
      } else {
        var was := now[if i == |now| && filter(o.name) && k > at then k - 1 else k];
        KnownMore(before, filter, offers, o, was);
        SameKnown(before, filter, offers + [o], was, next[k]);
      }
    }
  }

  lemma NewIsKnown(before: seq<Entry>, filter: string -> bool, offers: seq<Offer>, o: Offer, e: Entry)
    requires e.addr == o.addr && e.name == o.name && filter(o.name)
    ensures Known(before, filter, offers + [o], e)
  {
    assert (offers + [o])[|offers|] == o;
  }

  lemma SameKnown(before: seq<Entry>, filter: string -> bool, offers: seq<Offer>, e: Entry, e': Entry)
    requires Known(before, filter, offers, e) && e'.addr == e.addr && e'.name == e.name
    ensures Known(before, filter, offers, e')
  {
  }

  lemma {:induction false} OffersKnown(before: seq<Entry>, cnt: nat, filter: string -> bool, offers: seq<Offer>)
    ensures AllKnown(before, filter, offers, AfterOffers(before, cnt, filter, offers))
    decreases |offers|
  {
    hide Known, AfterTry;
    if offers != [] {
      var last := |offers| - 1;
      OffersKnown(before, cnt, filter, offers[..last]);
      KnownTry(before, AfterOffers(before, cnt, filter, offers[..last]), cnt, filter, offers[..last], offers[last]);
      assert offers[..last] + [offers[last]] == offers;
    } else {
      OldIsKnown(before, filter);
    }
  }

  lemma OldIsKnown(before: seq<Entry>, filter: string -> bool)
    ensures AllKnown(before, filter, [], before)
  {
  }

  /** After a rescan every entry has the address and the name of an entry that was listed
      before or of a broker that was offered and passes the filter. */
  lemma NamesAreOffered(entries: seq<Entry>, cnt: nat, filter: string -> bool, offers: seq<Offer>)
    ensures AllKnown(entries, filter, offers, AfterRescan(entries, cnt, filter, offers))
  {
    hide Known, AfterOffers;
    var all := AfterOffers(entries, NextCount(cnt), filter, offers);
    OffersKnown(entries, NextCount(cnt), filter, offers);
    SweepContents(all, NextCount(cnt));
    var now := Sweep(all, NextCount(cnt));
    forall i | 0 <= i < |now|
      ensures Known(entries, filter, offers, now[i])
    {
      assert now[i] in now;
      var k :| 0 <= k < |all| && all[k] == now[i];
    }
  }

  ghost predicate InOrder(before: (string, string) -> bool, entries: seq<Entry>) {
    forall i, j :: 0 <= i < j < |entries| ==> before(entries[i].name, entries[j].name)
  }

  /** The place where a broker would be put is the one that the order gives it. */
  ghost predicate RightPlace(before: (string, string) -> bool, entries: seq<Entry>, o: Offer) {
    && o.at <= |entries|
    && (forall i :: 0 <= i < o.at ==> before(entries[i].name, o.name))
    && (forall i :: o.at <= i < |entries| ==> before(o.name, entries[i].name))
  }

  lemma TryKeepsOrder(before: (string, string) -> bool, now: seq<Entry>, cnt: nat, filter: string -> bool, o: Offer)
    requires InOrder(before, now) && RightPlace(before, now, o)
    ensures InOrder(before, AfterTry(now, cnt, filter, o))
  {
    hide IndexOf;
  }

  lemma {:induction false} SweepKeepsOrder(before: (string, string) -> bool, entries: seq<Entry>, cnt: nat)
    requires InOrder(before, entries)
    ensures InOrder(before, Sweep(entries, cnt))
  {
    if entries != [] {
      SweepKeepsOrder(before, entries[1..], cnt);
      SweepContents(entries[1..], cnt);
      var rest := Sweep(entries[1..], cnt);
      forall j | 0 <= j < |rest|
        ensures before(entries[0].name, rest[j].name)
      {
        assert rest[j] in rest;
      }
    }
  }

  lemma {:induction false} OffersKeepOrder(before: (string, string) -> bool, entries: seq<Entry>, cnt: nat,
                                           filter: string -> bool, offers: seq<Offer>)
    requires InOrder(before, entries)
    requires forall k :: 0 <= k < |offers| ==>
      RightPlace(before, AfterOffers(entries, cnt, filter, offers[..k]), offers[k])
    ensures InOrder(before, AfterOffers(entries, cnt, filter, offers))
    decreases |offers|
  {
    hide InOrder, RightPlace, AfterTry;
    if offers != [] {
      var last := |offers| - 1;
      assert forall k :: 0 <= k < last ==> offers[..last][..k] == offers[..k];
      OffersKeepOrder(before, entries, cnt, filter, offers[..last]);
      TryKeepsOrder(before, AfterOffers(entries, cnt, filter, offers[..last]), cnt, filter, offers[last]);
    }
  }

  /** A list in order stays in order through a rescan that puts new entries in their places. */
  lemma RescanKeepsOrder(before: (string, string) -> bool, entries: seq<Entry>, cnt: nat, filter: string -> bool,
                         offers: seq<Offer>)
    requires InOrder(before, entries)
    requires forall k :: 0 <= k < |offers| ==>
      RightPlace(before, AfterOffers(entries, NextCount(cnt), filter, offers[..k]), offers[k])
    ensures InOrder(before, AfterRescan(entries, cnt, filter, offers))
  {
    hide InOrder, RightPlace, AfterOffers;
    OffersKeepOrder(before, entries, NextCount(cnt), filter, offers);
    SweepKeepsOrder(before, AfterOffers(entries, NextCount(cnt), filter, offers), NextCount(cnt));
  }

  // ----- Many rescans -----------------------------------------------------------------------------

  /** The list after rescans that meet the brokers `runs`, one after the other. */
  function AfterRescans(filter: string -> bool, runs: seq<seq<Offer>>): seq<Entry> {
    if runs == [] then []
    else
      var last := |runs| - 1;
      AfterRescan(AfterRescans(filter, runs[..last]), last % WORD, filter, runs[last])
  }

  lemma NextOf(n: nat)
    ensures NextCount(n % WORD) == (n + 1) % WORD
  {
  }

  lemma {:induction false} RescansAreSwept(filter: string -> bool, runs: seq<seq<Offer>>)
    ensures Swept(AfterRescans(filter, runs), |runs| % WORD)
    decreases |runs|
  {
    if runs != [] {
      hide AfterRescan, Swept, NextCount;
      var last := |runs| - 1;
      RescansAreSwept(filter, runs[..last]);
      NextOf(last);
      RescanIsExact(AfterRescans(filter, runs[..last]), last % WORD, filter, runs[last]);
    }
  }

  ghost predicate Met(runs: seq<seq<Offer>>, o: Offer) {
    exists r :: 0 <= r < |runs| && o in runs[r]
  }

  /** The brokers with one address all pass the filter, or none does. */
  ghost predicate KeepsNames(filter: string -> bool, runs: seq<seq<Offer>>) {
    forall o1, o2 :: Met(runs, o1) && Met(runs, o2) && o1.addr == o2.addr ==> filter(o1.name) == filter(o2.name)
  }

  lemma EmptyList(a: nat)
    ensures !OnList([], a)
  {
  }

  lemma {:induction false} ListedOncePassed(filter: string -> bool, runs: seq<seq<Offer>>, a: nat)
    requires OnList(AfterRescans(filter, runs), a)
    ensures exists r :: 0 <= r < |runs| && Passes(runs[r], filter, a)
    decreases |runs|
  {
    hide AfterRescan, OnList, Passes;
    if runs == [] {
      EmptyList(a);
    } else {
      var last := |runs| - 1;
      var before := AfterRescans(filter, runs[..last]);
      RescansAreSwept(filter, runs[..last]);
      RescanIsExact(before, last % WORD, filter, runs[last]);
      if OnList(before, a) {
        ListedOncePassed(filter, runs[..last], a);
        var r :| 0 <= r < last && Passes(runs[..last][r], filter, a);
        assert runs[r] == runs[..last][r];
      }
    }
  }

  /** While brokers keep their names, every rescan leaves exactly the brokers that it meets
      and that pass the filter. */
  lemma RescansFilter(filter: string -> bool, runs: seq<seq<Offer>>)
    requires runs != [] && KeepsNames(filter, runs)
    ensures forall a: nat :: OnList(AfterRescans(filter, runs), a) <==> Passes(runs[|runs| - 1], filter, a)
  {
    hide AfterRescan, OnList, Swept;
    var last := |runs| - 1;
    var before := AfterRescans(filter, runs[..last]);
    RescansAreSwept(filter, runs[..last]);
    forall a: nat | OnList(before, a) && Offered(runs[last], a)
      ensures Passes(runs[last], filter, a)
    {
      ListedOncePassed(filter, runs[..last], a);
      var r :| 0 <= r < last && Passes(runs[..last][r], filter, a);
      var k :| 0 <= k < |runs[last]| && runs[last][k].addr == a;
      var k' :| 0 <= k' < |runs[r]| && runs[r][k'].addr == a && filter(runs[r][k'].name);
      assert Met(runs, runs[last][k]) && Met(runs, runs[r][k']);
    }
    FilteredIff(before, last % WORD, filter, runs[last]);
  }

  /** An address that is used again, by a broker that the filter holds back, stays listed. */
  lemma ReusedAddressStays(filter: string -> bool)
    requires filter("Exchange") && !filter("Blanker")
    ensures var runs := [[Offer(1, "Exchange", 0)], [Offer(1, "Blanker", 0)]];
      OnList(AfterRescans(filter, runs), 1) && !Passes(runs[1], filter, 1)
  {
    var first, second := [Offer(1, "Exchange", 0)], [Offer(1, "Blanker", 0)];
    var runs := [first, second];
    assert AfterRescans(filter, []) == [];
    RescansAreSwept(filter, []);
    RescanIsExact([], 0, filter, first);
    var one: seq<seq<Offer>> := [first];
    assert runs[..1] == one && one[..0] == [];
    assert first[0].addr == 1 && second[0].addr == 1;
    assert Passes(first, filter, 1) && Offered(first, 1) && Offered(second, 1);
    var before := AfterRescans(filter, one);
    assert before == AfterRescan([], 0, filter, first);
    RescansAreSwept(filter, one);
    RescanIsExact(before, 1, filter, second);
    assert AfterRescans(filter, runs) == AfterRescan(before, 1, filter, second);
  }

  // ----- The program ---------------------------------------------------------------------------------

  class CxList {
    var entries: seq<Entry>
    var cnt: nat
    const filter: string -> bool

    ghost predicate Valid()
      reads this
    {
      Swept(entries, cnt) && cnt < WORD
    }

    constructor (filter: string -> bool)
      ensures Valid() && entries == [] && this.filter == filter
    {
      entries, cnt := [], 0;
      this.filter := filter;
    }

    method InitChange()
      modifies this`cnt
      ensures cnt == NextCount(old(cnt))
    {
      cnt := (cnt + 1) % WORD;
    }

    method TryAdd(o: Offer)
      modifies this`entries
      ensures entries == AfterTry(old(entries), cnt, filter, o)
    {
      var i, found := 0, false;
      while i < |entries|
        invariant i <= |entries| && entries == old(entries) && !found
        invariant forall k :: 0 <= k < i ==> entries[k].addr != o.addr
      {
        if entries[i].addr == o.addr {
          assert i == IndexOf(entries, o.addr);
          entries := entries[i := entries[i].(cnt := cnt)];
          found := true;
          break;
        }
        i := i + 1;
      }
      if !filter(o.name) {
        found := true;
      }
      if !found {
        entries := Inserted(entries, Entry(o.addr, o.name, cnt), o.at);
      }
    }

    method ExitChange()
      modifies this`entries
      ensures entries == Sweep(old(entries), cnt)
    {
      hide Sweep;
      var i: nat := 0;
      ghost var all, done: nat, kept := entries, 0, Sweep(entries[..0], cnt);
      SweepStart(entries, cnt);
      while i < |entries|
        invariant done <= |all| && kept == Sweep(all[..done], cnt) && i == |kept|
        invariant entries == kept + all[done..]
        decreases |all| - done
      {
        SweepStep(all, done, cnt, entries, i);
        if entries[i].cnt != cnt {
          entries := entries[..i] + entries[i + 1..];
        } else {
          i := i + 1;
        }
        done := done + 1;
        kept := Sweep(all[..done], cnt);
      }
      assert all[..done] == all && all[done..] == [];
    }

    /** A rescan of the brokers the system knows. */
    method Rescan(offers: seq<Offer>)
      requires Valid()
      modifies this`entries, this`cnt
      ensures Valid() && entries == AfterRescan(old(entries), old(cnt), filter, offers)
    {
      hide AfterTry, Sweep;
      RescanIsExact(entries, cnt, filter, offers);
      InitChange();
      for k := 0 to |offers|
        invariant cnt == NextCount(old(cnt)) && entries == AfterOffers(old(entries), cnt, filter, offers[..k])
      {
        TryAdd(offers[k]);
        assert offers[..k + 1][..k] == offers[..k];
      }
      assert offers[..|offers|] == offers;
      ExitChange();
    }
  }

  lemma SweepCons(e: Entry, entries: seq<Entry>, cnt: nat)
    ensures Sweep([e] + entries, cnt) == (if e.cnt == cnt then [e] else []) + Sweep(entries, cnt)
  {
  }

  lemma FirstAndRest(entries: seq<Entry>, e: Entry)
    requires entries != []
    ensures entries == [entries[0]] + entries[1..]
    ensures entries + [e] == [entries[0]] + (entries[1..] + [e])
  {
  }

  lemma {:induction false} SweepMore(entries: seq<Entry>, e: Entry, cnt: nat)
    ensures Sweep(entries + [e], cnt) == Sweep(entries, cnt) + if e.cnt == cnt then [e] else []
  {
    var last := if e.cnt == cnt then [e] else [];
    if entries == [] {
      SweepCons(e, [], cnt);
      assert [] + [e] == [e] && [e] + [] == [e];
    } else {
      hide Sweep;
      var first := if entries[0].cnt == cnt then [entries[0]] else [];
      var rest := entries[1..];
      SweepMore(rest, e, cnt);
      SweepCons(entries[0], rest, cnt);
      SweepCons(entries[0], rest + [e], cnt);
      FirstAndRest(entries, e);
      Assoc(first, Sweep(rest, cnt), last);
    }
  }

  lemma SweepStart(entries: seq<Entry>, cnt: nat)
    ensures Sweep(entries[..0], cnt) == [] && [] + entries[0..] == entries
  {
  }

  /** One step of the sweep, with `i` entries kept of the first `done`. */
  lemma SweepStep(all: seq<Entry>, done: nat, cnt: nat, now: seq<Entry>, i: nat)
    requires done < |all| && i == |Sweep(all[..done], cnt)| && now == Sweep(all[..done], cnt) + all[done..]
    ensures now[i] == all[done]
    ensures if all[done].cnt == cnt then
              now == Sweep(all[..done + 1], cnt) + all[done + 1..] && |Sweep(all[..done + 1], cnt)| == i + 1
            else
              now[..i] + now[i + 1..] == Sweep(all[..done + 1], cnt) + all[done + 1..]
              && |Sweep(all[..done + 1], cnt)| == i
  {
    hide Sweep;
    SweepSnoc(all, done, cnt);
    assert all[done..] == [all[done]] + all[done + 1..];
  }

  lemma SweepSnoc(entries: seq<Entry>, i: nat, cnt: nat)
    requires i < |entries|
    ensures Sweep(entries[..i + 1], cnt)
         == Sweep(entries[..i], cnt) + if entries[i].cnt == cnt then [entries[i]] else []
  {
    assert entries[..i + 1] == entries[..i] + [entries[i]];
    SweepMore(entries[..i], entries[i], cnt);
  }
}
