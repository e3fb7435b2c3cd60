/** The action dispatcher: it collects uris, looks up an action for each, sorts and merges
    the entries, expands the command templates of each and frees the entries. */
module Dispatchers {
  import opened Actions
  import opened EntryLists
  import opened Memory
  import opened MergePass
  import opened Options
  import opened Sequences
  import opened Templates
  import opened Text

  /** What is known about a uri, with the address of the action found for it, or 0. */
  datatype Gathered = Gathered(uri: string, path: string, found: nat)

  /** The uri library and the search for actions. */
  datatype Library = Library(
    gather: string -> Option<Gathered>,
    encode: string -> string,
    quote: string -> string,
    filePart: string -> string,
    decodePath: string -> string)

  /** The action list: every action has been set up, so its flags cover what its templates
      need, and templates are C strings. */
  ghost predicate ReadyActions(actions: map<nat, Action>) {
    && 0 !in actions
    && (forall a :: a in actions ==> NeedAll(actions[a].commands) <= actions[a].flags)
    && (forall a, k :: a in actions && 0 <= k < |actions[a].commands| ==> '\0' !in actions[a].commands[k].text)
  }

  /** What is found for a uri is an action, and quoting keeps a text from becoming empty. */
  ghost predicate Sound(lib: Library, actions: map<nat, Action>) {
    && (forall u :: lib.gather(u).Some? ==>
          var g := lib.gather(u).value; g.found == 0 || g.found in actions)
    && (forall s :: s != "" ==> lib.quote(s) != "")
  }

  function MultipleActions(actions: map<nat, Action>): set<nat> {
    set a | a in actions && Multiple in actions[a].flags
  }

  // ----- Looking up actions -------------------------------------------------------------

  /** The entry that a uri is added as. */
  function NewView(lib: Library, uri: string, idx: int): (v: View)
    ensures |v.texts| == 3
  {
    View(0, [None, None, Some(if "file:/" <= uri then uri else "file:///" + lib.encode(uri))], idx)
  }

  /** A location, if the action's flags ask for it. */
  function LocationText(lib: Library, flags: set<Flag>, need: Flag, text: string): Option<string> {
    if need !in flags then None else Some(if Unquoted in flags then text else lib.quote(text))
  }

  function LocationTexts(lib: Library, flags: set<Flag>, g: Gathered): (texts: seq<Option<string>>)
    ensures |texts| == 3
  {
    [LocationText(lib, flags, NeedPath, g.path),
     LocationText(lib, flags, NeedFilePart, lib.filePart(g.path)),
     LocationText(lib, flags, NeedUri, g.uri)]
  }

  /** The action for a uri: the one given for the whole run or, if there is none, the one
      found; 0 if there is no action or nothing is known about the uri. */
  function ActionFor(lib: Library, given: nat, uri: string): nat {
    match lib.gather(uri)
    case None => 0
    case Some(g) => if given != 0 then given else g.found
  }

  /** An entry after the look-up. */
  function LookedUp(lib: Library, actions: map<nat, Action>, given: nat, v: View): (r: View)
    requires |v.texts| == 3 && v.texts[2].Some?
    requires var a := ActionFor(lib, given, v.texts[2].value); a == 0 || a in actions
    ensures |r.texts| == 3 && r.idx == v.idx
  {
    var a := ActionFor(lib, given, v.texts[2].value);
    if a == 0 then v
    else View(a, LocationTexts(lib, actions[a].flags, lib.gather(v.texts[2].value).value), v.idx)
  }

  /** Entries that no action has been looked up for. */
  ghost predicate Waiting(vs: seq<View>) {
    forall i :: 0 <= i < |vs| ==>
      && vs[i].action == 0 && |vs[i].texts| == 3 && vs[i].texts[0] == vs[i].texts[1] == None
      && vs[i].texts[2].Some?
  }

  function LookedUpAll(lib: Library, actions: map<nat, Action>, given: nat, vs: seq<View>): (r: seq<View>)
    requires Waiting(vs) && Sound(lib, actions) && (given == 0 || given in actions)
    ensures |r| == |vs| && Shaped(r)
  {
    seq(|vs|, i requires 0 <= i < |vs| => LookedUp(lib, actions, given, vs[i]))
  }

  // ----- Needs are met -------------------------------------------------------------------

  /** The entry has every location that the templates of its action need. */
  ghost predicate HasNeeds(actions: map<nat, Action>, v: View) {
    && |v.texts| == 3
    && (v.action != 0 ==>
          && v.action in actions
          && var need := NeedAll(actions[v.action].commands);
          && (NeedPath in need ==> v.texts[0].Some?)
          && (NeedFilePart in need ==> v.texts[1].Some?)
          && (NeedUri in need ==> v.texts[2].Some?))
  }

  ghost predicate AllHaveNeeds(actions: map<nat, Action>, vs: seq<View>) {
    forall i :: 0 <= i < |vs| ==> HasNeeds(actions, vs[i])
  }

  lemma LookupMeetsNeeds(lib: Library, actions: map<nat, Action>, given: nat, vs: seq<View>)
    requires Waiting(vs) && Sound(lib, actions) && ReadyActions(actions) && (given == 0 || given in actions)
    ensures AllHaveNeeds(actions, LookedUpAll(lib, actions, given, vs))
  {
  }

  /** The joined entry has the locations that all entries of its group have. */
  lemma JoinKeepsNeeds(actions: map<nat, Action>, group: seq<View>, multiple: set<nat>)
    requires IsGroup(group, multiple) && Shaped(group) && AllHaveNeeds(actions, group)
    requires |group| > 1 ==> CopiesHaveBuffers(group)
    ensures HasNeeds(actions, JoinGroup(group))
  {
  }

  lemma {:induction false} JoinGroupsKeepNeeds(actions: map<nat, Action>, groups: seq<seq<View>>, multiple: set<nat>)
    requires AllShaped(groups) && AllGroups(groups, multiple) && AllHaveNeeds(actions, Flatten(groups))
    requires forall group :: group in groups && |group| > 1 ==> CopiesHaveBuffers(group)
    ensures AllHaveNeeds(actions, JoinGroups(groups))
  {
    if groups != [] {
      hide HasNeeds, JoinGroup, CopiesHaveBuffers;
      var rest := Flatten(groups[1..]);
      var all := Flatten(groups);
      assert all == groups[0] + rest;
      forall i | 0 <= i < |groups[0]|
        ensures HasNeeds(actions, groups[0][i])
      {
        assert groups[0][i] == all[i];
      }
      forall i | 0 <= i < |rest|
        ensures HasNeeds(actions, rest[i])
      {
        assert rest[i] == all[|groups[0]| + i];
      }
      JoinKeepsNeeds(actions, groups[0], multiple);
      JoinGroupsKeepNeeds(actions, groups[1..], multiple);
    }
  }

  /** Merging keeps every location that a template needs. */
  lemma MergeKeepsNeeds(actions: map<nat, Action>, vs: seq<View>, multiple: set<nat>)
    requires Shaped(vs) && AllHaveNeeds(actions, vs) && MergeIsSafe(vs, multiple)
    ensures AllHaveNeeds(actions, Merged(vs, multiple))
  {
    hide Segments, JoinGroups, AllHaveNeeds, Flatten, CopiesHaveBuffers;
    MergedIs(vs, multiple);
    MergeConserves(vs, multiple);
    JoinGroupsKeepNeeds(actions, Segments(vs, multiple), multiple);
  }

  // ----- Parsing commands ------------------------------------------------------------------

  /** What stays the same while the entries are worked through. */
  datatype Context = Context(
    lib: Library, actions: map<nat, Action>, srcId: Long, dstId: Long, source: Option<string>)

  /** Everything a run relies on: a source if a template mentions it, among others. */
  ghost predicate ReadyContext(c: Context) {
    && ReadyActions(c.actions) && Sound(c.lib, c.actions)
    && (c.source.Some? || forall a, k ::
          a in c.actions && 0 <= k < |c.actions[a].commands| ==>
            SourcePath !in Tokens(c.actions[a].commands[k].text))
  }

  function EnvironmentOf(c: Context, dest: Option<string>): Environment {
    Environment(c.srcId, c.dstId, c.source, dest, c.lib.decodePath)
  }

  function LocationsOf(v: View): Locations
    requires |v.texts| == 3
  {
    Locations(v.texts[0], v.texts[1], v.texts[2])
  }

  ghost predicate NotEmpty(t: Option<string>) {
    t.Some? ==> t.value != ""
  }

  ghost predicate CanExpand(commands: seq<Command>, at: Locations, env: Environment) {
    forall k :: 0 <= k < |commands| ==> AllPresent(Tokens(commands[k].text), at, env)
  }

  lemma NeedOfOne(commands: seq<Command>, k: nat)
    requires k < |commands|
    ensures Need(commands[k].text) <= NeedAll(commands)
  {
  }

  /** Every location that the expansion of an entry's templates reads is there. */
  lemma NeedsCoverExpansion(c: Context, v: View, dest: Option<string>)
    requires ReadyContext(c) && v.action != 0 && HasNeeds(c.actions, v) && NotEmpty(dest)
    ensures CanExpand(c.actions[v.action].commands, LocationsOf(v), EnvironmentOf(c, dest))
  {
    var commands := c.actions[v.action].commands;
    forall k | 0 <= k < |commands|
      ensures AllPresent(Tokens(commands[k].text), LocationsOf(v), EnvironmentOf(c, dest))
    {
      var s := commands[k].text;
      hide Tokens, Need, NeedAll;
      ScanCoversExpansion(s);
      NeedOfOne(commands, k);
      forall i | 0 <= i < |Tokens(s)|
        ensures Present(Tokens(s)[i], LocationsOf(v), EnvironmentOf(c, dest))
      {
        assert Tokens(s)[i] in Tokens(s);
      }
    }
  }

  /** The commands that templates become; none if one of them cannot be expanded. */
  function ParsedCommands(commands: seq<Command>, at: Locations, env: Environment): Option<seq<Command>>
    requires CanExpand(commands, at, env)
  {
    if commands == [] then Some([])
    else
      var last := |commands| - 1;
      match ParsedCommands(commands[..last], at, env)
      case None => None
      case Some(done) =>
        match ExpandTemplate(commands[last].text, at, env)
        case None => None
        case Some(text) => Some(done + [Command(commands[last].kind, text)])
  }

  predicate IsDest(t: Token) {
    t.DestId? || t.DestDrawer? || t.DestPath?
  }

  predicate AsksForDest(commands: seq<Command>) {
    exists k :: 0 <= k < |commands| &&
      exists i :: 0 <= i < |Tokens(commands[k].text)| && IsDest(Tokens(commands[k].text)[i])
  }

  /** The destination that templates of an entry see: the one given or, if there is none,
      what the user selects when asked. */
  function DestFor(c: Context, dest: Option<string>, answer: Option<string>): Option<string> {
    if dest.Some? then dest
    else match answer
      case None => None
      case Some(path) => Some(c.lib.quote(path))
  }

  function DestAfter(c: Context, v: View, dest: Option<string>, answer: Option<string>): Option<string>
    requires v.action == 0 || v.action in c.actions
  {
    if v.action != 0 && AsksForDest(c.actions[v.action].commands) then DestFor(c, dest, answer) else dest
  }

  /** Commands handed over for execution. */
  datatype Job = Job(action: nat, commands: seq<Command>)

  /** The jobs of the entries from number `i` on; `answers(i)` is the selection the user
      makes if asked while that entry is expanded. */
  ghost function Jobs(c: Context, vs: seq<View>, dest: Option<string>, answers: nat -> Option<string>, i: nat): seq<Job>
    requires ReadyContext(c) && AllHaveNeeds(c.actions, vs) && NotEmpty(dest) && NoEmptyAnswers(answers)
    requires i <= |vs|
    decreases |vs| - i
  {
    if i == |vs| then []
    else JobOf(c, vs[i], dest, answers(i)) + Jobs(c, vs, DestAfter(c, vs[i], dest, answers(i)), answers, i + 1)
  }

  ghost predicate NoEmptyAnswers(answers: nat -> Option<string>) {
    forall i :: NotEmpty(answers(i))
  }

  ghost function JobOf(c: Context, v: View, dest: Option<string>, answer: Option<string>): seq<Job>
    requires ReadyContext(c) && HasNeeds(c.actions, v) && NotEmpty(dest) && NotEmpty(answer)
  {
    if v.action == 0 then []
    else
      var env := EnvironmentOf(c, DestFor(c, dest, answer));
      NeedsCoverExpansion(c, v, DestFor(c, dest, answer));
      match ParsedCommands(c.actions[v.action].commands, LocationsOf(v), env)
      case None => []
      case Some(commands) => [Job(v.action, commands)]
  }

  // ----- The sort, on entries without addresses -----------------------------------------------

  ghost predicate Ordered(vs: seq<View>) {
    forall i, j :: 0 <= i < j < |vs| ==>
      vs[i].action < vs[j].action || (vs[i].action == vs[j].action && vs[i].idx <= vs[j].idx)
  }

  lemma {:induction false} InsertKeepsAll(e: Entry, es: seq<Entry>)
    ensures multiset(Views(Insert(e, es))) == multiset{ViewOf(e)} + multiset(Views(es))
    ensures Owned(Insert(e, es)) == OwnedBy(e) + Owned(es)
  {
    hide OwnedBy, ViewOf;
    if es == [] || Compare(e, es[0]) < 0 {
      ViewsCons(e, es);
    } else {
      InsertKeepsAll(e, es[1..]);
      ViewsCons(es[0], Insert(e, es[1..]));
      ViewsCons(es[0], es[1..]);
      assert es == [es[0]] + es[1..];
    }
  }

  lemma ViewsCons(e: Entry, es: seq<Entry>)
    ensures Views([e] + es) == [ViewOf(e)] + Views(es)
    ensures multiset([ViewOf(e)] + Views(es)) == multiset{ViewOf(e)} + multiset(Views(es))
    ensures Owned([e] + es) == OwnedBy(e) + Owned(es)
  {
  }

  lemma {:induction false} SortKeepsAll(es: seq<Entry>)
    ensures multiset(Views(Sort(es))) == multiset(Views(es))
    ensures Owned(Sort(es)) == Owned(es)
  {
    hide OwnedBy, ViewOf, Views, Insert;
    if es != [] {
      SortKeepsAll(es[1..]);
      InsertKeepsAll(es[0], Sort(es[1..]));
      ViewsCons(es[0], es[1..]);
      assert es == [es[0]] + es[1..];
    }
  }

  lemma SortOrders(es: seq<Entry>)
    requires DistinctIndices(es)
    ensures Ordered(Views(Sort(es)))
  {
    SortSorts(es);
    var s := Sort(es);
    forall i, j | 0 <= i < j < |s|
      ensures s[i].action < s[j].action || (s[i].action == s[j].action && s[i].idx <= s[j].idx)
    {
      assert Compare(s[i], s[j]) < 0;
    }
  }

  // ----- The dispatcher ---------------------------------------------------------------------------

  lemma OwnedUpdate(es: seq<Entry>, i: nat, e: Entry)
    requires i < |es|
    ensures Owned(es) == OwnedBy(es[i]) + Owned(es[..i] + es[i + 1..])
    ensures Owned(es[i := e]) == OwnedBy(e) + Owned(es[..i] + es[i + 1..])
  {
    hide OwnedBy, Owned;
    OwnedOne(es[i]);
    OwnedOne(e);
    assert es == es[..i] + [es[i]] + es[i + 1..];
    assert es[i := e] == es[..i] + [e] + es[i + 1..];
    OwnedConcat(es[..i] + [es[i]], es[i + 1..]);
    OwnedConcat(es[..i], [es[i]]);
    OwnedConcat(es[..i] + [e], es[i + 1..]);
    OwnedConcat(es[..i], [e]);
    OwnedConcat(es[..i], es[i + 1..]);
  }

  lemma OwnedOne(e: Entry)
    ensures Owned([e]) == OwnedBy(e)
  {
  }

  /** Entries in the order in which they were added, with indices below `idx`. */
  ghost predicate Numbered(es: seq<Entry>, idx: int) {
    && (forall i :: 0 <= i < |es| ==> es[i].idx < idx)
    && (forall i, j :: 0 <= i < j < |es| ==> es[i].idx < es[j].idx)
  }

  lemma NewEntry(es: seq<Entry>, e: Entry, lib: Library, uri: string, idx: int, frame: multiset<nat>)
    requires Waiting(Views(es)) && Numbered(es, idx) && e.action == 0 && e.idx == idx
    requires e.location[0] == e.location[1] == None && e.location[2].Some?
    requires e.location[2].value.text == if "file:/" <= uri then uri else "file:///" + lib.encode(uri)
    ensures Views(es + [e]) == Views(es) + [NewView(lib, uri, idx)]
    ensures Waiting(Views(es + [e])) && Numbered(es + [e], idx + 1)
    ensures Owned(es) + frame + multiset{e.addr} + multiset{e.location[2].value.addr} == Owned(es + [e]) + frame
  {
    hide Views, ViewOf, Owned, NewView, OwnedBy, Waiting, Numbered;
    NewEntryView(e, lib, uri);
    WaitingSnoc(Views(es), ViewOf(e));
    NumberedSnoc(es, e);
    ViewsSnoc(es, e);
    OwnedSnoc(es, e);
    OwnedByUri(e);
    AddTwo(Owned(es), frame, multiset{e.addr}, multiset{e.location[2].value.addr});
  }

  lemma WaitingSnoc(vs: seq<View>, v: View)
    requires Waiting(vs) && Waiting([v])
    ensures Waiting(vs + [v])
  {
  }

  lemma NumberedSnoc(es: seq<Entry>, e: Entry)
    requires Numbered(es, e.idx)
    ensures Numbered(es + [e], e.idx + 1)
  {
  }

  lemma NewEntryView(e: Entry, lib: Library, uri: string)
    requires e.action == 0 && e.location[0] == e.location[1] == None && e.location[2].Some?
    requires e.location[2].value.text == if "file:/" <= uri then uri else "file:///" + lib.encode(uri)
    ensures ViewOf(e) == NewView(lib, uri, e.idx)
    ensures Waiting([ViewOf(e)])
  {
  }

  lemma ViewsSnoc(es: seq<Entry>, e: Entry)
    ensures Views(es + [e]) == Views(es) + [ViewOf(e)]
  {
  }

  lemma OwnedSnoc(es: seq<Entry>, e: Entry)
    ensures Owned(es + [e]) == Owned(es) + OwnedBy(e)
  {
    hide OwnedBy;
    OwnedConcat(es, [e]);
    OwnedOne(e);
  }

  lemma OwnedByUri(e: Entry)
    requires e.location[0] == e.location[1] == None && e.location[2].Some?
    ensures OwnedBy(e) == multiset{e.addr} + multiset{e.location[2].value.addr}
  {
  }

  lemma AddTwo(a: multiset<nat>, b: multiset<nat>, c: multiset<nat>, d: multiset<nat>)
    ensures a + b + c + d == a + (c + d) + b
  {
  }

  class ActionDispatcher {
    const list: EntryList
    const srcId: Long
    const dstId: Long
    const source: Option<string>
    const given: nat
    var dest: Option<string>
    var sorted: bool
    var idx: int

    /** Between runs: entries wait to be looked up, numbered in the order they were added. */
    ghost predicate Valid(frame: multiset<nat>)
      reads this, list, list.heap
    {
      && list.Owns(frame) && Waiting(Views(list.entries)) && Numbered(list.entries, idx)
      && (list.entries != [] ==> !sorted) && NotEmpty(dest)
    }

    constructor (heap: Heap, srcId: Long, dstId: Long, source: Option<string>, dest: Option<string>, given: nat)
      requires heap.Valid() && NotEmpty(dest)
      ensures Valid(heap.Blocks()) && list.heap == heap && list.entries == [] && fresh(list)
      ensures this.dest == dest && this.source == source && this.given == given
      ensures this.srcId == srcId && this.dstId == dstId
    {
      list := new EntryList(heap);
      this.srcId, this.dstId, this.source, this.dest, this.given := srcId, dstId, source, dest, given;
      sorted, idx := false, 0;
    }

    /** Adds an entry for a uri at the end of the list. */
    method AddUri(lib: Library, uri: string, ghost frame: multiset<nat>)
      requires Valid(frame)
      modifies this`idx, this`sorted, list, list.heap
      ensures Valid(frame)
      ensures Views(list.entries) == old(Views(list.entries)) + [NewView(lib, uri, old(idx))]
    {
      hide Views, ViewOf, Owned, OwnedBy, Heap.Valid, Heap.Blocks, Waiting, Numbered, NewView;
      var addr := list.heap.Allocate();
      var name := list.heap.Allocate();
      var text := if "file:/" <= uri then uri else "file:///" + lib.encode(uri);
      var e: Entry := Entry(addr, 0, [None, None, Some(Str(name, text))], idx);
      NewEntry(list.entries, e, lib, uri, idx, frame);
      list.entries := list.entries + [e];
      idx, sorted := idx + 1, false;
    }

    /** A location string, in a block of its own, if the flags ask for it. */
    method BuildLocation(lib: Library, flags: set<Flag>, need: Flag, text: string) returns (s: Option<Str>)
      requires list.heap.Valid()
      modifies list.heap
      ensures list.heap.Valid() && list.heap.Blocks() == old(list.heap.Blocks()) + OwnedString(s)
      ensures TextOf(s) == LocationText(lib, flags, need, text)
    {
      if need !in flags {
        return None;
      }
      var addr := list.heap.Allocate();
      s := Some(Str(addr, if Unquoted in flags then text else lib.quote(text)));
    }

    /** The entry with the locations that its new action asks for, its uri not freed yet. */
    method BuildLocations(lib: Library, actions: map<nat, Action>, e: Entry, a: nat, g: Gathered) returns (e': Entry)
      requires list.heap.Valid() && a in actions
      modifies list.heap
      ensures list.heap.Valid() && list.heap.Blocks() == old(list.heap.Blocks()) + OwnedStrings(e')
      ensures ViewOf(e') == View(a, LocationTexts(lib, actions[a].flags, g), e.idx) && e'.addr == e.addr
    {
      hide Heap.Valid, Heap.Blocks, OwnedString;
      var flags := actions[a].flags;
      var u := BuildLocation(lib, flags, NeedUri, g.uri);
      var p := BuildLocation(lib, flags, NeedPath, g.path);
      var f := BuildLocation(lib, flags, NeedFilePart, lib.filePart(g.path));
      e' := Entry(e.addr, a, [p, f, u], e.idx);
      assert ViewOf(e').texts == LocationTexts(lib, flags, g);
      AddThree(old(list.heap.Blocks()), OwnedString(u), OwnedString(p), OwnedString(f));
    }

    /** Looks up the action of entry `i` and replaces its uri by the locations the action
        asks for. */
    method Lookup(lib: Library, actions: map<nat, Action>, i: nat, ghost frame: multiset<nat>)
      requires list.Owns(frame) && i < |list.entries| && Waiting([ViewOf(list.entries[i])])
      requires Sound(lib, actions) && (given == 0 || given in actions)
      modifies list, list.heap
      ensures list.Owns(frame) && |list.entries| == |old(list.entries)|
      ensures list.entries == old(list.entries)[i := list.entries[i]]
      ensures ViewOf(list.entries[i]) == LookedUpAll(lib, actions, given, [ViewOf(old(list.entries[i]))])[0]
    {
      hide Heap.Valid, Heap.Blocks, Owned, OwnedBy, OwnedStrings, ViewOf, LocationTexts, Waiting;
      var e := list.entries[i];
      WaitingEntry(e);
      var uri := e.location[2].value;
      var gathered := lib.gather(uri.text);
      if gathered.Some? {
        var g := gathered.value;
        var a := if given != 0 then given else g.found;
        if a != 0 {
          var e' := BuildLocations(lib, actions, e, a, g);
          ReplaceEntry(list.entries, i, e', frame);
          list.entries := list.entries[i := e'];
          list.heap.Free(uri.addr);
        }
      }
    }

    /** Looks up the actions of all entries. The run goes on for `checks` more checks for
        an abort; `done` tells that it was not aborted. */
    method LookupAll(lib: Library, actions: map<nat, Action>, checks: nat, ghost frame: multiset<nat>)
      returns (left: nat, done: bool)
      requires Valid(frame) && Sound(lib, actions) && (given == 0 || given in actions)
      modifies list, list.heap
      ensures list.Owns(frame) && |list.entries| == |old(list.entries)|
      ensures done ==> DistinctIndices(list.entries)
      ensures done ==> Views(list.entries) == LookedUpAll(lib, actions, given, old(Views(list.entries)))
      ensures if done then checks == left + |list.entries| else checks < |list.entries|
    {
      hide Views, ViewOf, Waiting, LookedUpAll, LookedUp, EntryList.Owns, Sound, Numbered, DistinctIndices;
      ghost var es := list.entries;
      WaitingUpTo(lib, actions, given, es);
      var i := 0;
      left := checks;
      while i < |list.entries|
        invariant i <= |list.entries| == |es| && list.entries[i..] == es[i..]
        invariant list.Owns(frame) && checks == left + i
        invariant LookedUpTo(lib, actions, given, es, list.entries, i)
      {
        if left == 0 {
          return 0, false;
        }
        left := left - 1;
        ghost var before := list.entries;
        WaitingAt(es, i);
        assert before[i] == before[i..][0] == es[i];
        Lookup(lib, actions, i, frame);
        NextLookedUp(lib, actions, given, es, before, list.entries, i);
        i := i + 1;
      }
      AllLookedUp(lib, actions, given, es, list.entries, idx);
      done := true;
    }

    method DeleteName(s: Option<Str>, ghost more: multiset<nat>)
      requires list.heap.Valid() && list.heap.Blocks() == OwnedString(s) + more
      modifies list.heap
      ensures list.heap.Valid() && list.heap.Blocks() == more
    {
      if s.Some? {
        list.heap.Free(s.value.addr);
      }
    }

    /** Frees an entry and its strings. */
    method DeleteNode(e: Entry, ghost more: multiset<nat>)
      requires list.heap.Valid() && list.heap.Blocks() == OwnedBy(e) + more
      modifies list.heap
      ensures list.heap.Valid() && list.heap.Blocks() == more
    {
      hide Heap.Valid, Heap.Blocks, OwnedBy, OwnedString;
      OwnedFromFirst(e);
      for l := 0 to 3
        invariant list.heap.Valid() && list.heap.Blocks() == OwnedFrom(e, l) + more
      {
        OwnedFromNext(e, l, more);
        DeleteName(e.location[l], OwnedFrom(e, l + 1) + more);
      }
      FreeLast(e.addr, more);
      list.heap.Free(e.addr);
    }

    /** Expands the templates of an action for one entry. */
    method ParseCommands(commands: seq<Command>, at: Locations, env: Environment) returns (parsed: Option<seq<Command>>)
      requires CanExpand(commands, at, env)
      ensures parsed == ParsedCommands(commands, at, env)
    {
      hide ExpandTemplate;
      var done := [];
      ParsedNone(at, env);
      for k := 0 to |commands|
        invariant ParsedCommands(commands[..k], at, env) == Some(done)
      {
        var text := ExpandCommand(commands[k].text, at, env);
        ParsedNext(commands, k, at, env);
        if text.None? {
          return None;
        }
        done := done + [Command(commands[k].kind, text.value)];
      }
      assert commands[..|commands|] == commands;
      parsed := Some(done);
    }

    /** Runs the commands of one entry. When a template asks for a destination that is not
        set, the user's selection becomes the destination. */
    method RunEntry(c: Context, e: Entry, answer: Option<string>) returns (ran: seq<Job>)
      requires ReadyContext(c) && HasNeeds(c.actions, ViewOf(e)) && NotEmpty(dest) && NotEmpty(answer)
      modifies this`dest
      ensures ran == JobOf(c, ViewOf(e), old(dest), answer)
      ensures dest == DestAfter(c, ViewOf(e), old(dest), answer) && NotEmpty(dest)
    {
      hide CanExpand, ReadyActions, ReadyContext, NeedAll, HasNeeds, ParsedCommands, AsksForDest, IsDest;
      ran := [];
      DestNotEmpty(c, dest, answer);
      if e.action != 0 {
        assert e.action in c.actions by { HasAction(c, ViewOf(e)); }
        var commands := c.actions[e.action].commands;
        NeedsCoverExpansion(c, ViewOf(e), DestFor(c, dest, answer));
        var at := Locations(TextOf(e.location[0]), TextOf(e.location[1]), TextOf(e.location[2]));
        assert at == LocationsOf(ViewOf(e));
        var parsed := ParseCommands(commands, at, EnvironmentOf(c, DestFor(c, dest, answer)));
        if dest.None? && AsksForDest(commands) {
          dest := DestFor(c, dest, answer);
        }
        if parsed.Some? {
          ran := [Job(e.action, parsed.value)];
        }
      }
    }

    /** Runs the entries in order, unless the run has been aborted, and frees all of them. */
    method RunAll(c: Context, answers: nat -> Option<string>, aborted: bool, checks: nat, ghost frame: multiset<nat>)
      returns (ran: seq<Job>)
      requires ReadyContext(c) && NoEmptyAnswers(answers) && NotEmpty(dest) && list.Owns(frame)
      requires !aborted ==> AllHaveNeeds(c.actions, Views(list.entries))
      modifies this`dest, list, list.heap
      ensures list.Owns(frame) && list.entries == [] && NotEmpty(dest)
      ensures aborted ==> ran == []
      ensures !aborted ==>
        var all := Jobs(c, Views(old(list.entries)), old(dest), answers, 0);
        ran <= all && (checks >= |old(list.entries)| ==> ran == all)
    {
      hide Jobs, JobOf, ReadyContext, NoEmptyAnswers, HasNeeds, OwnedBy, Heap.Valid, Heap.Blocks, Views, ViewOf,
        DestAfter, AllHaveNeeds, NotEmpty, JobsRemain;
      ran := [];
      var abort, left := aborted, checks;
      ghost var vs, goal := Views(list.entries), [];
      if !aborted {
        goal := Jobs(c, vs, dest, answers, 0);
        AllRemain(c, vs, dest, answers);
      }
      for i := 0 to |list.entries|
        invariant list.entries == old(list.entries) && NotEmpty(dest)
        invariant list.heap.Valid() && list.heap.Blocks() == Owned(list.entries[i..]) + frame
        invariant ran <= goal && (aborted ==> abort) && (abort ==> aborted || checks < |list.entries|)
        invariant !abort ==> JobsRemain(c, vs, dest, answers, i, ran, goal) && checks == left + i
      {
        if !abort && left == 0 {
          abort := true;
        }
        if !abort {
          left := left - 1;
          EntryAt(c, list.entries, i, answers);
          ran := RunNext(c, list.entries[i], vs, answers, i, ran, goal);
        }
        OwnedStep(list.entries, i, frame);
        DeleteNode(list.entries[i], Owned(list.entries[i + 1..]) + frame);
      }
      if !abort {
        JobsDone(c, vs, dest, answers, ran, goal);
      }
      list.entries := [];
    }

    method RunNext(c: Context, e: Entry, ghost vs: seq<View>, answers: nat -> Option<string>, i: nat,
                   before: seq<Job>, ghost goal: seq<Job>)
      returns (ran: seq<Job>)
      requires i < |vs| && JobsRemain(c, vs, dest, answers, i, before, goal) && vs[i] == ViewOf(e)
      modifies this`dest
      ensures JobsRemain(c, vs, dest, answers, i + 1, ran, goal) && ran <= goal && NotEmpty(dest)
      ensures ran == before + JobOf(c, vs[i], old(dest), answers(i))
    {
      hide Jobs, JobOf, ReadyContext, HasNeeds, ViewOf, DestAfter, NotEmpty;
      JobsStep(c, vs, dest, answers, i, before, goal);
      var more := RunEntry(c, e, answers(i));
      ran := before + more;
    }

    /** A run of the dispatcher: the entries are looked up, sorted, merged, run and freed,
        until the check for an abort number `checks`; from then on they are only freed.
        `order` are the looked-up entries in the order in which they are merged. */
    method Execute(lib: Library, actions: map<nat, Action>, answers: nat -> Option<string>, checks: nat,
                   ghost frame: multiset<nat>)
      returns (ran: seq<Job>, ghost order: seq<View>)
      requires Valid(frame) && (given == 0 || given in actions) && NoEmptyAnswers(answers)
      requires ReadyContext(Context(lib, actions, srcId, dstId, source))
      requires Sound(lib, actions) && RunIsSafe(lib, actions, given, Views(list.entries))
      modifies this`dest, this`sorted, list, list.heap
      ensures Valid(frame) && list.entries == []
      ensures checks >= 3 * |old(list.entries)| || ran != [] ==>
        Arranged(order, LookedUpAll(lib, actions, given, old(Views(list.entries))))
      ensures Shaped(order) && AllHaveNeeds(actions, Merged(order, MultipleActions(actions)))
      ensures var all := Jobs(Context(lib, actions, srcId, dstId, source), Merged(order, MultipleActions(actions)),
                              old(dest), answers, 0);
        ran <= all && (checks >= 3 * |old(list.entries)| ==> ran == all)
    {
      hide Waiting, LookedUpAll, LookedUp, Sound, Numbered, DistinctIndices, Views, ViewOf, Jobs, MergeIsSafe,
        ReadyContext, AllHaveNeeds, Merged, Ordered, NoEmptyAnswers, HasNeeds, Sort, Owned, Heap.Valid, Heap.Blocks;
      var c, multiple := Context(lib, actions, srcId, dstId, source), MultipleActions(actions);
      order := [];
      NothingMerged(c, multiple, dest, answers);
      ContextSound(c);
      LookupMeetsNeeds(lib, actions, given, Views(list.entries));
      ghost var before, looked := |list.entries|, LookedUpAll(lib, actions, given, Views(list.entries));
      var left, done := LookupAll(lib, actions, checks, frame);
      if done {
        if !sorted {
          SortStep(c, list.entries);
          list.entries := Sort(list.entries);
        } else {
          NothingToSort(list.entries);
        }
        sorted := true;
        ghost var arranged := Views(list.entries);
        SortedLength(arranged, looked);
        MergeKeepsNeeds(actions, arranged, multiple);
        left, done := list.MergeAll(multiple, left, frame);
        if done {
          order := arranged;
          MergedLength(arranged, multiple);
        }
      }
      ran := RunAll(c, answers, !done, left, frame);
      NothingWaits(idx);
    }
  }

  /** The looked-up entries in the order in which the sort puts them. */
  ghost predicate Arranged(order: seq<View>, looked: seq<View>) {
    multiset(order) == multiset(looked) && Shaped(order) && Ordered(order)
  }

  /** The merge of a run copies to allocated buffers only. */
  ghost predicate RunIsSafe(lib: Library, actions: map<nat, Action>, given: nat, vs: seq<View>)
    requires Waiting(vs) && Sound(lib, actions) && (given == 0 || given in actions)
  {
    forall order :: Arranged(order, LookedUpAll(lib, actions, given, vs)) ==>
      MergeIsSafe(order, MultipleActions(actions))
  }

  /** Runs are safe when uris, paths and file parts are not empty. */
  lemma NamedRunsAreSafe(lib: Library, actions: map<nat, Action>, given: nat, vs: seq<View>)
    requires Waiting(vs) && Sound(lib, actions) && (given == 0 || given in actions)
    requires forall i :: 0 <= i < |vs| ==> vs[i].texts[2].value != ""
    requires forall u :: lib.gather(u).Some? ==>
      var g := lib.gather(u).value; g.uri != "" && g.path != "" && lib.filePart(g.path) != ""
    ensures RunIsSafe(lib, actions, given, vs)
  {
    hide MergeIsSafe;
    var looked := LookedUpAll(lib, actions, given, vs);
    forall i, l | 0 <= i < |looked| && 0 <= l < 3 && looked[i].texts[l].Some?
      ensures looked[i].texts[l].value != ""
    {
      assert looked[i] == LookedUp(lib, actions, given, vs[i]);
    }
    forall order: seq<View> | Arranged(order, looked)
      ensures MergeIsSafe(order, MultipleActions(actions))
    {
      forall v: View, l | v in order && 0 <= l < 3 && v.texts[l].Some?
        ensures v.texts[l].value != ""
      {
        assert v in multiset(looked);
        assert v in looked;
      }
      NoEmptyStringsAreSafe(order, MultipleActions(actions));
    }
  }

  /** They are not safe for two volumes and an action that takes several file parts at
      once unquoted: the file part of a volume is there and empty. */
  lemma VolumesAreNotSafe(lib: Library, actions: map<nat, Action>, given: nat, vs: seq<View>)
    requires Waiting(vs) && Sound(lib, actions) && given in actions && |vs| == 2 && vs[0].idx < vs[1].idx
    requires given != 0 && {Multiple, Unquoted, NeedFilePart} <= actions[given].flags
    requires forall i :: 0 <= i < 2 ==>
      var g := lib.gather(vs[i].texts[2].value); g.Some? && lib.filePart(g.value.path) == ""
    ensures !RunIsSafe(lib, actions, given, vs)
  {
    var looked := LookedUpAll(lib, actions, given, vs);
    assert looked == [looked[0], looked[1]];
    assert looked[0] == LookedUp(lib, actions, given, vs[0]) && looked[1] == LookedUp(lib, actions, given, vs[1]);
    assert Arranged(looked, looked);
    EmptyStringsAreNotSafe(looked[0], looked[1], MultipleActions(actions));
  }

  lemma SortedLength(order: seq<View>, looked: seq<View>)
    requires multiset(order) == multiset(looked)
    ensures |order| == |looked|
  {
    assert |multiset(order)| == |multiset(looked)|;
  }

  lemma {:induction false} JoinGroupsLength(groups: seq<seq<View>>)
    requires AllShaped(groups)
    ensures |JoinGroups(groups)| <= |Flatten(groups)|
  {
    if groups != [] {
      hide JoinGroup;
      JoinGroupsLength(groups[1..]);
    }
  }

  lemma MergedLength(vs: seq<View>, multiple: set<nat>)
    requires Shaped(vs)
    ensures |Merged(vs, multiple)| <= |vs|
  {
    hide Segments, Flatten, JoinGroups;
    MergedIs(vs, multiple);
    MergeConserves(vs, multiple);
    JoinGroupsLength(Segments(vs, multiple));
  }

  lemma NothingMerged(c: Context, multiple: set<nat>, dest: Option<string>, answers: nat -> Option<string>)
    requires ReadyContext(c) && NotEmpty(dest) && NoEmptyAnswers(answers)
    ensures Shaped([]) && Merged([], multiple) == [] && AllHaveNeeds(c.actions, [])
    ensures Jobs(c, [], dest, answers, 0) == []
  {
    MergedNone(multiple, []);
  }

  lemma NothingToSort(es: seq<Entry>)
    requires |Views(es)| == 0
    ensures Ordered(Views(es))
  {
  }

  lemma NothingWaits(idx: int)
    ensures Waiting(Views([])) && Numbered([], idx)
  {
  }

  lemma ContextSound(c: Context)
    requires ReadyContext(c)
    ensures Sound(c.lib, c.actions) && ReadyActions(c.actions)
  {
  }

  /** What the sort does to looked-up entries. */
  lemma SortStep(c: Context, es: seq<Entry>)
    requires DistinctIndices(es)
    ensures multiset(Views(Sort(es))) == multiset(Views(es)) && Ordered(Views(Sort(es)))
    ensures Owned(Sort(es)) == Owned(es)
    ensures AllHaveNeeds(c.actions, Views(es)) ==> AllHaveNeeds(c.actions, Views(Sort(es)))
  {
    hide Sort, Views, HasNeeds, DistinctIndices, Ordered;
    SortKeepsAll(es);
    SortOrders(es);
    if AllHaveNeeds(c.actions, Views(es)) {
      NeedsOfPermutation(c, Views(es), Views(Sort(es)));
    }
  }

  lemma NeedsOfPermutation(c: Context, vs: seq<View>, ws: seq<View>)
    requires multiset(vs) == multiset(ws) && AllHaveNeeds(c.actions, vs)
    ensures AllHaveNeeds(c.actions, ws)
  {
    hide HasNeeds;
    forall i | 0 <= i < |ws|
      ensures HasNeeds(c.actions, ws[i])
    {
      assert ws[i] in multiset(ws);
      assert ws[i] in vs;
    }
  }

  lemma HasAction(c: Context, v: View)
    requires HasNeeds(c.actions, v) && v.action != 0
    ensures v.action in c.actions
  {
  }

  lemma DestNotEmpty(c: Context, dest: Option<string>, answer: Option<string>)
    requires ReadyContext(c) && NotEmpty(dest) && NotEmpty(answer)
    ensures NotEmpty(DestFor(c, dest, answer))
  {
  }

  lemma ParsedNone(at: Locations, env: Environment)
    ensures CanExpand([], at, env) && ParsedCommands([], at, env) == Some([])
  {
  }

  lemma {:induction false} ParsedNext(commands: seq<Command>, k: nat, at: Locations, env: Environment)
    requires k < |commands| && CanExpand(commands, at, env) && CanExpand(commands[..k], at, env)
    requires ParsedCommands(commands[..k], at, env).Some?
    ensures CanExpand(commands[..k + 1], at, env)
    ensures var text := ExpandTemplate(commands[k].text, at, env);
      var done := ParsedCommands(commands[..k], at, env).value;
      && (text.Some? ==>
            ParsedCommands(commands[..k + 1], at, env) == Some(done + [Command(commands[k].kind, text.value)]))
      && (text.None? ==> ParsedCommands(commands, at, env) == None)
  {
    hide ExpandTemplate;
    assert commands[..k + 1][..k] == commands[..k];
    if ExpandTemplate(commands[k].text, at, env).None? {
      ParsedFails(commands, k + 1, at, env);
    }
  }

  /** Once a template cannot be expanded, the rest does not matter. */
  lemma {:induction false} ParsedFails(commands: seq<Command>, k: nat, at: Locations, env: Environment)
    requires k <= |commands| && CanExpand(commands, at, env) && CanExpand(commands[..k], at, env)
    requires ParsedCommands(commands[..k], at, env) == None
    ensures ParsedCommands(commands, at, env) == None
    decreases |commands|
  {
    if k < |commands| {
      var last := |commands| - 1;
      assert commands[..last][..k] == commands[..k];
      ParsedFails(commands[..last], k, at, env);
    } else {
      assert commands[..k] == commands;
    }
  }

  lemma EntryAt(c: Context, es: seq<Entry>, i: nat, answers: nat -> Option<string>)
    requires i < |es| && AllHaveNeeds(c.actions, Views(es)) && NoEmptyAnswers(answers)
    ensures Views(es)[i] == ViewOf(es[i]) && HasNeeds(c.actions, ViewOf(es[i])) && NotEmpty(answers(i))
  {
  }

  lemma EnsureNeeds(c: Context, vs: seq<View>, i: nat, answers: nat -> Option<string>)
    requires i < |vs| && AllHaveNeeds(c.actions, vs) && NoEmptyAnswers(answers)
    ensures HasNeeds(c.actions, vs[i]) && (vs[i].action == 0 || vs[i].action in c.actions) && NotEmpty(answers(i))
  {
  }

  /** The jobs up to entry `i` have been run: `goal` are these and the ones from there on. */
  ghost predicate JobsRemain(c: Context, vs: seq<View>, dest: Option<string>, answers: nat -> Option<string>, i: nat,
                            ran: seq<Job>, goal: seq<Job>) {
    && ReadyContext(c) && AllHaveNeeds(c.actions, vs) && NotEmpty(dest) && NoEmptyAnswers(answers) && i <= |vs|
    && goal == ran + Jobs(c, vs, dest, answers, i)
  }

  lemma AllRemain(c: Context, vs: seq<View>, dest: Option<string>, answers: nat -> Option<string>)
    requires ReadyContext(c) && AllHaveNeeds(c.actions, vs) && NotEmpty(dest) && NoEmptyAnswers(answers)
    ensures JobsRemain(c, vs, dest, answers, 0, [], Jobs(c, vs, dest, answers, 0))
  {
  }

  lemma JobsStep(c: Context, vs: seq<View>, dest: Option<string>, answers: nat -> Option<string>, i: nat,
                 ran: seq<Job>, goal: seq<Job>)
    requires i < |vs| && JobsRemain(c, vs, dest, answers, i, ran, goal)
    ensures ReadyContext(c) && NotEmpty(dest) && NotEmpty(answers(i)) && HasNeeds(c.actions, vs[i])
    ensures vs[i].action == 0 || vs[i].action in c.actions
    ensures var more := ran + JobOf(c, vs[i], dest, answers(i));
      JobsRemain(c, vs, DestAfter(c, vs[i], dest, answers(i)), answers, i + 1, more, goal) && more <= goal
  {
    hide JobOf, ReadyContext, HasNeeds, AsksForDest, NoEmptyAnswers, NotEmpty;
    EnsureNeeds(c, vs, i, answers);
    DestNotEmpty(c, dest, answers(i));
    Assoc(ran, JobOf(c, vs[i], dest, answers(i)), Jobs(c, vs, DestAfter(c, vs[i], dest, answers(i)), answers, i + 1));
  }

  lemma JobsDone(c: Context, vs: seq<View>, dest: Option<string>, answers: nat -> Option<string>,
                 ran: seq<Job>, goal: seq<Job>)
    requires JobsRemain(c, vs, dest, answers, |vs|, ran, goal)
    ensures ran == goal
  {
  }

  lemma OwnedStep(es: seq<Entry>, i: nat, frame: multiset<nat>)
    requires i < |es|
    ensures Owned(es[i..]) + frame == OwnedBy(es[i]) + (Owned(es[i + 1..]) + frame)
    ensures Owned([]) == multiset{}
  {
  }

  /** What is left of an entry when its strings before location `l` are freed. */
  ghost function OwnedFrom(e: Entry, l: nat): multiset<nat>
    requires l <= 3
    decreases 3 - l
  {
    if l == 3 then multiset{e.addr} else OwnedString(e.location[l]) + OwnedFrom(e, l + 1)
  }

  lemma OwnedFromFirst(e: Entry)
    ensures OwnedFrom(e, 0) == OwnedBy(e)
  {
  }

  lemma OwnedFromNext(e: Entry, l: nat, more: multiset<nat>)
    requires l < 3
    ensures OwnedFrom(e, l) + more == OwnedString(e.location[l]) + (OwnedFrom(e, l + 1) + more)
    ensures OwnedFrom(e, 3) == multiset{e.addr}
  {
  }

  lemma FreeLast(addr: nat, more: multiset<nat>)
    ensures addr in multiset{addr} + more && (multiset{addr} + more) - multiset{addr} == more
  {
  }

  /** The entries before number `i` are looked up. */
  ghost predicate LookedUpTo(lib: Library, actions: map<nat, Action>, given: nat, es: seq<Entry>,
                             now: seq<Entry>, i: nat)
    requires Waiting(Views(es)) && Sound(lib, actions) && (given == 0 || given in actions)
    requires i <= |es| == |now|
  {
    Views(now)[..i] == LookedUpAll(lib, actions, given, Views(es))[..i]
  }

  lemma WaitingUpTo(lib: Library, actions: map<nat, Action>, given: nat, es: seq<Entry>)
    requires Waiting(Views(es)) && Sound(lib, actions) && (given == 0 || given in actions)
    ensures LookedUpTo(lib, actions, given, es, es, 0)
  {
  }

  lemma WaitingAt(es: seq<Entry>, i: nat)
    requires Waiting(Views(es)) && i < |es|
    ensures Waiting([ViewOf(es[i])])
  {
    assert Views(es)[i] == ViewOf(es[i]);
  }

  lemma NextLookedUp(lib: Library, actions: map<nat, Action>, given: nat, es: seq<Entry>,
                     before: seq<Entry>, now: seq<Entry>, i: nat)
    requires Waiting(Views(es)) && Sound(lib, actions) && (given == 0 || given in actions)
    requires i < |es| == |before| == |now| && LookedUpTo(lib, actions, given, es, before, i)
    requires now == before[i := now[i]] && Waiting([ViewOf(es[i])])
    requires ViewOf(now[i]) == LookedUpAll(lib, actions, given, [ViewOf(es[i])])[0]
    ensures LookedUpTo(lib, actions, given, es, now, i + 1)
  {
  }

  lemma AllLookedUp(lib: Library, actions: map<nat, Action>, given: nat, es: seq<Entry>, now: seq<Entry>, idx: int)
    requires Waiting(Views(es)) && Sound(lib, actions) && (given == 0 || given in actions)
    requires |now| == |es| && LookedUpTo(lib, actions, given, es, now, |es|) && Numbered(es, idx)
    ensures Views(now) == LookedUpAll(lib, actions, given, Views(es))
    ensures DistinctIndices(now)
  {
    var all := LookedUpAll(lib, actions, given, Views(es));
    assert Views(now)[..|es|] == Views(now) && all[..|es|] == all;
    forall i | 0 <= i < |es|
      ensures now[i].idx == es[i].idx
    {
      assert Views(now)[i].idx == all[i].idx == Views(es)[i].idx;
    }
  }

  lemma AddThree(m: multiset<nat>, u: multiset<nat>, p: multiset<nat>, f: multiset<nat>)
    ensures m + u + p + f == m + (p + f + u)
  {
  }

  lemma WaitingEntry(e: Entry)
    requires Waiting([ViewOf(e)])
    ensures e.action == 0 && e.location[0] == e.location[1] == None && e.location[2].Some?
    ensures ViewOf(e).texts[2] == Some(e.location[2].value.text) && ViewOf(e).idx == e.idx
  {
    var v := [ViewOf(e)][0];
    assert v.texts[0] == TextOf(e.location[0]) && v.texts[1] == TextOf(e.location[1]);
    assert v.texts[2] == TextOf(e.location[2]) && v.action == e.action;
  }

  /** The account when an entry's uri gives way to new strings. */
  lemma ReplaceEntry(es: seq<Entry>, i: nat, e: Entry, frame: multiset<nat>)
    requires i < |es| && Waiting([ViewOf(es[i])]) && e.addr == es[i].addr
    ensures es[i].location[2].Some?
    ensures var uri := es[i].location[2].value.addr;
      && uri in Owned(es)
      && Owned(es) + frame + OwnedStrings(e) - multiset{uri} == Owned(es[i := e]) + frame
  {
    hide Owned, OwnedStrings, Waiting;
    WaitingEntry(es[i]);
    OwnedByUri(es[i]);
    OwnedUpdate(es, i, e);
    var uri := es[i].location[2].value.addr;
    Swap(multiset{e.addr}, multiset{uri}, OwnedStrings(e), Owned(es[..i] + es[i + 1..]), frame);
    assert uri in multiset{e.addr} + multiset{uri};
  }

  lemma Swap(a: multiset<nat>, u: multiset<nat>, s: multiset<nat>, r: multiset<nat>, f: multiset<nat>)
    ensures ((a + u) + r) + f + s - u == ((a + s) + r) + f
  {
  }

  // ----- What a run does with the uris -----------------------------------------------------------

  /** Only a missing destination keeps a template from being expanded. */
  lemma {:induction false} ExpandSucceeds(ts: seq<Token>, at: Locations, env: Environment)
    requires AllPresent(ts, at, env) && env.dest.Some?
    ensures Expand(ts, at, env).Some?
  {
    if ts != [] {
      ExpandSucceeds(ts[1..], at, env);
    }
  }

  lemma {:induction false} ParseSucceeds(commands: seq<Command>, at: Locations, env: Environment)
    requires CanExpand(commands, at, env) && env.dest.Some?
    ensures ParsedCommands(commands, at, env).Some?
  {
    if commands != [] {
      var last := |commands| - 1;
      ParseSucceeds(commands[..last], at, env);
      ExpandSucceeds(Tokens(commands[last].text), at, env);
    }
  }

  function JobActions(jobs: seq<Job>): seq<nat> {
    seq(|jobs|, i requires 0 <= i < |jobs| => jobs[i].action)
  }

  /** The actions of the entries that have one, from number `i` on. */
  function ActionsFrom(vs: seq<View>, i: nat): seq<nat>
    requires i <= |vs|
    decreases |vs| - i
  {
    if i == |vs| then []
    else (if vs[i].action == 0 then [] else [vs[i].action]) + ActionsFrom(vs, i + 1)
  }

  /** With a destination, every entry that has an action runs, once and in order. */
  lemma {:induction false} EveryEntryRuns(c: Context, vs: seq<View>, dest: Option<string>,
                                          answers: nat -> Option<string>, i: nat)
    requires ReadyContext(c) && AllHaveNeeds(c.actions, vs) && NotEmpty(dest) && NoEmptyAnswers(answers)
    requires dest.Some? && i <= |vs|
    ensures JobActions(Jobs(c, vs, dest, answers, i)) == ActionsFrom(vs, i)
    decreases |vs| - i
  {
    hide ReadyContext, HasNeeds, AsksForDest, ParsedCommands, CanExpand;
    if i < |vs| {
      EnsureNeeds(c, vs, i, answers);
      EveryEntryRuns(c, vs, dest, answers, i + 1);
      if vs[i].action != 0 {
        NeedsCoverExpansion(c, vs[i], dest);
        ParseSucceeds(c.actions[vs[i].action].commands, LocationsOf(vs[i]), EnvironmentOf(c, dest));
      }
      assert |JobOf(c, vs[i], dest, answers(i))| == if vs[i].action == 0 then 0 else 1;
    }
  }

  /** No uri is lost or run twice: the jobs' entries, split into the entries they were
      merged from, are the looked-up entries; with a destination each of them that has an
      action runs. */
  lemma EveryUriRunsOnce(c: Context, order: seq<View>, dest: Option<string>, answers: nat -> Option<string>)
    requires ReadyContext(c) && Shaped(order) && AllHaveNeeds(c.actions, order)
    requires MergeIsSafe(order, MultipleActions(c.actions)) && NotEmpty(dest) && NoEmptyAnswers(answers)
    ensures var multiple := MultipleActions(c.actions);
      var groups := Segments(order, multiple);
      && Flatten(groups) == order && AllGroups(groups, multiple) && AllShaped(groups)
      && AllHaveNeeds(c.actions, JoinGroups(groups))
      && (dest.Some? ==>
            JobActions(Jobs(c, JoinGroups(groups), dest, answers, 0)) == ActionsFrom(JoinGroups(groups), 0))
  {
    hide Segments, Flatten, AllGroups, JoinGroups, Jobs, AllHaveNeeds, ActionsFrom;
    var multiple := MultipleActions(c.actions);
    MergedIs(order, multiple);
    MergeConserves(order, multiple);
    MergeKeepsNeeds(c.actions, order, multiple);
    if dest.Some? {
      EveryEntryRuns(c, Merged(order, multiple), dest, answers, 0);
    }
  }
}
