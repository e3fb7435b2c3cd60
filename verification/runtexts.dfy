/** What a run of the dispatcher hands over: the texts of its jobs, from the uris that were
    added. */
module RunTexts {
  import opened Actions
  import opened Dispatchers
  import opened EntryLists
  import opened Expansions
  import opened MergePass
  import opened Options
  import opened Sequences
  import opened Templates
  import opened Text

  // ----- The uris -----------------------------------------------------------------------

  /** A uri as it is looked up: a plain path is encoded. */
  function Address(lib: Library, uri: string): string {
    if "file:/" <= uri then uri else "file:///" + lib.encode(uri)
  }

  /** The entries of the uris that have been added, in the order in which they were. */
  ghost predicate AddedFor(lib: Library, vs: seq<View>, uris: seq<string>) {
    && |vs| == |uris|
    && (forall i :: 0 <= i < |vs| ==> vs[i] == View(0, [None, None, Some(Address(lib, uris[i]))], vs[i].idx))
    && (forall i, j :: 0 <= i < j < |vs| ==> vs[i].idx < vs[j].idx)
  }

  lemma AddOne(lib: Library, vs: seq<View>, uris: seq<string>, uri: string, idx: int)
    requires AddedFor(lib, vs, uris) && forall i :: 0 <= i < |vs| ==> vs[i].idx < idx
    ensures AddedFor(lib, vs + [NewView(lib, uri, idx)], uris + [uri])
  {
  }

  /** A location as it is handed over. */
  function Shown(lib: Library, flags: set<Flag>, text: string): string {
    if Unquoted in flags then text else lib.quote(text)
  }

  function Paths(lib: Library, flags: set<Flag>, gs: seq<Gathered>): seq<string> {
    seq(|gs|, i requires 0 <= i < |gs| => Shown(lib, flags, gs[i].path))
  }

  function FileParts(lib: Library, flags: set<Flag>, gs: seq<Gathered>): seq<string> {
    seq(|gs|, i requires 0 <= i < |gs| => Shown(lib, flags, lib.filePart(gs[i].path)))
  }

  function Uris(lib: Library, flags: set<Flag>, gs: seq<Gathered>): seq<string> {
    seq(|gs|, i requires 0 <= i < |gs| => Shown(lib, flags, gs[i].uri))
  }

  /** `gs` is what is known about the uris numbered `us`, for all of which the action is
      `a`: the one given for the run or else the one found. */
  ghost predicate Gives(lib: Library, given: nat, uris: seq<string>, us: seq<nat>, gs: seq<Gathered>, a: nat) {
    && |us| == |gs|
    && (forall i :: 0 <= i < |us| ==> us[i] < |uris|)
    && (forall i :: 0 <= i < |us| ==> lib.gather(Address(lib, uris[us[i]])) == Some(gs[i]))
    && (forall i :: 0 <= i < |us| ==> a == if given != 0 then given else gs[i].found)
  }

  ghost predicate Increasing(us: seq<nat>) {
    forall i, j :: 0 <= i < j < |us| ==> us[i] < us[j]
  }

  /** What a template becomes for uris of which `gs` is known. */
  ghost predicate TextIs(c: Context, flags: set<Flag>, gs: seq<Gathered>, dest: Option<string>, template: string,
                         text: string) {
    forall a, b :: IsText(a) && IsText(b) ==> TextBetween(c, flags, gs, dest, template, text, a, b)
  }

  /** The text for a template with one placeholder between `a` and `b`. */
  ghost predicate TextBetween(c: Context, flags: set<Flag>, gs: seq<Gathered>, dest: Option<string>, template: string,
                              text: string, a: string, b: string) {
    var uri := Join(Uris(c.lib, flags, gs));
    var isFile := "file:/" <= uri || ("\"file:/" <= uri && uri[|uri| - 1] == '"');
    && (template == a + "%sp" + b ==> text == a + Join(Paths(c.lib, flags, gs)) + b)
    && (template == a + "%sf" + b ==> text == a + Join(FileParts(c.lib, flags, gs)) + b)
    && (template == a + "%s" + b && (b == "" || (b[0] != 'p' && b[0] != 'f')) ==>
          text == a + (if isFile then uri else c.lib.decodePath(uri)) + b)
    && (template == a + "%D" + b && (b == "" || (b[0] != 'i' && b[0] != 'p')) ==>
          dest.Some? && text == a + dest.value + b)
  }

  /** A job is the action's commands, one for each of its templates. */
  ghost predicate JobIs(c: Context, a: nat, gs: seq<Gathered>, dest: Option<string>, job: Job) {
    && a in c.actions && job.action == a
    && var commands := c.actions[a].commands;
    && |job.commands| == |commands|
    && forall k :: 0 <= k < |commands| ==>
         && job.commands[k].kind == commands[k].kind
         && TextIs(c, c.actions[a].flags, gs, dest, commands[k].text, job.commands[k].text)
  }

  // ----- From a uri to its entry --------------------------------------------------------------

  /** What the look-up leaves in the entry of one uri. */
  ghost predicate EntryIs(lib: Library, actions: map<nat, Action>, g: Gathered, a: nat, v: View) {
    && a in actions && v.action == a && |v.texts| == 3
    && var flags := actions[a].flags;
    && v.texts[0] == (if NeedPath in flags then Some(Shown(lib, flags, g.path)) else None)
    && v.texts[1] == (if NeedFilePart in flags then Some(Shown(lib, flags, lib.filePart(g.path))) else None)
    && v.texts[2] == (if NeedUri in flags then Some(Shown(lib, flags, g.uri)) else None)
  }

  lemma LookedUpIs(lib: Library, actions: map<nat, Action>, given: nat, vs: seq<View>, uris: seq<string>, u: nat)
    requires Sound(lib, actions) && (given == 0 || given in actions) && AddedFor(lib, vs, uris) && u < |uris|
    ensures Waiting(vs)
    ensures var v, found := LookedUpAll(lib, actions, given, vs)[u], lib.gather(Address(lib, uris[u]));
      && v.idx == vs[u].idx
      && if found.Some? && (given != 0 || found.value.found != 0) then
           EntryIs(lib, actions, found.value, if given != 0 then given else found.value.found, v)
         else v.action == 0
  {
    assert LookedUpAll(lib, actions, given, vs)[u] == LookedUp(lib, actions, given, vs[u]);
  }

  /** Where the entries of a group come from. */
  lemma {:induction false} OriginsOf(c: Context, given: nat, vs: seq<View>, uris: seq<string>, group: seq<View>, a: nat)
    returns (us: seq<nat>, gs: seq<Gathered>)
    requires Sound(c.lib, c.actions) && (given == 0 || given in c.actions) && AddedFor(c.lib, vs, uris) && Waiting(vs)
    requires a != 0 && forall v :: v in group ==>
      v.action == a && v in LookedUpAll(c.lib, c.actions, given, vs)
    ensures Gives(c.lib, given, uris, us, gs, a) && |us| == |group|
    ensures forall i :: 0 <= i < |group| ==> EntryIs(c.lib, c.actions, gs[i], a, group[i])
    ensures forall i :: 0 <= i < |group| ==> group[i].idx == vs[us[i]].idx
  {
    hide EntryIs, LookedUpAll, Sound, Waiting;
    us, gs := [], [];
    if group != [] {
      var last := |group| - 1;
      us, gs := OriginsOf(c, given, vs, uris, group[..last], a);
      var looked := LookedUpAll(c.lib, c.actions, given, vs);
      assert group[last] in looked;
      var u :| 0 <= u < |looked| && looked[u] == group[last];
      LookedUpIs(c.lib, c.actions, given, vs, uris, u);
      us, gs := us + [u], gs + [c.lib.gather(Address(c.lib, uris[u])).value];
    }
  }

  // ----- The entry of a group -----------------------------------------------------------------

  lemma JoinedLocation(group: seq<View>, l: nat, ts: seq<string>)
    requires group != [] && Shaped(group) && l < 3 && |ts| == |group|
    requires forall i :: 0 <= i < |group| ==> group[i].texts[l] == Some(ts[i])
    requires |group| > 1 ==> CopiesHaveBuffers(group)
    ensures JoinGroup(group).texts[l] == Some(Join(ts))
  {
    hide Join;
    if |group| == 1 {
      assert ts == [ts[0]];
      JoinOne(ts[0]);
    } else {
      JoinedIsJoin(group, l, |group|);
      assert TextsAt(group, l) == ts && ts[..|group|] == ts && Join(ts) + "" == Join(ts);
      assert group[0].texts[l].Some?;
    }
  }

  lemma AbsentLocation(group: seq<View>, l: nat)
    requires group != [] && Shaped(group) && l < 3
    requires forall i :: 0 <= i < |group| ==> group[i].texts[l] == None
    ensures JoinGroup(group).texts[l] == None
  {
    if |group| > 1 {
      LengthOfText(group, l, |group|);
    }
  }

  lemma JoinOne(t: string)
    ensures Join([t]) == t
  {
  }

  /** The entry of a group has the locations of its uris, separated by spaces. */
  ghost predicate GroupIs(c: Context, gs: seq<Gathered>, a: nat, v: View) {
    && a in c.actions && v.action == a && |v.texts| == 3
    && var flags := c.actions[a].flags;
    && v.texts[0] == (if NeedPath in flags then Some(Join(Paths(c.lib, flags, gs))) else None)
    && v.texts[1] == (if NeedFilePart in flags then Some(Join(FileParts(c.lib, flags, gs))) else None)
    && v.texts[2] == (if NeedUri in flags then Some(Join(Uris(c.lib, flags, gs))) else None)
  }

  lemma JoinedEntry(c: Context, gs: seq<Gathered>, a: nat, group: seq<View>)
    requires group != [] && Shaped(group) && |gs| == |group|
    requires forall i :: 0 <= i < |group| ==> EntryIs(c.lib, c.actions, gs[i], a, group[i])
    requires |group| > 1 ==> CopiesHaveBuffers(group)
    ensures GroupIs(c, gs, a, JoinGroup(group))
  {
    hide CopiesHaveBuffers, Join, JoinGroup;
    assert EntryIs(c.lib, c.actions, gs[0], a, group[0]);
    JoinedAction(group);
    var flags := c.actions[a].flags;
    if NeedPath in flags {
      JoinedLocation(group, 0, Paths(c.lib, flags, gs));
    } else {
      AbsentLocation(group, 0);
    }
    if NeedFilePart in flags {
      JoinedLocation(group, 1, FileParts(c.lib, flags, gs));
    } else {
      AbsentLocation(group, 1);
    }
    if NeedUri in flags {
      JoinedLocation(group, 2, Uris(c.lib, flags, gs));
    } else {
      AbsentLocation(group, 2);
    }
  }

  lemma JoinedAction(group: seq<View>)
    requires group != [] && Shaped(group)
    ensures JoinGroup(group).action == group[0].action && |JoinGroup(group).texts| == 3
  {
  }

  // ----- The texts of its commands -----------------------------------------------------------------

  lemma HasPlaceholder(a: string, p: string, b: string, t: Token)
    requires IsText(a) && IsText(b) && p != "" && p[0] == '%' && FirstToken(p + b) == (t, |p|)
    ensures t in Tokens(a + p + b)
  {
    var rest := p + b;
    assert a + p + b == a + rest && (a + rest)[|a|] == '%';
    NoPercentsBefore(a + rest, |a|);
    StartIffEven(a + rest, |a|);
    TokensSum(a, rest);
    TokensCons(rest);
  }

  /** The flag of a placeholder in a template is among those of its action. */
  lemma FlagAsked(c: Context, act: nat, k: nat, a: string, p: string, b: string, t: Token)
    requires ReadyContext(c) && act in c.actions && k < |c.actions[act].commands|
    requires c.actions[act].commands[k].text == a + p + b && IsText(a) && IsText(b)
    requires p != "" && p[0] == '%' && FirstToken(p + b) == (t, |p|) && FlagOf(t).Some?
    ensures FlagOf(t).value in c.actions[act].flags
  {
    hide Tokens, FirstToken, Need, NeedAll;
    HasPlaceholder(a, p, b, t);
    ScanCoversExpansion(a + p + b);
    NeedOfOne(c.actions[act].commands, k);
  }

  lemma TextBetweenIs(c: Context, gs: seq<Gathered>, act: nat, v: View, dest: Option<string>, k: nat, text: string,
                      a: string, b: string)
    requires ReadyContext(c) && GroupIs(c, gs, act, v) && NotEmpty(dest) && IsText(a) && IsText(b)
    requires k < |c.actions[act].commands| && CStrings(LocationsOf(v), EnvironmentOf(c, dest))
    requires var template := c.actions[act].commands[k].text;
      && AllPresent(Tokens(template), LocationsOf(v), EnvironmentOf(c, dest))
      && ExpandTemplate(template, LocationsOf(v), EnvironmentOf(c, dest)) == Some(text)
    ensures TextBetween(c, c.actions[act].flags, gs, dest, c.actions[act].commands[k].text, text, a, b)
  {
    hide ExpandTemplate, Tokens, CStrings, ReadyContext, AllPresent, Join;
    var template, at, env := c.actions[act].commands[k].text, LocationsOf(v), EnvironmentOf(c, dest);
    if template == a + "%sp" + b {
      FlagAsked(c, act, k, a, "%sp", b, EntryPath);
      EntryTexts(a, b, at, env);
    }
    if template == a + "%sf" + b {
      FlagAsked(c, act, k, a, "%sf", b, EntryFilePart);
      EntryTexts(a, b, at, env);
    }
    if template == a + "%s" + b && (b == "" || (b[0] != 'p' && b[0] != 'f')) {
      FlagAsked(c, act, k, a, "%s", b, EntryUri);
      UriText(a, b, at, env);
    }
    if template == a + "%D" + b && (b == "" || (b[0] != 'i' && b[0] != 'p')) {
      PathTexts(a, b, at, env);
    }
  }

  lemma {:induction false} ParsedAt(commands: seq<Command>, at: Locations, env: Environment, k: nat)
    requires CanExpand(commands, at, env) && k < |commands| && ParsedCommands(commands, at, env).Some?
    ensures var done := ParsedCommands(commands, at, env).value;
      && |done| == |commands| && done[k].kind == commands[k].kind
      && ExpandTemplate(commands[k].text, at, env) == Some(done[k].text)
  {
    hide ExpandTemplate;
    if k < |commands| - 1 {
      ParsedAt(commands[..|commands| - 1], at, env, k);
    } else {
      ParsedLength(commands[..k], at, env);
    }
  }

  lemma {:induction false} ParsedLength(commands: seq<Command>, at: Locations, env: Environment)
    requires CanExpand(commands, at, env) && ParsedCommands(commands, at, env).Some?
    ensures |ParsedCommands(commands, at, env).value| == |commands|
  {
    hide ExpandTemplate;
    if commands != [] {
      ParsedLength(commands[..|commands| - 1], at, env);
    }
  }

  /** The job of the entry of a group has the texts that its uris and templates ask for. */
  lemma JobTexts(c: Context, gs: seq<Gathered>, act: nat, v: View, dest: Option<string>, answer: Option<string>)
    requires ReadyContext(c) && GroupIs(c, gs, act, v) && act != 0 && HasNeeds(c.actions, v)
    requires NotEmpty(dest) && NotEmpty(answer)
    requires CStrings(LocationsOf(v), EnvironmentOf(c, DestFor(c, dest, answer)))
    ensures forall job :: job in JobOf(c, v, dest, answer) ==> JobIs(c, act, gs, DestFor(c, dest, answer), job)
  {
    hide ReadyContext, GroupIs, HasNeeds, CStrings, TextBetween;
    DestNotEmpty(c, dest, answer);
    assert v.action == act && act in c.actions && |v.texts| == 3 by { HasActionOf(c, gs, act, v); }
    NeedsCoverExpansion(c, v, DestFor(c, dest, answer));
    var d := DestFor(c, dest, answer);
    var commands, at, env := c.actions[act].commands, LocationsOf(v), EnvironmentOf(c, d);
    forall job | job in JobOf(c, v, dest, answer)
      ensures JobIs(c, act, gs, d, job)
    {
      var done := ParsedCommands(commands, at, env).value;
      assert job == Job(act, done);
      ParsedLength(commands, at, env);
      forall k | 0 <= k < |commands|
        ensures job.commands[k].kind == commands[k].kind
        ensures TextIs(c, c.actions[act].flags, gs, d, commands[k].text, job.commands[k].text)
      {
        ParsedAt(commands, at, env, k);
        forall a, b | IsText(a) && IsText(b)
          ensures TextBetween(c, c.actions[act].flags, gs, d, commands[k].text, done[k].text, a, b)
        {
          TextBetweenIs(c, gs, act, v, d, k, done[k].text, a, b);
        }
      }
    }
  }

  lemma HasActionOf(c: Context, gs: seq<Gathered>, act: nat, v: View)
    requires GroupIs(c, gs, act, v)
    ensures v.action == act && act in c.actions && |v.texts| == 3
  {
  }

  // ----- From entries to the jobs of a run -----------------------------------------------------------

  /** Nothing that a text is made of contains a terminator. */
  ghost predicate CleanContext(c: Context) {
    && (forall uri :: c.lib.gather(uri).Some? ==>
          '\0' !in c.lib.gather(uri).value.path && '\0' !in c.lib.gather(uri).value.uri)
    && (forall s :: '\0' !in s ==> '\0' !in c.lib.quote(s))
    && (forall s :: '\0' !in s ==> '\0' !in c.lib.filePart(s))
    && (forall s :: '\0' !in c.lib.decodePath(s))
    && (c.source.Some? ==> '\0' !in c.source.value)
  }

  ghost predicate IsClean(t: Option<string>) {
    t.Some? ==> '\0' !in t.value
  }

  lemma {:induction false} JoinClean(ts: seq<string>)
    requires forall i :: 0 <= i < |ts| ==> '\0' !in ts[i]
    ensures '\0' !in Join(ts)
  {
    if |ts| > 1 {
      JoinClean(ts[1..]);
    }
  }

  lemma GroupClean(c: Context, given: nat, uris: seq<string>, us: seq<nat>, gs: seq<Gathered>, a: nat, v: View,
                   dest: Option<string>)
    requires CleanContext(c) && Gives(c.lib, given, uris, us, gs, a) && GroupIs(c, gs, a, v) && IsClean(dest)
    ensures CStrings(LocationsOf(v), EnvironmentOf(c, dest))
  {
    hide Join;
    var flags := c.actions[a].flags;
    forall i | 0 <= i < |gs|
      ensures '\0' !in gs[i].path && '\0' !in gs[i].uri
    {
      assert c.lib.gather(Address(c.lib, uris[us[i]])) == Some(gs[i]);
    }
    JoinClean(Paths(c.lib, flags, gs));
    JoinClean(FileParts(c.lib, flags, gs));
    JoinClean(Uris(c.lib, flags, gs));
  }

  /** The destination that is set before entry `k`. */
  ghost function DestBefore(c: Context, vs: seq<View>, dest: Option<string>, answers: nat -> Option<string>, k: nat)
    : Option<string>
    requires k <= |vs| && forall i :: 0 <= i < |vs| ==> vs[i].action == 0 || vs[i].action in c.actions
  {
    if k == 0 then dest
    else DestAfter(c, vs[k - 1], DestBefore(c, vs, dest, answers, k - 1), answers(k - 1))
  }

  lemma {:induction false} DestBeforeOk(c: Context, vs: seq<View>, dest: Option<string>,
                                        answers: nat -> Option<string>, k: nat)
    requires ReadyContext(c) && AllHaveNeeds(c.actions, vs) && NotEmpty(dest) && NoEmptyAnswers(answers) && k <= |vs|
    ensures forall i :: 0 <= i < |vs| ==> vs[i].action == 0 || vs[i].action in c.actions
    ensures NotEmpty(DestBefore(c, vs, dest, answers, k))
  {
    hide ReadyContext, HasNeeds;
    forall i | 0 <= i < |vs|
      ensures vs[i].action == 0 || vs[i].action in c.actions
    {
      EnsureNeeds(c, vs, i, answers);
    }
    if k > 0 {
      DestBeforeOk(c, vs, dest, answers, k - 1);
      EnsureNeeds(c, vs, k - 1, answers);
      DestNotEmpty(c, DestBefore(c, vs, dest, answers, k - 1), answers(k - 1));
    }
  }

  /** Every job from entry `i` on is the job of some entry, with the destination set then. */
  lemma {:induction false} JobFrom(c: Context, vs: seq<View>, dest: Option<string>, answers: nat -> Option<string>,
                                   i: nat, j: nat) returns (k: nat)
    requires ReadyContext(c) && AllHaveNeeds(c.actions, vs) && NotEmpty(dest) && NoEmptyAnswers(answers) && i <= |vs|
    requires forall m :: 0 <= m < |vs| ==> vs[m].action == 0 || vs[m].action in c.actions
    requires NotEmpty(DestBefore(c, vs, dest, answers, i))
    requires j < |Jobs(c, vs, DestBefore(c, vs, dest, answers, i), answers, i)|
    ensures i <= k < |vs| && HasNeeds(c.actions, vs[k]) && NotEmpty(answers(k))
    ensures NotEmpty(DestBefore(c, vs, dest, answers, k))
    ensures Jobs(c, vs, DestBefore(c, vs, dest, answers, i), answers, i)[j]
         in JobOf(c, vs[k], DestBefore(c, vs, dest, answers, k), answers(k))
    decreases |vs| - i
  {
    hide ReadyContext, HasNeeds, JobOf, AllHaveNeeds, NoEmptyAnswers, NotEmpty, DestAfter;
    EnsureNeeds(c, vs, i, answers);
    var d := DestBefore(c, vs, dest, answers, i);
    var mine := JobOf(c, vs[i], d, answers(i));
    if j < |mine| {
      k := i;
    } else {
      DestBeforeOk(c, vs, dest, answers, i + 1);
      k := JobFrom(c, vs, dest, answers, i + 1, j - |mine|);
    }
  }

  lemma {:induction false} JoinGroupsAt(groups: seq<seq<View>>, g: nat)
    requires AllShaped(groups) && g < |groups|
    ensures |JoinGroups(groups)| == |groups| && JoinGroups(groups)[g] == JoinGroup(groups[g])
  {
    hide JoinGroup;
    if g > 0 {
      JoinGroupsAt(groups[1..], g - 1);
    } else {
      JoinGroupsCount(groups);
    }
  }

  lemma {:induction false} JoinGroupsCount(groups: seq<seq<View>>)
    requires AllShaped(groups)
    ensures |JoinGroups(groups)| == |groups|
  {
    hide JoinGroup;
    if groups != [] {
      JoinGroupsCount(groups[1..]);
    }
  }

  /** A group stands together in the list. */
  lemma {:induction false} GroupSlice(groups: seq<seq<View>>, g: nat) returns (from: nat)
    requires g < |groups|
    ensures from + |groups[g]| <= |Flatten(groups)| && Flatten(groups)[from..from + |groups[g]|] == groups[g]
  {
    if g == 0 {
      from := 0;
    } else {
      var rest := GroupSlice(groups[1..], g - 1);
      from := |groups[0]| + rest;
      assert Flatten(groups)[from..from + |groups[g]|] == Flatten(groups[1..])[rest..rest + |groups[g]|];
    }
  }

  lemma OnlyOnce(looked: seq<View>, m: nat)
    requires m < |looked| && forall i, j :: 0 <= i < j < |looked| ==> looked[i].idx < looked[j].idx
    ensures multiset(looked)[looked[m]] == 1
  {
    var before, after := looked[..m], looked[m + 1..];
    assert looked == before + [looked[m]] + after;
    assert looked[m] !in before && looked[m] !in after;
  }

  lemma Twice(order: seq<View>, i: nat, j: nat)
    requires i < j < |order| && order[i] == order[j]
    ensures multiset(order)[order[i]] > 1
  {
    var front, back := order[..j], order[j..];
    assert order == front + back && front[i] == order[i] && back[0] == order[j];
    assert order[i] in multiset(front) && order[i] in multiset(back);
  }

  /** No entry is there twice. */
  lemma NoTwins(order: seq<View>, looked: seq<View>, i: nat, j: nat)
    requires multiset(order) == multiset(looked) && i < j < |order|
    requires forall i, j :: 0 <= i < j < |looked| ==> looked[i].idx < looked[j].idx
    ensures order[i].idx != order[j].idx
  {
    assert order[i] in multiset(looked) && order[j] in multiset(looked);
    var m :| 0 <= m < |looked| && looked[m] == order[i];
    var n :| 0 <= n < |looked| && looked[n] == order[j];
    if order[i].idx == order[j].idx {
      assert m == n;
      OnlyOnce(looked, m);
      Twice(order, i, j);
    }
  }

  // ----- The jobs of a run ---------------------------------------------------------------------------

  /** A run of uris: the entries added for them, looked up and arranged, and safe to merge. */
  ghost predicate IsRun(c: Context, given: nat, uris: seq<string>, vs: seq<View>, order: seq<View>) {
    && ReadyContext(c) && (given == 0 || given in c.actions)
    && AddedFor(c.lib, vs, uris) && Waiting(vs)
    && Arranged(order, LookedUpAll(c.lib, c.actions, given, vs))
    && MergeIsSafe(order, MultipleActions(c.actions))
  }

  function GroupsOf(c: Context, order: seq<View>): seq<seq<View>> {
    Segments(order, MultipleActions(c.actions))
  }

  lemma GroupFacts(c: Context, given: nat, uris: seq<string>, vs: seq<View>, order: seq<View>, g: nat)
    returns (from: nat)
    requires IsRun(c, given, uris, vs, order) && g < |GroupsOf(c, order)|
    ensures var group := GroupsOf(c, order)[g];
      && group != [] && Shaped(group) && (|group| > 1 ==> CopiesHaveBuffers(group))
      && from + |group| <= |order| && order[from..from + |group|] == group
      && (forall i :: 0 <= i < |group| ==> group[i].action == group[0].action)
      && (|group| > 1 ==> Mergeable(group[0], MultipleActions(c.actions)))
  {
    hide Segments, Waiting, LookedUpAll, Ordered, CopiesHaveBuffers;
    var multiple := MultipleActions(c.actions);
    MergeConserves(order, multiple);
    SegmentsShaped(order, multiple);
    from := GroupSlice(GroupsOf(c, order), g);
    assert GroupsOf(c, order)[g] in Segments(order, multiple);
    assert IsGroup(GroupsOf(c, order)[g], multiple);
  }

  lemma LookedUpInOrder(c: Context, given: nat, uris: seq<string>, vs: seq<View>)
    requires Sound(c.lib, c.actions) && (given == 0 || given in c.actions) && AddedFor(c.lib, vs, uris) && Waiting(vs)
    ensures var looked := LookedUpAll(c.lib, c.actions, given, vs);
      && |looked| == |vs| && (forall i :: 0 <= i < |vs| ==> looked[i].idx == vs[i].idx)
      && forall i, j :: 0 <= i < j < |looked| ==> looked[i].idx < looked[j].idx
  {
    hide LookedUpAll, Waiting, Sound;
    var looked := LookedUpAll(c.lib, c.actions, given, vs);
    forall i | 0 <= i < |vs|
      ensures looked[i].idx == vs[i].idx
    {
      LookedUpIs(c.lib, c.actions, given, vs, uris, i);
    }
  }

  lemma MembersLookedUp(order: seq<View>, looked: seq<View>, from: nat, group: seq<View>)
    requires multiset(order) == multiset(looked)
    requires from + |group| <= |order| && order[from..from + |group|] == group
    ensures forall v :: v in group ==> v in looked
  {
    forall v | v in group
      ensures v in looked
    {
      assert v in order[from..from + |group|] && v in multiset(order) && v in multiset(looked);
    }
  }

  lemma InAddedOrder(order: seq<View>, looked: seq<View>, vs: seq<View>, from: nat, group: seq<View>, us: seq<nat>)
    requires Arranged(order, looked) && from + |group| <= |order| && order[from..from + |group|] == group
    requires forall i :: 0 <= i < |group| ==> group[i].action == group[0].action
    requires forall i, j :: 0 <= i < j < |looked| ==> looked[i].idx < looked[j].idx
    requires forall i, j :: 0 <= i < j < |vs| ==> vs[i].idx < vs[j].idx
    requires |us| == |group| && forall i :: 0 <= i < |us| ==> us[i] < |vs| && group[i].idx == vs[us[i]].idx
    ensures Increasing(us)
  {
    forall i, j | 0 <= i < j < |us|
      ensures us[i] < us[j]
    {
      assert order[from + i] == group[i] && order[from + j] == group[j];
      NoTwins(order, looked, from + i, from + j);
      assert vs[us[i]].idx < vs[us[j]].idx;
    }
  }

  /** The uris of a group and their order. */
  lemma GroupOfRun(c: Context, given: nat, uris: seq<string>, vs: seq<View>, order: seq<View>, g: nat)
    returns (us: seq<nat>, gs: seq<Gathered>)
    requires IsRun(c, given, uris, vs, order) && g < |GroupsOf(c, order)|
    ensures var group := GroupsOf(c, order)[g];
      && group != [] && Shaped(group)
      && (group[0].action != 0 ==>
            var a := group[0].action;
            && Gives(c.lib, given, uris, us, gs, a) && |us| == |group| && Increasing(us)
            && GroupIs(c, gs, a, JoinGroup(group)) && (|us| > 1 ==> Multiple in c.actions[a].flags)
            && forall i :: 0 <= i < |us| ==> group[i].idx == vs[us[i]].idx)
  {
    hide Segments, LookedUpAll, LookedUp, Waiting, CopiesHaveBuffers, EntryIs, GroupIs, MergeIsSafe, ReadyContext,
      Increasing, Arranged, JoinGroup;
    var from := GroupFacts(c, given, uris, vs, order, g);
    var group := GroupsOf(c, order)[g];
    us, gs := [], [];
    if group[0].action != 0 {
      ContextSound(c);
      var looked, a := LookedUpAll(c.lib, c.actions, given, vs), group[0].action;
      LookedUpInOrder(c, given, uris, vs);
      ArrangedIs(order, looked);
      MembersLookedUp(order, looked, from, group);
      us, gs := OriginsOf(c, given, vs, uris, group, a);
      JoinedEntry(c, gs, a, group);
      HasActionOf(c, gs, a, JoinGroup(group));
      InAddedOrder(order, looked, vs, from, group, us);
    }
  }

  lemma ArrangedIs(order: seq<View>, looked: seq<View>)
    requires Arranged(order, looked)
    ensures multiset(order) == multiset(looked)
  {
  }

  lemma RunFacts(c: Context, given: nat, uris: seq<string>, vs: seq<View>, order: seq<View>)
    requires IsRun(c, given, uris, vs, order)
    ensures Shaped(order) && AllShaped(GroupsOf(c, order))
    ensures Merged(order, MultipleActions(c.actions)) == JoinGroups(GroupsOf(c, order))
    ensures AllHaveNeeds(c.actions, Merged(order, MultipleActions(c.actions)))
  {
    hide Segments, LookedUpAll, LookedUp, Waiting, MergeIsSafe, ReadyContext, AllHaveNeeds, Merged, JoinGroups;
    ContextSound(c);
    LookupMeetsNeeds(c.lib, c.actions, given, vs);
    NeedsOfPermutation(c, LookedUpAll(c.lib, c.actions, given, vs), order);
    SegmentsShaped(order, MultipleActions(c.actions));
    MergedIs(order, MultipleActions(c.actions));
    MergeKeepsNeeds(c.actions, order, MultipleActions(c.actions));
  }

  lemma JobIsOf(c: Context, a: nat, gs: seq<Gathered>, dest: Option<string>, job: Job)
    requires JobIs(c, a, gs, dest, job)
    ensures job.action == a
  {
  }

  lemma JobHasAction(c: Context, v: View, dest: Option<string>, answer: Option<string>, job: Job)
    requires ReadyContext(c) && HasNeeds(c.actions, v) && NotEmpty(dest) && NotEmpty(answer)
    requires job in JobOf(c, v, dest, answer)
    ensures v.action != 0
  {
  }

  lemma {:induction false} DestCleanAt(c: Context, vs: seq<View>, dest: Option<string>,
                                       answers: nat -> Option<string>, k: nat)
    requires CleanContext(c) && IsClean(dest) && forall i :: IsClean(answers(i))
    requires k < |vs| && forall i :: 0 <= i < |vs| ==> vs[i].action == 0 || vs[i].action in c.actions
    ensures IsClean(DestBefore(c, vs, dest, answers, k))
    ensures IsClean(DestFor(c, DestBefore(c, vs, dest, answers, k), answers(k)))
  {
    hide AsksForDest;
    if k > 0 {
      DestCleanAt(c, vs, dest, answers, k - 1);
    }
    assert IsClean(answers(k));
  }

  // ----- The destination of a run ---------------------------------------------------------------------

  /** Entry `k` has a template that mentions the destination. */
  ghost predicate Mentions(c: Context, vs: seq<View>, k: nat)
    requires k < |vs|
  {
    && vs[k].action in c.actions
    && var commands := c.actions[vs[k].action].commands;
    exists i :: 0 <= i < |commands| && NeedsDest(commands[i].text)
  }

  /** A `%D` stands in the template, before it an even number of percent signs. */
  ghost predicate NeedsDest(template: string) {
    exists i :: 0 <= i < |template| - 1 && template[i] == '%' && template[i + 1] == 'D'
      && PercentsBefore(template, i) % 2 == 0
  }

  lemma NeedsDestIff(s: string)
    ensures NeedsDest(s) <==> exists i :: 0 <= i < |Tokens(s)| && IsDest(Tokens(s)[i])
  {
    hide Tokens;
    if NeedsDest(s) {
      var i :| 0 <= i < |s| - 1 && s[i] == '%' && s[i + 1] == 'D' && PercentsBefore(s, i) % 2 == 0;
      StartIffEven(s, i);
      TokenAtStart(s, i);
      assert s[i..][1] == s[i + 1];
      var t := FirstToken(s[i..]).0;
      assert IsDest(t);
      var k :| 0 <= k < |Tokens(s)| && Tokens(s)[k] == t;
    }
    if k: nat :| k < |Tokens(s)| && IsDest(Tokens(s)[k]) {
      var i := StartOfToken(s, Tokens(s)[k]);
      StartIffEven(s, i);
      assert |s[i..]| > 1 ==> s[i..][1] == s[i + 1];
    }
  }

  lemma AsksIff(c: Context, vs: seq<View>, k: nat)
    requires k < |vs| && (vs[k].action == 0 || vs[k].action in c.actions) && 0 !in c.actions
    ensures (vs[k].action != 0 && AsksForDest(c.actions[vs[k].action].commands)) <==> Mentions(c, vs, k)
  {
    hide NeedsDest, Tokens, IsDest;
    if vs[k].action != 0 {
      var commands := c.actions[vs[k].action].commands;
      forall i | 0 <= i < |commands|
        ensures NeedsDest(commands[i].text) <==>
          exists m :: 0 <= m < |Tokens(commands[i].text)| && IsDest(Tokens(commands[i].text)[m])
      {
        NeedsDestIff(commands[i].text);
      }
    }
  }

  /** Entry `m` is the first that mentions the destination and whose user selects one. */
  ghost predicate FirstSelected(c: Context, vs: seq<View>, answers: nat -> Option<string>, m: nat)
    requires m < |vs|
  {
    && Mentions(c, vs, m) && answers(m).Some?
    && forall i :: 0 <= i < m ==> !(Mentions(c, vs, i) && answers(i).Some?)
  }

  /** No entry before `k` mentions the destination and has its user select one. */
  ghost predicate NoneSelected(c: Context, vs: seq<View>, answers: nat -> Option<string>, k: nat)
    requires k <= |vs|
  {
    forall i :: 0 <= i < k ==> !(Mentions(c, vs, i) && answers(i).Some?)
  }

  lemma {:induction false} DestBeforeEntry(c: Context, vs: seq<View>, dest: Option<string>,
                                           answers: nat -> Option<string>, k: nat)
    requires k <= |vs| && 0 !in c.actions
    requires forall i :: 0 <= i < |vs| ==> vs[i].action == 0 || vs[i].action in c.actions
    ensures dest.Some? ==> DestBefore(c, vs, dest, answers, k) == dest
    ensures dest.None? && NoneSelected(c, vs, answers, k) ==> DestBefore(c, vs, dest, answers, k) == None
    ensures forall m :: 0 <= m < k && dest.None? && FirstSelected(c, vs, answers, m) ==>
      DestBefore(c, vs, dest, answers, k) == Some(c.lib.quote(answers(m).value))
  {
    hide Mentions, AsksForDest;
    if k > 0 {
      DestBeforeEntry(c, vs, dest, answers, k - 1);
      AsksIff(c, vs, k - 1);
    }
  }

  /** A destination that is given stays. Without one, no destination is set before the first
      entry that mentions one and whose user selects one; this selection, quoted, is the
      destination of that entry and of all later ones. */
  lemma DestOfEntry(c: Context, vs: seq<View>, dest: Option<string>, answers: nat -> Option<string>, k: nat)
    requires k < |vs| && 0 !in c.actions
    requires forall i :: 0 <= i < |vs| ==> vs[i].action == 0 || vs[i].action in c.actions
    ensures dest.Some? ==> DestFor(c, DestBefore(c, vs, dest, answers, k), answers(k)) == dest
    ensures dest.None? && NoneSelected(c, vs, answers, k) ==> DestBefore(c, vs, dest, answers, k) == None
    ensures forall m :: 0 <= m <= k && dest.None? && FirstSelected(c, vs, answers, m) ==>
      DestFor(c, DestBefore(c, vs, dest, answers, k), answers(k)) == Some(c.lib.quote(answers(m).value))
  {
    hide Mentions, DestBefore;
    DestBeforeEntry(c, vs, dest, answers, k);
  }

  /** `d` is the destination that entry `k` sees: the one given or, without one, the first
      that a user selects. */
  ghost predicate DestSeen(c: Context, vs: seq<View>, dest: Option<string>, answers: nat -> Option<string>, k: nat,
                           d: Option<string>)
    requires k < |vs|
  {
    && (dest.Some? ==> d == dest)
    && forall m :: 0 <= m <= k && dest.None? && FirstSelected(c, vs, answers, m) ==>
         d == Some(c.lib.quote(answers(m).value))
  }

  // ----- What is handed over ---------------------------------------------------------------------------

  /** Every job of a run is for some of the uris, in the order in which they were added and
      more than one only if its action takes several at once; its commands are the action's
      templates with what is known about these uris. */
  lemma HandsOver(c: Context, given: nat, uris: seq<string>, vs: seq<View>, order: seq<View>, dest: Option<string>,
                  answers: nat -> Option<string>, j: nat)
    returns (us: seq<nat>, gs: seq<Gathered>, g: nat, d: Option<string>)
    requires IsRun(c, given, uris, vs, order) && CleanContext(c)
    requires NotEmpty(dest) && IsClean(dest) && NoEmptyAnswers(answers) && forall i :: IsClean(answers(i))
    requires AllHaveNeeds(c.actions, Merged(order, MultipleActions(c.actions)))
    requires j < |Jobs(c, Merged(order, MultipleActions(c.actions)), dest, answers, 0)|
    ensures var entries := Merged(order, MultipleActions(c.actions));
      var job := Jobs(c, entries, dest, answers, 0)[j];
      && Gives(c.lib, given, uris, us, gs, job.action) && us != [] && Increasing(us)
      && job.action in c.actions && (|us| > 1 ==> Multiple in c.actions[job.action].flags)
      && g < |entries| && DestSeen(c, entries, dest, answers, g, d) && JobIs(c, job.action, gs, d, job)
  {
    hide Jobs, JobOf, ReadyContext, HasNeeds, AllHaveNeeds, Merged, Segments, MergeIsSafe, Waiting, LookedUpAll,
      CStrings, JobIs, GroupIs, Gives, JoinGroups, JoinGroup, Mentions;
    var entries := Merged(order, MultipleActions(c.actions));
    RunFacts(c, given, uris, vs, order);
    DestBeforeOk(c, entries, dest, answers, 0);
    g := JobFrom(c, entries, dest, answers, 0, j);
    var job := Jobs(c, entries, dest, answers, 0)[j];
    d := DestFor(c, DestBefore(c, entries, dest, answers, g), answers(g));
    us, gs := JobOfGroup(c, given, uris, vs, order, dest, answers, g, job);
    NoNullAction(c);
    DestOfEntry(c, entries, dest, answers, g);
  }

  lemma NoNullAction(c: Context)
    requires ReadyContext(c)
    ensures 0 !in c.actions
  {
  }

  /** The job of the entry of group `g`. */
  lemma JobOfGroup(c: Context, given: nat, uris: seq<string>, vs: seq<View>, order: seq<View>, dest: Option<string>,
                   answers: nat -> Option<string>, g: nat, job: Job)
    returns (us: seq<nat>, gs: seq<Gathered>)
    requires IsRun(c, given, uris, vs, order) && CleanContext(c)
    requires NotEmpty(dest) && IsClean(dest) && NoEmptyAnswers(answers) && forall i :: IsClean(answers(i))
    requires AllHaveNeeds(c.actions, Merged(order, MultipleActions(c.actions)))
    requires g < |Merged(order, MultipleActions(c.actions))|
    requires var entries := Merged(order, MultipleActions(c.actions));
      && (forall i :: 0 <= i < |entries| ==> entries[i].action == 0 || entries[i].action in c.actions)
      && HasNeeds(c.actions, entries[g]) && NotEmpty(answers(g))
      && var d := DestBefore(c, entries, dest, answers, g);
      NotEmpty(d) && job in JobOf(c, entries[g], d, answers(g))
    ensures var entries := Merged(order, MultipleActions(c.actions));
      var d := DestFor(c, DestBefore(c, entries, dest, answers, g), answers(g));
      && g < |GroupsOf(c, order)| && |us| == |GroupsOf(c, order)[g]|
      && (forall i :: 0 <= i < |us| ==> us[i] < |vs| && GroupsOf(c, order)[g][i].idx == vs[us[i]].idx)
      && Gives(c.lib, given, uris, us, gs, job.action) && us != [] && Increasing(us)
      && job.action in c.actions && (|us| > 1 ==> Multiple in c.actions[job.action].flags)
      && JobIs(c, job.action, gs, d, job)
  {
    hide Jobs, JobOf, ReadyContext, HasNeeds, AllHaveNeeds, Merged, Segments, MergeIsSafe, Waiting, LookedUpAll,
      CStrings, JobIs, GroupIs, JoinGroups, JoinGroup;
    var entries := Merged(order, MultipleActions(c.actions));
    RunFacts(c, given, uris, vs, order);
    var d := DestBefore(c, entries, dest, answers, g);
    JoinGroupsCount(GroupsOf(c, order));
    JoinGroupsAt(GroupsOf(c, order), g);
    us, gs := GroupOfRun(c, given, uris, vs, order, g);
    JobHasAction(c, entries[g], d, answers(g), job);
    JoinedAction(GroupsOf(c, order)[g]);
    var a := entries[g].action;
    DestCleanAt(c, entries, dest, answers, g);
    GroupClean(c, given, uris, us, gs, a, entries[g], DestFor(c, d, answers(g)));
    JobTexts(c, gs, a, entries[g], d, answers(g));
    JobIsOf(c, a, gs, DestFor(c, d, answers(g)), job);
    HasActionOf(c, gs, a, entries[g]);
  }

  // ----- Nothing is left out ---------------------------------------------------------------------------

  lemma JobOfOne(c: Context, v: View, dest: Option<string>, answer: Option<string>)
    requires ReadyContext(c) && HasNeeds(c.actions, v) && NotEmpty(dest) && NotEmpty(answer)
    requires v.action != 0 && dest.Some?
    ensures |JobOf(c, v, dest, answer)| == 1
  {
    hide ReadyContext, HasNeeds, CanExpand, ParsedCommands;
    HasAction(c, v);
    HasLocations(c, v);
    NeedsCoverExpansion(c, v, dest);
    ParseSucceeds(c.actions[v.action].commands, LocationsOf(v), EnvironmentOf(c, dest));
  }

  lemma HasLocations(c: Context, v: View)
    requires HasNeeds(c.actions, v)
    ensures |v.texts| == 3
  {
  }

  /** With a destination, every entry with an action has a job. */
  lemma {:induction false} JobOfEntry(c: Context, vs: seq<View>, dest: Option<string>, answers: nat -> Option<string>,
                                      i: nat, k: nat) returns (j: nat)
    requires ReadyContext(c) && AllHaveNeeds(c.actions, vs) && NotEmpty(dest) && NoEmptyAnswers(answers)
    requires dest.Some? && i <= k < |vs| && vs[k].action != 0
    ensures HasNeeds(c.actions, vs[k]) && NotEmpty(answers(k))
    ensures j < |Jobs(c, vs, dest, answers, i)| && Jobs(c, vs, dest, answers, i)[j] in JobOf(c, vs[k], dest, answers(k))
    decreases k - i
  {
    hide ReadyContext, HasNeeds, JobOf, AllHaveNeeds, NoEmptyAnswers, NotEmpty, AsksForDest;
    EnsureNeeds(c, vs, i, answers);
    var mine := JobOf(c, vs[i], dest, answers(i));
    if i == k {
      JobOfOne(c, vs[i], dest, answers(i));
      j := 0;
    } else {
      var rest := JobOfEntry(c, vs, dest, answers, i + 1, k);
      j := |mine| + rest;
    }
  }

  lemma {:induction false} InSomeGroup(groups: seq<seq<View>>, v: View) returns (g: nat)
    requires v in Flatten(groups)
    ensures g < |groups| && v in groups[g]
  {
    if v in groups[0] {
      g := 0;
    } else {
      var rest := InSomeGroup(groups[1..], v);
      g := rest + 1;
    }
  }

  lemma {:induction false} DestStays(c: Context, vs: seq<View>, dest: Option<string>, answers: nat -> Option<string>,
                                     k: nat)
    requires dest.Some? && k <= |vs| && forall i :: 0 <= i < |vs| ==> vs[i].action == 0 || vs[i].action in c.actions
    ensures DestBefore(c, vs, dest, answers, k) == dest
  {
    hide AsksForDest;
    if k > 0 {
      DestStays(c, vs, dest, answers, k - 1);
    }
  }

  /** The group of a uri that has an action. */
  lemma GroupOfUri(c: Context, given: nat, uris: seq<string>, vs: seq<View>, order: seq<View>, u: nat)
    returns (g: nat, i: nat)
    requires IsRun(c, given, uris, vs, order) && u < |uris|
    requires var found := c.lib.gather(Address(c.lib, uris[u]));
      found.Some? && (given != 0 || found.value.found != 0)
    ensures g < |GroupsOf(c, order)| && i < |GroupsOf(c, order)[g]|
    ensures GroupsOf(c, order)[g][i].idx == vs[u].idx && GroupsOf(c, order)[g][i].action != 0
    ensures GroupsOf(c, order)[g][0].action == GroupsOf(c, order)[g][i].action
  {
    hide Segments, LookedUpAll, Waiting, MergeIsSafe, ReadyContext;
    ContextSound(c);
    var looked := LookedUpAll(c.lib, c.actions, given, vs);
    LookedUpIs(c.lib, c.actions, given, vs, uris, u);
    MergeConserves(order, MultipleActions(c.actions));
    ArrangedIs(order, looked);
    assert looked[u] in multiset(looked) && looked[u] in multiset(order);
    g := InSomeGroup(GroupsOf(c, order), looked[u]);
    var group := GroupsOf(c, order)[g];
    i :| 0 <= i < |group| && group[i] == looked[u];
    var from := GroupFacts(c, given, uris, vs, order, g);
  }

  /** With a destination, every uri for which there is an action is handed over by a job. */
  lemma EveryUriIsHandedOver(c: Context, given: nat, uris: seq<string>, vs: seq<View>, order: seq<View>,
                             dest: Option<string>, answers: nat -> Option<string>, u: nat)
    returns (j: nat, us: seq<nat>, gs: seq<Gathered>)
    requires IsRun(c, given, uris, vs, order) && CleanContext(c) && u < |uris|
    requires NotEmpty(dest) && IsClean(dest) && NoEmptyAnswers(answers) && forall i :: IsClean(answers(i))
    requires AllHaveNeeds(c.actions, Merged(order, MultipleActions(c.actions))) && dest.Some?
    requires var found := c.lib.gather(Address(c.lib, uris[u]));
      found.Some? && (given != 0 || found.value.found != 0)
    ensures var jobs := Jobs(c, Merged(order, MultipleActions(c.actions)), dest, answers, 0);
      && j < |jobs| && Gives(c.lib, given, uris, us, gs, jobs[j].action) && Increasing(us) && u in us
      && JobIs(c, jobs[j].action, gs, dest, jobs[j])
  {
    hide Jobs, JobOf, ReadyContext, HasNeeds, AllHaveNeeds, Merged, Segments, MergeIsSafe, Waiting, LookedUpAll,
      JobIs, GroupIs, JoinGroups, JoinGroup;
    var entries := Merged(order, MultipleActions(c.actions));
    RunFacts(c, given, uris, vs, order);
    var g, i := GroupOfUri(c, given, uris, vs, order, u);
    JoinGroupsCount(GroupsOf(c, order));
    JoinGroupsAt(GroupsOf(c, order), g);
    JoinedAction(GroupsOf(c, order)[g]);
    j := JobOfEntry(c, entries, dest, answers, 0, g);
    DestBeforeOk(c, entries, dest, answers, g);
    DestStays(c, entries, dest, answers, g);
    var job := Jobs(c, entries, dest, answers, 0)[j];
    us, gs := JobOfGroup(c, given, uris, vs, order, dest, answers, g, job);
    assert vs[us[i]].idx == vs[u].idx && us[i] == u;
  }

  // ----- One action for the whole run ---------------------------------------------------------------------

  lemma {:induction false} IncreasingIs(us: seq<nat>, i: nat)
    requires Increasing(us) && i < |us| && forall k :: 0 <= k < |us| ==> us[k] < |us|
    ensures us[i] == i
  {
    AtLeast(us, i);
    AtMost(us, i);
  }

  lemma {:induction false} AtLeast(us: seq<nat>, i: nat)
    requires Increasing(us) && i < |us|
    ensures us[i] >= i
  {
    if i > 0 {
      AtLeast(us, i - 1);
    }
  }

  lemma {:induction false} AtMost(us: seq<nat>, i: nat)
    requires Increasing(us) && i < |us| && forall k :: 0 <= k < |us| ==> us[k] < |us|
    ensures us[i] <= i
    decreases |us| - i
  {
    if i < |us| - 1 {
      AtMost(us, i + 1);
    }
  }

  lemma {:induction false} RunIsAll(order: seq<View>)
    requires order != [] && forall i :: 0 <= i < |order| ==> order[i].action == order[0].action
    ensures RunLength(order) == |order|
  {
    if |order| > 1 {
      RunIsAll(order[1..]);
    }
  }

  lemma {:induction false} AllRun(c: Context, vs: seq<View>, dest: Option<string>, answers: nat -> Option<string>,
                                  i: nat)
    requires ReadyContext(c) && AllHaveNeeds(c.actions, vs) && NotEmpty(dest) && NoEmptyAnswers(answers)
    requires dest.Some? && i <= |vs| && forall k :: 0 <= k < |vs| ==> vs[k].action != 0
    ensures |Jobs(c, vs, dest, answers, i)| == |vs| - i
    ensures forall k :: i <= k < |vs| ==> HasNeeds(c.actions, vs[k]) && NotEmpty(answers(k))
    ensures forall k :: i <= k < |vs| ==> Jobs(c, vs, dest, answers, i)[k - i] in JobOf(c, vs[k], dest, answers(k))
    decreases |vs| - i
  {
    hide ReadyContext, HasNeeds, JobOf, AllHaveNeeds, NoEmptyAnswers, NotEmpty, AsksForDest;
    if i < |vs| {
      EnsureNeeds(c, vs, i, answers);
      JobOfOne(c, vs[i], dest, answers(i));
      AllRun(c, vs, dest, answers, i + 1);
    }
  }

  lemma OneGroup(order: seq<View>, multiple: set<nat>)
    requires order != [] && Mergeable(order[0], multiple)
    requires forall i :: 0 <= i < |order| ==> order[i].action == order[0].action
    ensures |Segments(order, multiple)| == 1 && Segments(order, multiple)[0] == order
  {
    RunIsAll(order);
    SegmentsCases(order, multiple);
    if |order| == 1 {
      assert order[..1] == order && order[1..] == [];
    }
  }

  lemma {:induction false} SingleGroups(order: seq<View>, multiple: set<nat>)
    requires forall i :: 0 <= i < |order| ==> !Mergeable(order[i], multiple)
    ensures |Segments(order, multiple)| == |order|
    ensures forall g :: 0 <= g < |order| ==> Segments(order, multiple)[g] == [order[g]]
    decreases |order|
  {
    if order != [] {
      hide Mergeable;
      SegmentsCases(order, multiple);
      SingleGroups(order[1..], multiple);
      hide Segments;
      var rest := Segments(order[1..], multiple);
      assert order[..1] == [order[0]];
      assert Segments(order, multiple) == [[order[0]]] + rest;
    }
  }

  lemma OneAction(c: Context, given: nat, uris: seq<string>, vs: seq<View>, order: seq<View>)
    requires IsRun(c, given, uris, vs, order) && given != 0
    requires forall u :: 0 <= u < |uris| ==> c.lib.gather(Address(c.lib, uris[u])).Some?
    ensures |order| == |uris| && forall i :: 0 <= i < |order| ==> order[i].action == given
  {
    hide LookedUpAll, Waiting, MergeIsSafe, ReadyContext, EntryIs;
    ContextSound(c);
    var looked := LookedUpAll(c.lib, c.actions, given, vs);
    ArrangedIs(order, looked);
    SortedLength(order, looked);
    forall i | 0 <= i < |order|
      ensures order[i].action == given
    {
      assert order[i] in multiset(order) && order[i] in multiset(looked);
      var u :| 0 <= u < |looked| && looked[u] == order[i];
      LookedUpIs(c.lib, c.actions, given, vs, uris, u);
      EntryAction(c, c.lib.gather(Address(c.lib, uris[u])).value, given, looked[u]);
    }
  }

  lemma EntryAction(c: Context, g: Gathered, a: nat, v: View)
    requires EntryIs(c.lib, c.actions, g, a, v)
    ensures v.action == a
  {
  }

  /** The entries of a run with one action are those of the uris in the order in which they
      were added. */
  lemma OrderIsAdded(c: Context, given: nat, uris: seq<string>, vs: seq<View>, order: seq<View>)
    requires IsRun(c, given, uris, vs, order) && given != 0
    requires forall u :: 0 <= u < |uris| ==> c.lib.gather(Address(c.lib, uris[u])).Some?
    ensures |order| == |uris| == |vs| && forall i :: 0 <= i < |order| ==> order[i].idx == vs[i].idx
  {
    hide LookedUpAll, Waiting, MergeIsSafe, ReadyContext, EntryIs, Increasing, Arranged;
    ContextSound(c);
    var looked := LookedUpAll(c.lib, c.actions, given, vs);
    OneAction(c, given, uris, vs, order);
    LookedUpInOrder(c, given, uris, vs);
    ArrangedIs(order, looked);
    assert order[0..0 + |order|] == order;
    MembersLookedUp(order, looked, 0, order);
    var us, gs := OriginsOf(c, given, vs, uris, order, given);
    InAddedOrder(order, looked, vs, 0, order, us);
    forall i | 0 <= i < |order|
      ensures order[i].idx == vs[i].idx
    {
      IncreasingIs(us, i);
    }
  }

  lemma RunJobs(c: Context, given: nat, uris: seq<string>, vs: seq<View>, order: seq<View>, dest: Option<string>,
                answers: nat -> Option<string>)
    requires IsRun(c, given, uris, vs, order) && given != 0
    requires NotEmpty(dest) && NoEmptyAnswers(answers) && dest.Some?
    requires AllHaveNeeds(c.actions, Merged(order, MultipleActions(c.actions)))
    requires forall u :: 0 <= u < |uris| ==> c.lib.gather(Address(c.lib, uris[u])).Some?
    ensures var entries := Merged(order, MultipleActions(c.actions));
      && |entries| == |GroupsOf(c, order)| == |Jobs(c, entries, dest, answers, 0)|
      && forall g :: 0 <= g < |entries| ==>
           && HasNeeds(c.actions, entries[g]) && NotEmpty(answers(g))
           && Jobs(c, entries, dest, answers, 0)[g] in JobOf(c, entries[g], dest, answers(g))
  {
    hide Jobs, ReadyContext, HasNeeds, AllHaveNeeds, Merged, Segments, MergeIsSafe, Waiting, LookedUpAll,
      JoinGroups, JoinGroup, Arranged, JobOf;
    RunFacts(c, given, uris, vs, order);
    var entries, groups := Merged(order, MultipleActions(c.actions)), GroupsOf(c, order);
    OneAction(c, given, uris, vs, order);
    JoinGroupsCount(groups);
    forall g | 0 <= g < |entries|
      ensures entries[g].action != 0
    {
      JoinGroupsAt(groups, g);
      var from := GroupFacts(c, given, uris, vs, order, g);
      assert order[from..from + |groups[g]|][0] == order[from];
      JoinedAction(groups[g]);
    }
    AllRun(c, entries, dest, answers, 0);
    forall g | 0 <= g < |entries|
      ensures Jobs(c, entries, dest, answers, 0)[g] in JobOf(c, entries[g], dest, answers(g))
    {
      assert Jobs(c, entries, dest, answers, 0)[g - 0] in JobOf(c, entries[g], dest, answers(g));
    }
  }

  /** Job `g` of a run with one action, and the uris it is for. */
  lemma JobOfRun(c: Context, given: nat, uris: seq<string>, vs: seq<View>, order: seq<View>, dest: Option<string>,
                 answers: nat -> Option<string>, g: nat) returns (us: seq<nat>, gs: seq<Gathered>)
    requires IsRun(c, given, uris, vs, order) && CleanContext(c) && given != 0
    requires NotEmpty(dest) && IsClean(dest) && NoEmptyAnswers(answers) && forall i :: IsClean(answers(i))
    requires AllHaveNeeds(c.actions, Merged(order, MultipleActions(c.actions))) && dest.Some?
    requires forall u :: 0 <= u < |uris| ==> c.lib.gather(Address(c.lib, uris[u])).Some?
    requires g < |GroupsOf(c, order)|
    ensures var jobs := Jobs(c, Merged(order, MultipleActions(c.actions)), dest, answers, 0);
      && |jobs| == |GroupsOf(c, order)| && |us| == |GroupsOf(c, order)[g]|
      && (forall i :: 0 <= i < |us| ==> us[i] < |vs| && GroupsOf(c, order)[g][i].idx == vs[us[i]].idx)
      && Gives(c.lib, given, uris, us, gs, jobs[g].action) && us != [] && Increasing(us)
      && JobIs(c, jobs[g].action, gs, dest, jobs[g])
  {
    hide Jobs, JobOf, ReadyContext, HasNeeds, AllHaveNeeds, Merged, Segments, MergeIsSafe, Waiting, LookedUpAll,
      JobIs, GroupIs, JoinGroups, JoinGroup;
    RunFacts(c, given, uris, vs, order);
    var entries := Merged(order, MultipleActions(c.actions));
    RunJobs(c, given, uris, vs, order, dest, answers);
    DestBeforeOk(c, entries, dest, answers, g);
    DestStays(c, entries, dest, answers, g);
    us, gs := JobOfGroup(c, given, uris, vs, order, dest, answers, g, Jobs(c, entries, dest, answers, 0)[g]);
  }

  /** When one action is given for the whole run and it takes several locations at once,
      there is one job, for all uris in the order in which they were added. */
  lemma AllAtOnce(c: Context, given: nat, uris: seq<string>, vs: seq<View>, order: seq<View>, dest: Option<string>,
                  answers: nat -> Option<string>) returns (gs: seq<Gathered>)
    requires IsRun(c, given, uris, vs, order) && CleanContext(c) && given != 0 && uris != []
    requires NotEmpty(dest) && IsClean(dest) && NoEmptyAnswers(answers) && forall i :: IsClean(answers(i))
    requires AllHaveNeeds(c.actions, Merged(order, MultipleActions(c.actions))) && dest.Some?
    requires forall u :: 0 <= u < |uris| ==> c.lib.gather(Address(c.lib, uris[u])).Some?
    requires Multiple in c.actions[given].flags
    ensures var jobs := Jobs(c, Merged(order, MultipleActions(c.actions)), dest, answers, 0);
      && |jobs| == 1 && |gs| == |uris| && JobIs(c, given, gs, dest, jobs[0])
      && forall u :: 0 <= u < |uris| ==> c.lib.gather(Address(c.lib, uris[u])) == Some(gs[u])
  {
    hide Jobs, JobOf, ReadyContext, HasNeeds, AllHaveNeeds, Merged, Segments, MergeIsSafe, Waiting, LookedUpAll,
      JobIs, GroupIs, JoinGroups, JoinGroup, Arranged, Increasing;
    OneAction(c, given, uris, vs, order);
    RunFacts(c, given, uris, vs, order);
    OneGroup(order, MultipleActions(c.actions));
    var us;
    us, gs := JobOfRun(c, given, uris, vs, order, dest, answers, 0);
    forall i | 0 <= i < |us|
      ensures us[i] == i
    {
      IncreasingIs(us, i);
    }
  }

  /** When it does not, there is one job for each uri, in that order. */
  lemma OneByOne(c: Context, given: nat, uris: seq<string>, vs: seq<View>, order: seq<View>, dest: Option<string>,
                 answers: nat -> Option<string>, u: nat) returns (gs: seq<Gathered>)
    requires IsRun(c, given, uris, vs, order) && CleanContext(c) && given != 0 && u < |uris|
    requires NotEmpty(dest) && IsClean(dest) && NoEmptyAnswers(answers) && forall i :: IsClean(answers(i))
    requires AllHaveNeeds(c.actions, Merged(order, MultipleActions(c.actions))) && dest.Some?
    requires forall u :: 0 <= u < |uris| ==> c.lib.gather(Address(c.lib, uris[u])).Some?
    requires Multiple !in c.actions[given].flags
    ensures var jobs := Jobs(c, Merged(order, MultipleActions(c.actions)), dest, answers, 0);
      && |jobs| == |uris| && |gs| == 1 && c.lib.gather(Address(c.lib, uris[u])) == Some(gs[0])
      && JobIs(c, given, gs, dest, jobs[u])
  {
    hide Jobs, JobOf, ReadyContext, HasNeeds, AllHaveNeeds, Merged, Segments, MergeIsSafe, Waiting, LookedUpAll,
      JobIs, GroupIs, JoinGroups, JoinGroup, Arranged, Increasing;
    OneAction(c, given, uris, vs, order);
    OrderIsAdded(c, given, uris, vs, order);
    RunFacts(c, given, uris, vs, order);
    SingleGroups(order, MultipleActions(c.actions));
    var us;
    us, gs := JobOfRun(c, given, uris, vs, order, dest, answers, u);
    assert vs[us[0]].idx == vs[u].idx;
    assert us[0] == u;
  }
}
