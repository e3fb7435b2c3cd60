/** The descriptor printer: what it writes, piece by piece, and what it reports when
    writes fail. */
module DescriptorSaver {
  import opened Actions
  import opened Descriptors
  import opened Locale
  import opened Options
  import opened Sequences
  import opened Text

  const LINE_BUFFER: nat := 256

  // ----- The pieces written --------------------------------------------------------

  /** The keyword of a recognition step and whether its data follows. */
  function RecogKeyword(cmd: RecogCommand): (string, bool)
    requires cmd != Protection
  {
    match cmd
    case FileName => ("Name", true)
    case MatchData => ("Match", true)
    case MatchHunk => ("MatchHunk", true)
    case FindString => ("Symbol", true)
    case File => ("File", false)
    case Directory => ("Directory", false)
    case Device => ("Device", false)
    case FileSize => ("Filesize", true)
    case Content => ("ContentType", true)
    case Comment => ("Comment", true)
    case BlockIn => ("(", false)
    case BlockOut => (")", false)
    case Or => ("OR", false)
    case And => ("AND", false)
  }

  /** The steps the printer has a line for; for any other it writes an unset buffer. */
  predicate HasLine(n: RecogNode) {
    n.cmd != Protection && (RecogKeyword(n.cmd).1 ==> n.data.Some?)
  }

  predicate Printable(d: Descriptor) {
    && d.mimetype.Some?
    && (d.recog.Some? ==> forall i :: 0 <= i < |d.recog.value.nodes| ==> HasLine(d.recog.value.nodes[i]))
    && (forall i :: 0 <= i < |d.actions| ==> d.actions[i].name.Some?)
  }

  function RecogLine(n: RecogNode): string
    requires HasLine(n)
  {
    var (keyword, hasData) := RecogKeyword(n.cmd);
    Truncated(if hasData then "\t" + keyword + " " + n.data.value + "\n" else "\t" + keyword + "\n", LINE_BUFFER)
  }

  function RecogLines(nodes: seq<RecogNode>): (lines: seq<string>)
    requires forall i :: 0 <= i < |nodes| ==> HasLine(nodes[i])
    ensures |lines| == |nodes|
  {
    if nodes == [] then [] else RecogLines(nodes[..|nodes| - 1]) + [RecogLine(nodes[|nodes| - 1])]
  }

  /** The recognition block. Its end is written only when there are steps in it. */
  function RecogPieces(ctx: Recog): seq<string>
    requires forall i :: 0 <= i < |ctx.nodes| ==> HasLine(ctx.nodes[i])
  {
    ["Match\n"]
    + (if ctx.pattern.Some? then [Truncated("\tPatternHint " + ctx.pattern.value + "\n", LINE_BUFFER)] else [])
    + (if ctx.nodes == [] then [] else RecogLines(ctx.nodes) + ["\tEnd\n"])
  }

  function HeadPieces(d: Descriptor): seq<string>
    requires Printable(d)
  {
    ["AMTD\n", "1\n", "Type ", d.mimetype.value, "\n"]
    + (if d.description.Some? && d.description.value != "" then
         [Truncated("Name " + d.description.value + "\n", LINE_BUFFER)] else [])
    + (if d.priority != 0 then [Truncated("Priority " + PrintLong(d.priority) + "\n", LINE_BUFFER)] else [])
    + (if d.recog.Some? then RecogPieces(d.recog.value) else [])
  }

  function KindName(kind: CommandType): string {
    match kind
    case Internal => "INTERNAL"
    case AmigaDos => "AMIGADOS"
    case Workbench => "WORKBENCH"
    case Script => "SCRIPT"
    case ARexx => "AREXX"
  }

  function CommandLine(c: Command): string {
    "\tCommand " + KindName(c.kind) + " " + c.text + "\n"
  }

  function CommandLines(commands: seq<Command>): (lines: seq<string>)
    ensures |lines| == |commands|
  {
    if commands == [] then []
    else CommandLines(commands[..|commands| - 1]) + [CommandLine(commands[|commands| - 1])]
  }

  /** The line for an event; no event prints like a menu event. */
  function EventLine(event: Event): string {
    match event
    case DoubleClick => "\tEvent DoubleClick\n"
    case DragNDrop => "\tEvent DragNDrop\n"
    case _ => "\tEvent Menu\n"
  }

  function QualifierLines(q: Qualifier): seq<string> {
    match q
    case Alt => ["\tQualifier ALT\n"]
    case Shift => ["\tQualifier SHIFT\n"]
    case Control => ["\tQualifier CONTROL\n"]
    case NoQualifier => []
  }

  function FlagLines(flags: set<Flag>): seq<string> {
    (if CdSource in flags then ["\tFlag cd source\n"] else [])
    + (if CdDestination in flags then ["\tFlag cd destination\n"] else [])
    + (if Unquoted in flags then ["\tFlag unquoted\n"] else [])
    + (if Multiple in flags then ["\tFlag multiple\n"] else [])
    + (if Async in flags then ["\tFlag asynchronous\n"] else [])
  }

  /** The pieces of an action's names. */
  function NamePieces(cat: Catalog, an: Action): seq<string>
    requires an.name.Some?
  {
    ["Action\n\tName ", English(cat, an.name.value), "\n"]
    + (if an.menuName.Some? then ["\tMenu ", English(cat, an.menuName.value), "\n"] else [])
  }

  /** The pieces of an action up to and with its event. */
  function ActionHead(cat: Catalog, an: Action): seq<string>
    requires an.name.Some?
  {
    NamePieces(cat, an) + [EventLine(an.event)]
  }

  /** The pieces of an action after its event. */
  function ActionTail(an: Action): seq<string> {
    CommandLines(an.commands) + QualifierLines(an.qualifier) + FlagLines(an.flags) + ["\tEnd\n"]
  }

  function ActionPieces(cat: Catalog, an: Action): seq<string>
    requires an.name.Some?
  {
    ActionHead(cat, an) + ActionTail(an)
  }

  function AllActionPieces(cat: Catalog, actions: seq<Action>): seq<string>
    requires forall i :: 0 <= i < |actions| ==> actions[i].name.Some?
  {
    if actions == [] then []
    else AllActionPieces(cat, actions[..|actions| - 1]) + ActionPieces(cat, actions[|actions| - 1])
  }

  /** Everything written for a descriptor. */
  function Pieces(cat: Catalog, d: Descriptor): seq<string>
    requires Printable(d)
  {
    HeadPieces(d) + AllActionPieces(cat, d.actions) + ["End\n"]
  }

  // ----- The default action ----------------------------------------------------------

  /** The event an action is saved with: as it is when `num` is -1, else double-click
      for action `num` and menu for the others, drag and drop and none apart. */
  function SavedEvent(event: Event, i: nat, num: int): Event {
    if num == -1 || (event != DoubleClick && event != MenuEvent) then event
    else if i == num then DoubleClick
    else MenuEvent
  }

  function WithDefault(d: Descriptor, num: int): (d': Descriptor)
    ensures |d'.actions| == |d.actions|
    ensures Printable(d) ==> Printable(d')
  {
    d.(actions := seq(|d.actions|, i requires 0 <= i < |d.actions| =>
      d.actions[i].(event := SavedEvent(d.actions[i].event, i, num))))
  }

  // ----- Files that can fail -----------------------------------------------------------

  function Concat(pieces: seq<string>): string {
    if pieces == [] then "" else Concat(pieces[..|pieces| - 1]) + pieces[|pieces| - 1]
  }

  /** What reaches a file when the writes numbered in `failing` fail, the first one
      being write number `at`. */
  function Written(pieces: seq<string>, failing: set<nat>, at: nat): string {
    if pieces == [] then ""
    else
      var last := |pieces| - 1;
      Written(pieces[..last], failing, at) + (if at + last in failing then "" else pieces[last])
  }

  /** No write from number `from` up to `to` fails. */
  predicate Clear(failing: set<nat>, from: nat, to: nat) {
    forall k :: from <= k < to ==> k !in failing
  }

  lemma {:induction false} ConcatSum(a: seq<string>, b: seq<string>)
    ensures Concat(a + b) == Concat(a) + Concat(b)
  {
    if b == [] {
      assert a + b == a;
    } else {
      ConcatSum(a, b[..|b| - 1]);
      Assoc(Concat(a), Concat(b[..|b| - 1]), b[|b| - 1]);
      assert (a + b)[..|a + b| - 1] == a + b[..|b| - 1];
    }
  }

  lemma WrittenSnoc(pieces: seq<string>, piece: string, failing: set<nat>, at: nat)
    ensures Written(pieces + [piece], failing, at)
         == Written(pieces, failing, at) + (if at + |pieces| in failing then "" else piece)
  {
  }

  lemma {:induction false} WrittenAll(pieces: seq<string>, failing: set<nat>, at: nat)
    requires Clear(failing, at, at + |pieces|)
    ensures Written(pieces, failing, at) == Concat(pieces)
  {
    if pieces != [] {
      WrittenAll(pieces[..|pieces| - 1], failing, at);
    }
  }

  /** A file open for writing. */
  class OutFile {
    const failing: set<nat>
    var writes: nat
    var text: string

    /** The file has received `pieces` after `before`, and `succ` says whether all of
        `pieces` reached it. */
    ghost predicate Batch(before: seq<string>, pieces: seq<string>, succ: bool)
      reads this
    {
      && writes == |before| + |pieces|
      && text == Written(before + pieces, failing, 0)
      && succ == Clear(failing, |before|, |before| + |pieces|)
    }

    constructor (failing: set<nat>)
      ensures this.failing == failing && Batch([], [], true)
    {
      this.failing, writes, text := failing, 0, "";
    }

    /** Writes one more piece; a failure clears `succ`. */
    method Put(s: string, succ: bool, ghost before: seq<string>, ghost pieces: seq<string>)
      returns (succ': bool)
      requires Batch(before, pieces, succ)
      modifies this
      ensures Batch(before, pieces + [s], succ')
    {
      WrittenSnoc(before + pieces, s, failing, 0);
      Assoc(before, pieces, [s]);
      var ok := writes !in failing;
      if ok {
        text := text + s;
      }
      succ' := succ && ok;
      writes := writes + 1;
    }

    /** From here on `succ` is about what follows. */
    lemma Restart(before: seq<string>, pieces: seq<string>, succ: bool)
      requires Batch(before, pieces, succ)
      ensures Batch(before + pieces, [], true)
    {
      assert before + pieces + [] == before + pieces;
    }
  }

  // ----- The printer ---------------------------------------------------------------------

  /** Writes the attributes of the descriptor and its recognition block. */
  method WriteHead(file: OutFile, imn: MimeNode) returns (succ: bool)
    requires file.Batch([], [], true) && Printable(imn.Value())
    modifies file
    ensures file.Batch([], HeadPieces(imn.Value()), succ)
  {
    hide OutFile.Batch, RecogPieces;
    var strings := ["AMTD\n", "1\n", "Type ", imn.mimetype.value, "\n"];
    ghost var done: seq<string> := [];
    succ := true;
    for i := 0 to 5
      invariant done == strings[..i] && file.Batch([], done, succ)
    {
      succ := file.Put(strings[i], succ, [], done);
      done := done + [strings[i]];
    }
    assert done == strings;
    if imn.description.Some? && imn.description.value != "" {
      var line := Truncated("Name " + imn.description.value + "\n", LINE_BUFFER);
      succ := file.Put(line, succ, [], done);
      done := done + [line];
    }
    if imn.priority != 0 {
      var line := Truncated("Priority " + PrintLong(imn.priority) + "\n", LINE_BUFFER);
      succ := file.Put(line, succ, [], done);
      done := done + [line];
    }
    if imn.recog.Some? {
      succ := WriteRecog(file, imn.recog.value, succ, done);
      done := done + RecogPieces(imn.recog.value);
    }
    assert done == HeadPieces(imn.Value());
  }

  method WriteRecogLines(file: OutFile, nodes: seq<RecogNode>, succ: bool, ghost before: seq<string>)
    returns (succ': bool)
    requires file.Batch([], before, succ) && forall i :: 0 <= i < |nodes| ==> HasLine(nodes[i])
    modifies file
    ensures file.Batch([], before + RecogLines(nodes), succ')
  {
    hide OutFile.Batch, RecogLine;
    succ' := succ;
    ghost var done := before;
    for i := 0 to |nodes|
      invariant done == before + RecogLines(nodes[..i]) && file.Batch([], done, succ')
    {
      assert nodes[..i + 1][..i] == nodes[..i];
      succ' := file.Put(RecogLine(nodes[i]), succ', [], done);
      done := done + [RecogLine(nodes[i])];
    }
    assert nodes[..|nodes|] == nodes;
  }

  /** Writes the recognition block. */
  method WriteRecog(file: OutFile, ctx: Recog, succ: bool, ghost before: seq<string>) returns (succ': bool)
    requires file.Batch([], before, succ)
    requires forall i :: 0 <= i < |ctx.nodes| ==> HasLine(ctx.nodes[i])
    modifies file
    ensures file.Batch([], before + RecogPieces(ctx), succ')
  {
    hide OutFile.Batch, RecogLines;
    ghost var done := before + ["Match\n"];
    succ' := file.Put("Match\n", succ, [], before);
    if ctx.pattern.Some? {
      var line := Truncated("\tPatternHint " + ctx.pattern.value + "\n", LINE_BUFFER);
      succ' := file.Put(line, succ', [], done);
      done := done + [line];
    }
    if ctx.nodes != [] {
      succ' := WriteRecogLines(file, ctx.nodes, succ', done);
      done := done + RecogLines(ctx.nodes);
      succ' := file.Put("\tEnd\n", succ', [], done);
      done := done + ["\tEnd\n"];
    }
    assert done == before + RecogPieces(ctx);
  }

  method WriteCommands(file: OutFile, commands: seq<Command>, ghost before: seq<string>) returns (succ: bool)
    requires file.Batch(before, [], true)
    modifies file
    ensures file.Batch(before, CommandLines(commands), succ)
  {
    hide OutFile.Batch, CommandLine;
    succ := true;
    ghost var done: seq<string> := [];
    for i := 0 to |commands|
      invariant done == CommandLines(commands[..i]) && file.Batch(before, done, succ)
    {
      assert commands[..i + 1][..i] == commands[..i];
      succ := file.Put(CommandLine(commands[i]), succ, before, done);
      done := done + [CommandLine(commands[i])];
    }
    assert commands[..|commands|] == commands;
  }

  method WriteAction(file: OutFile, event: Event, ghost before: seq<string>) returns (succ: bool)
    requires file.Batch(before, [], true)
    modifies file
    ensures file.Batch(before, [EventLine(event)], succ)
  {
    match event {
      case DoubleClick => succ := file.Put("\tEvent DoubleClick\n", true, before, []);
      case DragNDrop => succ := file.Put("\tEvent DragNDrop\n", true, before, []);
      case _ => succ := file.Put("\tEvent Menu\n", true, before, []);
    }
    assert [] + [EventLine(event)] == [EventLine(event)];
  }

  method WriteQualifier(file: OutFile, q: Qualifier, succ: bool, ghost before: seq<string>, ghost done: seq<string>)
    returns (succ': bool)
    requires file.Batch(before, done, succ)
    modifies file
    ensures file.Batch(before, done + QualifierLines(q), succ')
  {
    hide OutFile.Batch;
    match q {
      case Alt => succ' := file.Put("\tQualifier ALT\n", succ, before, done);
      case Shift => succ' := file.Put("\tQualifier SHIFT\n", succ, before, done);
      case Control => succ' := file.Put("\tQualifier CONTROL\n", succ, before, done);
      case NoQualifier => assert done + [] == done;
        succ' := succ;
    }
  }

  method WriteFlag(file: OutFile, present: bool, line: string, succ: bool,
                   ghost before: seq<string>, ghost done: seq<string>)
    returns (succ': bool)
    requires file.Batch(before, done, succ)
    modifies file
    ensures file.Batch(before, done + (if present then [line] else []), succ')
  {
    hide OutFile.Batch;
    succ' := succ;
    if present {
      succ' := file.Put(line, succ, before, done);
    } else {
      assert done + [] == done;
    }
  }

  method WriteFlags(file: OutFile, flags: set<Flag>, succ: bool, ghost before: seq<string>, ghost done: seq<string>)
    returns (succ': bool)
    requires file.Batch(before, done, succ)
    modifies file
    ensures file.Batch(before, done + FlagLines(flags), succ')
  {
    hide OutFile.Batch;
    ghost var l1 := if CdSource in flags then ["\tFlag cd source\n"] else [];
    ghost var l2 := if CdDestination in flags then ["\tFlag cd destination\n"] else [];
    ghost var l3 := if Unquoted in flags then ["\tFlag unquoted\n"] else [];
    ghost var l4 := if Multiple in flags then ["\tFlag multiple\n"] else [];
    ghost var l5 := if Async in flags then ["\tFlag asynchronous\n"] else [];
    succ' := WriteFlag(file, CdSource in flags, "\tFlag cd source\n", succ, before, done);
    succ' := WriteFlag(file, CdDestination in flags, "\tFlag cd destination\n", succ', before, done + l1);
    succ' := WriteFlag(file, Unquoted in flags, "\tFlag unquoted\n", succ', before, done + l1 + l2);
    succ' := WriteFlag(file, Multiple in flags, "\tFlag multiple\n", succ', before, done + l1 + l2 + l3);
    succ' := WriteFlag(file, Async in flags, "\tFlag asynchronous\n", succ', before, done + l1 + l2 + l3 + l4);
    AddFive(done, l1, l2, l3, l4, l5);
  }

  lemma AddFive(done: seq<string>, l1: seq<string>, l2: seq<string>, l3: seq<string>, l4: seq<string>, l5: seq<string>)
    ensures done + l1 + l2 + l3 + l4 + l5 == done + (l1 + l2 + l3 + l4 + l5)
  {
  }

  /** Writes an action's names. */
  method WriteNames(cat: Catalog, file: OutFile, an: ActionNode, ghost before: seq<string>)
    returns (succ: bool)
    requires file.Batch(before, [], true) && an.name.Some?
    modifies file
    ensures file.Batch(before, NamePieces(cat, an.Value()), succ)
  {
    hide OutFile.Batch, English;
    var english := English(cat, an.name.value);
    succ := file.Put("Action\n\tName ", true, before, []);
    ghost var done := [] + ["Action\n\tName "];
    succ := file.Put(english, succ, before, done);
    done := done + [english];
    succ := file.Put("\n", succ, before, done);
    done := done + ["\n"];
    if an.menuName.Some? {
      english := English(cat, an.menuName.value);
      succ := file.Put("\tMenu ", succ, before, done);
      done := done + ["\tMenu "];
      succ := file.Put(english, succ, before, done);
      done := done + [english];
      succ := file.Put("\n", succ, before, done);
      done := done + ["\n"];
    }
    assert done == NamePieces(cat, an.Value());
  }

  /** Writes one action, setting its event as the default action asks. Only the writes
      after the event count for the result. */
  method WriteOneAction(cat: Catalog, file: OutFile, an: ActionNode, i: nat, num: int, ghost before: seq<string>)
    returns (succ: bool)
    requires file.Batch(before, [], true) && an.name.Some?
    modifies file, an`event
    ensures an.Value() == old(an.Value()).(event := SavedEvent(old(an.event), i, num))
    ensures file.Batch(before + ActionHead(cat, an.Value()), ActionTail(an.Value()), succ)
  {
    hide OutFile.Batch, NamePieces, CommandLines, QualifierLines, FlagLines, EventLine;
    ghost var start := before + NamePieces(cat, an.Value());
    succ := WriteNames(cat, file, an, before);
    file.Restart(before, NamePieces(cat, an.Value()), succ);
    if num == -1 || (an.event != DoubleClick && an.event != MenuEvent) {
      succ := WriteAction(file, an.event, start);
    } else if i == num {
      succ := WriteAction(file, DoubleClick, start);
      an.event := DoubleClick;
    } else {
      succ := WriteAction(file, MenuEvent, start);
      an.event := MenuEvent;
    }
    SameNames(cat, old(an.Value()), an.event);
    Assoc(before, NamePieces(cat, an.Value()), [EventLine(an.event)]);
    file.Restart(start, [EventLine(an.event)], succ);
    start := start + [EventLine(an.event)];
    ghost var done := CommandLines(an.commands);
    succ := WriteCommands(file, an.commands, start);
    succ := WriteQualifier(file, an.qualifier, succ, start, done);
    done := done + QualifierLines(an.qualifier);
    succ := WriteFlags(file, an.flags, succ, start, done);
    done := done + FlagLines(an.flags);
    succ := file.Put("\tEnd\n", succ, start, done);
  }

  lemma SameNames(cat: Catalog, an: Action, event: Event)
    requires an.name.Some?
    ensures NamePieces(cat, an.(event := event)) == NamePieces(cat, an)
  {
  }

  /** The number of the first write whose failure the result still tells. */
  function FirstReported(cat: Catalog, d: Descriptor): (n: nat)
    requires Printable(d)
    ensures n <= |Pieces(cat, d)|
  {
    if d.actions == [] then 0
    else |Pieces(cat, d)| - 1 - |ActionTail(d.actions[|d.actions| - 1])|
  }

  lemma AllActionPiecesSnoc(cat: Catalog, actions: seq<Action>, an: Action)
    requires forall i :: 0 <= i < |actions| ==> actions[i].name.Some?
    requires an.name.Some?
    ensures AllActionPieces(cat, actions + [an]) == AllActionPieces(cat, actions) + ActionPieces(cat, an)
  {
  }

  /** Writes the actions. `target` is the list as it is left. */
  method WriteActions(cat: Catalog, file: OutFile, nodes: seq<ActionNode>, num: int, succ: bool,
                      ghost head: seq<string>, ghost target: seq<Action>)
    returns (succ': bool)
    requires file.Batch([], head, succ)
    requires |target| == |nodes| && forall i, j :: 0 <= i < j < |nodes| ==> nodes[i] != nodes[j]
    requires forall i :: 0 <= i < |nodes| ==> nodes[i].name.Some?
    requires forall i :: 0 <= i < |nodes| ==>
      target[i] == nodes[i].Value().(event := SavedEvent(nodes[i].event, i, num))
    modifies file, nodes`event
    ensures forall i :: 0 <= i < |nodes| ==> nodes[i].Value() == target[i]
    ensures forall i :: 0 <= i < |target| ==> target[i].name.Some?
    ensures ActionsWritten(cat, file, head, target, |nodes|, succ')
  {
    hide ActionHead, ActionTail, SavedEvent, ActionsWritten, OutFile.Batch;
    succ' := succ;
    assert forall i :: 0 <= i < |target| ==> target[i].name.Some?;
    NoActionsWritten(cat, file, head, target, succ);
    for i := 0 to |nodes|
      invariant forall k :: 0 <= k < i ==> nodes[k].Value() == target[k]
      invariant forall k :: i <= k < |nodes| ==> nodes[k].Value() == old(nodes[k].Value())
      invariant ActionsWritten(cat, file, head, target, i, succ')
    {
      ghost var before := head + AllActionPieces(cat, target[..i]);
      ActionsSoFar(cat, file, head, target, i, succ');
      succ' := WriteOneAction(cat, file, nodes[i], i, num, before);
      assert nodes[i].Value() == target[i];
      OneMoreWritten(cat, file, head, target, i, succ');
    }
  }

  /** The file holds the head and the first `i` actions. The result tells of the head
      alone, or of the last action's writes after its event. */
  ghost predicate ActionsWritten(cat: Catalog, file: OutFile, head: seq<string>, actions: seq<Action>,
                                 i: nat, succ: bool)
    requires i <= |actions| && forall k :: 0 <= k < |actions| ==> actions[k].name.Some?
    reads file
  {
    if i == 0 then file.Batch([], head, succ)
    else
      file.Batch(head + AllActionPieces(cat, actions[..i - 1]) + ActionHead(cat, actions[i - 1]),
                 ActionTail(actions[i - 1]), succ)
  }

  lemma NoActionsWritten(cat: Catalog, file: OutFile, head: seq<string>, actions: seq<Action>, succ: bool)
    requires file.Batch([], head, succ) && forall k :: 0 <= k < |actions| ==> actions[k].name.Some?
    ensures ActionsWritten(cat, file, head, actions, 0, succ)
  {
  }

  lemma OneMoreWritten(cat: Catalog, file: OutFile, head: seq<string>, actions: seq<Action>, i: nat, succ: bool)
    requires i < |actions| && forall k :: 0 <= k < |actions| ==> actions[k].name.Some?
    requires file.Batch(head + AllActionPieces(cat, actions[..i]) + ActionHead(cat, actions[i]),
                        ActionTail(actions[i]), succ)
    ensures ActionsWritten(cat, file, head, actions, i + 1, succ)
  {
  }

  /** After `i` actions, the file holds all their pieces. */
  lemma ActionsSoFar(cat: Catalog, file: OutFile, head: seq<string>, actions: seq<Action>, i: nat, succ: bool)
    requires i <= |actions| && forall k :: 0 <= k < |actions| ==> actions[k].name.Some?
    requires ActionsWritten(cat, file, head, actions, i, succ)
    ensures file.Batch(head + AllActionPieces(cat, actions[..i]), [], true)
  {
    hide OutFile.Batch, ActionHead, ActionTail;
    if i == 0 {
      file.Restart([], head, succ);
      assert [] + head == head + AllActionPieces(cat, actions[..0]);
    } else {
      var start := head + AllActionPieces(cat, actions[..i - 1]);
      var last := actions[i - 1];
      file.Restart(start + ActionHead(cat, last), ActionTail(last), succ);
      Assoc(start, ActionHead(cat, last), ActionTail(last));
      Assoc(head, AllActionPieces(cat, actions[..i - 1]), ActionPieces(cat, last));
      assert actions[..i] == actions[..i - 1] + [last];
      AllActionPiecesSnoc(cat, actions[..i - 1], last);
    }
  }

  /** The file holds the pieces of `d`, those whose write failed apart; `succ` says whether
      the pieces from `FirstReported` on were written. */
  ghost predicate Saved(cat: Catalog, file: OutFile, d: Descriptor, succ: bool)
    reads file
  {
    && Printable(d)
    && file.text == Written(Pieces(cat, d), file.failing, 0)
    && succ == Clear(file.failing, FirstReported(cat, d), |Pieces(cat, d)|)
  }

  /** Writes a descriptor to an open file, giving it a new default action unless `num`
      is -1. The file receives the pieces of the descriptor as it is left. */
  method WriteDescriptor(cat: Catalog, file: OutFile, imn: MimeNode, num: int) returns (succ: bool)
    requires imn.Valid() && Printable(imn.Value()) && file.Batch([], [], true)
    modifies file, imn.actions`event
    ensures imn.Value() == WithDefault(old(imn.Value()), num)
    ensures Saved(cat, file, imn.Value(), succ)
  {
    hide HeadPieces, ActionTail, ActionHead, AllActionPieces, OutFile.Batch, ActionsWritten, Saved;
    ghost var d := WithDefault(imn.Value(), num);
    succ := WriteHead(file, imn);
    SameHead(imn.Value(), num);
    succ := WriteActions(cat, file, imn.actions, num, succ, HeadPieces(d), d.actions);
    assert imn.Value().actions == d.actions;
    succ := FinishFile(cat, file, d, succ);
  }

  /** Saves a descriptor; a file that does not open is a failure. */
  method ChangeFile(cat: Catalog, file: OutFile?, imn: MimeNode, num: int) returns (succ: bool)
    requires imn.Valid() && Printable(imn.Value())
    requires file != null ==> file.Batch([], [], true)
    modifies file, imn.actions`event
    ensures file == null ==> !succ && imn.Value() == old(imn.Value())
    ensures file != null ==>
      imn.Value() == WithDefault(old(imn.Value()), num) && Saved(cat, file, imn.Value(), succ)
  {
    hide Saved, OutFile.Batch;
    succ := false;
    if file != null {
      succ := WriteDescriptor(cat, file, imn, num);
    }
  }

  lemma SameHead(d: Descriptor, num: int)
    requires Printable(d)
    ensures HeadPieces(WithDefault(d, num)) == HeadPieces(d)
  {
  }

  /** Writes the end of a descriptor. */
  method FinishFile(cat: Catalog, file: OutFile, ghost d: Descriptor, succ: bool) returns (succ': bool)
    requires Printable(d) && ActionsWritten(cat, file, HeadPieces(d), d.actions, |d.actions|, succ)
    modifies file
    ensures Saved(cat, file, d, succ')
  {
    hide HeadPieces, ActionTail, ActionHead, Written;
    ghost var all, last := d.actions, |d.actions| - 1;
    ghost var before :=
      if all == [] then [] else HeadPieces(d) + AllActionPieces(cat, all[..last]) + ActionHead(cat, all[last]);
    ghost var pieces := if all == [] then HeadPieces(d) else ActionTail(all[last]);
    succ' := file.Put("End\n", succ, before, pieces);
    assert before + (pieces + ["End\n"]) == Pieces(cat, d);
  }
}
