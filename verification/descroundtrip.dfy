/** Saving a descriptor and parsing it back. */
module DescriptorRoundTrip {
  import opened Actions
  import opened DescriptorParser
  import opened DescriptorSaver
  import opened Descriptors
  import opened Locale
  import opened Options
  import opened Sequences
  import opened Text

  // ----- Keywords --------------------------------------------------------------------

  lemma Differ(a: string, b: string, i: nat)
    requires i < |a| && i < |b| && Lower(a[i]) != Lower(b[i])
    ensures !SameWord(a, b)
  {
    assert Fold(a)[i] != Fold(b)[i];
  }

  lemma RecogKeywords()
    ensures KeywordOf("End") == KEnd
    ensures KeywordOf("Name") == KName
    ensures KeywordOf("Match") == KMatch
    ensures KeywordOf("MatchHunk") == KMatchHunk
    ensures KeywordOf("Symbol") == KSymbol
    ensures KeywordOf("File") == KFile
    ensures KeywordOf("Directory") == KDirectory
    ensures KeywordOf("Filesize") == KFileSize
  {
    assert SameWord("Filesize", "FileSize") by {
      assert Fold("Filesize") == Fold("FileSize");
    }
    hide Fold;
    Differ("File", "Name", 0);
    Differ("Directory", "MatchHunk", 0);
  }

  lemma MoreRecogKeywords()
    ensures KeywordOf("ContentType") == KContentType
    ensures KeywordOf("Device") == KDevice
    ensures KeywordOf("Comment") == KComment
    ensures KeywordOf("(") == KOpen
  {
    hide Fold;
    Differ("Device", "Symbol", 0);
  }

  lemma RecogOperators()
    ensures KeywordOf(")") == KClose
    ensures KeywordOf("OR") == KOr
    ensures KeywordOf("AND") == KAnd
    ensures KeywordOf("PatternHint") == KPatternHint
  {
    hide Fold;
    Differ("AND", "End", 0);
    Differ("PatternHint", "ContentType", 0);
  }

  lemma ActionKeywords()
    ensures KeywordOf("Menu") == KMenu
    ensures KeywordOf("Event") == KEvent
    ensures KeywordOf("Command") == KCommand
  {
    hide Fold;
    Differ("Menu", "Name", 0);
    Differ("Menu", "File", 0);
    Differ("Event", "Match", 0);
    Differ("Command", "Comment", 4);
  }

  lemma MoreActionKeywords()
    ensures KeywordOf("Flag") == KFlag
    ensures KeywordOf("Qualifier") == KQualifier
  {
    hide Fold;
    Differ("Flag", "Name", 0);
    Differ("Flag", "File", 1);
    Differ("Flag", "Menu", 0);
    Differ("Qualifier", "MatchHunk", 0);
    Differ("Qualifier", "Directory", 0);
  }

  lemma BodyKeywords()
    ensures KeywordOf("Type") == KType
    ensures KeywordOf("Action") == KAction
    ensures KeywordOf("Priority") == KPriority
  {
    hide Fold;
    Differ("Type", "Name", 0);
    Differ("Type", "File", 0);
    Differ("Type", "Menu", 0);
    Differ("Type", "Flag", 0);
    Differ("Action", "Symbol", 0);
    Differ("Action", "Device", 0);
    Differ("Priority", "FileSize", 0);
  }

  // ----- One printed line --------------------------------------------------------------

  /** The longest line that one read takes whole, without its newline. */
  const MAX_LINE: nat := 1022

  /** The printer's line buffer. */
  const PRINT_BUFFER: nat := 256

  lemma {:induction false} LineEnds(line: string, more: string, limit: nat)
    requires NoNewline(line) && |line| < limit
    ensures LineLength(line + "\n" + more, limit) == |line| + 1
  {
    var s := line + "\n" + more;
    if line != "" {
      assert line[0] != '\n';
      assert s[1..] == line[1..] + "\n" + more;
      LineEnds(line[1..], more, limit - 1);
    }
  }

  /** The state after a printed line with the words `ws` has been read. */
  ghost function After(ws: seq<string>, more: string, st: ReadState): ReadState
    requires |ws| <= 16
  {
    ReadState(more, ws + st.words[|ws|..], |ws|)
  }

  lemma PrintedLine(st: ReadState, line: string, more: string)
    requires NoNewline(line) && line != "" && line[0] != ';' && |line| <= MAX_LINE
    requires 1 <= |Words(line)| <= 16
    requires st.rest == line + "\n" + more
    ensures NextLine(st) == LineResult(true, After(Words(line), more, st))
  {
    hide Words;
    LineEnds(line, more, LINE_SIZE - 1);
    var n := |line| + 1;
    assert line + "\n" + more == (line + "\n") + more;
    Cut(line + "\n", more);
    assert st.rest[..n] == line + "\n" && st.rest[n..] == more;
    assert StripEol(line + "\n") == line;
  }

  /** A printed line: its indent, a keyword, and words separated by spaces. */
  function Line(indent: bool, keyword: string, ws: seq<string>): string {
    (if indent then "\t" else "") + keyword + " " + Join(ws)
  }

  function Bare(indent: bool, keyword: string): string {
    (if indent then "\t" else "") + keyword
  }

  predicate IsKeyword(w: string) {
    IsWord(w) && w[0] != ';'
  }

  lemma ReadLineOfWords(st: ReadState, indent: bool, keyword: string, ws: seq<string>, more: string)
    requires IsKeyword(keyword) && AreWords(ws) && |ws| <= 15
    requires |Line(indent, keyword, ws)| <= MAX_LINE
    requires st.rest == Line(indent, keyword, ws) + "\n" + more
    ensures NextLine(st) == LineResult(true, After([keyword] + ws, more, st))
  {
    hide Words, NextLine, Join;
    var line := keyword + " " + Join(ws);
    WordsOfLine(keyword, ws);
    JoinHasNoNewline(ws);
    WordHasNoNewline(keyword);
    if indent {
      assert Line(indent, keyword, ws) == ['\t'] + line;
      SpaceFirst('\t', line);
    } else {
      assert Line(indent, keyword, ws) == line;
    }
    PrintedLine(st, Line(indent, keyword, ws), more);
  }

  lemma ReadBareLine(st: ReadState, indent: bool, keyword: string, more: string)
    requires IsKeyword(keyword) && |keyword| < MAX_LINE
    requires st.rest == Bare(indent, keyword) + "\n" + more
    ensures NextLine(st) == LineResult(true, After([keyword], more, st))
  {
    hide Words, NextLine;
    WordAlone(keyword);
    WordHasNoNewline(keyword);
    if indent {
      assert Bare(indent, keyword) == ['\t'] + keyword;
      SpaceFirst('\t', keyword);
    } else {
      assert Bare(indent, keyword) == keyword;
    }
    PrintedLine(st, Bare(indent, keyword), more);
  }

  lemma WordHasNoNewline(w: string)
    requires IsWord(w)
    ensures NoNewline(w)
  {
  }

  lemma AfterWords(ws: seq<string>, more: string, st: ReadState)
    requires 1 <= |ws| <= 16
    ensures var st' := After(ws, more, st);
      && st'.words[0] == ws[0]
      && (|ws| > 1 ==> st'.words[1] == ws[1])
      && st'.words[..|ws|] == ws
  {
  }

  // ----- Well-formed descriptors ---------------------------------------------------------

  /** At most `max` words separated by single spaces, each short enough for its buffer. */
  predicate Spaced(s: string, max: nat) {
    && Join(Words(s)) == s
    && |Words(s)| <= max
    && forall i :: 0 <= i < |Words(s)| ==> |Words(s)[i]| < 512
  }

  predicate NodeOk(n: RecogNode) {
    && HasLine(n)
    && var (keyword, hasData) := RecogKeyword(n.cmd);
       if hasData then IsWord(n.data.value) && |keyword| + |n.data.value| < PRINT_BUFFER - 3
       else n.data.None?
  }

  predicate PatternOk(pattern: Option<string>) {
    pattern.Some? ==> IsWord(pattern.value) && |pattern.value| < PRINT_BUFFER - 14
  }

  predicate RecogOk(ctx: Recog) {
    PatternOk(ctx.pattern) && forall i :: 0 <= i < |ctx.nodes| ==> NodeOk(ctx.nodes[i])
  }

  /** A name that fits on its line and survives being saved in English. */
  predicate NameOk(cat: Catalog, name: string) {
    && Spaced(English(cat, name), 15)
    && |English(cat, name)| <= MAX_LINE - 6
    && Translate(cat, English(cat, name)) == name
  }

  predicate CommandOk(c: Command) {
    Spaced(c.text, 14) && |c.text| < PRINT_BUFFER - 21
  }

  const PERSISTED: set<Flag> := {CdSource, CdDestination, Unquoted, Multiple}

  ghost predicate ActionOk(cat: Catalog, an: Action) {
    && an.name.Some? && NameOk(cat, an.name.value)
    && (an.menuName.Some? ==> NameOk(cat, an.menuName.value))
    && !an.event.NoEvent?
    && (forall i :: 0 <= i < |an.commands| ==> CommandOk(an.commands[i]))
    && an.flags == an.flags * PERSISTED + NeedAll(an.commands)
  }

  /** Everything that a descriptor needs to survive apart from a complete recogniser. */
  ghost predicate AttributesOk(cat: Catalog, d: Descriptor) {
    && d.mimetype.Some? && IsWord(d.mimetype.value) && |d.mimetype.value| < 512
    && (d.description.Some? ==>
          Spaced(d.description.value, 15) && 0 < |d.description.value| < PRINT_BUFFER - 6)
    && (d.recog.Some? ==> RecogOk(d.recog.value))
    && (forall i :: 0 <= i < |d.actions| ==> ActionOk(cat, d.actions[i]))
  }

  /** A recogniser is saved whole when it has steps: only then is its end written. */
  predicate RecogEnds(d: Descriptor) {
    d.recog.None? || d.recog.value.nodes != []
  }

  ghost predicate WellFormed(cat: Catalog, d: Descriptor) {
    AttributesOk(cat, d) && RecogEnds(d)
  }

  // ----- The recognition block ---------------------------------------------------------------

  /** A step's keyword reads back as the step. */
  lemma RecogKeywordRead(n: RecogNode, data: string)
    requires NodeOk(n) && (n.data.Some? ==> n.data.value == data)
    ensures var k := KeywordOf(RecogKeyword(n.cmd).0);
      !k.KEnd? && !k.KPatternHint? && RecogOf(k, data) == Some(n)
  {
    RecogKeywords();
    MoreRecogKeywords();
    RecogOperators();
    hide KeywordOf;
  }

  lemma RecogKeywordShort(cmd: RecogCommand)
    requires cmd != Protection
    ensures IsKeyword(RecogKeyword(cmd).0) && |RecogKeyword(cmd).0| <= 11
  {
  }

  lemma ReadNode(st: ReadState, ctx: Recog, n: RecogNode, more: string) returns (st': ReadState)
    requires NodeOk(n) && st.rest == RecogLine(n) + more
    ensures st'.rest == more
    ensures MatchBlock(st, ctx) == MatchBlock(st', ctx.(nodes := ctx.nodes + [n]))
  {
    hide KeywordOf, RecogOf, NextLine, IsKeyword, Words;
    var (keyword, hasData) := RecogKeyword(n.cmd);
    RecogKeywordShort(n.cmd);
    var ws := if hasData then [n.data.value] else [];
    assert Join([]) == "" && (hasData ==> Join(ws) == n.data.value);
    if hasData {
      assert RecogLine(n) + more == Line(true, keyword, ws) + "\n" + more;
      ReadLineOfWords(st, true, keyword, ws, more);
    } else {
      assert RecogLine(n) + more == Bare(true, keyword) + "\n" + more;
      ReadBareLine(st, true, keyword, more);
      assert [keyword] + [] == [keyword];
    }
    st' := After([keyword] + ws, more, st);
    AfterWords([keyword] + ws, more, st);
    RecogKeywordRead(n, st'.words[1]);
  }

  lemma LastRecogLine(nodes: seq<RecogNode>)
    requires nodes != [] && forall i :: 0 <= i < |nodes| ==> HasLine(nodes[i])
    ensures Concat(RecogLines(nodes)) == Concat(RecogLines(nodes[..|nodes| - 1])) + RecogLine(nodes[|nodes| - 1])
  {
  }

  lemma {:induction false} ReadNodes(st: ReadState, ctx: Recog, nodes: seq<RecogNode>, more: string)
    returns (st': ReadState)
    requires forall i :: 0 <= i < |nodes| ==> HasLine(nodes[i]) && NodeOk(nodes[i])
    requires st.rest == Concat(RecogLines(nodes)) + more
    ensures st'.rest == more
    ensures MatchBlock(st, ctx) == MatchBlock(st', ctx.(nodes := ctx.nodes + nodes))
  {
    hide MatchBlock, RecogLine, NodeOk;
    if nodes == [] {
      assert ctx.nodes + nodes == ctx.nodes;
      st' := st;
    } else {
      var front, last := nodes[..|nodes| - 1], nodes[|nodes| - 1];
      LastRecogLine(nodes);
      hide RecogLines, Concat;
      Assoc(Concat(RecogLines(front)), RecogLine(last), more);
      st' := ReadNodes(st, ctx, front, RecogLine(last) + more);
      st' := ReadNode(st', ctx.(nodes := ctx.nodes + front), last, more);
      assert ctx.nodes + front + [last] == ctx.nodes + nodes;
    }
  }

  lemma ReadPattern(st: ReadState, ctx: Recog, pattern: string, more: string) returns (st': ReadState)
    requires PatternOk(Some(pattern)) && st.rest == "\tPatternHint " + pattern + "\n" + more
    ensures st'.rest == more
    ensures MatchBlock(st, ctx) == MatchBlock(st', ctx.(pattern := Some(pattern)))
  {
    hide KeywordOf, NextLine;
    RecogOperators();
    assert st.rest == Line(true, "PatternHint", [pattern]) + "\n" + more;
    ReadLineOfWords(st, true, "PatternHint", [pattern], more);
    st' := After(["PatternHint"] + [pattern], more, st);
    AfterWords(["PatternHint"] + [pattern], more, st);
  }

  lemma ReadMatchEnd(st: ReadState, ctx: Recog, more: string) returns (st': ReadState)
    requires st.rest == "\tEnd\n" + more
    ensures st'.rest == more
    ensures MatchBlock(st, ctx) == MatchResult(true, st', Some(ctx))
  {
    hide KeywordOf, NextLine;
    RecogKeywords();
    assert st.rest == Bare(true, "End") + "\n" + more;
    ReadBareLine(st, true, "End", more);
    st' := After(["End"], more, st);
  }

  // ----- The action block -----------------------------------------------------------------------

  lemma ArgumentsRead(keyword: string, ws: seq<string>, more: string, st: ReadState, from: nat)
    requires |ws| <= 15 && from <= 1 + |ws|
    ensures var st' := After([keyword] + ws, more, st);
      from > 0 ==> Arguments(st'.words, from, st'.count) == Join(ws[from - 1..])
  {
    var st' := After([keyword] + ws, more, st);
    if 0 < from <= |ws| {
      assert st'.words[from..st'.count] == ws[from - 1..];
    }
  }

  /** Reads a line of a keyword and text made of words. */
  lemma ReadTextLine(st: ReadState, indent: bool, keyword: string, text: string, more: string) returns (st': ReadState)
    requires IsKeyword(keyword) && Spaced(text, 15) && |keyword| + |text| <= MAX_LINE - 2
    requires st.rest == (if indent then "\t" else "") + keyword + " " + text + "\n" + more
    ensures NextLine(st) == LineResult(true, st')
    ensures st'.rest == more && st'.words[0] == keyword && st'.count == 1 + |Words(text)|
    ensures Arguments(st'.words, 1, st'.count) == text
  {
    hide Words, NextLine, Join, Arguments;
    var ws := Words(text);
    WordsAreWords(text);
    ReadLineOfWords(st, indent, keyword, ws, more);
    st' := After([keyword] + ws, more, st);
    ArgumentsRead(keyword, ws, more, st, 1);
    assert ws[0..] == ws;
  }

  lemma ReadName(cat: Catalog, st: ReadState, d: Draft, name: string, more: string) returns (st': ReadState)
    requires NameOk(cat, name) && st.rest == "\tName " + English(cat, name) + "\n" + more
    ensures st'.rest == more
    ensures ActionBlock(cat, st, d) == ActionBlock(cat, st', d.(an := d.an.(name := Some(name))))
  {
    hide KeywordOf, NextLine, Words, Join, Arguments, English, Translate;
    RecogKeywords();
    st' := ReadTextLine(st, true, "Name", English(cat, name), more);
  }

  lemma ReadMenu(cat: Catalog, st: ReadState, d: Draft, name: string, more: string) returns (st': ReadState)
    requires NameOk(cat, name) && st.rest == "\tMenu " + English(cat, name) + "\n" + more
    ensures st'.rest == more
    ensures ActionBlock(cat, st, d) == ActionBlock(cat, st', d.(an := d.an.(menuName := Some(name))))
  {
    hide KeywordOf, NextLine, Words, Join, Arguments, English, Translate;
    ActionKeywords();
    st' := ReadTextLine(st, true, "Menu", English(cat, name), more);
  }

  /** Reads a line of a keyword and one word. */
  lemma ReadWordLine(st: ReadState, keyword: string, w: string, more: string) returns (st': ReadState)
    requires IsKeyword(keyword) && IsWord(w) && |keyword| + |w| <= MAX_LINE - 2
    requires st.rest == "\t" + keyword + " " + w + "\n" + more
    ensures NextLine(st) == LineResult(true, st')
    ensures st'.rest == more && st'.words[0] == keyword && st'.words[1] == w && st'.count == 2
  {
    hide NextLine;
    assert Line(true, keyword, [w]) == "\t" + keyword + " " + w;
    ReadLineOfWords(st, true, keyword, [w], more);
    st' := After([keyword] + [w], more, st);
  }

  function EventName(event: Event): string {
    match event
    case DoubleClick => "DoubleClick"
    case DragNDrop => "DragNDrop"
    case _ => "Menu"
  }

  lemma EventNameRead(event: Event)
    requires !event.NoEvent?
    ensures EventOf(EventName(event)) == Some(event)
  {
    assert Fold("DoubleClick") == Fold("doubleclick");
    assert Fold("DragNDrop") == Fold("dragndrop");
    assert Fold("Menu") == Fold("menu");
  }

  lemma EventLineText(event: Event)
    ensures EventLine(event) == "\t" + "Event" + " " + EventName(event) + "\n"
  {
  }

  lemma EventNameIsWord(event: Event)
    ensures IsWord(EventName(event)) && |EventName(event)| <= 11
  {
  }

  lemma ReadEvent(cat: Catalog, st: ReadState, d: Draft, event: Event, more: string) returns (st': ReadState)
    requires !event.NoEvent? && st.rest == EventLine(event) + more
    ensures st'.rest == more
    ensures ActionBlock(cat, st, d) == ActionBlock(cat, st', d.(an := d.an.(event := event)))
  {
    hide KeywordOf, NextLine, EventOf, EventName, EventLine;
    ActionKeywords();
    EventNameRead(event);
    EventLineText(event);
    EventNameIsWord(event);
    st' := ReadWordLine(st, "Event", EventName(event), more);
  }

  lemma KindNameRead(kind: CommandType)
    ensures KindOf(KindName(kind)) == Some(kind)
  {
    KindNamesFold();
    MoreKindNamesFold();
    Differ("INTERNAL", "amigados", 0);
    hide SameWord;
  }

  lemma KindNamesFold()
    ensures SameWord("AMIGADOS", "amigados") && SameWord("WORKBENCH", "workbench")
  {
  }

  lemma MoreKindNamesFold()
    ensures SameWord("SCRIPT", "script") && SameWord("AREXX", "arexx") && SameWord("INTERNAL", "internal")
  {
  }

  lemma KindNameIsWord(kind: CommandType)
    ensures IsWord(KindName(kind)) && |KindName(kind)| <= 9
  {
  }

  lemma ReadCommandLine(st: ReadState, c: Command, more: string) returns (st': ReadState)
    requires CommandOk(c) && st.rest == CommandLine(c) + more
    ensures NextLine(st) == LineResult(true, st')
    ensures st'.rest == more && st'.words[0] == "Command" && st'.words[1] == KindName(c.kind)
    ensures st'.count <= 16 && Arguments(st'.words, 2, st'.count) == c.text
  {
    hide NextLine, Words, Arguments, KindName;
    KindNameIsWord(c.kind);
    var ws := Words(c.text);
    var kind := KindName(c.kind);
    CommandWords(kind, c.text);
    var line := "\tCommand " + kind + " " + c.text;
    assert CommandLine(c) + more == line + "\n" + more;
    PrintedLine(st, line, more);
    var all := [kind] + ws;
    assert ["Command", kind] + ws == ["Command"] + all;
    st' := After(["Command"] + all, more, st);
    AfterWords(["Command"] + all, more, st);
    ArgumentsRead("Command", all, more, st, 2);
    assert all[1..] == ws;
  }

  lemma ReadCommand(cat: Catalog, st: ReadState, d: Draft, c: Command, more: string) returns (st': ReadState)
    requires CommandOk(c) && st.rest == CommandLine(c) + more
    ensures st'.rest == more
    ensures ActionBlock(cat, st, d) == ActionBlock(cat, st', d.(an := d.an.(commands := d.an.commands + [c])))
  {
    hide KeywordOf, NextLine, KindOf, Words, Arguments, KindName;
    ActionKeywords();
    KindNameRead(c.kind);
    st' := ReadCommandLine(st, c, more);
  }

  lemma CommandWords(kind: string, text: string)
    requires IsWord(kind) && Join(Words(text)) == text
    ensures var line := "\tCommand " + kind + " " + text;
      NoNewline(line) && Words(line) == ["Command", kind] + Words(text)
  {
    hide Words, Join;
    var ws := Words(text);
    WordsAreWords(text);
    WordsOfLine(kind, ws);
    var rest := kind + " " + text;
    SpaceFirst(' ', rest);
    WordFirst("Command", " " + rest);
    SpaceFirst('\t', "Command" + (" " + rest));
    assert "\tCommand " + kind + " " + text == ['\t'] + ("Command" + ([' '] + rest));
    assert ["Command"] + ([kind] + ws) == ["Command", kind] + ws;
    WordHasNoNewline(kind);
    JoinHasNoNewline(ws);
  }

  lemma {:induction false} ReadCommands(cat: Catalog, st: ReadState, d: Draft, commands: seq<Command>, more: string)
    returns (st': ReadState)
    requires forall i :: 0 <= i < |commands| ==> CommandOk(commands[i])
    requires st.rest == Concat(CommandLines(commands)) + more
    ensures st'.rest == more
    ensures ActionBlock(cat, st, d)
         == ActionBlock(cat, st', d.(an := d.an.(commands := d.an.commands + commands)))
  {
    hide ActionBlock, CommandLine, CommandOk;
    if commands == [] {
      assert d.an.commands + commands == d.an.commands;
      st' := st;
    } else {
      var front, last := commands[..|commands| - 1], commands[|commands| - 1];
      Assoc(Concat(CommandLines(front)), CommandLine(last), more);
      st' := ReadCommands(cat, st, d, front, CommandLine(last) + more);
      st' := ReadCommand(cat, st', d.(an := d.an.(commands := d.an.commands + front)), last, more);
      assert d.an.commands + front + [last] == d.an.commands + commands;
    }
  }

  function QualifierName(q: Qualifier): string {
    match q
    case Alt => "ALT"
    case Shift => "SHIFT"
    case _ => "CONTROL"
  }

  lemma QualifierNameRead(q: Qualifier)
    requires !q.NoQualifier?
    ensures QualifierOf(QualifierName(q)) == Some(q)
    ensures IsWord(QualifierName(q)) && |QualifierName(q)| <= 7
  {
  }

  lemma QualifierText(q: Qualifier)
    requires !q.NoQualifier?
    ensures Concat(QualifierLines(q)) == "\t" + "Qualifier" + " " + QualifierName(q) + "\n"
  {
    hide Concat;
    match q {
      case Alt => ConcatOne("\tQualifier ALT\n");
        assert "\tQualifier ALT\n" == "\t" + "Qualifier" + " " + "ALT" + "\n";
      case Shift => ConcatOne("\tQualifier SHIFT\n");
        assert "\tQualifier SHIFT\n" == "\t" + "Qualifier" + " " + "SHIFT" + "\n";
      case Control => ConcatOne("\tQualifier CONTROL\n");
        assert "\tQualifier CONTROL\n" == "\t" + "Qualifier" + " " + "CONTROL" + "\n";
    }
  }

  lemma ReadQualifier(cat: Catalog, st: ReadState, d: Draft, q: Qualifier, more: string) returns (st': ReadState)
    requires st.rest == Concat(QualifierLines(q)) + more && d.an.qualifier == NoQualifier
    ensures st'.rest == more
    ensures ActionBlock(cat, st, d) == ActionBlock(cat, st', d.(an := d.an.(qualifier := q)))
  {
    hide KeywordOf, NextLine, QualifierOf, QualifierName;
    MoreActionKeywords();
    if q.NoQualifier? {
      st' := st;
    } else {
      QualifierNameRead(q);
      QualifierText(q);
      st' := ReadWordLine(st, "Qualifier", QualifierName(q), more);
    }
  }

  lemma ConcatOne(piece: string)
    ensures Concat([piece]) == piece
  {
  }

  /** The words after the keyword on the line of a flag. */
  function FlagWords(f: Flag): seq<string> {
    match f
    case CdSource => ["cd", "source"]
    case CdDestination => ["cd", "destination"]
    case Unquoted => ["unquoted"]
    case Multiple => ["multiple"]
    case _ => ["asynchronous"]
  }

  lemma FlagWordsRead(f: Flag, words: seq<string>)
    requires f in PERSISTED + {Async} && |words| == 16
    requires words[1] == FlagWords(f)[0] && (|FlagWords(f)| == 2 ==> words[2] == FlagWords(f)[1])
    ensures FlagsOf(words, 1 + |FlagWords(f)|) == if f == Async then {} else {f}
  {
    hide Fold;
    Differ("multiple", "unquoted", 0);
  }

  lemma FlagWordsAreWords(f: Flag)
    ensures AreWords(FlagWords(f)) && |Join(FlagWords(f))| <= 14
  {
  }

  /** Reads the line of a flag, if it is there. */
  lemma ReadFlag(cat: Catalog, st: ReadState, d: Draft, f: Flag, present: bool, more: string) returns (st': ReadState)
    requires f in PERSISTED + {Async}
    requires st.rest == (if present then Line(true, "Flag", FlagWords(f)) + "\n" else "") + more
    ensures st'.rest == more
    ensures ActionBlock(cat, st, d)
         == ActionBlock(cat, st', d.(flags := d.flags + if present && f != Async then {f} else {}))
  {
    hide KeywordOf, NextLine, FlagsOf, FlagWords, Join, AreWords;
    if present {
      MoreActionKeywords();
      FlagWordsAreWords(f);
      FlagWordsLength(f);
      ReadLineOfWords(st, true, "Flag", FlagWords(f), more);
      st' := After(["Flag"] + FlagWords(f), more, st);
      FlagWordsRead(f, st'.words);
      assert d.flags + {} == d.flags;
    } else {
      assert d.flags + {} == d.flags;
      st' := st;
    }
  }

  lemma FlagWordsLength(f: Flag)
    ensures 1 <= |FlagWords(f)| <= 2
  {
  }

  /** The text written for a flag. */
  function FlagText(f: Flag, flags: set<Flag>): string {
    if f in flags then Line(true, "Flag", FlagWords(f)) + "\n" else ""
  }

  lemma FlagLineText(f: Flag, flags: set<Flag>, line: string)
    requires line == Line(true, "Flag", FlagWords(f)) + "\n"
    ensures Concat(if f in flags then [line] else []) == FlagText(f, flags)
  {
  }

  lemma CdLines()
    ensures Line(true, "Flag", FlagWords(CdSource)) == "\tFlag cd source"
    ensures Line(true, "Flag", FlagWords(CdDestination)) == "\tFlag cd destination"
  {
    assert ["cd", "source"][1..] == ["source"];
    assert ["cd", "destination"][1..] == ["destination"];
    assert Join(["cd", "source"]) == "cd" + " " + "source";
    assert Join(["cd", "destination"]) == "cd" + " " + "destination";
  }

  lemma PlainFlagLines()
    ensures Line(true, "Flag", FlagWords(Unquoted)) == "\tFlag unquoted"
    ensures Line(true, "Flag", FlagWords(Multiple)) == "\tFlag multiple"
    ensures Line(true, "Flag", FlagWords(Async)) == "\tFlag asynchronous"
  {
  }

  lemma FlagLinesText(flags: set<Flag>)
    ensures Concat(FlagLines(flags)) ==
      FlagText(CdSource, flags) + FlagText(CdDestination, flags) + FlagText(Unquoted, flags)
      + FlagText(Multiple, flags) + FlagText(Async, flags)
  {
    hide FlagText, Concat, Line, FlagWords;
    CdLines();
    PlainFlagLines();
    var l1 := if CdSource in flags then ["\tFlag cd source\n"] else [];
    var l2 := if CdDestination in flags then ["\tFlag cd destination\n"] else [];
    var l3 := if Unquoted in flags then ["\tFlag unquoted\n"] else [];
    var l4 := if Multiple in flags then ["\tFlag multiple\n"] else [];
    var l5 := if Async in flags then ["\tFlag asynchronous\n"] else [];
    FlagLineText(CdSource, flags, "\tFlag cd source\n");
    FlagLineText(CdDestination, flags, "\tFlag cd destination\n");
    FlagLineText(Unquoted, flags, "\tFlag unquoted\n");
    FlagLineText(Multiple, flags, "\tFlag multiple\n");
    FlagLineText(Async, flags, "\tFlag asynchronous\n");
    ConcatSum(l1, l2);
    ConcatSum(l1 + l2, l3);
    ConcatSum(l1 + l2 + l3, l4);
    ConcatSum(l1 + l2 + l3 + l4, l5);
  }

  lemma AssocFive(a: string, b: string, c: string, d: string, e: string, f: string)
    ensures a + b + c + d + e + f == a + (b + (c + (d + (e + f))))
  {
  }

  /** The flags that a block with all the flag lines of `flags` sets. */
  lemma ReadFlags(cat: Catalog, st: ReadState, d: Draft, flags: set<Flag>, more: string) returns (st': ReadState)
    requires st.rest == Concat(FlagLines(flags)) + more && d.flags == {}
    ensures st'.rest == more
    ensures ActionBlock(cat, st, d) == ActionBlock(cat, st', d.(flags := flags * PERSISTED))
  {
    hide ActionBlock, FlagWords, FlagLines, Concat, Line;
    FlagLinesText(flags);
    var t1, t2, t3, t4, t5 := FlagText(CdSource, flags), FlagText(CdDestination, flags),
      FlagText(Unquoted, flags), FlagText(Multiple, flags), FlagText(Async, flags);
    AssocFive(t1, t2, t3, t4, t5, more);
    st' := ReadFlag(cat, st, d, CdSource, CdSource in flags, t2 + (t3 + (t4 + (t5 + more))));
    var f := d.flags + if CdSource in flags then {CdSource} else {};
    st' := ReadFlag(cat, st', d.(flags := f), CdDestination, CdDestination in flags, t3 + (t4 + (t5 + more)));
    f := f + if CdDestination in flags then {CdDestination} else {};
    st' := ReadFlag(cat, st', d.(flags := f), Unquoted, Unquoted in flags, t4 + (t5 + more));
    f := f + if Unquoted in flags then {Unquoted} else {};
    st' := ReadFlag(cat, st', d.(flags := f), Multiple, Multiple in flags, t5 + more);
    f := f + if Multiple in flags then {Multiple} else {};
    st' := ReadFlag(cat, st', d.(flags := f), Async, Async in flags, more);
    assert f + {} == f;
    PersistedFlags(flags);
  }

  lemma PersistedFlags(flags: set<Flag>)
    ensures {} + (if CdSource in flags then {CdSource} else {})
      + (if CdDestination in flags then {CdDestination} else {})
      + (if Unquoted in flags then {Unquoted} else {})
      + (if Multiple in flags then {Multiple} else {}) == flags * PERSISTED
  {
  }

  lemma ReadActionEnd(cat: Catalog, st: ReadState, d: Draft, more: string) returns (st': ReadState)
    requires st.rest == "\tEnd\n" + more
    ensures st'.rest == more
    ensures ActionBlock(cat, st, d) == ActionResult(st', Some(SetUp(d.an.(flags := d.flags))))
  {
    hide KeywordOf, NextLine, SetUp;
    RecogKeywords();
    assert st.rest == Bare(true, "End") + "\n" + more;
    ReadBareLine(st, true, "End", more);
    st' := After(["End"], more, st);
  }

  // ----- One action ------------------------------------------------------------------------------

  function MenuText(cat: Catalog, an: Action): string {
    if an.menuName.Some? then "\tMenu " + English(cat, an.menuName.value) + "\n" else ""
  }

  function TailText(an: Action): string {
    Concat(CommandLines(an.commands)) + (Concat(QualifierLines(an.qualifier))
      + (Concat(FlagLines(an.flags)) + "\tEnd\n"))
  }

  /** The text of an action after the line that opens its block. */
  function ActionText(cat: Catalog, an: Action): string
    requires an.name.Some?
  {
    "\tName " + English(cat, an.name.value) + "\n" + (MenuText(cat, an) + (EventLine(an.event) + TailText(an)))
  }

  lemma TailTextOf(an: Action)
    ensures Concat(ActionTail(an)) == TailText(an)
  {
    hide CommandLines, QualifierLines, FlagLines, Concat;
    var a, b, c, e := CommandLines(an.commands), QualifierLines(an.qualifier), FlagLines(an.flags), ["\tEnd\n"];
    ConcatSum(a + b + c, e);
    ConcatSum(a + b, c);
    ConcatSum(a, b);
    ConcatOne("\tEnd\n");
    Assoc(Concat(a), Concat(b), Concat(c));
    Assoc(Concat(a), Concat(b) + Concat(c), "\tEnd\n");
    Assoc(Concat(b), Concat(c), "\tEnd\n");
  }

  lemma ConcatThree(a: string, b: string, c: string)
    ensures Concat([a, b, c]) == a + b + c
  {
    assert [a, b, c] == [a] + [b] + [c];
    ConcatSum([a] + [b], [c]);
    ConcatSum([a], [b]);
    ConcatOne(a);
    ConcatOne(b);
    ConcatOne(c);
  }

  lemma ActionTextOf(cat: Catalog, an: Action)
    requires an.name.Some?
    ensures Concat(ActionPieces(cat, an)) == "Action\n" + ActionText(cat, an)
  {
    hide ActionTail, TailText, EventLine, Concat, English;
    var name := English(cat, an.name.value);
    var names := ["Action\n\tName ", name, "\n"];
    var menu := if an.menuName.Some? then ["\tMenu ", English(cat, an.menuName.value), "\n"] else [];
    ConcatSum(ActionHead(cat, an), ActionTail(an));
    TailTextOf(an);
    ConcatSum(names + menu, [EventLine(an.event)]);
    ConcatSum(names, menu);
    ConcatOne(EventLine(an.event));
    ConcatThree("Action\n\tName ", name, "\n");
    assert Concat(menu) == MenuText(cat, an) by {
      if an.menuName.Some? {
        ConcatThree("\tMenu ", English(cat, an.menuName.value), "\n");
      } else {
        ConcatNone();
      }
    }
    var e, t, m := EventLine(an.event), TailText(an), MenuText(cat, an);
    assert "Action\n\tName " == "Action\n" + "\tName ";
    assert "Action\n\tName " + name + "\n" + m + e + t
        == "Action\n" + ("\tName " + name + "\n" + (m + (e + t)));
  }

  lemma ConcatNone()
    ensures Concat([]) == ""
  {
  }

  /** Parsing the text of a well-formed action gives the action back. */
  lemma ReadAction(cat: Catalog, st: ReadState, an: Action, more: string) returns (st': ReadState)
    requires ActionOk(cat, an) && st.rest == ActionText(cat, an) + more
    ensures st'.rest == more
    ensures ActionBlock(cat, st, Draft(NEW_ACTION, {})) == ActionResult(st', Some(an))
  {
    hide ActionBlock, NameOk, CommandOk, English, EventLine, Concat, CommandLines, QualifierLines, FlagLines;
    var d := Draft(NEW_ACTION, {});
    var tail := TailText(an) + more;
    var event := EventLine(an.event) + tail;
    var menu := MenuText(cat, an) + event;
    Assoc(EventLine(an.event), TailText(an), more);
    Assoc(MenuText(cat, an), EventLine(an.event) + TailText(an), more);
    Assoc("\tName " + English(cat, an.name.value) + "\n",
          MenuText(cat, an) + (EventLine(an.event) + TailText(an)), more);
    st' := ReadName(cat, st, d, an.name.value, menu);
    d := d.(an := d.an.(name := an.name));
    if an.menuName.Some? {
      st' := ReadMenu(cat, st', d, an.menuName.value, event);
      d := d.(an := d.an.(menuName := an.menuName));
    } else {
      assert menu == event;
    }
    st' := ReadEvent(cat, st', d, an.event, tail);
    d := d.(an := d.an.(event := an.event));
    st' := ReadTail(cat, st', d, an, more);
  }

  lemma ReadTail(cat: Catalog, st: ReadState, d: Draft, an: Action, more: string) returns (st': ReadState)
    requires ActionOk(cat, an) && st.rest == TailText(an) + more
    requires d == Draft(an.(qualifier := NoQualifier, flags := {}, commands := []), {})
    ensures st'.rest == more
    ensures ActionBlock(cat, st, d) == ActionResult(st', Some(an))
  {
    hide ActionBlock, NameOk, CommandOk, Concat, CommandLines, QualifierLines, FlagLines;
    var c, q, f := Concat(CommandLines(an.commands)), Concat(QualifierLines(an.qualifier)),
      Concat(FlagLines(an.flags));
    Assoc(f, "\tEnd\n", more);
    Assoc(q, f + "\tEnd\n", more);
    Assoc(c, q + (f + "\tEnd\n"), more);
    st' := ReadCommands(cat, st, d, an.commands, q + (f + ("\tEnd\n" + more)));
    assert [] + an.commands == an.commands;
    var d' := d.(an := d.an.(commands := an.commands));
    st' := ReadQualifier(cat, st', d', an.qualifier, f + ("\tEnd\n" + more));
    d' := d'.(an := d'.an.(qualifier := an.qualifier));
    st' := ReadFlags(cat, st', d', an.flags, "\tEnd\n" + more);
    d' := d'.(flags := an.flags * PERSISTED);
    st' := ReadActionEnd(cat, st', d', more);
  }

  // ----- Whole descriptors ---------------------------------------------------------------------------

  ghost predicate ActionsOk(cat: Catalog, actions: seq<Action>) {
    forall i :: 0 <= i < |actions| ==> ActionOk(cat, actions[i]) && actions[i].name.Some?
  }

  /** Parsing a written action in the body of a descriptor adds it to the list. */
  lemma ReadBodyAction(cat: Catalog, st: ReadState, d: Descriptor, an: Action, more: string)
    returns (st': ReadState)
    requires ActionOk(cat, an) && an.name.Some? && st.rest == Concat(ActionPieces(cat, an)) + more
    ensures st'.rest == more
    ensures DescriptorBody(cat, st, d) == DescriptorBody(cat, st', d.(actions := d.actions + [an]))
  {
    hide ActionBlock, MatchBlock, NextLine, KeywordOf, ActionOk, ActionPieces, Concat, ActionText;
    ActionTextOf(cat, an);
    BodyKeywords();
    var rest := ActionText(cat, an) + more;
    assert st.rest == Bare(false, "Action") + "\n" + rest by {
      assert "Action\n" + ActionText(cat, an) + more == "Action" + "\n" + rest;
    }
    ReadBareLine(st, false, "Action", rest);
    var begun := After(["Action"], rest, st);
    st' := ReadAction(cat, begun, an, more);
  }

  lemma {:induction false} ReadBodyActions(cat: Catalog, st: ReadState, d: Descriptor, actions: seq<Action>,
                                           more: string)
    returns (st': ReadState)
    requires ActionsOk(cat, actions)
    requires st.rest == Concat(AllActionPieces(cat, actions)) + more
    ensures st'.rest == more
    ensures DescriptorBody(cat, st, d) == DescriptorBody(cat, st', d.(actions := d.actions + actions))
  {
    hide DescriptorBody, ActionOk, ActionPieces;
    if actions == [] {
      assert d.actions + actions == d.actions;
      st' := st;
    } else {
      var front, last := actions[..|actions| - 1], actions[|actions| - 1];
      var pieces := ActionPieces(cat, last);
      ConcatSum(AllActionPieces(cat, front), pieces);
      Assoc(Concat(AllActionPieces(cat, front)), Concat(pieces), more);
      st' := ReadBodyActions(cat, st, d, front, Concat(pieces) + more);
      st' := ReadBodyAction(cat, st', d.(actions := d.actions + front), last, more);
      assert d.actions + front + [last] == d.actions + actions;
    }
  }

  lemma ReadBodyEnd(cat: Catalog, st: ReadState, d: Descriptor, more: string) returns (st': ReadState)
    requires st.rest == "End\n" + more
    ensures st'.rest == more && DescriptorBody(cat, st, d) == ParseResult(st', Some(d))
  {
    hide NextLine, KeywordOf, ActionBlock, MatchBlock;
    RecogKeywords();
    assert st.rest == Bare(false, "End") + "\n" + more;
    ReadBareLine(st, false, "End", more);
    st' := After(["End"], more, st);
  }

  /** The text of a recognition block after the line that opens it. */
  function RecogText(ctx: Recog): string
    requires RecogOk(ctx)
  {
    (if ctx.pattern.Some? then "\tPatternHint " + ctx.pattern.value + "\n" else "")
    + (if ctx.nodes == [] then "" else Concat(RecogLines(ctx.nodes)) + "\tEnd\n")
  }

  lemma RecogTextOf(ctx: Recog)
    requires RecogOk(ctx)
    ensures Concat(RecogPieces(ctx)) == "Match\n" + RecogText(ctx)
  {
    hide Concat, RecogLines;
    var pattern := if ctx.pattern.Some? then ["\tPatternHint " + ctx.pattern.value + "\n"] else [];
    var steps := if ctx.nodes == [] then [] else RecogLines(ctx.nodes) + ["\tEnd\n"];
    assert RecogPieces(ctx) == ["Match\n"] + pattern + steps;
    ConcatSum(["Match\n"] + pattern, steps);
    ConcatSum(["Match\n"], pattern);
    ConcatOne("Match\n");
    ConcatNone();
    if ctx.pattern.Some? {
      ConcatOne("\tPatternHint " + ctx.pattern.value + "\n");
    }
    if ctx.nodes != [] {
      ConcatSum(RecogLines(ctx.nodes), ["\tEnd\n"]);
      ConcatOne("\tEnd\n");
    }
    Assoc("Match\n", Concat(pattern), Concat(steps));
  }

  /** Reads the hint of a recognition block, if there is one. */
  lemma ReadHint(st: ReadState, pattern: Option<string>, more: string) returns (st': ReadState)
    requires PatternOk(pattern)
    requires st.rest == (if pattern.Some? then "\tPatternHint " + pattern.value + "\n" else "") + more
    ensures st'.rest == more
    ensures MatchBlock(st, Recog([], None)) == MatchBlock(st', Recog([], pattern))
  {
    hide MatchBlock;
    if pattern.Some? {
      st' := ReadPattern(st, Recog([], None), pattern.value, more);
    } else {
      st' := st;
    }
  }

  lemma ReadRecog(st: ReadState, ctx: Recog, more: string) returns (st': ReadState)
    requires RecogOk(ctx) && ctx.nodes != [] && st.rest == RecogText(ctx) + more
    ensures st'.rest == more
    ensures MatchBlock(st, Recog([], None)) == MatchResult(true, st', Some(ctx))
  {
    hide MatchBlock, Concat, RecogLines;
    var hint := if ctx.pattern.Some? then "\tPatternHint " + ctx.pattern.value + "\n" else "";
    var nodes := Concat(RecogLines(ctx.nodes));
    Assoc(hint, nodes + "\tEnd\n", more);
    Assoc(nodes, "\tEnd\n", more);
    st' := ReadHint(st, ctx.pattern, nodes + ("\tEnd\n" + more));
    NodesHaveLines(ctx);
    st' := ReadNodes(st', Recog([], ctx.pattern), ctx.nodes, "\tEnd\n" + more);
    assert [] + ctx.nodes == ctx.nodes;
    st' := ReadMatchEnd(st', ctx, more);
  }

  lemma NodesHaveLines(ctx: Recog)
    requires RecogOk(ctx)
    ensures forall i :: 0 <= i < |ctx.nodes| ==> HasLine(ctx.nodes[i]) && NodeOk(ctx.nodes[i])
  {
  }

  lemma ReadType(cat: Catalog, st: ReadState, d: Descriptor, w: string, more: string) returns (st': ReadState)
    requires IsWord(w) && |w| < 512 && st.rest == "Type " + w + "\n" + more
    ensures st'.rest == more
    ensures DescriptorBody(cat, st, d) == DescriptorBody(cat, st', d.(mimetype := Some(w)))
  {
    hide NextLine, KeywordOf, ActionBlock, MatchBlock;
    BodyKeywords();
    assert st.rest == Line(false, "Type", [w]) + "\n" + more;
    ReadLineOfWords(st, false, "Type", [w], more);
    st' := After(["Type"] + [w], more, st);
    AfterWords(["Type"] + [w], more, st);
  }

  lemma ReadDescription(cat: Catalog, st: ReadState, d: Descriptor, text: string, more: string)
    returns (st': ReadState)
    requires Spaced(text, 15) && 0 < |text| < PRINT_BUFFER - 6 && st.rest == "Name " + text + "\n" + more
    ensures st'.rest == more
    ensures DescriptorBody(cat, st, d) == DescriptorBody(cat, st', d.(description := Some(text)))
  {
    hide NextLine, KeywordOf, ActionBlock, MatchBlock, Words, Arguments;
    RecogKeywords();
    st' := ReadTextLine(st, false, "Name", text, more);
    assert text != "" && Join([]) == "";
  }

  lemma ReadPriority(cat: Catalog, st: ReadState, d: Descriptor, priority: Long, more: string)
    returns (st': ReadState)
    requires priority != 0 && st.rest == "Priority " + PrintLong(priority) + "\n" + more
    ensures st'.rest == more
    ensures DescriptorBody(cat, st, d) == DescriptorBody(cat, st', d.(priority := priority))
  {
    hide NextLine, KeywordOf, ActionBlock, MatchBlock, PrintLong, ReadLong;
    BodyKeywords();
    ReadPrintedLong(priority);
    PrintedLongShort(priority);
    var w := PrintLong(priority);
    assert st.rest == Line(false, "Priority", [w]) + "\n" + more;
    ReadLineOfWords(st, false, "Priority", [w], more);
    st' := After(["Priority"] + [w], more, st);
    AfterWords(["Priority"] + [w], more, st);
  }

  lemma {:induction false} PrintNatShort(n: nat, digits: nat, bound: nat)
    requires digits > 0 && bound == Power10(digits) && n < bound
    ensures |PrintNat(n)| <= digits
    decreases digits
  {
    if n >= 10 {
      PrintNatShort(n / 10, digits - 1, bound / 10);
    }
  }

  function Power10(k: nat): nat {
    if k == 0 then 1 else 10 * Power10(k - 1)
  }

  lemma PrintedLongShort(n: Long)
    ensures |PrintLong(n)| <= 11
  {
    var i: int := n;
    assert Power10(5) == 100000;
    assert Power10(10) == 100000 * Power10(5);
    PrintNatShort(if i < 0 then -i else i, 10, Power10(10));
  }

  lemma ReadBodyRecog(cat: Catalog, st: ReadState, d: Descriptor, ctx: Recog, more: string) returns (st': ReadState)
    requires RecogOk(ctx) && ctx.nodes != [] && d.recog == None
    requires st.rest == Concat(RecogPieces(ctx)) + more
    ensures st'.rest == more
    ensures DescriptorBody(cat, st, d) == DescriptorBody(cat, st', d.(recog := Some(ctx)))
  {
    hide NextLine, KeywordOf, ActionBlock, MatchBlock, RecogText, Concat;
    RecogTextOf(ctx);
    RecogKeywords();
    var rest := RecogText(ctx) + more;
    assert "Match\n" + RecogText(ctx) + more == Bare(false, "Match") + "\n" + rest;
    ReadBareLine(st, false, "Match", rest);
    var begun := After(["Match"], rest, st);
    st' := ReadRecog(begun, ctx, more);
  }

  // ----- The head ------------------------------------------------------------------------------------

  function DescriptionText(d: Descriptor): string {
    if d.description.Some? && d.description.value != "" then "Name " + d.description.value + "\n" else ""
  }

  function PriorityText(d: Descriptor): string {
    if d.priority != 0 then "Priority " + PrintLong(d.priority) + "\n" else ""
  }

  function RecogBlockText(d: Descriptor): string
    requires d.recog.Some? ==> RecogOk(d.recog.value)
  {
    if d.recog.Some? then Concat(RecogPieces(d.recog.value)) else ""
  }

  /** The text of the head after the two lines that identify a descriptor. */
  function HeadText(d: Descriptor): string
    requires d.mimetype.Some? && (d.recog.Some? ==> RecogOk(d.recog.value))
  {
    "Type " + d.mimetype.value + "\n" + (DescriptionText(d) + (PriorityText(d) + RecogBlockText(d)))
  }

  lemma ConcatFive(w: string)
    ensures Concat(["AMTD\n", "1\n", "Type ", w, "\n"]) == "AMTD\n" + ("1\n" + ("Type " + w + "\n"))
  {
    assert ["AMTD\n", "1\n", "Type ", w, "\n"] == ["AMTD\n", "1\n", "Type "] + [w, "\n"];
    hide Concat;
    ConcatSum(["AMTD\n", "1\n", "Type "], [w, "\n"]);
    ConcatThree("AMTD\n", "1\n", "Type ");
    assert [w, "\n"] == [w] + ["\n"];
    ConcatSum([w], ["\n"]);
    ConcatOne(w);
    ConcatOne("\n");
    FiveParts("AMTD\n", "1\n", "Type ", w, "\n");
  }

  lemma FiveParts(a: string, b: string, c: string, d: string, e: string)
    ensures (a + b + c) + (d + e) == a + (b + (c + d + e))
  {
  }

  lemma OkIsPrintable(cat: Catalog, d: Descriptor)
    requires AttributesOk(cat, d)
    ensures Printable(d) && ActionsOk(cat, d.actions)
  {
  }

  lemma HeadTextOf(cat: Catalog, d: Descriptor)
    requires AttributesOk(cat, d) && Printable(d)
    ensures Concat(HeadPieces(d)) == "AMTD\n" + ("1\n" + HeadText(d))
  {
    hide Concat, RecogPieces, PrintLong, ActionOk, RecogOk, Spaced;
    var strings := ["AMTD\n", "1\n", "Type ", d.mimetype.value, "\n"];
    var desc := if d.description.Some? && d.description.value != "" then ["Name " + d.description.value + "\n"] else [];
    var prio := if d.priority != 0 then ["Priority " + PrintLong(d.priority) + "\n"] else [];
    var recog := if d.recog.Some? then RecogPieces(d.recog.value) else [];
    PrintedLongShort(d.priority);
    assert HeadPieces(d) == strings + desc + prio + recog;
    ConcatSum(strings + desc + prio, recog);
    ConcatSum(strings + desc, prio);
    ConcatSum(strings, desc);
    ConcatFive(d.mimetype.value);
    ConcatNone();
    ConcatOne("Name " + (if d.description.Some? then d.description.value else "") + "\n");
    ConcatOne("Priority " + PrintLong(d.priority) + "\n");
    AssocHead("AMTD\n", "1\n", "Type " + d.mimetype.value + "\n", Concat(desc), Concat(prio), Concat(recog));
  }

  lemma AssocHead(a: string, b: string, c: string, d: string, e: string, f: string)
    ensures a + (b + c) + d + e + f == a + (b + (c + (d + (e + f))))
  {
  }

  /** Reads the two lines that identify a descriptor. */
  lemma ReadSignature(cat: Catalog, st: ReadState, more: string) returns (st': ReadState)
    requires st.rest == "AMTD\n" + ("1\n" + more)
    ensures st'.rest == more && NextDescriptor(cat, st) == DescriptorBody(cat, st', NEW_DESCRIPTOR)
  {
    hide NextLine, DescriptorBody;
    assert st.rest == Bare(false, "AMTD") + "\n" + ("1\n" + more);
    ReadBareLine(st, false, "AMTD", "1\n" + more);
    var first := After(["AMTD"], "1\n" + more, st);
    assert SkipBlank(st) == first;
    assert first.rest == Bare(false, "1") + "\n" + more;
    ReadBareLine(first, false, "1", more);
    st' := After(["1"], more, first);
  }

  /** Reads the attributes that come before the recognition block. */
  lemma ReadAttributes(cat: Catalog, st: ReadState, d: Descriptor, more: string) returns (st': ReadState)
    requires AttributesOk(cat, d)
    requires st.rest == "Type " + d.mimetype.value + "\n" + (DescriptionText(d) + (PriorityText(d) + more))
    ensures st'.rest == more
    ensures DescriptorBody(cat, st, NEW_DESCRIPTOR)
         == DescriptorBody(cat, st', Descriptor(d.mimetype, d.description, d.priority, None, []))
  {
    hide DescriptorBody, ActionOk, RecogOk, Spaced, PrintLong;
    var priority := PriorityText(d) + more;
    st' := ReadType(cat, st, NEW_DESCRIPTOR, d.mimetype.value, DescriptionText(d) + priority);
    var d' := NEW_DESCRIPTOR.(mimetype := d.mimetype);
    if d.description.Some? {
      st' := ReadDescription(cat, st', d', d.description.value, priority);
      d' := d'.(description := d.description);
    } else {
      assert DescriptionText(d) + priority == priority;
    }
    if d.priority != 0 {
      st' := ReadPriority(cat, st', d', d.priority, more);
    } else {
      assert PriorityText(d) + more == more;
    }
  }

  /** Reads everything of a written descriptor up to its recognition block. */
  lemma ReadHead(cat: Catalog, st: ReadState, d: Descriptor, more: string) returns (st': ReadState)
    requires AttributesOk(cat, d) && Printable(d) && st.rest == Concat(HeadPieces(d)) + more
    ensures st'.rest == RecogBlockText(d) + more
    ensures NextDescriptor(cat, st)
         == DescriptorBody(cat, st', Descriptor(d.mimetype, d.description, d.priority, None, []))
  {
    hide DescriptorBody, NextDescriptor, ActionOk, RecogOk, Spaced, PrintLong, Concat, HeadPieces,
      DescriptionText, PriorityText, RecogBlockText;
    HeadTextOf(cat, d);
    var w, a, b, c := "Type " + d.mimetype.value + "\n", DescriptionText(d), PriorityText(d), RecogBlockText(d);
    AssocSignature("AMTD\n", "1\n", w, a, b, c, more);
    st' := ReadSignature(cat, st, w + (a + (b + (c + more))));
    st' := ReadAttributes(cat, st', d, c + more);
  }

  lemma AssocSignature(a: string, b: string, c: string, d: string, e: string, f: string, g: string)
    ensures a + (b + (c + (d + (e + f)))) + g == a + (b + (c + (d + (e + (f + g)))))
  {
  }

  /** The text of a whole descriptor. */
  lemma PiecesText(cat: Catalog, d: Descriptor, more: string)
    requires Printable(d)
    ensures Concat(Pieces(cat, d)) + more
         == Concat(HeadPieces(d)) + (Concat(AllActionPieces(cat, d.actions)) + ("End\n" + more))
  {
    hide Concat, HeadPieces, AllActionPieces;
    var a, b := HeadPieces(d), AllActionPieces(cat, d.actions);
    ConcatSum(a + b, ["End\n"]);
    ConcatSum(a, b);
    ConcatOne("End\n");
    Assoc(Concat(a), Concat(b), "End\n");
    Assoc(Concat(a), Concat(b) + "End\n", more);
    Assoc(Concat(b), "End\n", more);
  }

  /** Parsing what the printer writes for a well-formed descriptor gives the same
      descriptor and leaves the rest of the input unread, whatever the word buffers held. */
  lemma RoundTrip(cat: Catalog, d: Descriptor, st: ReadState, more: string) returns (st': ReadState)
    requires WellFormed(cat, d) && Printable(d) && st.rest == Concat(Pieces(cat, d)) + more
    ensures NextDescriptor(cat, st) == ParseResult(st', Some(d)) && st'.rest == more
  {
    hide DescriptorBody, NextDescriptor, ActionOk, RecogOk, Concat, HeadPieces, AllActionPieces, Printable, Pieces;
    PiecesText(cat, d, more);
    OkIsPrintable(cat, d);
    var actions := Concat(AllActionPieces(cat, d.actions)) + ("End\n" + more);
    st' := ReadHead(cat, st, d, actions);
    var d' := Descriptor(d.mimetype, d.description, d.priority, None, []);
    if d.recog.Some? {
      st' := ReadBodyRecog(cat, st', d', d.recog.value, actions);
      d' := d'.(recog := d.recog);
    } else {
      assert RecogBlockText(d) + actions == actions;
    }
    st' := ReadBodyActions(cat, st', d', d.actions, "End\n" + more);
    assert [] + d.actions == d.actions;
    st' := ReadBodyEnd(cat, st', d, more);
  }

  /** A file of concatenated saved descriptors parses back to the same list. */
  lemma {:induction false} FileRoundTrip(cat: Catalog, ds: seq<Descriptor>, st: ReadState)
    requires forall i :: 0 <= i < |ds| ==> WellFormed(cat, ds[i]) && Printable(ds[i])
    requires st.rest == FileText(cat, ds)
    ensures AllDescriptors(cat, st) == ds
  {
    hide NextDescriptor, WellFormed, Printable, Pieces, Concat;
    if ds == [] {
      EmptyFile(cat, st);
    } else {
      var st' := RoundTrip(cat, ds[0], st, FileText(cat, ds[1..]));
      FileRoundTrip(cat, ds[1..], st');
    }
  }

  function FileText(cat: Catalog, ds: seq<Descriptor>): string
    requires forall i :: 0 <= i < |ds| ==> Printable(ds[i])
  {
    if ds == [] then "" else Concat(Pieces(cat, ds[0])) + FileText(cat, ds[1..])
  }

  lemma EmptyFile(cat: Catalog, st: ReadState)
    requires st.rest == ""
    ensures NextDescriptor(cat, st).desc == None
  {
  }

  // ----- A recogniser without steps ------------------------------------------------------------------

  /** Whatever follows it and whatever the word buffers held, the saved descriptor parses
      back to itself and nothing beyond it is read. */
  ghost predicate Survives(cat: Catalog, d: Descriptor)
    requires Printable(d)
  {
    forall st: ReadState, more: string :: ReadsBack(cat, d, st, more)
  }

  ghost predicate ReadsBack(cat: Catalog, d: Descriptor, st: ReadState, more: string)
    requires Printable(d)
  {
    st.rest == Concat(Pieces(cat, d)) + more ==>
      NextDescriptor(cat, st).desc == Some(d) && NextDescriptor(cat, st).state.rest == more
  }

  /** A line of an action, met inside a recognition block, does not end it. */
  lemma SwallowLine(st: ReadState, ctx: Recog, st': ReadState)
    requires NextLine(st) == LineResult(true, st') && !KeywordOf(st'.words[0]).KEnd?
    ensures MatchBlock(st, ctx) == MatchBlock(st', MatchLine(st'.words, ctx))
  {
  }

  lemma SwallowNames(cat: Catalog, st: ReadState, ctx: Recog, an: Action, more: string)
    returns (st': ReadState, ctx': Recog)
    requires an.name.Some? && NameOk(cat, an.name.value)
    requires an.menuName.Some? ==> NameOk(cat, an.menuName.value)
    requires st.rest == "\tName " + English(cat, an.name.value) + "\n" + (MenuText(cat, an) + more)
    ensures st'.rest == more && MatchBlock(st, ctx) == MatchBlock(st', ctx')
  {
    hide NextLine, KeywordOf, MatchBlock, MatchLine, Words, Join, Arguments, English, Translate;
    RecogKeywords();
    ActionKeywords();
    st' := ReadTextLine(st, true, "Name", English(cat, an.name.value), MenuText(cat, an) + more);
    SwallowLine(st, ctx, st');
    ctx' := MatchLine(st'.words, ctx);
    if an.menuName.Some? {
      var st'' := ReadTextLine(st', true, "Menu", English(cat, an.menuName.value), more);
      SwallowLine(st', ctx', st'');
      st', ctx' := st'', MatchLine(st''.words, ctx');
    } else {
      assert MenuText(cat, an) + more == more;
    }
  }

  lemma {:induction false} SwallowCommands(st: ReadState, ctx: Recog, commands: seq<Command>, more: string)
    returns (st': ReadState, ctx': Recog)
    requires forall i :: 0 <= i < |commands| ==> CommandOk(commands[i])
    requires st.rest == Concat(CommandLines(commands)) + more
    ensures st'.rest == more && MatchBlock(st, ctx) == MatchBlock(st', ctx')
  {
    hide NextLine, KeywordOf, MatchBlock, MatchLine, CommandLine, CommandOk, Arguments;
    if commands == [] {
      st', ctx' := st, ctx;
    } else {
      var front, last := commands[..|commands| - 1], commands[|commands| - 1];
      Assoc(Concat(CommandLines(front)), CommandLine(last), more);
      st', ctx' := SwallowCommands(st, ctx, front, CommandLine(last) + more);
      var st'' := ReadCommandLine(st', last, more);
      ActionKeywords();
      SwallowLine(st', ctx', st'');
      st', ctx' := st'', MatchLine(st''.words, ctx');
    }
  }

  lemma SwallowFlag(st: ReadState, ctx: Recog, f: Flag, present: bool, more: string)
    returns (st': ReadState, ctx': Recog)
    requires st.rest == (if present then Line(true, "Flag", FlagWords(f)) + "\n" else "") + more
    ensures st'.rest == more && MatchBlock(st, ctx) == MatchBlock(st', ctx')
  {
    hide NextLine, KeywordOf, MatchBlock, MatchLine, FlagWords, Join, AreWords;
    if present {
      MoreActionKeywords();
      FlagWordsAreWords(f);
      FlagWordsLength(f);
      ReadLineOfWords(st, true, "Flag", FlagWords(f), more);
      st' := After(["Flag"] + FlagWords(f), more, st);
      SwallowLine(st, ctx, st');
      ctx' := MatchLine(st'.words, ctx);
    } else {
      st', ctx' := st, ctx;
    }
  }

  lemma SwallowFlags(st: ReadState, ctx: Recog, flags: set<Flag>, more: string)
    returns (st': ReadState, ctx': Recog)
    requires st.rest == Concat(FlagLines(flags)) + more
    ensures st'.rest == more && MatchBlock(st, ctx) == MatchBlock(st', ctx')
  {
    hide MatchBlock, FlagWords, FlagLines, Concat, Line;
    FlagLinesText(flags);
    var t1, t2, t3, t4, t5 := FlagText(CdSource, flags), FlagText(CdDestination, flags),
      FlagText(Unquoted, flags), FlagText(Multiple, flags), FlagText(Async, flags);
    AssocFive(t1, t2, t3, t4, t5, more);
    st', ctx' := SwallowFlag(st, ctx, CdSource, CdSource in flags, t2 + (t3 + (t4 + (t5 + more))));
    st', ctx' := SwallowFlag(st', ctx', CdDestination, CdDestination in flags, t3 + (t4 + (t5 + more)));
    st', ctx' := SwallowFlag(st', ctx', Unquoted, Unquoted in flags, t4 + (t5 + more));
    st', ctx' := SwallowFlag(st', ctx', Multiple, Multiple in flags, t5 + more);
    st', ctx' := SwallowFlag(st', ctx', Async, Async in flags, more);
  }

  lemma SwallowTail(st: ReadState, ctx: Recog, an: Action, more: string) returns (st': ReadState, ctx': Recog)
    requires forall i :: 0 <= i < |an.commands| ==> CommandOk(an.commands[i])
    requires st.rest == TailText(an) + more
    ensures st'.rest == more && MatchBlock(st, ctx) == MatchResult(true, st', Some(ctx'))
  {
    hide NextLine, KeywordOf, MatchBlock, MatchLine, CommandOk, Concat, CommandLines, QualifierLines, FlagLines,
      QualifierName;
    var c, q, f := Concat(CommandLines(an.commands)), Concat(QualifierLines(an.qualifier)),
      Concat(FlagLines(an.flags));
    Assoc(f, "\tEnd\n", more);
    Assoc(q, f + "\tEnd\n", more);
    Assoc(c, q + (f + "\tEnd\n"), more);
    var flags := f + ("\tEnd\n" + more);
    st', ctx' := SwallowCommands(st, ctx, an.commands, q + flags);
    st', ctx' := SwallowQualifier(st', ctx', an.qualifier, flags);
    st', ctx' := SwallowFlags(st', ctx', an.flags, "\tEnd\n" + more);
    st' := ReadMatchEnd(st', ctx', more);
  }

  lemma SwallowQualifier(st: ReadState, ctx: Recog, q: Qualifier, more: string)
    returns (st': ReadState, ctx': Recog)
    requires st.rest == Concat(QualifierLines(q)) + more
    ensures st'.rest == more && MatchBlock(st, ctx) == MatchBlock(st', ctx')
  {
    hide NextLine, KeywordOf, MatchBlock, MatchLine, QualifierName;
    if q.NoQualifier? {
      st', ctx' := st, ctx;
    } else {
      QualifierNameRead(q);
      QualifierText(q);
      MoreActionKeywords();
      st' := ReadWordLine(st, "Qualifier", QualifierName(q), more);
      SwallowLine(st, ctx, st');
      ctx' := MatchLine(st'.words, ctx);
    }
  }

  /** An open recognition block swallows the whole of an action that follows it. */
  lemma SwallowAction(cat: Catalog, st: ReadState, ctx: Recog, an: Action, more: string)
    returns (st': ReadState, ctx': Recog)
    requires ActionOk(cat, an) && an.name.Some? && st.rest == Concat(ActionPieces(cat, an)) + more
    ensures st'.rest == more && MatchBlock(st, ctx) == MatchResult(true, st', Some(ctx'))
  {
    hide NextLine, KeywordOf, MatchBlock, MatchLine, NameOk, CommandOk, English, EventLine, EventName, Concat,
      ActionPieces, TailText, MenuText;
    ActionTextOf(cat, an);
    BodyKeywords();
    ActionKeywords();
    var tail := TailText(an) + more;
    var event := EventLine(an.event) + tail;
    var names := "\tName " + English(cat, an.name.value) + "\n";
    AssocAction("Action\n", names, MenuText(cat, an), EventLine(an.event), TailText(an), more);
    var rest := names + (MenuText(cat, an) + event);
    assert "Action\n" + rest == Bare(false, "Action") + "\n" + rest;
    ReadBareLine(st, false, "Action", rest);
    st' := After(["Action"], rest, st);
    SwallowLine(st, ctx, st');
    ctx' := MatchLine(st'.words, ctx);
    st', ctx' := SwallowNames(cat, st', ctx', an, event);
    EventLineText(an.event);
    EventNameIsWord(an.event);
    var st'' := ReadWordLine(st', "Event", EventName(an.event), tail);
    SwallowLine(st', ctx', st'');
    st', ctx' := SwallowTail(st'', MatchLine(st''.words, ctx'), an, more);
  }

  lemma AssocAction(a: string, b: string, c: string, d: string, e: string, f: string)
    ensures a + (b + (c + (d + e))) + f == a + (b + (c + (d + (e + f))))
  {
  }

  lemma {:induction false} AllActionPiecesCons(cat: Catalog, actions: seq<Action>)
    requires actions != [] && forall i :: 0 <= i < |actions| ==> actions[i].name.Some?
    ensures AllActionPieces(cat, actions) == ActionPieces(cat, actions[0]) + AllActionPieces(cat, actions[1..])
  {
    hide ActionPieces;
    var n := |actions| - 1;
    if n > 0 {
      AllActionPiecesCons(cat, actions[..n]);
      assert actions[..n][1..] == actions[1..][..n - 1];
      Assoc(ActionPieces(cat, actions[0]), AllActionPieces(cat, actions[1..][..n - 1]), ActionPieces(cat, actions[n]));
    } else {
      assert actions[..n] == [] && actions[1..] == [];
    }
  }

  /** Without steps, the recognition block runs on into what is written after it. */
  lemma LostWithoutSteps(cat: Catalog, d: Descriptor, st: ReadState)
    requires AttributesOk(cat, d) && Printable(d) && !RecogEnds(d)
    requires st.rest == Concat(Pieces(cat, d)) + ""
    ensures NextDescriptor(cat, st).desc != Some(d)
  {
    hide DescriptorBody, NextDescriptor, MatchBlock, NextLine, KeywordOf, ActionOk, Concat, HeadPieces,
      AllActionPieces, ActionPieces, Printable, Pieces, RecogPieces;
    PiecesText(cat, d, "");
    OkIsPrintable(cat, d);
    var ctx, written := d.recog.value, Concat(AllActionPieces(cat, d.actions)) + ("End\n" + "");
    var st1 := ReadHead(cat, st, d, written);
    var d' := Descriptor(d.mimetype, d.description, d.priority, None, []);
    RecogTextOf(ctx);
    var st2 := OpenBlock(cat, st1, d', ctx.pattern, written);
    if d.actions == [] {
      NoActionPieces(cat);
      assert written == "End\n" + "";
      var st3 := BlockEnds(st2, Recog([], ctx.pattern));
      NothingMore(cat, st3, d'.(recog := Some(Recog([], ctx.pattern))));
    } else {
      var first, others := d.actions[0], d.actions[1..];
      AllActionPiecesCons(cat, d.actions);
      ConcatSum(ActionPieces(cat, first), AllActionPieces(cat, others));
      var rest := Concat(AllActionPieces(cat, others)) + ("End\n" + "");
      Assoc(Concat(ActionPieces(cat, first)), Concat(AllActionPieces(cat, others)), "End\n" + "");
      var st3, ctx' := SwallowAction(cat, st2, Recog([], ctx.pattern), first, rest);
      d' := d'.(recog := Some(ctx'));
      var st4 := ReadBodyActions(cat, st3, d', others, "End\n" + "");
      var st5 := ReadBodyEnd(cat, st4, d'.(actions := [] + others), "");
      assert |[] + others| < |d.actions|;
    }
  }

  lemma NoActionPieces(cat: Catalog)
    ensures Concat(AllActionPieces(cat, [])) == ""
  {
  }

  /** Opens the recognition block and reads its hint. */
  lemma OpenBlock(cat: Catalog, st: ReadState, d: Descriptor, pattern: Option<string>, more: string)
    returns (st': ReadState)
    requires PatternOk(pattern) && d.recog == None
    requires st.rest == "Match\n" + RecogText(Recog([], pattern)) + more
    ensures st'.rest == more
    ensures var m := MatchBlock(st', Recog([], pattern));
      m.ok ==> DescriptorBody(cat, st, d) == DescriptorBody(cat, m.state, d.(recog := m.recog))
  {
    hide MatchBlock, NextLine, KeywordOf, ActionBlock;
    RecogKeywords();
    var rest := RecogText(Recog([], pattern)) + more;
    assert "Match\n" + RecogText(Recog([], pattern)) + more == Bare(false, "Match") + "\n" + rest;
    ReadBareLine(st, false, "Match", rest);
    st' := ReadHint(After(["Match"], rest, st), pattern, more);
  }

  lemma BlockEnds(st: ReadState, ctx: Recog) returns (st': ReadState)
    requires st.rest == "End\n" + ""
    ensures st'.rest == "" && MatchBlock(st, ctx) == MatchResult(true, st', Some(ctx))
  {
    hide NextLine, KeywordOf;
    RecogKeywords();
    assert st.rest == Bare(false, "End") + "\n" + "";
    ReadBareLine(st, false, "End", "");
    st' := After(["End"], "", st);
  }

  lemma NothingMore(cat: Catalog, st: ReadState, d: Descriptor)
    requires st.rest == ""
    ensures DescriptorBody(cat, st, d).desc == None
  {
  }

  /** A descriptor with good attributes survives being saved exactly when its recogniser,
      if it has one, has steps. */
  lemma SurvivesExactly(cat: Catalog, d: Descriptor)
    requires AttributesOk(cat, d) && Printable(d)
    ensures Survives(cat, d) <==> RecogEnds(d)
  {
    hide NextDescriptor, AttributesOk, Printable, Pieces, Concat;
    if RecogEnds(d) {
      forall st: ReadState, more: string
        ensures ReadsBack(cat, d, st, more)
      {
        if st.rest == Concat(Pieces(cat, d)) + more {
          var st' := RoundTrip(cat, d, st, more);
        }
      }
    } else {
      var st: ReadState := ReadState(Concat(Pieces(cat, d)) + "", seq(16, i => ""), 0);
      LostWithoutSteps(cat, d, st);
      assert !ReadsBack(cat, d, st, "");
    }
  }

  // ----- The default action and the reported result ------------------------------------------------

  /** Changing the default action leaves at most one double-click action, and what is then
      saved parses back to the changed descriptor. */
  lemma DefaultActionSaved(cat: Catalog, d: Descriptor, num: nat, st: ReadState, more: string)
    requires WellFormed(cat, d) && Printable(d) && Printable(WithDefault(d, num))
    requires st.rest == Concat(Pieces(cat, WithDefault(d, num))) + more
    ensures var d' := WithDefault(d, num);
      && NextDescriptor(cat, st).desc == Some(d')
      && forall i :: 0 <= i < |d'.actions| ==>
           (d'.actions[i].event == DoubleClick <==> i == num && d.actions[i].event != DragNDrop)
  {
    hide NextDescriptor, Pieces, Concat, NameOk, Spaced, RecogOk;
    var d' := WithDefault(d, num);
    forall i | 0 <= i < |d'.actions|
      ensures ActionOk(cat, d'.actions[i])
      ensures d'.actions[i].event == DoubleClick <==> i == num && d.actions[i].event != DragNDrop
    {
      assert ActionOk(cat, d.actions[i]);
    }
    var st' := RoundTrip(cat, d', st, more);
  }

  /** A save during which no write fails can be parsed back. */
  lemma CleanSaveParses(cat: Catalog, d: Descriptor, failing: set<nat>, st: ReadState)
    requires WellFormed(cat, d) && Printable(d) && Clear(failing, 0, |Pieces(cat, d)|)
    requires st.rest == Written(Pieces(cat, d), failing, 0)
    ensures NextDescriptor(cat, st).desc == Some(d)
  {
    hide NextDescriptor, Pieces, WellFormed, Printable;
    WrittenAll(Pieces(cat, d), failing, 0);
    assert Concat(Pieces(cat, d)) + "" == Concat(Pieces(cat, d));
    var st' := RoundTrip(cat, d, st, "");
  }

  /** The reported success of a save speaks for all its writes exactly when the descriptor
      has no actions. */
  lemma ReportSpeaksForAll(cat: Catalog, d: Descriptor)
    requires Printable(d)
    ensures d.actions == [] <==> forall failing ::
      Clear(failing, FirstReported(cat, d), |Pieces(cat, d)|) ==> Clear(failing, 0, |Pieces(cat, d)|)
  {
    hide HeadPieces, ActionTail;
    if d.actions != [] {
      FirstReportedLate(cat, d);
      var failing: set<nat> := {0};
      assert Clear(failing, FirstReported(cat, d), |Pieces(cat, d)|);
      assert !Clear(failing, 0, |Pieces(cat, d)|);
    }
  }

  lemma FirstReportedLate(cat: Catalog, d: Descriptor)
    requires Printable(d) && d.actions != []
    ensures FirstReported(cat, d) >= 5
  {
  }

  /** A descriptor with actions can lose the line that identifies it while its save still
      reports success, and the file is then no descriptor. */
  lemma SuccessWithLostSignature(cat: Catalog, d: Descriptor, st: ReadState)
    requires AttributesOk(cat, d) && Printable(d) && d.actions != []
    requires st.rest == Written(Pieces(cat, d), {0}, 0)
    ensures Clear({0}, FirstReported(cat, d), |Pieces(cat, d)|)
    ensures NextDescriptor(cat, st).desc == None
  {
    hide Pieces, NextLine, DescriptorBody, FirstReported, Written;
    FirstReportedLate(cat, d);
    WrittenTail(Pieces(cat, d));
    PiecesStart(cat, d);
    var more := Concat(Pieces(cat, d)[2..]);
    ConcatCons("1\n", Pieces(cat, d)[2..]);
    assert st.rest == Bare(false, "1") + "\n" + more;
    ReadBareLine(st, false, "1", more);
    var first := After(["1"], more, st);
    assert SkipBlank(st) == first;
    assert |Fold("1")| != |Fold("AMTD")|;
  }

  lemma PiecesStart(cat: Catalog, d: Descriptor)
    requires Printable(d)
    ensures |Pieces(cat, d)| >= 5 && Pieces(cat, d)[1..] == ["1\n"] + Pieces(cat, d)[2..]
  {
    HeadStart(d);
    hide HeadPieces, AllActionPieces;
    SecondOf(Pieces(cat, d));
  }

  lemma HeadStart(d: Descriptor)
    requires Printable(d)
    ensures |HeadPieces(d)| >= 5 && HeadPieces(d)[1] == "1\n"
  {
  }

  lemma SecondOf(pieces: seq<string>)
    requires |pieces| > 1
    ensures pieces[1..] == [pieces[1]] + pieces[2..]
  {
  }

  lemma {:induction false} WrittenTail(pieces: seq<string>)
    requires pieces != []
    ensures Written(pieces, {0}, 0) == Concat(pieces[1..])
  {
    var n := |pieces| - 1;
    if n > 0 {
      WrittenTail(pieces[..n]);
      assert pieces[..n][1..] == pieces[1..][..n - 1];
    } else {
      assert pieces[..n] == [];
    }
  }

  lemma ConcatCons(piece: string, pieces: seq<string>)
    ensures Concat([piece] + pieces) == piece + Concat(pieces)
  {
    ConcatSum([piece], pieces);
    ConcatOne(piece);
  }
}
