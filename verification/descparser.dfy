/** The descriptor parser: a line and word reader whose word buffers are shared by all
    blocks, and one loop for each kind of block. */
module DescriptorParser {
  import opened Actions
  import opened Descriptors
  import opened Locale
  import opened Options
  import opened Text

  const LINE_SIZE: nat := 1024

  /** What a parsing step depends on: the input not yet read, the word buffers with
      whatever earlier lines left there, and the number of words on the last line. */
  datatype RawState = ReadState(rest: string, words: seq<string>, count: int)

  type ReadState = s: RawState | |s.words| == 16 witness ReadState("", seq(16, i => ""), 0)

  // ----- Lines ---------------------------------------------------------------------

  /** How much of `rest` one line read of up to `limit` characters takes. */
  function LineLength(rest: string, limit: nat): (n: nat)
    ensures n <= |rest| && n <= limit
    ensures rest != "" && limit > 0 ==> n > 0
    decreases limit
  {
    if rest == "" || limit == 0 then 0
    else if rest[0] == '\n' then 1
    else 1 + LineLength(rest[1..], limit - 1)
  }

  function StripEol(line: string): string {
    if |line| > 1 && line[|line| - 1] == '\n' then line[..|line| - 1] else line
  }

  /** The word buffers and the word count after scanning a line. A blank line counts as
      -1 and leaves the buffers alone. */
  function ScanLine(line: string, rest: string, words: seq<string>): ReadState
    requires |words| == 16
  {
    var ws := Words(line);
    if ws == [] then ReadState(rest, words, -1)
    else if |ws| <= 16 then ReadState(rest, ws + words[|ws|..], |ws|)
    else ReadState(rest, ws[..16], 16)
  }

  datatype LineResult = LineResult(ok: bool, state: ReadState)

  /** Reads the next line that is not a comment. */
  function NextLine(st: ReadState): (r: LineResult)
    ensures r.ok ==> |r.state.rest| < |st.rest|
    ensures !r.ok ==> r.state.rest == ""
    decreases |st.rest|
  {
    if st.rest == "" then LineResult(false, st.(count := 0))
    else
      var n := LineLength(st.rest, LINE_SIZE - 1);
      var line, rest := st.rest[..n], st.rest[n..];
      if line[0] == ';' then NextLine(st.(rest := rest))
      else LineResult(true, ScanLine(StripEol(line), rest, st.words))
  }

  // ----- Keywords ------------------------------------------------------------------

  datatype Keyword =
    | KEnd | KName | KMatch | KMatchHunk | KSymbol | KFile | KDirectory | KFileSize
    | KContentType | KDevice | KComment | KOpen | KClose | KOr | KAnd | KPatternHint
    | KProtection | KMenu | KEvent | KCommand | KFlag | KQualifier | KType | KAction
    | KPriority | KOther

  function KeywordOf(w: string): Keyword {
    if SameWord(w, "End") then KEnd
    else if SameWord(w, "Name") then KName
    else if SameWord(w, "Match") then KMatch
    else if SameWord(w, "MatchHunk") then KMatchHunk
    else if SameWord(w, "Symbol") then KSymbol
    else if SameWord(w, "File") then KFile
    else if SameWord(w, "Directory") then KDirectory
    else if SameWord(w, "FileSize") then KFileSize
    else if SameWord(w, "ContentType") then KContentType
    else if SameWord(w, "Device") then KDevice
    else if SameWord(w, "Comment") then KComment
    else if w == "(" then KOpen
    else if w == ")" then KClose
    else if SameWord(w, "OR") then KOr
    else if SameWord(w, "AND") then KAnd
    else if SameWord(w, "PatternHint") then KPatternHint
    else if SameWord(w, "Protection") then KProtection
    else if SameWord(w, "Menu") then KMenu
    else if SameWord(w, "Event") then KEvent
    else if SameWord(w, "Command") then KCommand
    else if SameWord(w, "Flag") then KFlag
    else if SameWord(w, "Qualifier") then KQualifier
    else if SameWord(w, "Type") then KType
    else if SameWord(w, "Action") then KAction
    else if SameWord(w, "Priority") then KPriority
    else KOther
  }

  /** The words of a line from `from` on, joined by spaces. */
  function Arguments(words: seq<string>, from: nat, count: int): string
    requires count <= |words|
  {
    if count <= from then "" else Join(words[from..count])
  }

  // ----- The recognition block -------------------------------------------------------

  /** The recognition step that a keyword stands for, with or without the second word. */
  function RecogOf(k: Keyword, data: string): Option<RecogNode> {
    match k
    case KName => Some(RecogNode(FileName, Some(data)))
    case KMatch => Some(RecogNode(MatchData, Some(data)))
    case KMatchHunk => Some(RecogNode(MatchHunk, Some(data)))
    case KSymbol => Some(RecogNode(FindString, Some(data)))
    case KFile => Some(RecogNode(File, None))
    case KDirectory => Some(RecogNode(Directory, None))
    case KFileSize => Some(RecogNode(FileSize, Some(data)))
    case KContentType => Some(RecogNode(Content, Some(data)))
    case KDevice => Some(RecogNode(Device, None))
    case KComment => Some(RecogNode(Comment, Some(data)))
    case KOpen => Some(RecogNode(BlockIn, None))
    case KClose => Some(RecogNode(BlockOut, None))
    case KOr => Some(RecogNode(Or, None))
    case KAnd => Some(RecogNode(And, None))
    case KProtection => Some(RecogNode(Protection, Some(data)))
    case _ => None
  }

  /** The effect of one line of a recognition block. */
  function MatchLine(words: seq<string>, ctx: Recog): Recog
    requires |words| == 16
  {
    var k := KeywordOf(words[0]);
    if k.KPatternHint? then ctx.(pattern := Some(words[1]))
    else match RecogOf(k, words[1])
      case Some(node) => ctx.(nodes := ctx.nodes + [node])
      case None => ctx
  }

  datatype MatchResult = MatchResult(ok: bool, state: ReadState, recog: Option<Recog>)

  function MatchBlock(st: ReadState, ctx: Recog): (r: MatchResult)
    ensures |r.state.rest| <= |st.rest|
    decreases |st.rest|
  {
    var line := NextLine(st);
    if !line.ok then MatchResult(false, line.state, None)
    else if KeywordOf(line.state.words[0]).KEnd? then MatchResult(true, line.state, Some(ctx))
    else MatchBlock(line.state, MatchLine(line.state.words, ctx))
  }

  // ----- Action blocks -----------------------------------------------------------------

  function EventOf(w: string): Option<Event> {
    if SameWord(w, "doubleclick") then Some(DoubleClick)
    else if SameWord(w, "dragndrop") then Some(DragNDrop)
    else if SameWord(w, "menu") then Some(MenuEvent)
    else None
  }

  function KindOf(w: string): Option<CommandType> {
    if SameWord(w, "amigados") then Some(AmigaDos)
    else if SameWord(w, "workbench") then Some(Workbench)
    else if SameWord(w, "script") then Some(Script)
    else if SameWord(w, "arexx") then Some(ARexx)
    else if SameWord(w, "internal") then Some(Internal)
    else None
  }

  function QualifierOf(w: string): Option<Qualifier> {
    if SameWord(w, "ALT") then Some(Alt)
    else if SameWord(w, "SHIFT") then Some(Shift)
    else if SameWord(w, "CONTROL") then Some(Control)
    else None
  }

  /** The flags that a flag line sets. The asynchronous flag is known but not set. */
  function FlagsOf(words: seq<string>, count: int): set<Flag>
    requires |words| == 16
  {
    if SameWord(words[1], "unquoted") then {Unquoted}
    else if SameWord(words[1], "cd") && count == 3 then
      if SameWord(words[2], "source") then {CdSource}
      else if SameWord(words[2], "destination") then {CdDestination}
      else {}
    else if SameWord(words[1], "multiple") then {Multiple}
    else {}
  }

  /** An action being parsed. The flags are kept apart until the block ends. */
  datatype Draft = Draft(an: Action, flags: set<Flag>)

  /** The effect of one line of an action block. */
  function ActionLine(cat: Catalog, words: seq<string>, count: int, d: Draft): Draft
    requires |words| == 16 && count <= 16
  {
    match KeywordOf(words[0])
    case KName => d.(an := d.an.(name := Some(Translate(cat, Arguments(words, 1, count)))))
    case KMenu => d.(an := d.an.(menuName := Some(Translate(cat, Arguments(words, 1, count)))))
    case KEvent =>
      (match EventOf(words[1])
       case Some(event) => d.(an := d.an.(event := event))
       case None => d)
    case KCommand =>
      (match KindOf(words[1])
       case Some(kind) =>
         d.(an := d.an.(commands := d.an.commands + [Command(kind, Arguments(words, 2, count))]))
       case None => d)
    case KFlag => if count > 1 then d.(flags := d.flags + FlagsOf(words, count)) else d
    case KQualifier =>
      if count > 1 then
        match QualifierOf(words[1])
        case Some(q) => d.(an := d.an.(qualifier := q))
        case None => d
      else d
    case _ => d
  }

  datatype ActionResult = ActionResult(state: ReadState, an: Option<Action>)

  ghost function ActionBlock(cat: Catalog, st: ReadState, d: Draft): (r: ActionResult)
    ensures |r.state.rest| <= |st.rest|
    decreases |st.rest|
  {
    var line := NextLine(st);
    if !line.ok then ActionResult(line.state, None)
    else if KeywordOf(line.state.words[0]).KEnd? then
      ActionResult(line.state, Some(SetUp(d.an.(flags := d.flags))))
    else
      NextLineCount(st);
      ActionBlock(cat, line.state, ActionLine(cat, line.state.words, line.state.count, d))
  }

  lemma {:induction false} NextLineCount(st: ReadState)
    ensures NextLine(st).state.count <= 16
    decreases |st.rest|
  {
    if st.rest != "" {
      var n := LineLength(st.rest, LINE_SIZE - 1);
      if st.rest[..n][0] == ';' {
        NextLineCount(st.(rest := st.rest[n..]));
      }
    }
  }

  // ----- Whole descriptors -------------------------------------------------------------

  /** The effect of a line of the descriptor that opens no block. */
  function BodyLine(words: seq<string>, count: int, d: Descriptor): Descriptor
    requires |words| == 16 && count <= 16
  {
    match KeywordOf(words[0])
    case KName => if count > 1 then d.(description := Some(Arguments(words, 1, count))) else d
    case KType => if count == 2 then d.(mimetype := Some(words[1])) else d
    case KPriority => if count == 2 then d.(priority := ReadLong(words[1])) else d
    case _ => d
  }

  datatype ParseResult = ParseResult(state: ReadState, desc: Option<Descriptor>)

  ghost function DescriptorBody(cat: Catalog, st: ReadState, d: Descriptor): (r: ParseResult)
    ensures |r.state.rest| <= |st.rest|
    ensures r.desc.Some? ==> |r.state.rest| < |st.rest|
    decreases |st.rest|
  {
    var line := NextLine(st);
    if !line.ok then ParseResult(line.state, None)
    else
      match KeywordOf(line.state.words[0])
      case KEnd => ParseResult(line.state, Some(d))
      case KMatch =>
        var m := MatchBlock(line.state, RecogStart(d.recog));
        if !m.ok then ParseResult(m.state, None)
        else DescriptorBody(cat, m.state, d.(recog := m.recog))
      case KAction =>
        var a := ActionBlock(cat, line.state, Draft(NEW_ACTION, {}));
        (match a.an
         case None => ParseResult(a.state, None)
         case Some(an) => DescriptorBody(cat, a.state, d.(actions := d.actions + [an])))
      case _ =>
        NextLineCount(st);
        DescriptorBody(cat, line.state, BodyLine(line.state.words, line.state.count, d))
  }

  /** Skips blank lines; the last line read is the first that is not blank, if any. */
  function SkipBlank(st: ReadState): (r: ReadState)
    ensures |r.rest| <= |st.rest|
    decreases |st.rest|
  {
    var line := NextLine(st);
    if line.ok && line.state.count == -1 then SkipBlank(line.state) else line.state
  }

  /** Parses one descriptor off the front of the input. */
  ghost function NextDescriptor(cat: Catalog, st: ReadState): (r: ParseResult)
    ensures |r.state.rest| <= |st.rest|
    ensures r.desc.Some? ==> |r.state.rest| < |st.rest|
  {
    var first := SkipBlank(st);
    if first.count != 0 && !SameWord(first.words[0], "AMTD") then ParseResult(first, None)
    else
      var version := NextLine(first);
      if version.ok && version.state.words[0] != "1" then ParseResult(version.state, None)
      else DescriptorBody(cat, version.state, NEW_DESCRIPTOR)
  }

  /** Parses descriptors until the input has no more of them, as a database is loaded. */
  ghost function AllDescriptors(cat: Catalog, st: ReadState): seq<Descriptor>
    decreases |st.rest|
  {
    var r := NextDescriptor(cat, st);
    match r.desc
    case None => []
    case Some(d) => [d] + AllDescriptors(cat, r.state)
  }

  // ----- The parser ----------------------------------------------------------------------

  /** An open descriptor file and the buffers its lines are split into. */
  class DescriptorReader {
    const catalog: Catalog
    const linewords: array<string>
    var numLineWords: int
    var rest: string

    ghost predicate Valid()
      reads this
    {
      linewords.Length == 16 && numLineWords <= 16
    }

    ghost function State(): ReadState
      requires Valid()
      reads this, linewords
    {
      ReadState(rest, linewords[..], numLineWords)
    }

    constructor (catalog: Catalog, text: string)
      ensures Valid() && fresh(linewords)
      ensures State() == ReadState(text, seq(16, i => ""), 0) && this.catalog == catalog
    {
      this.catalog, rest, numLineWords := catalog, text, 0;
      linewords := new string[16](i => "");
      new;
      assert linewords[..] == seq(16, i => "");
    }

    /** Splits a line into the word buffers. */
    method Scan(line: string)
      requires Valid()
      modifies this`numLineWords, linewords
      ensures Valid() && State() == ScanLine(line, rest, old(linewords[..]))
    {
      hide Words;
      var ws := Words(line);
      var n := if |ws| < 16 then |ws| else 16;
      ghost var before := linewords[..];
      for i := 0 to n
        invariant forall j :: 0 <= j < i ==> linewords[j] == ws[j]
        invariant forall j :: i <= j < 16 ==> linewords[j] == before[j]
      {
        linewords[i] := ws[i];
      }
      numLineWords := if n == 0 then -1 else n;
      assert linewords[..] == ws[..n] + before[n..];
      assert n == 0 ==> linewords[..] == before;
      assert n == |ws| ==> ws[..n] == ws;
      assert n == 16 ==> linewords[..] == ws[..16];
    }

    method ReadLine() returns (ok: bool)
      requires Valid()
      modifies this, linewords
      ensures Valid() && NextLine(old(State())) == LineResult(ok, State())
      ensures ok ==> |rest| < |old(rest)|
      ensures !ok ==> rest == ""
    {
      while rest != ""
        invariant Valid() && NextLine(State()) == NextLine(old(State())) && |rest| <= |old(rest)|
        decreases |rest|
      {
        var n := LineLength(rest, LINE_SIZE - 1);
        var line := rest[..n];
        if line[0] != ';' {
          ghost var words := linewords[..];
          rest := rest[n..];
          Scan(StripEol(line));
          return true;
        }
        rest := rest[n..];
      }
      numLineWords := 0;
      return false;
    }

    /** Joins the words of the current line from `from` on. */
    method JoinWords(from: nat) returns (s: string)
      requires Valid() && from <= 16
      ensures s == Arguments(linewords[..], from, numLineWords)
    {
      s := "";
      ghost var words := linewords[..];
      var i := from;
      while i < numLineWords
        invariant from <= i && (i == from || i <= numLineWords)
        invariant s == Arguments(words, from, i)
      {
        if i > from {
          JoinSnoc(words[from..i], words[i]);
          s := s + " " + linewords[i];
        } else {
          s := s + linewords[i];
        }
        assert words[from..i] + [words[i]] == words[from..i + 1];
        i := i + 1;
      }
    }

    /** Parses a recognition block into the descriptor's recogniser. */
    method ParseMatch(imn: MimeNode) returns (ok: bool)
      requires Valid()
      modifies this, linewords, imn`recog
      ensures Valid()
      ensures MatchBlock(old(State()), RecogStart(old(imn.recog))) == MatchResult(ok, State(), imn.recog)
    {
      if imn.recog.None? {
        imn.recog := Some(Recog([], None));
      }
      hide KeywordOf, NextLine, SameWord, RecogOf;
      ghost var goal := MatchBlock(State(), imn.recog.value);
      while true
        invariant Valid() && imn.recog.Some? && goal == MatchBlock(State(), imn.recog.value)
        decreases |rest|
      {
        var more := ReadLine();
        if !more {
          break;
        }
        EndKeyword(linewords[0]);
        if SameWord(linewords[0], "End") {
          return true;
        }
        var k := KeywordOf(linewords[0]);
        if k.KPatternHint? {
          imn.recog := Some(imn.recog.value.(pattern := Some(linewords[1])));
        } else {
          var node := RecogOf(k, linewords[1]);
          if node.Some? {
            imn.recog := Some(imn.recog.value.(nodes := imn.recog.value.nodes + [node.value]));
          }
        }
      }
      imn.recog := None;
      return false;
    }

    /** Parses the lines of an action block into a new action. */
    method ReadAction() returns (ok: bool, an: ActionNode)
      requires Valid()
      modifies this, linewords
      ensures Valid() && fresh(an)
      ensures ActionBlock(catalog, old(State()), Draft(NEW_ACTION, {}))
           == ActionResult(State(), if ok then Some(an.Value()) else None)
    {
      hide KeywordOf, NextLine, SameWord, ActionLine, SetUp;
      an := new ActionNode();
      var flags: set<Flag> := {};
      var qualifier := NoQualifier;
      ghost var goal := ActionBlock(catalog, State(), Draft(NEW_ACTION, {}));
      while true
        invariant Valid() && qualifier == an.qualifier
        invariant goal == ActionBlock(catalog, State(), Draft(an.Value(), flags))
        decreases |rest|
      {
        ok := ReadLine();
        if !ok {
          return;
        }
        EndKeyword(linewords[0]);
        if SameWord(linewords[0], "End") {
          an.flags := flags;
          an.Setup();
          return;
        }
        flags, qualifier := ApplyActionLine(an, flags, qualifier);
      }
    }

    /** Parses an action block and puts the action at the end of the descriptor's list. */
    method ParseAction(imn: MimeNode) returns (ok: bool)
      requires Valid() && imn.Valid()
      modifies this, linewords, imn`actions
      ensures Valid() && imn.Valid()
      ensures forall n :: n in imn.actions ==> n in old(imn.actions) || fresh(n)
      ensures var r := ActionBlock(catalog, old(State()), Draft(NEW_ACTION, {}));
        && State() == r.state
        && ok == r.an.Some?
        && imn.Value() == old(imn.Value()).(actions := old(imn.Value().actions) + if ok then [r.an.value] else [])
    {
      var an;
      ok, an := ReadAction();
      if ok {
        imn.AddTail(an);
      }
    }

    /** Parses the next descriptor of the file, or returns null if there is none. */
    method Parse() returns (imn: MimeNode?)
      requires Valid()
      modifies this, linewords
      ensures Valid()
      ensures imn != null ==> fresh(imn) && imn.Valid() && forall n :: n in imn.actions ==> fresh(n)
      ensures NextDescriptor(catalog, old(State()))
           == ParseResult(State(), if imn == null then None else Some(imn.Value()))
    {
      hide KeywordOf, NextLine, SameWord, SkipBlank, DescriptorBody;
      ReadFirst();
      if numLineWords != 0 && !SameWord(linewords[0], "AMTD") {
        return null;
      }
      var more := ReadLine();
      if more && linewords[0] != "1" {
        return null;
      }
      imn := new MimeNode();
      var complete := ParseBody(imn);
      if !complete {
        return null;
      }
    }

    /** Skips blank lines. */
    method ReadFirst()
      requires Valid()
      modifies this, linewords
      ensures Valid() && State() == SkipBlank(old(State()))
    {
      hide NextLine;
      var more := ReadLine();
      while more && numLineWords == -1
        invariant Valid()
        invariant SkipBlank(old(State())) == if more && numLineWords == -1 then SkipBlank(State()) else State()
        decreases if more then |rest| + 1 else 0
      {
        more := ReadLine();
      }
    }

    /** Parses the lines of a descriptor up to its end. */
    method ParseBody(imn: MimeNode) returns (complete: bool)
      requires Valid() && imn.Valid() && imn.actions == []
      modifies this, linewords, imn
      ensures Valid() && imn.Valid() && forall n :: n in imn.actions ==> fresh(n)
      ensures DescriptorBody(catalog, old(State()), old(imn.Value()))
           == ParseResult(State(), if complete then Some(imn.Value()) else None)
    {
      hide KeywordOf, NextLine, SameWord, MatchBlock, ActionBlock, BodyLine, RecogStart;
      ghost var goal := DescriptorBody(catalog, State(), imn.Value());
      while true
        invariant Valid() && imn.Valid() && forall n :: n in imn.actions ==> fresh(n)
        invariant goal == DescriptorBody(catalog, State(), imn.Value())
        decreases |rest|
      {
        var more := ReadLine();
        if !more {
          return false;
        }
        var keyword := KeywordOf(linewords[0]);
        if keyword.KEnd? {
          return true;
        } else if keyword.KMatch? {
          var ok := ParseMatch(imn);
          if !ok {
            return false;
          }
        } else if keyword.KAction? {
          var ok := ParseAction(imn);
          if !ok {
            return false;
          }
        } else {
          ApplyBodyLine(imn);
        }
      }
    }

    /** The effect of a line that opens no block. */
    method ApplyBodyLine(imn: MimeNode)
      requires Valid()
      modifies imn`mimetype, imn`description, imn`priority
      ensures imn.Value() == BodyLine(linewords[..], numLineWords, old(imn.Value()))
    {
      hide KeywordOf, SameWord, Arguments;
      match KeywordOf(linewords[0]) {
        case KName =>
          if numLineWords > 1 {
            var s := JoinWords(1);
            imn.description := Some(s);
          }
        case KType =>
          if numLineWords == 2 {
            imn.mimetype := Some(linewords[1]);
          }
        case KPriority =>
          if numLineWords == 2 {
            imn.priority := ReadLong(linewords[1]);
          }
        case _ =>
      }
    }

    /** The effect of the current line on the action being parsed. */
    method ApplyActionLine(an: ActionNode, flags: set<Flag>, qualifier: Qualifier)
      returns (flags': set<Flag>, qualifier': Qualifier)
      requires Valid() && qualifier == an.qualifier
      modifies an
      ensures Draft(an.Value(), flags')
           == ActionLine(catalog, linewords[..], numLineWords, old(Draft(an.Value(), flags)))
      ensures qualifier' == an.qualifier
    {
      hide KeywordOf, SameWord, EventOf, KindOf, QualifierOf, FlagsOf, Translate, Arguments;
      flags', qualifier' := flags, qualifier;
      match KeywordOf(linewords[0]) {
        case KName =>
          var s := JoinWords(1);
          an.name := Some(Translate(catalog, s));
        case KMenu =>
          var s := JoinWords(1);
          an.menuName := Some(Translate(catalog, s));
        case KEvent =>
          var event := EventOf(linewords[1]);
          if event.Some? {
            an.event := event.value;
          }
        case KCommand =>
          var kind := KindOf(linewords[1]);
          if kind.Some? {
            var s := JoinWords(2);
            an.AddCommand(kind.value, s);
          }
        case KFlag =>
          if numLineWords > 1 {
            flags' := flags' + FlagsOf(linewords[..], numLineWords);
          }
        case KQualifier =>
          if numLineWords > 1 {
            var q := QualifierOf(linewords[1]);
            if q.Some? {
              qualifier' := q.value;
            }
            an.qualifier := qualifier';
          }
        case _ =>
      }
    }
  }

  lemma EndKeyword(w: string)
    ensures KeywordOf(w).KEnd? <==> SameWord(w, "End")
  {
  }

  function RecogStart(recog: Option<Recog>): Recog {
    if recog.None? then Recog([], None) else recog.value
  }

  lemma {:induction false} JoinSnoc(ws: seq<string>, w: string)
    requires ws != []
    ensures Join(ws + [w]) == Join(ws) + " " + w
  {
    if |ws| > 1 {
      JoinSnoc(ws[1..], w);
      assert (ws + [w])[1..] == ws[1..] + [w];
    }
  }
}
