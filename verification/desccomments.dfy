/** Comments and blank lines in files of descriptors: parsing does not see comment lines
    anywhere, nor blank lines before a descriptor. */
module DescriptorComments {
  import opened Actions
  import opened Descriptors
  import opened DescriptorParser
  import opened DescriptorRoundTrip
  import opened DescriptorSaver
  import opened Locale
  import opened Options
  import opened Sequences
  import opened Text

  // ----- Lines ----------------------------------------------------------------------

  /** The longest line, with its newline, that one read takes whole. */
  const LONGEST: nat := 1023

  /** A line with its newline. */
  predicate IsLine(line: string) {
    0 < |line| <= LONGEST && line[|line| - 1] == '\n' && forall i :: 0 <= i < |line| - 1 ==> line[i] != '\n'
  }

  predicate IsComment(line: string) {
    line != "" && line[0] == ';'
  }

  predicate IsBlank(line: string) {
    forall i :: 0 <= i < |line| ==> IsSpace(line[i])
  }

  ghost predicate AreLines(lines: seq<string>) {
    forall i :: 0 <= i < |lines| ==> IsLine(lines[i])
  }

  /** The text of lines, one after the other. */
  function TextOf(lines: seq<string>): string {
    if lines == [] then "" else lines[0] + TextOf(lines[1..])
  }

  /** The lines that are no comments. */
  function Kept(lines: seq<string>): seq<string> {
    if lines == [] then []
    else (if IsComment(lines[0]) then [] else [lines[0]]) + Kept(lines[1..])
  }

  lemma KeptRest(lines: seq<string>)
    requires lines != [] && AreLines(lines)
    ensures AreLines(lines[1..]) && TextOf(lines) == lines[0] + TextOf(lines[1..])
    ensures if IsComment(lines[0]) then Kept(lines) == Kept(lines[1..])
            else TextOf(Kept(lines)) == lines[0] + TextOf(Kept(lines[1..]))
  {
    if !IsComment(lines[0]) {
      assert Kept(lines)[1..] == Kept(lines[1..]);
    }
  }

  lemma {:induction false} WholeLine(line: string, more: string, limit: nat)
    requires line != "" && line[|line| - 1] == '\n' && |line| <= limit
    requires forall i :: 0 <= i < |line| - 1 ==> line[i] != '\n'
    ensures LineLength(line + more, limit) == |line|
  {
    var s := line + more;
    if |line| > 1 {
      assert line[0] != '\n' && s[0] == line[0];
      assert s[1..] == line[1..] + more;
      WholeLine(line[1..], more, limit - 1);
    }
  }

  /** What reading the first of some lines does. */
  lemma ReadLine(st: ReadState, line: string, more: string)
    requires IsLine(line) && st.rest == line + more
    ensures NextLine(st) == if IsComment(line) then NextLine(st.(rest := more))
                            else LineResult(true, ScanLine(StripEol(line), more, st.words))
  {
    WholeLine(line, more, LONGEST);
    Cut(line, more);
  }

  // ----- Comments ------------------------------------------------------------------------

  /** Two states that differ in comment lines only. */
  ghost predicate Alike(lines: seq<string>, st: ReadState, st': ReadState) {
    AreLines(lines) && st.rest == TextOf(lines) && st' == st.(rest := TextOf(Kept(lines)))
  }

  ghost predicate AlikeSome(st: ReadState, st': ReadState) {
    exists lines :: Alike(lines, st, st')
  }

  lemma {:induction false} NextLineAlike(lines: seq<string>, st: ReadState, st': ReadState)
    requires Alike(lines, st, st')
    ensures NextLine(st).ok == NextLine(st').ok && AlikeSome(NextLine(st).state, NextLine(st').state)
    decreases |lines|
  {
    hide NextLine, ScanLine, IsComment;
    if lines == [] {
      NothingToRead(st);
      NothingToRead(st');
      assert Alike([], NextLine(st).state, NextLine(st').state);
    } else {
      var line, more := lines[0], lines[1..];
      KeptRest(lines);
      ReadLine(st, line, TextOf(more));
      if IsComment(line) {
        NextLineAlike(more, st.(rest := TextOf(more)), st');
      } else {
        ReadLine(st', line, TextOf(Kept(more)));
        ScanAlike(StripEol(line), TextOf(more), TextOf(Kept(more)), st.words);
        assert Alike(more, NextLine(st).state, NextLine(st').state);
      }
    }
  }

  lemma NothingToRead(st: ReadState)
    requires st.rest == ""
    ensures NextLine(st) == LineResult(false, st.(count := 0))
  {
  }

  lemma ScanAlike(line: string, rest: string, rest': string, words: seq<string>)
    requires |words| == 16
    ensures ScanLine(line, rest, words).rest == rest
    ensures ScanLine(line, rest', words) == ScanLine(line, rest, words).(rest := rest')
  {
    hide Words;
  }

  lemma LineAlike(st: ReadState, st': ReadState)
    requires AlikeSome(st, st')
    ensures var r, r' := NextLine(st), NextLine(st');
      && r.ok == r'.ok && AlikeSome(r.state, r'.state)
      && r.state.words == r'.state.words && r.state.count == r'.state.count
  {
    hide NextLine;
    var lines :| Alike(lines, st, st');
    NextLineAlike(lines, st, st');
  }

  lemma {:induction false} MatchAlike(st: ReadState, st': ReadState, ctx: Recog)
    requires AlikeSome(st, st')
    ensures var r, r' := MatchBlock(st, ctx), MatchBlock(st', ctx);
      r.ok == r'.ok && r.recog == r'.recog && AlikeSome(r.state, r'.state)
    decreases |st.rest|
  {
    hide NextLine, KeywordOf, MatchLine, AlikeSome;
    LineAlike(st, st');
    var r, r' := NextLine(st), NextLine(st');
    if r.ok && !KeywordOf(r.state.words[0]).KEnd? {
      MatchAlike(r.state, r'.state, MatchLine(r.state.words, ctx));
    }
  }

  lemma {:induction false} ActionAlike(cat: Catalog, st: ReadState, st': ReadState, d: Draft)
    requires AlikeSome(st, st')
    ensures var r, r' := ActionBlock(cat, st, d), ActionBlock(cat, st', d);
      r.an == r'.an && AlikeSome(r.state, r'.state)
    decreases |st.rest|
  {
    hide NextLine, KeywordOf, ActionLine, AlikeSome, SetUp;
    LineAlike(st, st');
    NextLineCount(st);
    var r, r' := NextLine(st), NextLine(st');
    if r.ok && !KeywordOf(r.state.words[0]).KEnd? {
      ActionAlike(cat, r.state, r'.state, ActionLine(cat, r.state.words, r.state.count, d));
    }
  }

  lemma {:induction false} BodyAlike(cat: Catalog, st: ReadState, st': ReadState, d: Descriptor)
    requires AlikeSome(st, st')
    ensures var r, r' := DescriptorBody(cat, st, d), DescriptorBody(cat, st', d);
      r.desc == r'.desc && AlikeSome(r.state, r'.state)
    decreases |st.rest|
  {
    hide NextLine, KeywordOf, MatchBlock, ActionBlock, BodyLine, AlikeSome;
    LineAlike(st, st');
    NextLineCount(st);
    var r, r' := NextLine(st), NextLine(st');
    if r.ok {
      match KeywordOf(r.state.words[0])
      case KEnd =>
      case KMatch =>
        MatchAlike(r.state, r'.state, RecogStart(d.recog));
        var m, m' := MatchBlock(r.state, RecogStart(d.recog)), MatchBlock(r'.state, RecogStart(d.recog));
        if m.ok {
          BodyAlike(cat, m.state, m'.state, d.(recog := m.recog));
        }
      case KAction =>
        ActionAlike(cat, r.state, r'.state, Draft(NEW_ACTION, {}));
        var a := ActionBlock(cat, r.state, Draft(NEW_ACTION, {}));
        var a' := ActionBlock(cat, r'.state, Draft(NEW_ACTION, {}));
        if a.an.Some? {
          BodyAlike(cat, a.state, a'.state, d.(actions := d.actions + [a.an.value]));
        }
      case _ =>
        BodyAlike(cat, r.state, r'.state, BodyLine(r.state.words, r.state.count, d));
    }
  }

  lemma {:induction false} SkipAlike(st: ReadState, st': ReadState)
    requires AlikeSome(st, st')
    ensures var r, r' := SkipBlank(st), SkipBlank(st');
      AlikeSome(r, r') && r.words == r'.words && r.count == r'.count
    decreases |st.rest|
  {
    hide NextLine, AlikeSome;
    LineAlike(st, st');
    var r, r' := NextLine(st), NextLine(st');
    if r.ok && r.state.count == -1 {
      SkipAlike(r.state, r'.state);
    }
  }

  lemma NextAlike(cat: Catalog, st: ReadState, st': ReadState)
    requires AlikeSome(st, st')
    ensures var r, r' := NextDescriptor(cat, st), NextDescriptor(cat, st');
      r.desc == r'.desc && AlikeSome(r.state, r'.state)
  {
    hide NextLine, SkipBlank, DescriptorBody, AlikeSome, SameWord;
    SkipAlike(st, st');
    var first, first' := SkipBlank(st), SkipBlank(st');
    LineAlike(first, first');
    BodyAlike(cat, NextLine(first).state, NextLine(first').state, NEW_DESCRIPTOR);
  }

  lemma {:induction false} AllAlike(cat: Catalog, st: ReadState, st': ReadState)
    requires AlikeSome(st, st')
    ensures AllDescriptors(cat, st) == AllDescriptors(cat, st')
    decreases |st.rest|
  {
    hide NextDescriptor, AlikeSome;
    NextAlike(cat, st, st');
    var r := NextDescriptor(cat, st);
    if r.desc.Some? {
      AllAlike(cat, r.state, NextDescriptor(cat, st').state);
    }
  }

  /** For every file of lines that fit the buffer, printed or not, the parser reads the same
      descriptors as without the comment lines. */
  lemma CommentsAreNotRead(cat: Catalog, lines: seq<string>, st: ReadState)
    requires AreLines(lines) && st.rest == TextOf(lines)
    ensures AllDescriptors(cat, st) == AllDescriptors(cat, st.(rest := TextOf(Kept(lines))))
  {
    hide AllDescriptors;
    assert Alike(lines, st, st.(rest := TextOf(Kept(lines))));
    AllAlike(cat, st, st.(rest := TextOf(Kept(lines))));
  }

  // ----- Input that is never printed -----------------------------------------------------------

  lemma SameParenthesis(v: string, w: string)
    requires SameWord(v, w)
    ensures (v == "(" <==> w == "(") && (v == ")" <==> w == ")")
  {
    assert |v| == |w|;
    if |v| == 1 {
      assert Fold(v)[0] == Fold(w)[0];
    }
  }

  lemma SameFor(v: string, w: string, k: string)
    requires SameWord(v, w)
    ensures SameWord(v, k) <==> SameWord(w, k)
  {
    hide Fold;
  }

  /** Keywords and other words that stand for something are known in any case. */
  lemma CaseDoesNotMatter(v: string, w: string)
    requires SameWord(v, w)
    ensures KeywordOf(v) == KeywordOf(w)
  {
    hide SameWord;
    SameParenthesis(v, w);
    SameFor(v, w, "End");
    SameFor(v, w, "Name");
    SameFor(v, w, "Match");
    SameFor(v, w, "MatchHunk");
    SameFor(v, w, "Symbol");
    SameFor(v, w, "File");
    SameFor(v, w, "Directory");
    SameFor(v, w, "FileSize");
    SameFor(v, w, "ContentType");
    SameFor(v, w, "Device");
    SameFor(v, w, "Comment");
    SameFor(v, w, "OR");
    SameFor(v, w, "AND");
    SameFor(v, w, "PatternHint");
    SameFor(v, w, "Protection");
    SameFor(v, w, "Menu");
    SameFor(v, w, "Event");
    SameFor(v, w, "Command");
    SameFor(v, w, "Flag");
    SameFor(v, w, "Qualifier");
    SameFor(v, w, "Type");
    SameFor(v, w, "Action");
    SameFor(v, w, "Priority");
  }

  lemma NamesInAnyCase(v: string, w: string)
    requires SameWord(v, w)
    ensures EventOf(v) == EventOf(w) && KindOf(v) == KindOf(w) && QualifierOf(v) == QualifierOf(w)
  {
    hide Fold;
  }

  /** Of a line with more than sixteen words the first sixteen are read. */
  lemma ManyWordsCut(st: ReadState, ws: seq<string>, more: string)
    requires AreWords(ws) && |ws| > 16 && |Join(ws)| <= MAX_LINE && ws[0][0] != ';'
    requires st.rest == Join(ws) + "\n" + more
    ensures NextLine(st) == LineResult(true, ReadState(more, ws[..16], 16))
  {
    hide Words;
    WordsOfJoin(ws);
    JoinHasNoNewline(ws);
    var line := Join(ws) + "\n";
    assert line[0] == ws[0][0];
    ReadLine(st, line, more);
    assert StripEol(line) == Join(ws);
  }

  /** A protection step, which the printer has no line for, is read. */
  lemma ProtectionIsRead(st: ReadState, ctx: Recog, data: string, more: string) returns (st': ReadState)
    requires IsWord(data) && |data| < 512 && st.rest == "\tProtection " + data + "\n" + more
    ensures st'.rest == more
    ensures MatchBlock(st, ctx) == MatchBlock(st', ctx.(nodes := ctx.nodes + [RecogNode(Protection, Some(data))]))
  {
    hide NextLine, Words, KeywordOf, Join;
    JoinAlone(data);
    assert "\tProtection " == "\t" + "Protection" + " ";
    assert st.rest == Line(true, "Protection", [data]) + "\n" + more;
    ReadLineOfWords(st, true, "Protection", [data], more);
    st' := After(["Protection"] + [data], more, st);
    AfterWords(["Protection"] + [data], more, st);
    ProtectionKeyword();
  }

  lemma JoinAlone(w: string)
    ensures Join([w]) == w
  {
  }

  lemma ProtectionKeyword()
    ensures KeywordOf("Protection") == KProtection
  {
    hide Fold;
    Differ("Protection", "Name", 0);
    Differ("Protection", "Match", 0);
    Differ("Protection", "Device", 0);
  }

  /** An action without a name line is named "Default". */
  lemma UnnamedAction(cat: Catalog, st: ReadState, more: string) returns (st': ReadState)
    requires st.rest == "\tEnd\n" + more
    ensures st'.rest == more
    ensures ActionBlock(cat, st, Draft(NEW_ACTION, {})) == ActionResult(st', Some(NEW_ACTION.(name := Some("Default"))))
  {
    hide NextLine, KeywordOf;
    RecogKeywords();
    assert st.rest == Bare(true, "End") + "\n" + more;
    ReadBareLine(st, true, "End", more);
    st' := After(["End"], more, st);
    AfterWords(["End"], more, st);
    assert st'.words[0] == "End";
    NoNeeds();
    assert SetUp(NEW_ACTION.(flags := {})) == NEW_ACTION.(name := Some("Default"));
  }

  lemma NoNeeds()
    ensures NeedAll([]) == {}
  {
  }

  // ----- Blank lines ---------------------------------------------------------------------

  lemma {:induction false} BlankHasNoWords(line: string)
    requires IsBlank(line)
    ensures Words(line) == []
  {
    if line != "" {
      BlankHasNoWords(line[1..]);
    }
  }

  lemma CountDoesNotMatter(st: ReadState, count: int)
    requires st.rest != ""
    ensures NextLine(st.(count := count)) == NextLine(st)
    decreases |st.rest|
  {
    hide ScanLine;
    if st.rest != "" {
      var n := LineLength(st.rest, LINE_SIZE - 1);
      if st.rest[..n][0] == ';' && st.rest[n..] != "" {
        CountDoesNotMatter(st.(rest := st.rest[n..]), count);
      }
    }
  }

  lemma SkipSame(st: ReadState, count: int)
    ensures SkipBlank(st.(count := count)) == SkipBlank(st)
  {
    hide NextLine;
    if st.rest == "" {
      NothingToRead(st);
      NothingToRead(st.(count := count));
    } else {
      CountDoesNotMatter(st, count);
    }
  }

  /** A blank line before a descriptor is not read either, whatever the buffers hold. */
  lemma BlankLineSkipped(cat: Catalog, line: string, more: string, st: ReadState)
    requires IsLine(line) && IsBlank(line) && st.rest == line + more
    ensures NextDescriptor(cat, st) == NextDescriptor(cat, st.(rest := more))
  {
    hide NextLine, DescriptorBody, Words, SameWord, SkipBlank;
    ReadLine(st, line, more);
    BlankHasNoWords(StripEol(line));
    assert NextLine(st) == LineResult(true, ReadState(more, st.words, -1));
    SkipNext(st);
    SkipSame(st.(rest := more), -1);
  }

  lemma SkipNext(st: ReadState)
    ensures var line := NextLine(st);
      SkipBlank(st) == if line.ok && line.state.count == -1 then SkipBlank(line.state) else line.state
  {
  }

  /** Inside a block a blank line is read: it works like the line before it without words
      of its own. After a command it adds a command of the same type without text. */
  lemma BlankAfterCommand(cat: Catalog, st: ReadState, d: Draft, c: Command, blank: string, more: string)
    returns (st': ReadState)
    requires CommandOk(c) && IsLine(blank) && IsBlank(blank) && st.rest == CommandLine(c) + (blank + more)
    ensures st'.rest == more
    ensures ActionBlock(cat, st, d)
         == ActionBlock(cat, st', d.(an := d.an.(commands := d.an.commands + [c, Command(c.kind, "")])))
  {
    hide KeywordOf, NextLine, KindOf, Words, CommandOk, CommandLine, KindName;
    ActionKeywords();
    KindNameRead(c.kind);
    var read := ReadCommandLine(st, c, blank + more);
    var commands := d.an.commands + [c];
    ReadLine(read, blank, more);
    BlankHasNoWords(StripEol(blank));
    st' := ReadState(more, read.words, -1);
    assert NextLine(read) == LineResult(true, st');
    assert commands + [Command(c.kind, "")] == d.an.commands + [c, Command(c.kind, "")];
  }

  ghost predicate AreBlank(lines: seq<string>) {
    forall i :: 0 <= i < |lines| ==> IsLine(lines[i]) && IsBlank(lines[i])
  }

  lemma {:induction false} BlankLinesSkipped(cat: Catalog, lines: seq<string>, more: string, st: ReadState)
    requires AreBlank(lines) && st.rest == TextOf(lines) + more
    ensures NextDescriptor(cat, st) == NextDescriptor(cat, st.(rest := more))
  {
    hide NextDescriptor;
    if lines == [] {
      assert st.rest == more;
    } else {
      var rest := TextOf(lines[1..]) + more;
      assert st.rest == lines[0] + rest;
      BlankLineSkipped(cat, lines[0], rest, st);
      BlankLinesSkipped(cat, lines[1..], more, st.(rest := rest));
    }
  }

  // ----- Printed files ----------------------------------------------------------------------

  /** Saved descriptors with blank lines before each of them and at the end. */
  function SpacedFile(cat: Catalog, ds: seq<Descriptor>, blanks: seq<seq<string>>): string
    requires |blanks| == |ds| + 1 && forall i :: 0 <= i < |ds| ==> Printable(ds[i])
  {
    TextOf(blanks[0]) +
    if ds == [] then "" else Concat(Pieces(cat, ds[0])) + SpacedFile(cat, ds[1..], blanks[1..])
  }

  lemma {:induction false} SpacedFileRoundTrip(cat: Catalog, ds: seq<Descriptor>, blanks: seq<seq<string>>,
                                               st: ReadState)
    requires forall i :: 0 <= i < |ds| ==> WellFormed(cat, ds[i]) && Printable(ds[i])
    requires |blanks| == |ds| + 1 && forall i :: 0 <= i < |blanks| ==> AreBlank(blanks[i])
    requires st.rest == SpacedFile(cat, ds, blanks)
    ensures AllDescriptors(cat, st) == ds
    decreases |ds|
  {
    hide NextDescriptor, WellFormed, Printable, Pieces, Concat, TextOf;
    if ds == [] {
      BlankLinesSkipped(cat, blanks[0], "", st);
      EmptyFile(cat, st.(rest := ""));
    } else {
      var rest := SpacedFile(cat, ds[1..], blanks[1..]);
      var st1 := st.(rest := Concat(Pieces(cat, ds[0])) + rest);
      BlankLinesSkipped(cat, blanks[0], st1.rest, st);
      var st2 := RoundTrip(cat, ds[0], st1, rest);
      SpacedFileRoundTrip(cat, ds[1..], blanks[1..], st2);
    }
  }

  /** A file of saved descriptors parses back to the list whatever blank lines are put
      before them and whatever comment lines are put between any of its lines. */
  lemma CommentedFileRoundTrip(cat: Catalog, ds: seq<Descriptor>, blanks: seq<seq<string>>, lines: seq<string>,
                               st: ReadState)
    requires forall i :: 0 <= i < |ds| ==> WellFormed(cat, ds[i]) && Printable(ds[i])
    requires |blanks| == |ds| + 1 && forall i :: 0 <= i < |blanks| ==> AreBlank(blanks[i])
    requires AreLines(lines) && TextOf(Kept(lines)) == SpacedFile(cat, ds, blanks) && st.rest == TextOf(lines)
    ensures AllDescriptors(cat, st) == ds
  {
    hide AllDescriptors, SpacedFile, WellFormed, Printable, TextOf;
    CommentsAreNotRead(cat, lines, st);
    SpacedFileRoundTrip(cat, ds, blanks, st.(rest := TextOf(Kept(lines))));
  }

  // ----- Every such file consists of lines -------------------------------------------------------

  ghost predicate NoComments(lines: seq<string>) {
    forall i :: 0 <= i < |lines| ==> IsLine(lines[i]) && !IsComment(lines[i])
  }

  /** The text consists of lines, none of which is a comment. */
  ghost predicate IsPlain(text: string) {
    exists lines :: NoComments(lines) && TextOf(lines) == text
  }

  lemma {:induction false} TextSum(a: seq<string>, b: seq<string>)
    ensures TextOf(a + b) == TextOf(a) + TextOf(b)
  {
    if a == [] {
      assert a + b == b;
    } else {
      TextSum(a[1..], b);
      assert (a + b)[0] == a[0] && (a + b)[1..] == a[1..] + b;
      Assoc(a[0], TextOf(a[1..]), TextOf(b));
    }
  }

  lemma PlainSum(a: string, b: string)
    requires IsPlain(a) && IsPlain(b)
    ensures IsPlain(a + b)
  {
    var k :| NoComments(k) && TextOf(k) == a;
    var l :| NoComments(l) && TextOf(l) == b;
    TextSum(k, l);
    assert NoComments(k + l);
  }

  lemma PlainNone()
    ensures IsPlain("")
  {
    assert NoComments([]) && TextOf([]) == "";
  }

  lemma PlainOne(line: string)
    requires NoNewline(line) && |line| <= MAX_LINE && !IsComment(line)
    ensures IsPlain(line + "\n")
  {
    var lines := [line + "\n"];
    assert TextOf(lines) == line + "\n";
    assert NoComments(lines);
  }

  lemma PlainText(line: string, text: string)
    requires NoNewline(line) && |line| <= MAX_LINE && !IsComment(line) && text == line + "\n"
    ensures IsPlain(text)
  {
    PlainOne(line);
  }

  lemma {:induction false} PlainConcat(pieces: seq<string>)
    requires forall i :: 0 <= i < |pieces| ==> IsPlain(pieces[i])
    ensures IsPlain(Concat(pieces))
  {
    hide IsPlain;
    if pieces == [] {
      PlainNone();
    } else {
      var last := |pieces| - 1;
      PlainConcat(pieces[..last]);
      PlainSum(Concat(pieces[..last]), pieces[last]);
    }
  }

  lemma SpacedHasNoNewline(s: string)
    requires Join(Words(s)) == s
    ensures NoNewline(s)
  {
    WordsAreWords(s);
    JoinHasNoNewline(Words(s));
  }

  lemma {:induction false} PlainRecogLines(nodes: seq<RecogNode>)
    requires forall i :: 0 <= i < |nodes| ==> HasLine(nodes[i]) && NodeOk(nodes[i])
    ensures IsPlain(Concat(RecogLines(nodes)))
  {
    hide IsPlain, RecogLine, NodeOk, HasLine;
    if nodes == [] {
      PlainNone();
    } else {
      var front, n := nodes[..|nodes| - 1], nodes[|nodes| - 1];
      PlainRecogLines(front);
      LastRecogLine(nodes);
      PlainRecogLine(n);
      PlainSum(Concat(RecogLines(front)), RecogLine(n));
    }
  }

  lemma PlainRecogLine(n: RecogNode)
    requires HasLine(n) && NodeOk(n)
    ensures IsPlain(RecogLine(n))
  {
    hide IsPlain, Words;
    var (keyword, hasData) := RecogKeyword(n.cmd);
    RecogKeywordShort(n.cmd);
    WordHasNoNewline(keyword);
    var line := if hasData then "\t" + keyword + " " + n.data.value else "\t" + keyword;
    if hasData {
      WordHasNoNewline(n.data.value);
    }
    PlainOne(line);
    assert RecogLine(n) == line + "\n";
  }

  lemma PlainRecog(ctx: Recog)
    requires RecogOk(ctx)
    ensures IsPlain(Concat(RecogPieces(ctx)))
  {
    hide IsPlain, Concat, RecogLines, RecogPieces;
    RecogTextOf(ctx);
    var pattern := if ctx.pattern.Some? then "\tPatternHint " + ctx.pattern.value + "\n" else "";
    var steps := if ctx.nodes == [] then "" else Concat(RecogLines(ctx.nodes)) + "\tEnd\n";
    PlainNone();
    if ctx.pattern.Some? {
      PlainOne("\tPatternHint " + ctx.pattern.value);
    }
    if ctx.nodes != [] {
      PlainRecogLines(ctx.nodes);
      PlainOne("\tEnd");
      PlainSum(Concat(RecogLines(ctx.nodes)), "\tEnd\n");
    }
    PlainSum(pattern, steps);
    PlainOne("Match");
    PlainSum("Match\n", pattern + steps);
  }

  lemma PlainCommand(c: Command)
    requires CommandOk(c)
    ensures IsPlain(CommandLine(c))
  {
    hide IsPlain, Words, Join;
    SpacedHasNoNewline(c.text);
    PlainOne("\tCommand " + KindName(c.kind) + " " + c.text);
  }

  lemma {:induction false} PlainCommands(commands: seq<Command>)
    requires forall i :: 0 <= i < |commands| ==> CommandOk(commands[i])
    ensures IsPlain(Concat(CommandLines(commands)))
  {
    hide IsPlain, CommandLine, CommandOk;
    if commands == [] {
      PlainNone();
    } else {
      var front, c := commands[..|commands| - 1], commands[|commands| - 1];
      PlainCommands(front);
      PlainCommand(c);
      LastCommandLine(commands);
      hide CommandLines, Concat;
      PlainSum(Concat(CommandLines(front)), CommandLine(c));
    }
  }

  lemma LastCommandLine(commands: seq<Command>)
    requires commands != []
    ensures var last := |commands| - 1;
      Concat(CommandLines(commands)) == Concat(CommandLines(commands[..last])) + CommandLine(commands[last])
  {
  }

  lemma PlainTail(an: Action)
    requires forall i :: 0 <= i < |an.commands| ==> CommandOk(an.commands[i])
    ensures IsPlain(TailText(an))
  {
    hide IsPlain, CommandLines, CommandOk, Concat;
    PlainCommands(an.commands);
    PlainQualifier(an.qualifier);
    PlainFlags(an.flags);
    PlainOne("\tEnd");
    PlainSum(Concat(FlagLines(an.flags)), "\tEnd\n");
    PlainSum(Concat(QualifierLines(an.qualifier)), Concat(FlagLines(an.flags)) + "\tEnd\n");
    PlainSum(Concat(CommandLines(an.commands)),
             Concat(QualifierLines(an.qualifier)) + (Concat(FlagLines(an.flags)) + "\tEnd\n"));
  }

  lemma PlainQualifier(q: Qualifier)
    ensures IsPlain(Concat(QualifierLines(q)))
  {
    hide IsPlain;
    PlainText("\tQualifier ALT", "\tQualifier ALT\n");
    PlainText("\tQualifier SHIFT", "\tQualifier SHIFT\n");
    PlainText("\tQualifier CONTROL", "\tQualifier CONTROL\n");
    PlainConcat(QualifierLines(q));
  }

  lemma PlainFlags(flags: set<Flag>)
    ensures IsPlain(Concat(FlagLines(flags)))
  {
    hide IsPlain;
    PlainText("\tFlag cd source", "\tFlag cd source\n");
    PlainText("\tFlag cd destination", "\tFlag cd destination\n");
    PlainText("\tFlag unquoted", "\tFlag unquoted\n");
    PlainText("\tFlag multiple", "\tFlag multiple\n");
    PlainText("\tFlag asynchronous", "\tFlag asynchronous\n");
    PlainConcat(FlagLines(flags));
  }

  lemma PlainEvent(event: Event)
    ensures IsPlain(EventLine(event))
  {
    hide IsPlain;
    PlainText("\tEvent DoubleClick", "\tEvent DoubleClick\n");
    PlainText("\tEvent DragNDrop", "\tEvent DragNDrop\n");
    PlainText("\tEvent Menu", "\tEvent Menu\n");
  }

  lemma PlainAction(cat: Catalog, an: Action)
    requires ActionOk(cat, an)
    ensures IsPlain(Concat(ActionPieces(cat, an)))
  {
    hide IsPlain, Concat, ActionPieces, TailText, CommandOk, NeedAll, EventLine, Translate, English, Words, Join;
    ActionTextOf(cat, an);
    var name, menu, tail := English(cat, an.name.value), MenuText(cat, an), TailText(an);
    SpacedHasNoNewline(name);
    PlainOne("\tName " + name);
    PlainNone();
    if an.menuName.Some? {
      SpacedHasNoNewline(English(cat, an.menuName.value));
      PlainOne("\tMenu " + English(cat, an.menuName.value));
    }
    PlainTail(an);
    PlainEvent(an.event);
    PlainSum(EventLine(an.event), tail);
    PlainSum(menu, EventLine(an.event) + tail);
    PlainSum("\tName " + name + "\n", menu + (EventLine(an.event) + tail));
    PlainOne("Action");
    PlainSum("Action\n", ActionText(cat, an));
  }

  lemma {:induction false} PlainActions(cat: Catalog, actions: seq<Action>)
    requires forall i :: 0 <= i < |actions| ==> actions[i].name.Some? && ActionOk(cat, actions[i])
    ensures IsPlain(Concat(AllActionPieces(cat, actions)))
  {
    hide IsPlain, ActionOk, ActionPieces, Concat;
    if actions == [] {
      PlainNone();
      ConcatNone();
    } else {
      var front, an := actions[..|actions| - 1], actions[|actions| - 1];
      PlainActions(cat, front);
      PlainAction(cat, an);
      ConcatSum(AllActionPieces(cat, front), ActionPieces(cat, an));
      PlainSum(Concat(AllActionPieces(cat, front)), Concat(ActionPieces(cat, an)));
    }
  }

  lemma PlainHead(cat: Catalog, d: Descriptor)
    requires AttributesOk(cat, d) && Printable(d)
    ensures IsPlain(Concat(HeadPieces(d)))
  {
    hide IsPlain, Concat, HeadPieces, ActionOk, Printable, Words, Join, RecogOk, RecogPieces, PrintLong;
    HeadTextOf(cat, d);
    PlainNone();
    var desc, prio, recog := DescriptionText(d), PriorityText(d), RecogBlockText(d);
    if d.description.Some? {
      SpacedHasNoNewline(d.description.value);
      PlainOne("Name " + d.description.value);
    }
    if d.priority != 0 {
      PrintedLongShort(d.priority);
      ReadPrintedLong(d.priority);
      WordHasNoNewline(PrintLong(d.priority));
      PlainOne("Priority " + PrintLong(d.priority));
    }
    if d.recog.Some? {
      PlainRecog(d.recog.value);
    }
    WordHasNoNewline(d.mimetype.value);
    PlainOne("Type " + d.mimetype.value);
    PlainOne("AMTD");
    PlainOne("1");
    PlainSum(prio, recog);
    PlainSum(desc, prio + recog);
    PlainSum("Type " + d.mimetype.value + "\n", desc + (prio + recog));
    PlainSum("1\n", HeadText(d));
    PlainSum("AMTD\n", "1\n" + HeadText(d));
  }

  /** What is printed for a descriptor consists of lines that fit the buffer and of which
      none is a comment, so that comments can be put between any two of them. */
  lemma PrintedIsPlain(cat: Catalog, d: Descriptor)
    requires AttributesOk(cat, d) && Printable(d)
    ensures IsPlain(Concat(Pieces(cat, d)))
  {
    hide IsPlain, Concat, HeadPieces, AllActionPieces, Pieces, ActionOk, RecogOk;
    PiecesText(cat, d, "");
    PlainHead(cat, d);
    PlainActions(cat, d.actions);
    PlainOne("End");
    var head, actions := Concat(HeadPieces(d)), Concat(AllActionPieces(cat, d.actions));
    PlainSum(actions, "End\n");
    PlainSum(head, actions + "End\n");
    assert "End\n" + "" == "End\n" && Concat(Pieces(cat, d)) + "" == Concat(Pieces(cat, d));
  }
}
