/** Command templates: what a template's placeholders are, what they expand to, and that
    the scan which decides what an entry needs covers every one of them. */
module Templates {
  import opened Actions
  import opened Options
  import opened Sequences
  import opened Text

  // ----- Placeholders ----------------------------------------------------------------

  datatype Token =
    | Plain(c: char)
    | EntryPath | EntryFilePart | EntryUri
    | SourceId | SourcePath
    | DestId | DestDrawer | DestPath
    | Unknown(next: char)

  /** The token that `s` starts with and its length. The end of a string reads as the
      terminator, which no placeholder contains. */
  function FirstToken(s: string): (t: (Token, nat))
    requires s != ""
    ensures 1 <= t.1 <= 3
    ensures t.1 > |s| ==> |s| == 1 && s[0] == '%' && t == (Unknown('\0'), 2)
  {
    var primary := if |s| > 1 then s[1] else '\0';
    var secondary := if |s| > 2 then s[2] else '\0';
    if s[0] != '%' then (Plain(s[0]), 1)
    else if primary == 's' then
      if secondary == 'p' then (EntryPath, 3)
      else if secondary == 'f' then (EntryFilePart, 3)
      else (EntryUri, 2)
    else if primary == 'S' then
      if secondary == 'i' then (SourceId, 3) else (SourcePath, 2)
    else if primary == 'D' then
      if secondary == 'i' then (DestId, 3)
      else if secondary == 'p' then (DestDrawer, 3)
      else (DestPath, 2)
    else (Unknown(primary), 2)
  }

  function Tokens(s: string): seq<Token>
    decreases |s|
  {
    if s == "" then []
    else
      var (t, n) := FirstToken(s);
      [t] + Tokens(if n <= |s| then s[n..] else "")
  }

  /** What the placeholders stand for. */
  datatype Locations = Locations(path: Option<string>, filePart: Option<string>, uri: Option<string>)

  datatype Environment = Environment(
    srcId: Long, dstId: Long, source: Option<string>, dest: Option<string>,
    decodePath: string -> string)

  /** Uris that are expanded as they are: file uris, quoted or not. */
  predicate IsFileUri(uri: string) {
    || "file:/" <= uri
    || ("\"file:/" <= uri && uri[|uri| - 1] == '"')
  }

  /** What the C string in a buffer is. */
  function CString(buffer: string): string {
    if buffer == "" || buffer[0] == '\0' then "" else [buffer[0]] + CString(buffer[1..])
  }

  /** The locations a token reads are there. */
  predicate Present(t: Token, at: Locations, env: Environment) {
    match t
    case EntryPath => at.path.Some?
    case EntryFilePart => at.filePart.Some?
    case EntryUri => at.uri.Some?
    case SourcePath => env.source.Some?
    case DestDrawer => env.dest.Some? ==> env.dest.value != ""
    case _ => true
  }

  predicate AllPresent(ts: seq<Token>, at: Locations, env: Environment) {
    forall i :: 0 <= i < |ts| ==> Present(ts[i], at, env)
  }

  function Drawer(path: string): string
    requires path != ""
  {
    var last := path[|path| - 1];
    if last == '/' || last == ':' then path else path + "/"
  }

  /** The text of a token; none when it needs a destination and there is none. */
  function Substitute(t: Token, at: Locations, env: Environment): Option<string>
    requires Present(t, at, env)
  {
    match t
    case Plain(c) => Some([c])
    case EntryPath => at.path
    case EntryFilePart => at.filePart
    case EntryUri => Some(if IsFileUri(at.uri.value) then at.uri.value else env.decodePath(at.uri.value))
    case SourceId => Some(PrintLong(env.srcId))
    case SourcePath => env.source
    case DestId => if env.dest.None? then None else Some(PrintLong(env.dstId) + env.dest.value)
    case DestDrawer => if env.dest.None? then None else Some(Drawer(env.dest.value))
    case DestPath => env.dest
    case Unknown(next) => Some(['%', next])
  }

  function Expand(ts: seq<Token>, at: Locations, env: Environment): Option<string>
    requires AllPresent(ts, at, env)
  {
    if ts == [] then Some("")
    else match Substitute(ts[0], at, env)
      case None => None
      case Some(text) =>
        match Expand(ts[1..], at, env)
        case None => None
        case Some(rest) => Some(text + rest)
  }

  /** The command that a template becomes. */
  function ExpandTemplate(template: string, at: Locations, env: Environment): Option<string>
    requires AllPresent(Tokens(template), at, env)
  {
    match Expand(Tokens(template), at, env)
    case None => None
    case Some(buffer) => Some(CString(buffer))
  }

  // ----- The expansion loop --------------------------------------------------------------

  /** The buffer that is left to append, given what expanding from here on would add. */
  ghost predicate LeftToExpand(goal: Option<string>, buffer: string, error: bool, ts: seq<Token>,
                               at: Locations, env: Environment)
    requires AllPresent(ts, at, env)
  {
    if error then goal == None
    else goal == match Expand(ts, at, env) case None => None case Some(rest) => Some(buffer + rest)
  }

  lemma ExpandOne(goal: Option<string>, buffer: string, ts: seq<Token>, at: Locations, env: Environment)
    requires ts != [] && AllPresent(ts, at, env) && LeftToExpand(goal, buffer, false, ts, at, env)
    ensures AllPresent(ts[1..], at, env)
    ensures match Substitute(ts[0], at, env)
      case None => goal == None
      case Some(text) => LeftToExpand(goal, buffer + text, false, ts[1..], at, env)
  {
    if Substitute(ts[0], at, env).Some? {
      match Expand(ts[1..], at, env)
      case None =>
      case Some(rest) => Assoc(buffer, Substitute(ts[0], at, env).value, rest);
    }
  }

  /** Expands one template. `cursor` steps over a placeholder's characters, past the end
      of the template by one at most. */
  method ExpandCommand(template: string, at: Locations, env: Environment) returns (command: Option<string>)
    requires AllPresent(Tokens(template), at, env)
    ensures command == ExpandTemplate(template, at, env)
  {
    hide Expand;
    var cursor, error, buffer := 0, false, "";
    ghost var left := template;
    ghost var goal := Expand(Tokens(template), at, env);
    ExpandNothing(goal, Tokens(template), at, env);
    while cursor < |template| && !error
      invariant cursor <= |template| + 1
      invariant left == if cursor <= |template| then template[cursor..] else ""
      invariant AllPresent(Tokens(left), at, env)
      invariant LeftToExpand(goal, buffer, error, Tokens(left), at, env)
    {
      ExpandOne(goal, buffer, Tokens(left), at, env);
      var primary := if |template| > cursor + 1 then template[cursor + 1] else '\0';
      var secondary := if |template| > cursor + 2 then template[cursor + 2] else '\0';
      ghost var (token, length) := FirstToken(left);
      assert left[0] == template[cursor];
      assert |left| > 1 ==> left[1] == primary;
      assert |left| > 2 ==> left[2] == secondary;
      assert Tokens(left)[1..] == Tokens(if length <= |left| then left[length..] else "");
      var text, size := ExpandPlaceholder(template, cursor, primary, secondary, token, length, at, env);
      if text.None? {
        error := true;
      } else {
        buffer := buffer + text.value;
      }
      cursor := cursor + size;
      left := if length <= |left| then left[length..] else "";
    }
    if error {
      return None;
    }
    assert Tokens(left) == [];
    ExpandNothing(goal, [], at, env);
    assert buffer + "" == buffer;
    command := Some(CString(buffer));
  }

  lemma ExpandNothing(goal: Option<string>, ts: seq<Token>, at: Locations, env: Environment)
    requires AllPresent(ts, at, env)
    ensures LeftToExpand(Expand(ts, at, env), "", false, ts, at, env)
    ensures Expand([], at, env) == Some("")
  {
    if Expand(ts, at, env).Some? {
      assert "" + Expand(ts, at, env).value == Expand(ts, at, env).value;
    }
  }

  /** The branches for the character at `cursor`: what is appended, or none on an error,
      and how many characters are consumed. */
  method ExpandPlaceholder(template: string, cursor: nat, primary: char, secondary: char,
                           ghost token: Token, ghost length: nat, at: Locations, env: Environment)
    returns (text: Option<string>, consumed: nat)
    requires cursor < |template|
    requires primary == if |template| > cursor + 1 then template[cursor + 1] else '\0'
    requires secondary == if |template| > cursor + 2 then template[cursor + 2] else '\0'
    requires (token, length) == FirstToken(template[cursor..]) && Present(token, at, env)
    ensures text == Substitute(token, at, env) && consumed == length
  {
    if template[cursor] != '%' {
      return Some([template[cursor]]), 1;
    }
    var size := 1;
    text := Some("");
    if primary == 's' {
      if secondary == 'p' {
        text := at.path;
        size := size + 1;
      } else if secondary == 'f' {
        text := at.filePart;
        size := size + 1;
      } else if IsFileUri(at.uri.value) {
        text := at.uri;
      } else {
        text := Some(env.decodePath(at.uri.value));
      }
    } else if primary == 'S' {
      if secondary == 'i' {
        text := Some(PrintLong(env.srcId));
        size := size + 1;
      } else {
        text := env.source;
      }
    } else if primary == 'D' {
      var id := "";
      if secondary == 'i' {
        id := PrintLong(env.dstId);
        size := size + 1;
      }
      if secondary == 'p' {
        text := if env.dest.None? then None else Some(Drawer(env.dest.value));
        size := size + 1;
      } else {
        text := if env.dest.None? then None else Some(id + env.dest.value);
        assert "" + (if env.dest.Some? then env.dest.value else "")
            == if env.dest.Some? then env.dest.value else "";
      }
    } else {
      text := Some(['%', primary]);
    }
    consumed := 1 + size;
  }

  // ----- The scan covers the expansion -----------------------------------------------------

  /** The flag that a token's location is looked up for. */
  function FlagOf(t: Token): Option<Flag> {
    match t
    case EntryPath => Some(NeedPath)
    case EntryFilePart => Some(NeedFilePart)
    case EntryUri => Some(NeedUri)
    case DestId => Some(NeedDest)
    case DestDrawer => Some(NeedDest)
    case DestPath => Some(NeedDest)
    case _ => None
  }

  lemma NeedInSuffix(s: string, n: nat, f: Flag)
    requires n <= |s| && f in Need(s[n..])
    ensures f in Need(s)
  {
    var k :| 0 <= k < |s[n..]| - 1 && f in NeedAt(s[n..], k);
    assert NeedAt(s[n..], k) == NeedAt(s, n + k);
  }

  /** Wherever the expansion arrives, skipping over placeholders, the scan, which looks at
      every position, has asked for what the placeholder there reads. */
  lemma {:induction false} ScanCoversExpansion(s: string)
    requires '\0' !in s
    ensures forall t :: t in Tokens(s) && FlagOf(t).Some? ==> FlagOf(t).value in Need(s)
    decreases |s|
  {
    if s != "" {
      var (first, n) := FirstToken(s);
      var rest := if n <= |s| then s[n..] else "";
      ScanCoversExpansion(rest);
      forall t | t in Tokens(s) && FlagOf(t).Some?
        ensures FlagOf(t).value in Need(s)
      {
        if t == first {
          assert FlagOf(t).value in NeedAt(s, 0);
          assert FlagOf(t).value in NeedBefore(s, |s| - 1);
        } else {
          NeedInSuffix(s, n, FlagOf(t).value);
        }
      }
    }
  }

  // ----- Where the scan asks for more ------------------------------------------------------

  /** A token of the expansion starts at position `i`. */
  predicate IsStart(s: string, i: nat)
    requires i < |s|
    decreases |s|
  {
    i == 0 || var n := FirstToken(s).1; i >= n && IsStart(s[n..], i - n)
  }

  /** The percent signs directly before position `i`. */
  function PercentsBefore(s: string, i: nat): (n: nat)
    requires i <= |s|
    ensures n <= i
  {
    if i > 0 && s[i - 1] == '%' then PercentsBefore(s, i - 1) + 1 else 0
  }

  lemma {:induction false} PercentsInSuffix(s: string, n: nat, i: nat)
    requires n <= i <= |s|
    ensures PercentsBefore(s, i) == PercentsBefore(s[n..], i - n)
      + if PercentsBefore(s[n..], i - n) == i - n then PercentsBefore(s, n) else 0
  {
    if n < i && s[i - 1] == '%' {
      PercentsInSuffix(s, n, i - 1);
    }
  }

  /** The expansion takes a percent sign for the start of a placeholder if and only if an
      even number of percent signs stands directly before it. */
  lemma {:induction false} StartIffEven(s: string, i: nat)
    requires i < |s| && s[i] == '%'
    ensures IsStart(s, i) <==> PercentsBefore(s, i) % 2 == 0
    decreases |s|
  {
    var n := FirstToken(s).1;
    PercentsInToken(s);
    StartStep(s, i);
    hide FirstToken, PercentsBefore, IsStart;
    if i >= n {
      StartIffEven(s[n..], i - n);
      SuffixParity(s, n, i);
    }
  }

  lemma StartStep(s: string, i: nat)
    requires i < |s|
    ensures var n := FirstToken(s).1;
      IsStart(s, i) <==> i == 0 || (i >= n && IsStart(s[n..], i - n))
  {
  }

  lemma SuffixParity(s: string, n: nat, i: nat)
    requires n <= i <= |s| && PercentsBefore(s, n) % 2 == 0
    ensures PercentsBefore(s, i) % 2 == PercentsBefore(s[n..], i - n) % 2
  {
    PercentsInSuffix(s, n, i);
    hide PercentsBefore;
    EvenSum(PercentsBefore(s[n..], i - n), PercentsBefore(s, n));
  }

  lemma EvenSum(a: nat, b: nat)
    requires b % 2 == 0
    ensures (a + b) % 2 == a % 2
  {
  }

  /** A token's percent signs: its first character, or both of a doubled one. */
  lemma PercentsInToken(s: string)
    requires s != ""
    ensures var n := FirstToken(s).1;
      && (n <= |s| ==> PercentsBefore(s, n) % 2 == 0)
      && PercentsBefore(s, 0) == 0
      && (forall i :: 0 < i < n && i < |s| && s[i] == '%' ==> PercentsBefore(s, i) == 1)
  {
    if |s| > 1 {
      assert PercentsBefore(s, 1) == if s[0] == '%' then 1 else 0;
    }
  }

  /** The need seen at position `i` is that of a placeholder which the expansion reads
      there: a token starts there, and it is not the lower-case `%d`, which is copied. */
  predicate IsGenuine(s: string, i: nat)
    requires i + 1 < |s|
  {
    PercentsBefore(s, i) % 2 == 0 && s[i + 1] != 'd'
  }

  /** A location that the scan asks for at a position is that of the token there if and
      only if the need is genuine. */
  lemma NeedIsTokenIffGenuine(s: string, i: nat, f: Flag)
    requires i + 1 < |s| && f in NeedAt(s, i) && f != NeedEntries
    ensures IsStart(s, i) && FlagOf(FirstToken(s[i..]).0) == Some(f) <==> IsGenuine(s, i)
  {
    StartIffEven(s, i);
    assert |s[i..]| > 2 ==> s[i..][2] == s[i + 2];
  }

  /** A position that asks for `f`, for a placeholder that the expansion reads there. */
  ghost predicate AsksGenuinely(s: string, f: Flag) {
    exists i :: 0 <= i && i + 1 < |s| && f in NeedAt(s, i) && IsGenuine(s, i)
  }

  /** What follows the first token. */
  function RestOf(s: string): string
    requires s != ""
  {
    var n := FirstToken(s).1;
    if n <= |s| then s[n..] else ""
  }

  lemma TokensCons(s: string)
    requires s != ""
    ensures Tokens(s) == [FirstToken(s).0] + Tokens(RestOf(s))
  {
  }

  lemma {:induction false} TokenAtStart(s: string, i: nat)
    requires i < |s| && IsStart(s, i)
    ensures FirstToken(s[i..]).0 in Tokens(s)
    decreases |s|
  {
    TokensCons(s);
    if i == 0 {
      assert s[0..] == s;
    } else {
      var n := FirstToken(s).1;
      assert IsStart(s[n..], i - n);
      hide FirstToken, Tokens, IsStart;
      TokenAtStart(s[n..], i - n);
      assert s[n..][i - n..] == s[i..];
    }
  }

  lemma {:induction false} StartOfToken(s: string, t: Token) returns (i: nat)
    requires t in Tokens(s)
    ensures i < |s| && IsStart(s, i) && FirstToken(s[i..]).0 == t
    decreases |s|
  {
    var n := FirstToken(s).1;
    assert s[0..] == s;
    if t == FirstToken(s).0 {
      i := 0;
    } else {
      var k := StartOfToken(s[n..], t);
      i := n + k;
      assert s[n..][k..] == s[i..];
    }
  }

  /** A placeholder that the expansion reads uses the location of flag `f`. */
  ghost predicate Uses(s: string, f: Flag) {
    exists t :: t in Tokens(s) && FlagOf(t) == Some(f)
  }

  /** For every template, a location is used by some placeholder if and only if the scan
      asks for it at a genuine position. */
  lemma UsedIffAskedGenuinely(s: string, f: Flag)
    requires '\0' !in s && f != NeedEntries
    ensures Uses(s, f) <==> AsksGenuinely(s, f)
  {
    hide Tokens;
    if AsksGenuinely(s, f) {
      hide IsGenuine;
      var i :| 0 <= i && i + 1 < |s| && f in NeedAt(s, i) && IsGenuine(s, i);
      NeedIsTokenIffGenuine(s, i, f);
      TokenAtStart(s, i);
    }
    if Uses(s, f) {
      var t :| t in Tokens(s) && FlagOf(t) == Some(f);
      var i := StartOfToken(s, t);
      StartIffEven(s, i);
      TokenAsks(s, i, f);
    }
  }

  lemma TokenAsks(s: string, i: nat, f: Flag)
    requires '\0' !in s && i < |s| && FlagOf(FirstToken(s[i..]).0) == Some(f)
    ensures s[i] == '%' && i + 1 < |s| && f in NeedAt(s, i) && s[i + 1] != 'd'
  {
    assert |s[i..]| > 1 ==> s[i..][1] == s[i + 1];
    assert |s[i..]| > 2 ==> s[i..][2] == s[i + 2];
  }

  /** The scan asks only for what placeholders use. */
  ghost predicate ScanIsExact(s: string) {
    forall f :: f in Need(s) && f != NeedEntries ==> Uses(s, f)
  }

  /** The scan asks for a location where the expansion reads no such placeholder. */
  predicate Misread(s: string, i: nat, f: Flag) {
    i + 1 < |s| && f in NeedAt(s, i) && f != NeedEntries && !IsGenuine(s, i)
  }

  /** The scan is exact if and only if all it asks for at the second half of a doubled
      percent sign or at a `%d` is asked for at a genuine position too. */
  lemma ScanIsExactIff(s: string)
    requires '\0' !in s
    ensures ScanIsExact(s) <==> forall i: nat, f :: Misread(s, i, f) ==> AsksGenuinely(s, f)
  {
    hide Uses, AsksGenuinely, IsGenuine;
    forall f: Flag | f != NeedEntries
      ensures Uses(s, f) <==> AsksGenuinely(s, f)
    {
      UsedIffAskedGenuinely(s, f);
    }
    forall i: nat, f | Misread(s, i, f)
      ensures f in Need(s)
    {
    }
    if forall i: nat, f :: Misread(s, i, f) ==> AsksGenuinely(s, f) {
      forall f | f in Need(s) && f != NeedEntries
        ensures AsksGenuinely(s, f)
      {
        var i :| 0 <= i < |s| - 1 && f in NeedAt(s, i);
        assert Misread(s, i, f) || AsksGenuinely(s, f) by { AskedThere(s, i, f); }
      }
    }
  }

  lemma AskedThere(s: string, i: nat, f: Flag)
    requires i + 1 < |s| && f in NeedAt(s, i) && f != NeedEntries
    ensures Misread(s, i, f) || AsksGenuinely(s, f)
  {
  }

  lemma NotDoubled(s: string, i: nat)
    requires i < |s|
    requires forall k :: 0 <= k && k + 1 < |s| && s[k] == '%' ==> s[k + 1] != '%' && s[k + 1] != 'd'
    ensures s[i] == '%' ==> PercentsBefore(s, i) == 0
  {
    if i > 0 {
      var k := i - 1;
      assert s[k] == '%' ==> s[k + 1] != '%';
    }
  }

  /** Without doubled percent signs and `%d` the scan is exact. */
  lemma ExactWithoutDoubledPercent(s: string)
    requires '\0' !in s
    requires forall k :: 0 <= k && k + 1 < |s| && s[k] == '%' ==> s[k + 1] != '%' && s[k + 1] != 'd'
    ensures ScanIsExact(s)
  {
    hide ScanIsExact;
    ScanIsExactIff(s);
    forall i: nat, f
      ensures !Misread(s, i, f)
    {
      if i < |s| {
        NotDoubled(s, i);
      }
    }
  }

  /** The two ways in which the scan asks for more: after a doubled percent sign, whose
      second half it takes for a placeholder, and for a lower-case `%d`. */
  lemma ScanAsksForMore()
    ensures NeedUri in Need("%%s") && EntryUri !in Tokens("%%s") && !ScanIsExact("%%s")
    ensures NeedDest in Need("%d") && Tokens("%d") == [Unknown('d')] && !ScanIsExact("%d")
  {
    assert NeedUri in NeedAt("%%s", 1);
    assert Tokens("%%s") == [Unknown('%')] + Tokens("s");
    assert Tokens("s") == [Plain('s')] + Tokens("");
    assert NeedDest in NeedAt("%d", 0);
    assert Tokens("%d") == [Unknown('d')] + Tokens("");
  }

  /** The scan asks for entries if and only if an `s` follows some percent sign, even one
      that the expansion does not take for a placeholder. */
  lemma EntriesAskedIff(s: string)
    ensures NeedEntries in Need(s) <==> exists i :: 0 <= i < |s| - 1 && s[i] == '%' && s[i + 1] == 's'
  {
    if i: nat :| i < |s| - 1 && s[i] == '%' && s[i + 1] == 's' {
      assert NeedEntries in NeedAt(s, i);
    }
    if NeedEntries in Need(s) {
      var i :| 0 <= i < |s| - 1 && NeedEntries in NeedAt(s, i);
      assert s[i] == '%' && s[i + 1] == 's';
    }
  }

  // ----- Text without placeholders ------------------------------------------------------------

  ghost predicate NoPlaceholders(s: string) {
    forall i :: 0 <= i < |s| - 1 && s[i] == '%' ==> s[i + 1] != 's' && s[i + 1] != 'S' && s[i + 1] != 'D'
  }

  /** The text ends in a percent sign that the expansion takes for a placeholder. */
  predicate EndsOpen(s: string) {
    s != "" && s[|s| - 1] == '%' && PercentsBefore(s, |s| - 1) % 2 == 0
  }

  /** Text without placeholders is left as it is, and the buffer holds one terminator more
      if and only if the text ends in an odd number of percent signs. */
  lemma {:induction false} PlainTextUnchanged(s: string, at: Locations, env: Environment)
    requires NoPlaceholders(s) && '\0' !in s
    ensures AllPresent(Tokens(s), at, env)
    ensures Expand(Tokens(s), at, env) == Some(if EndsOpen(s) then s + "\0" else s)
    decreases |s|
  {
    if s != "" {
      PlainStep(s, at, env);
      TokensCons(s);
      hide Expand, EndsOpen, Substitute, FirstToken, Tokens, NoPlaceholders, RestOf, AllPresent;
      PlainTextUnchanged(RestOf(s), at, env);
      ExpandCons(FirstToken(s).0, Tokens(RestOf(s)), at, env);
    } else {
      ExpandNothing(Some(""), [], at, env);
    }
  }

  /** The first token of such a text stands for itself, and leaves such a text. */
  lemma PlainStep(s: string, at: Locations, env: Environment)
    requires s != "" && NoPlaceholders(s) && '\0' !in s
    ensures var t, rest := FirstToken(s).0, RestOf(s);
      && |rest| < |s| && NoPlaceholders(rest) && '\0' !in rest
      && Present(t, at, env) && Substitute(t, at, env).Some?
      && Substitute(t, at, env).value + (if EndsOpen(rest) then rest + "\0" else rest)
        == (if EndsOpen(s) then s + "\0" else s)
  {
    PlainToken(s, at, env);
    OpenEndOfRest(s);
    hide EndsOpen, Substitute, Present;
    var n, rest := FirstToken(s).1, RestOf(s);
    if n <= |s| {
      assert s[..n] + rest == s && s[..n] + (rest + "\0") == s + "\0";
    } else {
      assert ['%', '\0'] + "" == s + "\0";
    }
  }

  lemma OpenEndOfRest(s: string)
    requires s != ""
    ensures if FirstToken(s).1 <= |s| then EndsOpen(s) <==> EndsOpen(RestOf(s)) else EndsOpen(s) && !EndsOpen("")
  {
    var n := FirstToken(s).1;
    PercentsInToken(s);
    hide FirstToken;
    if n < |s| {
      SuffixParity(s, n, |s| - 1);
      hide PercentsBefore;
    }
  }

  lemma PlainToken(s: string, at: Locations, env: Environment)
    requires s != "" && NoPlaceholders(s)
    ensures var (t, n) := FirstToken(s);
      && Present(t, at, env)
      && Substitute(t, at, env) == Some(if n <= |s| then s[..n] else ['%', '\0'])
  {
    var (t, n) := FirstToken(s);
    if s[0] != '%' {
      assert [s[0]] == s[..1];
    } else if |s| > 1 {
      assert s[1] != 's' && s[1] != 'S' && s[1] != 'D';
      assert ['%', s[1]] == s[..2];
    }
  }

  lemma ExpandCons(t: Token, ts: seq<Token>, at: Locations, env: Environment)
    requires Present(t, at, env) && AllPresent(ts, at, env)
    ensures AllPresent([t] + ts, at, env)
    ensures Substitute(t, at, env).Some? && Expand(ts, at, env).Some? ==>
      Expand([t] + ts, at, env) == Some(Substitute(t, at, env).value + Expand(ts, at, env).value)
  {
  }

  lemma {:induction false} CStringOf(s: string)
    requires '\0' !in s
    ensures CString(s) == s && CString(s + "\0") == s
  {
    if s != "" {
      CStringOf(s[1..]);
      assert (s + "\0")[1..] == s[1..] + "\0";
    }
  }

  /** As a command, text without placeholders is unchanged. */
  lemma PlainCommandUnchanged(s: string, at: Locations, env: Environment)
    requires NoPlaceholders(s) && '\0' !in s
    ensures AllPresent(Tokens(s), at, env) && ExpandTemplate(s, at, env) == Some(s)
  {
    PlainTextUnchanged(s, at, env);
    CStringOf(s);
  }
}
