/** What a template becomes as a command: its parts one after the other, and what each
    placeholder stands for. */
module Expansions {
  import opened Actions
  import opened Options
  import opened Sequences
  import opened Templates
  import opened Text

  /** Nothing that a placeholder stands for contains a terminator. */
  ghost predicate CStrings(at: Locations, env: Environment) {
    && (at.path.Some? ==> '\0' !in at.path.value)
    && (at.filePart.Some? ==> '\0' !in at.filePart.value)
    && (at.uri.Some? ==> '\0' !in at.uri.value)
    && (env.source.Some? ==> '\0' !in env.source.value)
    && (env.dest.Some? ==> '\0' !in env.dest.value)
    && forall uri :: '\0' !in env.decodePath(uri)
  }

  /** Text without placeholders. */
  predicate IsText(s: string) {
    '\0' !in s && '%' !in s
  }

  /** One text after the other; none if one of them is missing. */
  function Both(a: Option<string>, b: Option<string>): Option<string> {
    match a
    case None => None
    case Some(s) =>
      match b
      case None => None
      case Some(t) => Some(s + t)
  }

  // ----- Templates in two parts -------------------------------------------------------------

  /** The second part starts where a token of the whole does. */
  predicate Cuts(a: string, b: string) {
    b == "" || IsStart(a + b, |a|)
  }

  lemma {:induction false} TokensSum(a: string, b: string)
    requires Cuts(a, b)
    ensures Tokens(a + b) == Tokens(a) + Tokens(b)
    decreases |a|
  {
    if b == "" {
      assert a + b == a;
    } else if a == "" {
      assert a + b == b;
    } else {
      var n := FirstToken(a + b).1;
      FirstOfSum(a, b);
      assert (a + b)[n..] == a[n..] + b;
      TokensCons(a + b);
      TokensCons(a);
      hide Tokens, FirstToken, IsStart;
      assert Cuts(a[n..], b);
      TokensSum(a[n..], b);
      Assoc([FirstToken(a).0], Tokens(a[n..]), Tokens(b));
    }
  }

  /** No token before the cut is a terminator. */
  lemma {:induction false} TokensClean(a: string, b: string)
    requires Cuts(a, b) && b != "" && '\0' !in a
    ensures forall t :: t in Tokens(a) ==> t != Plain('\0') && t != Unknown('\0')
    decreases |a|
  {
    if a != "" {
      FirstOfSum(a, b);
      TokensCons(a);
      hide Tokens, FirstToken, IsStart;
      TokensClean(RestOf(a), b);
    }
  }

  lemma SameToken(a: string, b: string)
    requires a != "" && FirstToken(a + b).1 <= |a|
    ensures FirstToken(a) == FirstToken(a + b)
    ensures '\0' !in a ==> FirstToken(a).0 != Plain('\0') && FirstToken(a).0 != Unknown('\0')
  {
  }

  lemma FirstOfSum(a: string, b: string)
    requires a != "" && b != "" && IsStart(a + b, |a|)
    ensures var (t, n) := FirstToken(a + b);
      && n <= |a| && FirstToken(a) == (t, n) && IsStart(a[n..] + b, |a| - n)
      && RestOf(a) == a[n..] && RestOf(a + b) == (a + b)[n..]
      && ('\0' !in a ==> t != Plain('\0') && t != Unknown('\0'))
  {
    var n := FirstToken(a + b).1;
    hide FirstToken;
    assert (a + b)[n..] == a[n..] + b;
    SameToken(a, b);
  }

  lemma ExpandNext(ts: seq<Token>, at: Locations, env: Environment)
    requires ts != [] && AllPresent(ts, at, env)
    ensures Present(ts[0], at, env) && AllPresent(ts[1..], at, env)
    ensures Expand(ts, at, env) == Both(Substitute(ts[0], at, env), Expand(ts[1..], at, env))
  {
  }

  lemma BothAssoc(a: Option<string>, b: Option<string>, c: Option<string>)
    ensures Both(Both(a, b), c) == Both(a, Both(b, c))
  {
    if a.Some? && b.Some? && c.Some? {
      Assoc(a.value, b.value, c.value);
    }
  }

  lemma {:induction false} ExpandSum(ts: seq<Token>, us: seq<Token>, at: Locations, env: Environment)
    requires AllPresent(ts, at, env) && AllPresent(us, at, env)
    ensures AllPresent(ts + us, at, env)
    ensures Expand(ts + us, at, env) == Both(Expand(ts, at, env), Expand(us, at, env))
  {
    if ts == [] {
      assert ts + us == us;
      BothNothing(Expand(us, at, env));
    } else {
      hide Substitute, Present, Both, Expand;
      assert (ts + us)[0] == ts[0] && (ts + us)[1..] == ts[1..] + us;
      ExpandNext(ts, at, env);
      ExpandSum(ts[1..], us, at, env);
      ExpandNext(ts + us, at, env);
      BothAssoc(Substitute(ts[0], at, env), Expand(ts[1..], at, env), Expand(us, at, env));
    }
  }

  lemma BothNothing(a: Option<string>)
    ensures Both(Some(""), a) == a && Both(a, Some("")) == a
  {
    if a.Some? {
      assert "" + a.value == a.value && a.value + "" == a.value;
    }
  }

  lemma PrintedNoTerminator(n: int)
    ensures '\0' !in PrintLong(n)
  {
    PrintNatDigits(if n < 0 then -n else n);
  }

  lemma SubstituteClean(t: Token, at: Locations, env: Environment)
    requires Present(t, at, env) && CStrings(at, env) && t != Plain('\0') && t != Unknown('\0')
    ensures Substitute(t, at, env).Some? ==> '\0' !in Substitute(t, at, env).value
  {
    PrintedNoTerminator(env.srcId);
    PrintedNoTerminator(env.dstId);
  }

  lemma {:induction false} ExpandClean(ts: seq<Token>, at: Locations, env: Environment)
    requires AllPresent(ts, at, env) && CStrings(at, env)
    requires forall t :: t in ts ==> t != Plain('\0') && t != Unknown('\0')
    ensures Expand(ts, at, env).Some? ==> '\0' !in Expand(ts, at, env).value
  {
    if ts != [] {
      hide Substitute, CStrings, Present, Expand;
      assert ts[0] in ts && forall t :: t in ts[1..] ==> t in ts;
      ExpandNext(ts, at, env);
      SubstituteClean(ts[0], at, env);
      ExpandClean(ts[1..], at, env);
    }
  }

  lemma CStringCons(c: char, s: string)
    requires c != '\0'
    ensures CString([c] + s) == [c] + CString(s)
  {
  }

  lemma {:induction false} CStringSum(u: string, v: string)
    requires '\0' !in u
    ensures CString(u + v) == u + CString(v)
  {
    if u == "" {
      assert u + v == v;
    } else {
      hide CString;
      var first, rest := u[0], u[1..];
      assert u == [first] + rest;
      CStringSum(rest, v);
      CStringCons(first, rest + v);
      Assoc([first], rest, v);
      Assoc([first], rest, CString(v));
    }
  }

  /** A template that is cut where a token starts becomes the commands of its two parts,
      one after the other. */
  lemma CommandOfParts(a: string, b: string, at: Locations, env: Environment)
    requires Cuts(a, b) && '\0' !in a && CStrings(at, env)
    requires AllPresent(Tokens(a), at, env) && AllPresent(Tokens(b), at, env)
    ensures AllPresent(Tokens(a + b), at, env)
    ensures ExpandTemplate(a + b, at, env) == Both(ExpandTemplate(a, at, env), ExpandTemplate(b, at, env))
  {
    hide Tokens, Cuts, Expand, CString, CStrings;
    TokensSum(a, b);
    ExpandSum(Tokens(a), Tokens(b), at, env);
    var u, v := Expand(Tokens(a), at, env), Expand(Tokens(b), at, env);
    if u.Some? && v.Some? {
      if b == "" {
        EmptyTemplate(at, env);
        assert CString("") == "" by { CStringOf(""); }
        assert u.value + "" == u.value && CString(u.value) + "" == CString(u.value);
      } else {
        TokensClean(a, b);
        ExpandClean(Tokens(a), at, env);
        CStringSum(u.value, v.value);
        CStringOf(u.value);
      }
    }
  }

  lemma EmptyTemplate(at: Locations, env: Environment)
    ensures Tokens("") == [] && Expand([], at, env) == Some("")
  {
  }

  // ----- What a placeholder stands for ------------------------------------------------------------

  lemma {:induction false} NoPercentsBefore(s: string, i: nat)
    requires i <= |s| && forall k :: 0 <= k < i ==> s[k] != '%'
    ensures PercentsBefore(s, i) == 0
  {
  }

  lemma TextIsText(a: string, at: Locations, env: Environment)
    requires IsText(a)
    ensures AllPresent(Tokens(a), at, env) && ExpandTemplate(a, at, env) == Some(a)
  {
    PlainCommandUnchanged(a, at, env);
  }

  /** A placeholder between two texts. */
  lemma PlaceholderInText(a: string, p: string, b: string, t: Token, at: Locations, env: Environment)
    requires IsText(a) && IsText(b) && p != "" && p[0] == '%' && '\0' !in p
    requires FirstToken(p + b) == (t, |p|) && FirstToken(p) == (t, |p|)
    requires Present(t, at, env) && CStrings(at, env)
    ensures AllPresent(Tokens(a + p + b), at, env)
    ensures ExpandTemplate(a + p + b, at, env)
         == match Substitute(t, at, env) case None => None case Some(text) => Some(a + CString(text) + b)
  {
    hide Tokens, ExpandTemplate, CStrings, Substitute, FirstToken;
    var rest := p + b;
    assert a + p + b == a + rest && (a + rest)[|a|] == '%';
    NoPercentsBefore(a + rest, |a|);
    StartIffEven(a + rest, |a|);
    CutsAfter(p, b);
    TextIsText(a, at, env);
    TextIsText(b, at, env);
    OnePlaceholder(p, t, at, env);
    CommandOfParts(p, b, at, env);
    CommandOfParts(a, rest, at, env);
    if Substitute(t, at, env).Some? {
      Assoc(a, CString(Substitute(t, at, env).value), b);
    }
  }

  lemma CutsAfter(p: string, b: string)
    requires p != "" && FirstToken(p + b).1 == |p|
    ensures Cuts(p, b)
  {
    if b != "" {
      assert IsStart((p + b)[|p|..], 0);
    }
  }

  lemma OnePlaceholder(p: string, t: Token, at: Locations, env: Environment)
    requires p != "" && FirstToken(p) == (t, |p|) && Present(t, at, env)
    ensures AllPresent(Tokens(p), at, env)
    ensures ExpandTemplate(p, at, env)
         == match Substitute(t, at, env) case None => None case Some(text) => Some(CString(text))
  {
    hide FirstToken, Substitute, Present, CString, Expand;
    TokensCons(p);
    EmptyTemplate(at, env);
    assert Tokens(p) == [t] && [t][1..] == [];
    ExpandNext([t], at, env);
    BothNothing(Substitute(t, at, env));
  }

  /** A number in decimal. */
  ghost predicate IsDecimal(s: string) {
    var digits := if s != "" && s[0] == '-' then s[1..] else s;
    digits != "" && AllDigits(digits)
  }

  lemma PrintedIsDecimal(n: Long)
    ensures IsDecimal(PrintLong(n)) && ReadLong(PrintLong(n)) == n
  {
    var i: int := n;
    PrintNatDigits(if i < 0 then -i else i);
    if n == 0 {
      assert PrintLong(0) == "0" && "0"[1..] == "";
    } else {
      ReadPrintedLong(n);
      if n < 0 {
        assert PrintLong(n)[1..] == PrintNat(-i);
      }
    }
  }

  /** `%Si` is the source's identifier in decimal. */
  lemma SourceIdText(a: string, b: string, at: Locations, env: Environment)
    requires IsText(a) && IsText(b) && CStrings(at, env)
    ensures AllPresent(Tokens(a + "%Si" + b), at, env)
    ensures var command := ExpandTemplate(a + "%Si" + b, at, env);
      exists id :: IsDecimal(id) && ReadLong(id) == env.srcId && command == Some(a + id + b)
  {
    hide ExpandTemplate, Tokens;
    var id := PrintLong(env.srcId);
    PrintedIsDecimal(env.srcId);
    PrintedNoTerminator(env.srcId);
    CStringOf(id);
    PlaceholderInText(a, "%Si", b, SourceId, at, env);
  }

  /** `%Di` is the destination's identifier in decimal, and then the destination. */
  lemma DestIdText(a: string, b: string, at: Locations, env: Environment)
    requires IsText(a) && IsText(b) && CStrings(at, env)
    ensures AllPresent(Tokens(a + "%Di" + b), at, env)
    ensures var command := ExpandTemplate(a + "%Di" + b, at, env);
      if env.dest.None? then command == None
      else exists id :: IsDecimal(id) && ReadLong(id) == env.dstId && command == Some(a + (id + env.dest.value) + b)
  {
    hide ExpandTemplate, Tokens;
    PlaceholderInText(a, "%Di", b, DestId, at, env);
    if env.dest.Some? {
      var id := PrintLong(env.dstId);
      PrintedIsDecimal(env.dstId);
      PrintedNoTerminator(env.dstId);
      CStringOf(id + env.dest.value);
    }
  }

  /** `%Dp` is the destination, with a slash after it unless it ends in a slash or a colon. */
  lemma DrawerText(a: string, b: string, at: Locations, env: Environment)
    requires IsText(a) && IsText(b) && CStrings(at, env) && (env.dest.Some? ==> env.dest.value != "")
    ensures AllPresent(Tokens(a + "%Dp" + b), at, env)
    ensures var command := ExpandTemplate(a + "%Dp" + b, at, env);
      if env.dest.None? then command == None
      else
        var d := env.dest.value;
        var last := d[|d| - 1];
        command == Some(a + (if last == '/' || last == ':' then d else d + "/") + b)
  {
    hide ExpandTemplate, Tokens;
    PlaceholderInText(a, "%Dp", b, DestDrawer, at, env);
    if env.dest.Some? {
      CStringOf(env.dest.value);
      CStringOf(env.dest.value + "/");
    }
  }

  /** `%S` and `%D` are the paths of the source and of the destination. */
  lemma PathTexts(a: string, b: string, at: Locations, env: Environment)
    requires IsText(a) && IsText(b) && CStrings(at, env)
    requires b == "" || (b[0] != 'i' && b[0] != 'p')
    ensures AllPresent(Tokens(a + "%D" + b), at, env)
    ensures ExpandTemplate(a + "%D" + b, at, env)
         == match env.dest case None => None case Some(dest) => Some(a + dest + b)
    ensures env.source.Some? ==> AllPresent(Tokens(a + "%S" + b), at, env)
    ensures env.source.Some? ==> ExpandTemplate(a + "%S" + b, at, env) == Some(a + env.source.value + b)
  {
    hide ExpandTemplate, Tokens;
    PlaceholderInText(a, "%D", b, DestPath, at, env);
    if env.dest.Some? {
      CStringOf(env.dest.value);
    }
    if env.source.Some? {
      CStringOf(env.source.value);
      PlaceholderInText(a, "%S", b, SourcePath, at, env);
    }
  }

  /** `%sp` and `%sf` are the entry's path and its file part. */
  lemma EntryTexts(a: string, b: string, at: Locations, env: Environment)
    requires IsText(a) && IsText(b) && CStrings(at, env)
    ensures at.path.Some? ==> AllPresent(Tokens(a + "%sp" + b), at, env)
    ensures at.path.Some? ==> ExpandTemplate(a + "%sp" + b, at, env) == Some(a + at.path.value + b)
    ensures at.filePart.Some? ==> AllPresent(Tokens(a + "%sf" + b), at, env)
    ensures at.filePart.Some? ==> ExpandTemplate(a + "%sf" + b, at, env) == Some(a + at.filePart.value + b)
  {
    hide ExpandTemplate, Tokens;
    if at.path.Some? {
      CStringOf(at.path.value);
      PlaceholderInText(a, "%sp", b, EntryPath, at, env);
    }
    if at.filePart.Some? {
      CStringOf(at.filePart.value);
      PlaceholderInText(a, "%sf", b, EntryFilePart, at, env);
    }
  }

  /** `%s` is the entry's uri: as it is for a file uri, quoted or not, and decoded for any
      other. */
  lemma UriText(a: string, b: string, at: Locations, env: Environment)
    requires IsText(a) && IsText(b) && CStrings(at, env) && at.uri.Some?
    requires b == "" || (b[0] != 'p' && b[0] != 'f')
    ensures AllPresent(Tokens(a + "%s" + b), at, env)
    ensures var uri := at.uri.value;
      var isFile := "file:/" <= uri || ("\"file:/" <= uri && uri[|uri| - 1] == '"');
      ExpandTemplate(a + "%s" + b, at, env) == Some(a + (if isFile then uri else env.decodePath(uri)) + b)
  {
    hide ExpandTemplate, Tokens;
    CStringOf(at.uri.value);
    CStringOf(env.decodePath(at.uri.value));
    PlaceholderInText(a, "%s", b, EntryUri, at, env);
  }
}
