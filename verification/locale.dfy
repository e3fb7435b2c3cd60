/** The message catalogue that action names are translated with. */
module Locale {
  import opened Text

  /** A message of the recognition database: its English text and its text in the
      language of the system. */
  datatype Message = Message(english: string, local: string)

  type Catalog = seq<Message>

  /** The part of a string before its first newline. */
  function FirstLine(s: string): (t: string)
    ensures |t| <= |s| && t == s[..|t|] && NoNewline(t)
    ensures NoNewline(s) ==> t == s
  {
    if s == "" || s[0] == '\n' then "" else [s[0]] + FirstLine(s[1..])
  }

  /** The first message from `c` on whose English text is `english`, or the size. */
  function FindEnglish(cat: Catalog, english: string, c: nat): (r: nat)
    requires c <= |cat|
    ensures c <= r <= |cat|
    ensures forall k :: c <= k < r ==> cat[k].english != english
    ensures r < |cat| ==> cat[r].english == english
    decreases |cat| - c
  {
    if c == |cat| || cat[c].english == english then c else FindEnglish(cat, english, c + 1)
  }

  /** The first message from `c` on whose local text is `str` up to case, or the size. */
  function FindLocal(cat: Catalog, str: string, c: nat): (r: nat)
    requires c <= |cat|
    ensures c <= r <= |cat|
    ensures forall k :: c <= k < r ==> !SameWord(cat[k].local, str)
    ensures r < |cat| ==> SameWord(cat[r].local, str)
    decreases |cat| - c
  {
    if c == |cat| || SameWord(cat[c].local, str) then c else FindLocal(cat, str, c + 1)
  }

  function Translate(cat: Catalog, english: string): string {
    var line := FirstLine(english);
    var c := FindEnglish(cat, line, 0);
    if line != "" && c < |cat| then cat[c].local else english
  }

  function English(cat: Catalog, str: string): string {
    var c := FindLocal(cat, str, 0);
    if c < |cat| then cat[c].english else str
  }

  /** Every message can be found by its English text. */
  ghost predicate Searchable(cat: Catalog) {
    && (forall c :: 0 <= c < |cat| ==> cat[c].english != "" && NoNewline(cat[c].english))
    && (forall c, d :: 0 <= c < d < |cat| ==> cat[c].english != cat[d].english)
  }

  /** A one-line name survives being saved in English and read back exactly when it is
      spelled as the catalogue spells it, or is neither a message nor the English text
      of a message that is translated. */
  lemma TranslationRoundTrip(cat: Catalog, name: string)
    requires Searchable(cat) && NoNewline(name)
    ensures Translate(cat, English(cat, name)) == name <==>
      var c := FindLocal(cat, name, 0);
      if c < |cat| then cat[c].local == name
      else FindEnglish(cat, name, 0) == |cat|
  {
    hide SameWord, Translate, FindEnglish, FindLocal, Searchable;
    var c, e := FindLocal(cat, name, 0), FindEnglish(cat, name, 0);
    if c < |cat| {
      Found(cat, c);
      TranslateIs(cat, cat[c].english);
    } else {
      TranslateIs(cat, name);
      NameInAnyCase(name);
      NotEmpty(cat, e);
    }
  }

  lemma TranslateIs(cat: Catalog, s: string)
    requires NoNewline(s)
    ensures var c := FindEnglish(cat, s, 0);
      Translate(cat, s) == if s != "" && c < |cat| then cat[c].local else s
  {
  }

  lemma Found(cat: Catalog, c: nat)
    requires Searchable(cat) && c < |cat|
    ensures FindEnglish(cat, cat[c].english, 0) == c && cat[c].english != "" && NoNewline(cat[c].english)
  {
  }

  lemma NotEmpty(cat: Catalog, c: nat)
    requires Searchable(cat)
    ensures c < |cat| ==> cat[c].english != ""
  {
  }

  lemma NameInAnyCase(name: string)
    ensures SameWord(name, name)
  {
  }
}
