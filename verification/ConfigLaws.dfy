/** Printing a configuration and reading it back. */
module ConfigLaws {
  import opened Text
  import opened KeySequence
  import opened Entries
  import opened Escapes
  import opened ConfigFile

  // ---- printing ------------------------------------------------------------------------------

  /** An entry as one would write it; numbers and flag words keep their spelling. */
  datatype EntryText = EntryText(
    prog: Option<string>, codes: seq<Code>, delay: Option<string>, repeat: Option<string>, config: seq<string>,
    changeMode: Option<string>, flags: Option<string>)

  datatype Block = Single(entry: EntryText) | Grouped(mode: string, entries: seq<EntryText>)

  function KeyLine(key: string, value: string): string {
    key + " = " + value
  }

  function Optional(key: string, value: Option<string>): seq<string> {
    if value.None? then [] else [KeyLine(key, value.value)]
  }

  function NameText(name: Name): string {
    if name.All? then "*" else name.text
  }

  /** `remote` stays in force until the next `remote` line. */
  function CodeLines(codes: seq<Code>, remote: Name): seq<string> {
    if codes == [] then []
    else
      (if codes[0].remote == remote then [] else [KeyLine("remote", NameText(codes[0].remote))])
      + ([KeyLine("button", NameText(codes[0].button))] + CodeLines(codes[1..], codes[0].remote))
  }

  function ConfigLines(texts: seq<string>): seq<string> {
    if texts == [] then [] else [KeyLine("config", Encode(texts[0], 0))] + ConfigLines(texts[1..])
  }

  function EntryLines(e: EntryText): seq<string> {
    ["begin"]
    + (Optional("prog", e.prog)
    + (CodeLines(e.codes, All)
    + (Optional("delay", e.delay)
    + (Optional("repeat", e.repeat)
    + (ConfigLines(e.config)
    + (Optional("mode", e.changeMode)
    + (Optional("flags", e.flags)
    + ["end"])))))))
  }

  function EntriesLines(es: seq<EntryText>): seq<string> {
    if es == [] then [] else EntryLines(es[0]) + EntriesLines(es[1..])
  }

  function BlockLines(b: Block): seq<string> {
    match b
    case Single(entry) => EntryLines(entry)
    case Grouped(mode, entries) => ["begin " + mode] + (EntriesLines(entries) + ["end " + mode])
  }

  function FileLines(blocks: seq<Block>): seq<string> {
    if blocks == [] then [] else BlockLines(blocks[0]) + FileLines(blocks[1..])
  }

  // ---- meaning -------------------------------------------------------------------------------

  function Number(words: Words, value: Option<string>): nat {
    if value.Some? then words.number(value.value) else 0
  }

  function FlagSet(words: Words, value: Option<string>): set<Flag> {
    if value.Some? then words.flags(value.value) else {}
  }

  /** The delay in force: only the later revision knows one, and it defaults to one less than the repeat. */
  function Delay(words: Words, e: EntryText): nat {
    var repeat := Number(words, e.repeat);
    var given := if words.revised then Number(words, e.delay) else 0;
    if words.revised && given == 0 && repeat > 0 then repeat - 1 else given
  }

  /** The entry a text stands for: both cursors at the list heads. */
  function Meaning(words: Words, e: EntryText, mode: Option<string>): EntryState {
    EntryState(e.prog, e.codes, Number(words, e.repeat), Delay(words, e), e.config,
               e.changeMode, FlagSet(words, e.flags), mode, 0, 0)
  }

  function Meanings(words: Words, es: seq<EntryText>, mode: Option<string>): seq<EntryState> {
    if es == [] then [] else [Meaning(words, es[0], mode)] + Meanings(words, es[1..], mode)
  }

  function FileMeaning(words: Words, blocks: seq<Block>): seq<EntryState> {
    if blocks == [] then []
    else
      BlockMeaning(words, blocks[0]) + FileMeaning(words, blocks[1..])
  }

  // ---- what can be written -------------------------------------------------------------------

  /** A value survives trimming. */
  predicate Tidy(value: string) {
    '\0' !in value && '\n' !in value &&
    (value != "" ==> !IsBlank(value[0]) && !IsBlank(value[|value| - 1]))
  }

  predicate TidyOption(value: Option<string>) {
    value.Some? ==> Tidy(value.value)
  }

  /** One word, as for a mode name. */
  predicate Word(w: string) {
    w != "" && Tidy(w) && (forall i :: 0 <= i < |w| ==> !IsBlank(w[i]) && w[i] != '=')
  }

  predicate Writable(name: Name) {
    name.Named? ==> Tidy(name.text) && !SameText("*", name.text)
  }

  predicate WritableEntry(e: EntryText) {
    && TidyOption(e.prog) && TidyOption(e.delay) && TidyOption(e.repeat) && TidyOption(e.changeMode) && TidyOption(e.flags)
    && (forall i :: 0 <= i < |e.codes| ==> Writable(e.codes[i].remote) && Writable(e.codes[i].button))
    && (forall i :: 0 <= i < |e.config| ==> '\0' !in e.config[i])
  }

  predicate WritableBlock(b: Block) {
    match b
    case Single(entry) => WritableEntry(entry)
    case Grouped(mode, entries) => Word(mode) && forall i :: 0 <= i < |entries| ==> WritableEntry(entries[i])
  }

  // ---- single lines ----------------------------------------------------------------------------

  lemma {:induction false} FirstEqualsIs(s: string, k: nat)
    requires k <= |s| && (forall i :: 0 <= i < k ==> s[i] != '=') && (k < |s| ==> s[k] == '=')
    ensures FirstEquals(s) == k
    decreases k
  {
    if k > 0 {
      FirstEqualsIs(s[1..], k - 1);
    }
  }

  lemma TrimsBlankBefore(value: string)
    requires Tidy(value)
    ensures Trimmed(" " + value) == value
  {
    assert (" " + value)[1..] == value;
    assert TrimLeft(" " + value) == TrimLeft(value) == value;
    assert TrimRight(value) == value;
  }

  lemma TrimsBlankAfter(key: string)
    requires Word(key)
    ensures Trimmed(key + " ") == key
  {
    var s := key + " ";
    assert s[0] == key[0] && TrimLeft(s) == s;
    assert s[..|s| - 1] == key;
    assert TrimRight(key) == key;
  }

  /** A printed `key = value` line is read as that key and that value. */
  lemma KeyLineRead(words: Words, st: Reading, key: string, value: string)
    requires Word(key) && Tidy(value)
    ensures LineRead(words, st, KeyLine(key, value)) == Field(words, st, key, value)
  {
    hide Field, Trimmed, Tokens;
    var line, k := KeyLine(key, value), |key| + 1;
    assert forall i :: 0 <= i < |key| ==> line[i] == key[i];
    FirstEqualsIs(line, k);
    assert line[..k] == key + " " && line[k + 1..] == " " + value;
    TrimsBlankAfter(key);
    TrimsBlankBefore(value);
  }

  lemma {:induction false} TokenEndIs(s: string, p: nat, e: nat)
    requires p <= e <= |s| && (forall i :: p <= i < e ==> !IsBlank(s[i])) && (e < |s| ==> IsBlank(s[e]))
    ensures TokenEnd(s, p) == e
    decreases e - p
  {
    if p < e {
      TokenEndIs(s, p + 1, e);
    }
  }

  lemma OneWord(w: string)
    requires Word(w)
    ensures Tokens(w, 0) == [w] && FirstEquals(w) == |w|
  {
    TokenEndIs(w, 0, |w|);
    FirstEqualsIs(w, |w|);
    assert w[0..|w|] == w;
  }

  lemma TokenFirst(s: string, p: nat, q: nat, e: nat)
    requires p <= q < e <= |s| && SkipBlanks(s, p) == q && TokenEnd(s, q) == e
    ensures Tokens(s, p) == [s[q..e]] + Tokens(s, e)
  {
    hide SkipBlanks, TokenEnd;
  }

  lemma NoTokens(s: string)
    ensures Tokens(s, |s|) == []
  {
  }

  lemma NoBlanks(s: string, p: nat)
    requires p < |s| && !IsBlank(s[p])
    ensures SkipBlanks(s, p) == p && (p > 0 && IsBlank(s[p - 1]) ==> SkipBlanks(s, p - 1) == p)
  {
  }

  /** The characters of two words on a line. */
  lemma TwoWordsApart(v: string, w: string)
    requires Word(v) && Word(w)
    ensures
      var s, n := v + " " + w, |v|;
      && s[0..n] == v && s[n + 1..|s|] == w && IsBlank(s[n])
      && (forall i :: 0 <= i < n ==> !IsBlank(s[i]))
      && (forall i :: n < i < |s| ==> !IsBlank(s[i]))
      && (forall i :: 0 <= i < |s| ==> s[i] != '=')
  {
    var s, n := v + " " + w, |v|;
    assert (forall i :: 0 <= i < n ==> s[i] == v[i]) && s[n] == ' ' && forall i :: n < i < |s| ==> s[i] == w[i - n - 1];
  }

  lemma TwoWords(v: string, w: string)
    requires Word(v) && Word(w)
    ensures Tokens(v + " " + w, 0) == [v, w] && FirstEquals(v + " " + w) == |v + " " + w|
  {
    var s, n := v + " " + w, |v|;
    TwoWordsApart(v, w);
    hide Tokens, TokenEnd, SkipBlanks, FirstEquals, IsBlank;
    FirstEqualsIs(s, |s|);
    TokenEndIs(s, 0, n);
    TokenEndIs(s, n + 1, |s|);
    NoBlanks(s, 0);
    NoBlanks(s, n + 1);
    TokenFirst(s, 0, 0, n);
    TokenFirst(s, n, n + 1, |s|);
    NoTokens(s);
  }

  // ---- sequences of lines ------------------------------------------------------------------------

  lemma ReadFirst(words: Words, st: Reading, line: string, rest: seq<string>)
    ensures ReadLines(words, st, [line] + rest)
         == if LineRead(words, st, line).None? then None else ReadLines(words, LineRead(words, st, line).value, rest)
  {
    hide LineRead;
    assert ([line] + rest)[1..] == rest;
  }

  /** Reading an optional line has its effect, if it is there. */
  lemma OptionalRead(words: Words, st: Reading, key: string, value: Option<string>, rest: seq<string>)
    requires Word(key) && TidyOption(value)
    ensures ReadLines(words, st, Optional(key, value) + rest)
         == if value.None? then ReadLines(words, st, rest)
            else if Field(words, st, key, value.value).None? then None
            else ReadLines(words, Field(words, st, key, value.value).value, rest)
  {
    hide Field, LineRead, KeyLine;
    if value.Some? {
      KeyLineRead(words, st, key, value.value);
      ReadFirst(words, st, KeyLine(key, value.value), rest);
    } else {
      assert Optional(key, value) + rest == rest;
    }
  }

  lemma NameReads(name: Name)
    requires Writable(name)
    ensures Tidy(NameText(name)) && NameOf(NameText(name)) == name
  {
  }

  /** The tail pointer is where the parser keeps it: at the last code, if there is one. */
  predicate CodeTail(e: EntryState) {
    e.nextCode == if e.code == [] then 0 else |e.code| - 1
  }

  function WithCodes(e: EntryState, codes: seq<Code>): EntryState {
    e.(code := e.code + codes, nextCode := if e.code + codes == [] then 0 else |e.code + codes| - 1)
  }

  lemma CodeLinked(e: EntryState, code: Code)
    requires CodeTail(e)
    ensures WithCode(e, code) == WithCodes(e, [code]) && CodeTail(WithCode(e, code))
  {
  }

  lemma WithCodesTwice(e: EntryState, code: Code, codes: seq<Code>)
    ensures WithCodes(WithCodes(e, [code]), codes) == WithCodes(e, [code] + codes)
  {
    assert e.code + [code] + codes == e.code + ([code] + codes);
  }

  lemma Apart(a: string, b: string, k: nat)
    requires |a| != |b| || (k < |a| && Lower(a[k]) != Lower(b[k]))
    ensures !SameText(a, b)
  {
    assert |Fold(a)| == |a| && |Fold(b)| == |b|;
    if |a| == |b| {
      assert Fold(a)[k] != Fold(b)[k];
    }
  }

  /** The keys are told apart in spite of the comparison that ignores case. */
  lemma KeysApart()
    ensures !SameText("remote", "prog") && !SameText("button", "prog") && !SameText("button", "remote")
    ensures !SameText("delay", "prog") && !SameText("delay", "remote") && !SameText("delay", "button")
    ensures !SameText("delay", "repeat") && !SameText("delay", "config") && !SameText("delay", "mode") && !SameText("delay", "flags")
    ensures !SameText("repeat", "delay") && !SameText("config", "delay") && !SameText("mode", "delay") && !SameText("flags", "delay")
    ensures !SameText("repeat", "prog") && !SameText("repeat", "remote") && !SameText("repeat", "button")
    ensures !SameText("config", "prog") && !SameText("config", "remote") && !SameText("config", "button")
    ensures !SameText("config", "repeat")
    ensures !SameText("mode", "prog") && !SameText("mode", "remote") && !SameText("mode", "button")
    ensures !SameText("mode", "repeat") && !SameText("mode", "config")
    ensures !SameText("flags", "prog") && !SameText("flags", "remote") && !SameText("flags", "button")
    ensures !SameText("flags", "repeat") && !SameText("flags", "config") && !SameText("flags", "mode")
  {
    hide SameText;
    Apart("remote", "prog", 0); Apart("button", "prog", 0); Apart("button", "remote", 0);
    Apart("delay", "prog", 0); Apart("delay", "remote", 0); Apart("delay", "button", 0);
    Apart("delay", "repeat", 0); Apart("delay", "config", 0); Apart("delay", "mode", 0); Apart("delay", "flags", 0);
    Apart("repeat", "delay", 0); Apart("config", "delay", 0); Apart("mode", "delay", 0); Apart("flags", "delay", 0);
    Apart("repeat", "prog", 0); Apart("repeat", "remote", 2); Apart("repeat", "button", 0);
    Apart("config", "prog", 0); Apart("config", "remote", 0); Apart("config", "button", 0);
    Apart("config", "repeat", 0);
    Apart("mode", "prog", 0); Apart("mode", "remote", 0); Apart("mode", "button", 0);
    Apart("mode", "repeat", 0); Apart("mode", "config", 0);
    Apart("flags", "prog", 0); Apart("flags", "remote", 0); Apart("flags", "button", 0);
    Apart("flags", "repeat", 0); Apart("flags", "config", 0); Apart("flags", "mode", 0);
  }

  lemma RemoteField(words: Words, st: Reading, name: Name)
    requires st.open.Some? && Writable(name)
    ensures Field(words, st, "remote", NameText(name)) == Some(st.(remote := name))
  {
    KeysApart();
    NameReads(name);
  }

  lemma ButtonField(words: Words, st: Reading, name: Name)
    requires st.open.Some? && Writable(name)
    ensures Field(words, st, "button", NameText(name))
         == Some(st.(open := Some(WithCode(st.open.value, Code(st.remote, name)))))
  {
    hide WithCode;
    KeysApart();
    NameReads(name);
  }

  /** One code: a `remote` line if another remote is in force, and its `button` line. */
  lemma CodeRead(words: Words, st: Reading, code: Code, rest: seq<string>)
    requires st.open.Some? && Writable(code.remote) && Writable(code.button)
    ensures
      var lines := (if code.remote == st.remote then [] else [KeyLine("remote", NameText(code.remote))])
                   + ([KeyLine("button", NameText(code.button))] + rest);
      ReadLines(words, st, lines)
      == ReadLines(words, st.(remote := code.remote, open := Some(WithCode(st.open.value, code))), rest)
  {
    hide Field, LineRead, KeyLine, WithCode;
    var button := KeyLine("button", NameText(code.button));
    var st1 := st.(remote := code.remote);
    NameReads(code.remote);
    NameReads(code.button);
    RemoteField(words, st, code.remote);
    ButtonField(words, st1, code.button);
    KeyLineRead(words, st, "remote", NameText(code.remote));
    KeyLineRead(words, st1, "button", NameText(code.button));
    ReadFirst(words, st, KeyLine("remote", NameText(code.remote)), [button] + rest);
    ReadFirst(words, st1, button, rest);
    assert [] + ([button] + rest) == [button] + rest;
  }

  lemma {:induction false} CodesRead(words: Words, st: Reading, codes: seq<Code>, rest: seq<string>)
    requires st.open.Some? && CodeTail(st.open.value)
    requires forall i :: 0 <= i < |codes| ==> Writable(codes[i].remote) && Writable(codes[i].button)
    ensures
      var last := if codes == [] then st.remote else codes[|codes| - 1].remote;
      ReadLines(words, st, CodeLines(codes, st.remote) + rest)
      == ReadLines(words, st.(remote := last, open := Some(WithCodes(st.open.value, codes))), rest)
    decreases |codes|
  {
    hide ReadLines, WithCode, KeyLine;
    var e := st.open.value;
    if codes == [] {
      assert CodeLines(codes, st.remote) + rest == rest;
      assert e.code + [] == e.code;
    } else {
      var code, tail := codes[0], CodeLines(codes[1..], codes[0].remote);
      var st1 := st.(remote := code.remote, open := Some(WithCode(e, code)));
      var first := if code.remote == st.remote then [] else [KeyLine("remote", NameText(code.remote))];
      var button := [KeyLine("button", NameText(code.button))];
      Reassociate(first, button + tail, rest);
      Reassociate(button, tail, rest);
      CodeRead(words, st, code, tail + rest);
      CodeLinked(e, code);
      CodesRead(words, st1, codes[1..], rest);
      WithCodesTwice(e, code, codes[1..]);
      assert [code] + codes[1..] == codes;
    }
  }

  // ---- config texts ------------------------------------------------------------------------------

  lemma {:induction false} EncodedChars(t: string, i: nat)
    requires '\0' !in t && i <= |t|
    ensures forall k :: 0 <= k < |Encode(t, i)| ==> Encode(t, i)[k] >= ' '
    decreases |t| - i
  {
    if i < |t| {
      EncodedChars(t, i + 1);
    }
  }

  lemma EncodedChar(c: char, edge: bool)
    requires c != '\0'
    ensures
      var s := EncodeChar(c, edge);
      s != "" && (edge ==> s[0] != ' ' && s[|s| - 1] != ' ')
  {
  }

  lemma {:induction false} EncodedEdges(t: string, i: nat)
    requires '\0' !in t && i < |t|
    ensures
      var s := Encode(t, i);
      s != "" && s[|s| - 1] != ' ' && (i == 0 ==> s[0] != ' ')
    decreases |t| - i
  {
    var first := EncodeChar(t[i], i == 0 || i == |t| - 1);
    EncodedChar(t[i], i == 0 || i == |t| - 1);
    hide EncodeChar;
    var rest := Encode(t, i + 1);
    assert Encode(t, i) == first + rest;
    if i + 1 < |t| {
      EncodedEdges(t, i + 1);
    }
    hide Encode;
    assert rest != "" ==> (first + rest)[|first + rest| - 1] == rest[|rest| - 1];
  }

  /** The canonical form of a text survives being written as a value, and decodes to the text. */
  lemma {:induction false} EncodedIsTidy(t: string)
    requires '\0' !in t
    ensures Tidy(Encode(t, 0)) && UpToNul(Decode(Encode(t, 0), 0)) == t
  {
    EncodedChars(t, 0);
    if t != "" {
      EncodedEdges(t, 0);
    }
    EscapeRoundTrip(t);
  }

  predicate ConfigTail(e: EntryState) {
    e.nextConfig == if e.config == [] then 0 else |e.config| - 1
  }

  function WithConfigs(e: EntryState, texts: seq<string>): EntryState {
    e.(config := e.config + texts, nextConfig := if e.config + texts == [] then 0 else |e.config + texts| - 1)
  }

  lemma ConfigLinked(e: EntryState, text: string)
    requires ConfigTail(e)
    ensures WithConfig(e, text) == WithConfigs(e, [text]) && ConfigTail(WithConfig(e, text))
  {
  }

  lemma WithConfigsTwice(e: EntryState, text: string, texts: seq<string>)
    ensures WithConfigs(WithConfigs(e, [text]), texts) == WithConfigs(e, [text] + texts)
  {
    assert e.config + [text] + texts == e.config + ([text] + texts);
  }

  lemma ConfigField(words: Words, st: Reading, text: string)
    requires st.open.Some? && '\0' !in text
    ensures Field(words, st, "config", Encode(text, 0)) == Some(st.(open := Some(WithConfig(st.open.value, text))))
  {
    hide WithConfig, Encode, Decode;
    KeysApart();
    EncodedIsTidy(text);
  }

  lemma {:induction false} ConfigsRead(words: Words, st: Reading, texts: seq<string>, rest: seq<string>)
    requires st.open.Some? && ConfigTail(st.open.value)
    requires forall i :: 0 <= i < |texts| ==> '\0' !in texts[i]
    ensures ReadLines(words, st, ConfigLines(texts) + rest)
         == ReadLines(words, st.(open := Some(WithConfigs(st.open.value, texts))), rest)
    decreases |texts|
  {
    hide ReadLines, WithConfig, KeyLine, Field, LineRead, Encode;
    var e := st.open.value;
    if texts == [] {
      assert ConfigLines(texts) + rest == rest;
      assert e.config + [] == e.config;
    } else {
      var line, tail := KeyLine("config", Encode(texts[0], 0)), ConfigLines(texts[1..]);
      Reassociate([line], tail, rest);
      EncodedIsTidy(texts[0]);
      KeyLineRead(words, st, "config", Encode(texts[0], 0));
      ConfigField(words, st, texts[0]);
      ReadFirst(words, st, line, tail + rest);
      ConfigLinked(e, texts[0]);
      ConfigsRead(words, st.(open := Some(WithConfig(e, texts[0]))), texts[1..], rest);
      WithConfigsTwice(e, texts[0], texts[1..]);
      assert [texts[0]] + texts[1..] == texts;
    }
  }

  // ---- entries, blocks, files ----------------------------------------------------------------------

  lemma BeginRead(words: Words, st: Reading)
    requires st.open.None?
    ensures LineRead(words, st, "begin") == Some(st.(open := Some(BLANK_ENTRY), remote := All))
  {
    OneWord("begin");
  }

  lemma EndRead(words: Words, st: Reading)
    requires st.open.Some?
    ensures LineRead(words, st, "end")
         == Some(st.(open := None, remote := All, entries := st.entries + [Finished(st.open.value, st.mode, words.revised)]))
  {
    OneWord("end");
    assert !SameText("end", "begin") by { assert Fold("end")[0] != Fold("begin")[0]; }
  }

  lemma SimpleFields(words: Words, st: Reading, value: string)
    requires st.open.Some?
    ensures
      var e := st.open.value;
      && Field(words, st, "prog", value) == Some(st.(open := Some(e.(prog := Some(value)))))
      && Field(words, st, "delay", value) ==
           Some(st.(open := Some(e.(repeatDelay := if words.revised then words.number(value) else e.repeatDelay))))
      && Field(words, st, "repeat", value) == Some(st.(open := Some(e.(repeat := words.number(value)))))
      && Field(words, st, "mode", value) == Some(st.(open := Some(e.(changeMode := Some(value)))))
      && Field(words, st, "flags", value) == Some(st.(open := Some(e.(flags := words.flags(value)))))
  {
    KeysApart();
  }

  /** The state between the `begin` of an entry and its `end`. */
  function Opened(st: Reading, e: EntryState, remote: Name): Reading {
    st.(open := Some(e), remote := remote)
  }

  lemma {:induction false} PrefixRead(words: Words, st: Reading, e: EntryText, rest: seq<string>)
    requires st.open.None? && WritableEntry(e)
    ensures
      var last := if e.codes == [] then All else e.codes[|e.codes| - 1].remote;
      var filled := WithCodes(BLANK_ENTRY.(prog := e.prog), e.codes);
      ReadLines(words, st, ["begin"] + (Optional("prog", e.prog) + (CodeLines(e.codes, All) + rest)))
      == ReadLines(words, Opened(st, filled, last), rest)
  {
    hide ReadLines, LineRead, Field, KeyLine, CodeLines, Optional;
    var st1 := Opened(st, BLANK_ENTRY, All);
    var st2 := Opened(st, BLANK_ENTRY.(prog := e.prog), All);
    var codes := CodeLines(e.codes, All) + rest;
    BeginRead(words, st);
    ReadFirst(words, st, "begin", Optional("prog", e.prog) + codes);
    OptionalRead(words, st1, "prog", e.prog, codes);
    if e.prog.Some? {
      SimpleFields(words, st1, e.prog.value);
    }
    CodesRead(words, st2, e.codes, rest);
  }

  /** The fields of an entry that `delay`, `repeat`, `config`, `mode` and `flags` lines fill. */
  function Filled(words: Words, e0: EntryState, e: EntryText): EntryState {
    WithConfigs(e0.(repeatDelay := if words.revised then Number(words, e.delay) else 0, repeat := Number(words, e.repeat)), e.config)
      .(changeMode := e.changeMode, flags := FlagSet(words, e.flags))
  }

  lemma NumbersRead(words: Words, st: Reading, e: EntryText, rest: seq<string>)
    requires st.open.Some? && WritableEntry(e) && st.open.value.repeat == 0 && st.open.value.repeatDelay == 0
    ensures
      var numbered := st.open.value.(repeatDelay := if words.revised then Number(words, e.delay) else 0, repeat := Number(words, e.repeat));
      ReadLines(words, st, Optional("delay", e.delay) + (Optional("repeat", e.repeat) + rest))
      == ReadLines(words, st.(open := Some(numbered)), rest)
  {
    hide ReadLines, LineRead, Field, KeyLine, Optional;
    var st1 := st.(open := Some(st.open.value.(repeatDelay := if words.revised then Number(words, e.delay) else 0)));
    OptionalRead(words, st, "delay", e.delay, Optional("repeat", e.repeat) + rest);
    if e.delay.Some? {
      SimpleFields(words, st, e.delay.value);
    }
    OptionalRead(words, st1, "repeat", e.repeat, rest);
    if e.repeat.Some? {
      SimpleFields(words, st1, e.repeat.value);
    }
  }

  lemma ModeAndFlagsRead(words: Words, st: Reading, e: EntryText, rest: seq<string>)
    requires st.open.Some? && WritableEntry(e) && st.open.value.changeMode == None && st.open.value.flags == {}
    ensures
      var filled := st.open.value.(changeMode := e.changeMode, flags := FlagSet(words, e.flags));
      ReadLines(words, st, Optional("mode", e.changeMode) + (Optional("flags", e.flags) + rest))
      == ReadLines(words, st.(open := Some(filled)), rest)
  {
    hide ReadLines, LineRead, Field, KeyLine, Optional;
    var st1 := st.(open := Some(st.open.value.(changeMode := e.changeMode)));
    OptionalRead(words, st, "mode", e.changeMode, Optional("flags", e.flags) + rest);
    if e.changeMode.Some? {
      SimpleFields(words, st, e.changeMode.value);
    }
    OptionalRead(words, st1, "flags", e.flags, rest);
    if e.flags.Some? {
      SimpleFields(words, st1, e.flags.value);
    }
  }

  lemma SuffixRead(words: Words, st: Reading, e: EntryText, rest: seq<string>)
    requires st.open.Some? && ConfigTail(st.open.value) && WritableEntry(e)
    requires var e0 := st.open.value; e0.repeat == 0 && e0.repeatDelay == 0 && e0.changeMode == None && e0.flags == {}
    ensures
      ReadLines(words, st, Optional("delay", e.delay) + (Optional("repeat", e.repeat) + (ConfigLines(e.config)
        + (Optional("mode", e.changeMode) + (Optional("flags", e.flags) + rest)))))
      == ReadLines(words, st.(open := Some(Filled(words, st.open.value, e))), rest)
  {
    hide ReadLines, LineRead, Field, KeyLine, ConfigLines, Optional, Number, FlagSet;
    var last := Optional("mode", e.changeMode) + (Optional("flags", e.flags) + rest);
    var numbered := st.open.value.(repeatDelay := if words.revised then Number(words, e.delay) else 0, repeat := Number(words, e.repeat));
    var st1 := st.(open := Some(numbered));
    NumbersRead(words, st, e, ConfigLines(e.config) + last);
    ConfigsRead(words, st1, e.config, last);
    ModeAndFlagsRead(words, st1.(open := Some(WithConfigs(numbered, e.config))), e, rest);
  }

  /** A printed entry is read as the entry, with the mode in force, and leaves no remote in force. */
  lemma {:induction false} EntryRead(words: Words, st: Reading, e: EntryText, rest: seq<string>)
    requires st.open.None? && WritableEntry(e)
    ensures ReadLines(words, st, EntryLines(e) + rest)
         == ReadLines(words, st.(remote := All, entries := st.entries + [Meaning(words, e, st.mode)]), rest)
  {
    hide ReadLines, LineRead, CodeLines, ConfigLines, Optional, WritableEntry;
    var end := ["end"] + rest;
    var t4 := Optional("flags", e.flags) + end;
    var t3 := ConfigLines(e.config) + (Optional("mode", e.changeMode) + t4);
    var t2 := Optional("delay", e.delay) + (Optional("repeat", e.repeat) + t3);
    EntryShape(e, rest);
    var last := if e.codes == [] then All else e.codes[|e.codes| - 1].remote;
    var begun := WithCodes(BLANK_ENTRY.(prog := e.prog), e.codes);
    EmptyFirst(e.codes);
    EmptyFirst(e.config);
    PrefixRead(words, st, e, t2);
    SuffixRead(words, Opened(st, begun, last), e, end);
    var whole := Filled(words, begun, e);
    EndRead(words, Opened(st, whole, last));
    ReadFirst(words, Opened(st, whole, last), "end", rest);
    assert Finished(whole, st.mode, words.revised) == Meaning(words, e, st.mode);
  }

  lemma EntryShape(e: EntryText, rest: seq<string>)
    ensures EntryLines(e) + rest
         == ["begin"] + (Optional("prog", e.prog) + (CodeLines(e.codes, All) + (Optional("delay", e.delay)
            + (Optional("repeat", e.repeat) + (ConfigLines(e.config) + (Optional("mode", e.changeMode)
            + (Optional("flags", e.flags) + (["end"] + rest))))))))
  {
    hide Optional, CodeLines, ConfigLines;
    var l1, l2, l3, l4 := Optional("prog", e.prog), CodeLines(e.codes, All), Optional("delay", e.delay), Optional("repeat", e.repeat);
    var l5, l6, l7 := ConfigLines(e.config), Optional("mode", e.changeMode), Optional("flags", e.flags);
    var r7 := l7 + ["end"];
    var r6 := l6 + r7;
    var r5 := l5 + r6;
    var r4 := l4 + r5;
    var r3 := l3 + r4;
    var r2 := l2 + r3;
    Reassociate(l7, ["end"], rest);
    Reassociate(l6, r7, rest);
    Reassociate(l5, r6, rest);
    Reassociate(l4, r5, rest);
    Reassociate(l3, r4, rest);
    Reassociate(l2, r3, rest);
    Reassociate(l1, r2, rest);
    Reassociate(["begin"], l1 + r2, rest);
  }

  lemma {:induction false} EntriesRead(words: Words, st: Reading, es: seq<EntryText>, rest: seq<string>)
    requires st.open.None? && forall i :: 0 <= i < |es| ==> WritableEntry(es[i])
    ensures ReadLines(words, st, EntriesLines(es) + rest)
         == ReadLines(words, st.(remote := if es == [] then st.remote else All,
                                 entries := st.entries + Meanings(words, es, st.mode)), rest)
    decreases |es|
  {
    hide ReadLines, EntryLines, Meaning, WritableEntry;
    if es == [] {
      assert EntriesLines(es) + rest == rest && st.entries + [] == st.entries;
    } else {
      var tail := EntriesLines(es[1..]);
      Reassociate(EntryLines(es[0]), tail, rest);
      EntryRead(words, st, es[0], tail + rest);
      var st1 := st.(remote := All, entries := st.entries + [Meaning(words, es[0], st.mode)]);
      EntriesRead(words, st1, es[1..], rest);
      Reassociate(st.entries, [Meaning(words, es[0], st.mode)], Meanings(words, es[1..], st.mode));
    }
  }

  lemma ModeBeginRead(words: Words, st: Reading, mode: string)
    requires st.open.None? && st.mode.None? && Word(mode)
    ensures LineRead(words, st, "begin " + mode) == Some(st.(mode := Some(mode), remote := All))
  {
    TwoWords("begin", mode);
    assert "begin" + " " + mode == "begin " + mode;
  }

  lemma ModeEndRead(words: Words, st: Reading, mode: string)
    requires st.open.None? && st.mode == Some(mode) && Word(mode)
    ensures LineRead(words, st, "end " + mode) == Some(st.(mode := None, remote := All))
  {
    TwoWords("end", mode);
    assert "end" + " " + mode == "end " + mode;
    Apart("end", "begin", 0);
  }

  function BlockMeaning(words: Words, b: Block): seq<EntryState> {
    match b
    case Single(entry) => [Meaning(words, entry, None)]
    case Grouped(mode, entries) => Meanings(words, entries, Some(mode))
  }

  lemma BlockRead(words: Words, st: Reading, b: Block, rest: seq<string>)
    requires st.open.None? && st.mode.None? && WritableBlock(b)
    ensures ReadLines(words, st, BlockLines(b) + rest)
         == ReadLines(words, st.(remote := All, entries := st.entries + BlockMeaning(words, b)), rest)
  {
    hide ReadLines, LineRead, EntryLines, EntriesLines, Meaning, Meanings, WritableEntry;
    match b
    case Single(entry) =>
      EntryRead(words, st, entry, rest);
    case Grouped(mode, entries) =>
      var st1 := st.(mode := Some(mode), remote := All);
      var inner, last := EntriesLines(entries), ["end " + mode];
      Reassociate(["begin " + mode], inner + last, rest);
      Reassociate(inner, last, rest);
      ModeBeginRead(words, st, mode);
      ReadFirst(words, st, "begin " + mode, inner + (last + rest));
      EntriesRead(words, st1, entries, last + rest);
      var st2 := st1.(entries := st.entries + Meanings(words, entries, Some(mode)));
      ModeEndRead(words, st2, mode);
      ReadFirst(words, st2, "end " + mode, rest);
  }

  lemma {:induction false} BlocksRead(words: Words, st: Reading, blocks: seq<Block>)
    requires st.open.None? && st.mode.None? && forall i :: 0 <= i < |blocks| ==> WritableBlock(blocks[i])
    ensures
      var r := ReadLines(words, st, FileLines(blocks));
      r.Some? && r.value.open.None? && r.value.entries == st.entries + FileMeaning(words, blocks)
    decreases |blocks|
  {
    hide BlockLines, BlockMeaning, WritableBlock, LineRead;
    if blocks != [] {
      BlockRead(words, st, blocks[0], FileLines(blocks[1..]));
      BlocksRead(words, st.(remote := All, entries := st.entries + BlockMeaning(words, blocks[0])), blocks[1..]);
      Reassociate(st.entries, BlockMeaning(words, blocks[0]), FileMeaning(words, blocks[1..]));
    }
  }

  // ---- printed lines are lines -------------------------------------------------------------------

  /** These can be the lines of a text file. */
  predicate AreLines(lines: seq<string>) {
    forall i :: 0 <= i < |lines| ==> '\0' !in lines[i] && '\n' !in lines[i]
  }

  lemma LinesConcat(a: seq<string>, b: seq<string>)
    requires AreLines(a) && AreLines(b)
    ensures AreLines(a + b)
  {
  }

  lemma KeyLineIsLine(key: string, value: string)
    requires Word(key) && Tidy(value)
    ensures AreLines([KeyLine(key, value)])
  {
  }

  lemma OptionalIsLine(key: string, value: Option<string>)
    requires Word(key) && TidyOption(value)
    ensures AreLines(Optional(key, value))
  {
    hide KeyLine;
    if value.Some? {
      KeyLineIsLine(key, value.value);
    }
  }

  lemma {:induction false} CodesAreLines(codes: seq<Code>, remote: Name)
    requires forall i :: 0 <= i < |codes| ==> Writable(codes[i].remote) && Writable(codes[i].button)
    ensures AreLines(CodeLines(codes, remote))
    decreases |codes|
  {
    hide KeyLine, Writable, AreLines;
    NoLines();
    if codes != [] {
      var code, tail := codes[0], CodeLines(codes[1..], codes[0].remote);
      var button := [KeyLine("button", NameText(code.button))];
      NameReads(code.remote);
      NameReads(code.button);
      KeyLineIsLine("remote", NameText(code.remote));
      KeyLineIsLine("button", NameText(code.button));
      CodesAreLines(codes[1..], code.remote);
      LinesConcat(button, tail);
      LinesConcat(if code.remote == remote then [] else [KeyLine("remote", NameText(code.remote))], button + tail);
    }
  }

  lemma NoLines()
    ensures AreLines([])
  {
  }

  lemma {:induction false} ConfigsAreLines(texts: seq<string>)
    requires forall i :: 0 <= i < |texts| ==> '\0' !in texts[i]
    ensures AreLines(ConfigLines(texts))
    decreases |texts|
  {
    hide KeyLine, AreLines, Encode, Decode;
    if texts == [] {
      NoLines();
    } else {
      EncodedIsTidy(texts[0]);
      KeyLineIsLine("config", Encode(texts[0], 0));
      ConfigsAreLines(texts[1..]);
      LinesConcat([KeyLine("config", Encode(texts[0], 0))], ConfigLines(texts[1..]));
    }
  }

  lemma EntryIsLines(e: EntryText)
    requires WritableEntry(e)
    ensures AreLines(EntryLines(e))
  {
    hide AreLines, Optional, CodeLines, ConfigLines, Writable, Tidy;
    assert Word("prog") && Word("delay") && Word("repeat") && Word("mode") && Word("flags") by { KeysAreWords(); }
    OptionalIsLine("prog", e.prog);
    CodesAreLines(e.codes, All);
    OptionalIsLine("delay", e.delay);
    OptionalIsLine("repeat", e.repeat);
    ConfigsAreLines(e.config);
    OptionalIsLine("mode", e.changeMode);
    OptionalIsLine("flags", e.flags);
    assert AreLines(["begin"]) && AreLines(["end"]) by { MarksAreLines(); }
    var r7 := Optional("flags", e.flags) + ["end"];
    var r6 := Optional("mode", e.changeMode) + r7;
    var r5 := ConfigLines(e.config) + r6;
    var r4 := Optional("repeat", e.repeat) + r5;
    var r3 := Optional("delay", e.delay) + r4;
    var r2 := CodeLines(e.codes, All) + r3;
    LinesConcat(Optional("flags", e.flags), ["end"]);
    LinesConcat(Optional("mode", e.changeMode), r7);
    LinesConcat(ConfigLines(e.config), r6);
    LinesConcat(Optional("repeat", e.repeat), r5);
    LinesConcat(Optional("delay", e.delay), r4);
    LinesConcat(CodeLines(e.codes, All), r3);
    LinesConcat(Optional("prog", e.prog), r2);
    LinesConcat(["begin"], Optional("prog", e.prog) + r2);
  }

  lemma KeysAreWords()
    ensures Word("prog") && Word("delay") && Word("repeat") && Word("mode") && Word("flags")
  {
  }

  lemma MarksAreLines()
    ensures AreLines(["begin"]) && AreLines(["end"])
  {
  }

  lemma {:induction false} EntriesAreLines(es: seq<EntryText>)
    requires forall i :: 0 <= i < |es| ==> WritableEntry(es[i])
    ensures AreLines(EntriesLines(es))
    decreases |es|
  {
    hide AreLines, EntryLines, WritableEntry;
    if es == [] {
      NoLines();
    } else {
      EntryIsLines(es[0]);
      EntriesAreLines(es[1..]);
      LinesConcat(EntryLines(es[0]), EntriesLines(es[1..]));
    }
  }

  lemma ModeLinesAreLines(mode: string)
    requires Word(mode)
    ensures AreLines(["begin " + mode]) && AreLines(["end " + mode])
  {
  }

  lemma BlockIsLines(b: Block)
    requires WritableBlock(b)
    ensures AreLines(BlockLines(b))
  {
    hide AreLines, EntryLines, EntriesLines, WritableEntry, Word;
    match b
    case Single(entry) => EntryIsLines(entry);
    case Grouped(mode, entries) =>
      ModeLinesAreLines(mode);
      EntriesAreLines(entries);
      LinesConcat(EntriesLines(entries), ["end " + mode]);
      LinesConcat(["begin " + mode], EntriesLines(entries) + ["end " + mode]);
  }

  lemma {:induction false} FileIsLines(blocks: seq<Block>)
    requires forall i :: 0 <= i < |blocks| ==> WritableBlock(blocks[i])
    ensures AreLines(FileLines(blocks))
    decreases |blocks|
  {
    hide AreLines, BlockLines, WritableBlock;
    if blocks == [] {
      NoLines();
    } else {
      BlockIsLines(blocks[0]);
      FileIsLines(blocks[1..]);
      LinesConcat(BlockLines(blocks[0]), FileLines(blocks[1..]));
    }
  }

  /**
    Config round trip: a printed configuration is a text file that is read without an error as the same entries in
    the same order, each with the mode of its block and with both cursors at the list heads.
   */
  lemma {:induction false} ConfigRoundTrip(words: Words, blocks: seq<Block>)
    requires forall i :: 0 <= i < |blocks| ==> WritableBlock(blocks[i])
    ensures AreLines(FileLines(blocks))
    ensures ReadAll(words, FileLines(blocks)) == Some(FileMeaning(words, blocks))
  {
    hide ReadLines, FileLines, AreLines;
    FileIsLines(blocks);
    BlocksRead(words, BEGINNING, blocks);
    assert [] + FileMeaning(words, blocks) == FileMeaning(words, blocks);
  }
}
