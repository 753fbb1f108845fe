/** The parser object behind `lirc_readconfig`: it fills one entry in place and links finished ones. */
module ConfigParsing {
  import opened Text
  import opened KeySequence
  import opened Entries
  import opened Escapes
  import opened ConfigFile

  class Parser {
    const words: Words
    var mode: Option<string>
    var remote: Name
    var newEntry: Entry?
    var entries: seq<Entry>                // from `first` to `last`
    ghost var finished: seq<EntryState>    // their values

    constructor (words: Words)
      ensures Valid() && State() == BEGINNING && this.words == words && entries == []
    {
      this.words := words;
      mode, remote, newEntry, entries, finished := None, All, null, [], [];
    }

    ghost predicate Valid()
      reads this, entries, newEntry
    {
      && |finished| == |entries|
      && (forall i :: 0 <= i < |entries| ==> entries[i].State() == finished[i] && entries[i] != newEntry)
      && (forall i, j :: 0 <= i < j < |entries| ==> entries[i] != entries[j])
    }

    /** What the finished entries hold, for whoever only keeps the list. */
    lemma EntriesHold()
      requires Valid()
      ensures Mirrors(entries, finished)
    {
    }

    ghost function State(): Reading
      reads this, newEntry
    {
      Reading(mode, remote, if newEntry == null then None else Some(newEntry.State()), finished)
    }

    /** `lirc_mode` */
    method ModeToken(token: string, token2: Option<string>) returns (ok: bool)
      requires Valid()
      modifies this, newEntry
      ensures Valid() && (newEntry == null || newEntry == old(newEntry) || fresh(newEntry))
      ensures forall e :: e in entries ==> e in old(entries) || e == old(newEntry)
      ensures var r := ModeLine(words, old(State()), token, token2);
        if ok then r == Some(State()) else r == None && State() == old(State())
    {
      if SameText(token, "begin") {
        if token2.None? {
          if newEntry == null {
            newEntry := new Entry(BLANK_ENTRY);
          } else {
            return false;
          }
        } else {
          if newEntry == null && mode.None? {
            mode := token2;
          } else {
            return false;
          }
        }
      } else if SameText(token, "end") {
        if token2.None? {
          if newEntry != null {
            newEntry.Finish(mode, words.revised);
            finished := finished + [newEntry.State()];
            entries := entries + [newEntry];
            newEntry := null;
          } else {
            return false;
          }
        } else {
          if mode.Some? && newEntry == null && SameText(mode.value, token2.value) {
            mode := None;
          } else {
            return false;
          }
        }
      }
      return true;
    }

    /** The branches of `lirc_readconfig` for a line with an equals sign. */
    method KeyValue(token: string, token2: string) returns (ok: bool)
      requires Valid() && '\0' !in token2
      modifies this, newEntry
      ensures Valid() && newEntry == old(newEntry) && entries == old(entries)
      ensures var r := Field(words, old(State()), token, token2);
        if ok then r == Some(State()) else r == None && State() == old(State())
    {
      hide SameText, NameOf, WithCode, WithConfig, Decode, UpToNul;
      if token != "" && token[0] == '#' {
        return true;
      }
      if newEntry == null {
        return false;
      }
      if SameText(token, "prog") {
        newEntry.prog := Some(token2);
      } else if SameText(token, "remote") {
        remote := NameOf(token2);
      } else if SameText(token, "button") {
        var code := Code(remote, NameOf(token2));
        newEntry.AppendCode(code);
      } else if words.revised && SameText(token, "delay") {
        newEntry.repeatDelay := words.number(token2);
      } else if SameText(token, "repeat") {
        newEntry.repeat := words.number(token2);
      } else if SameText(token, "config") {
        var text := DecodeCopy(token2);
        newEntry.AppendConfig(text);
      } else if SameText(token, "mode") {
        newEntry.changeMode := Some(token2);
      } else if SameText(token, "flags") {
        newEntry.flags := words.flags(token2);
      }
      return true;
    }

    /** The loop body of `lirc_readconfig`. */
    method ReadLine(line: string) returns (ok: bool)
      requires Valid() && '\0' !in line
      modifies this, newEntry
      ensures Valid() && (newEntry == null || newEntry == old(newEntry) || fresh(newEntry))
      ensures forall e :: e in entries ==> e in old(entries) || e == old(newEntry)
      ensures var r := LineRead(words, old(State()), line); ok == r.Some? && (ok ==> r == Some(State()))
    {
      hide Field, ModeLine;
      var eq := FirstEquals(line);
      if eq == |line| {
        var tokens := Tokens(line, 0);
        if tokens == [] {
          return true;
        } else if tokens[0][0] == '#' {
          return true;
        } else if |tokens| > 2 {
          return true;
        }
        ok := ModeToken(tokens[0], if |tokens| == 2 then Some(tokens[1]) else None);
        if ok {
          remote := All;
        } else {
          mode := None;
          newEntry := null;
        }
      } else {
        var token := Trim(line[..eq]);
        var token2 := Trim(line[eq + 1..]);
        TrimmedPart(line[eq + 1..]);
        ok := KeyValue(token, token2);
      }
    }

    /** The end of `lirc_readconfig` for a file read without an error. */
    method Close()
      requires Valid()
      modifies this, newEntry
      ensures Valid() && finished == AtEnd(words, old(State()))
      ensures forall e :: e in entries ==> e in old(entries) || e == old(newEntry)
    {
      if newEntry != null {
        var ok := ModeToken("end", None);
      }
    }
  }

  /** `lirc_readconfig` without a `check` function, on the lines of the file; null entries on an error. */
  method ReadConfig(words: Words, lines: seq<string>) returns (result: Option<seq<Entry>>)
    requires forall i :: 0 <= i < |lines| ==> '\0' !in lines[i]
    ensures result.None? <==> ReadAll(words, lines).None?
    ensures result.Some? ==> Mirrors(result.value, ReadAll(words, lines).value)
    ensures result.Some? ==> forall e :: e in result.value ==> fresh(e)
  {
    hide LineRead;
    var parser := new Parser(words);
    var i := 0;
    assert lines[0..] == lines;
    while i < |lines|
      invariant i <= |lines| && parser.Valid() && fresh(parser) && parser.words == words
      invariant (parser.newEntry != null ==> fresh(parser.newEntry))
      invariant forall e :: e in parser.entries ==> fresh(e)
      invariant ReadLines(words, BEGINNING, lines) == ReadLines(words, parser.State(), lines[i..])
    {
      assert lines[i..][0] == lines[i] && lines[i..][1..] == lines[i + 1..];
      var ok := parser.ReadLine(lines[i]);
      if !ok {
        return None;
      }
      i := i + 1;
    }
    parser.Close();
    parser.EntriesHold();
    return Some(parser.entries);
  }

  /** `lirc_parse_string` on a copy of the text, and what the copy then holds as a string. */
  method DecodeCopy(s: string) returns (text: string)
    requires '\0' !in s
    ensures text == UpToNul(Decode(s, 0))
  {
    var a := new char[|s| + 1](i => if 0 <= i < |s| then s[i] else '\0');
    var length := ParseString(a, s);
    text := UpToNul(a[..length]);
  }
}
