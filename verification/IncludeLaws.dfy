/** Include lines as they are written, and what files that include others are read as. */
module IncludeLaws {
  import opened Text
  import opened ConfigFile
  import opened ConfigLaws
  import opened ConfigLineLaws
  import opened ConfigIncludes

  // ---- include lines -----------------------------------------------------------------------------

  /** `include`, in any letters, with a blank and a name behind it. */
  ghost predicate Includes(line: string, name: string) {
    exists b1, word, b2, written, b3 ::
      && Blanks(b1) && SameSpelling(word, "include") && Blanks(b2) && b2 != "" && Blanks(b3)
      && line == b1 + word + b2 + written + b3 && '=' !in line
      && Means(written, name)
  }

  /** A name in double quotes, in angle brackets, or as it is. */
  predicate Means(written: string, name: string) {
    || (written == "\"" + name + "\"")
    || (written == "<" + name + ">")
    || (written == name && Tidy(name) && name != "" && name[0] != '"' && name[0] != '<')
  }

  lemma WordIsInclude(word: string)
    requires SameSpelling(word, "include")
    ensures |word| == 7 && Solid(word) && word[0] != '#' && SameText(word, "include")
  {
    SameTextIff(word, "include");
  }

  lemma MeansUnquoted(written: string, name: string)
    requires Means(written, name)
    ensures Unquoted(written) == name && written != "" && !IsBlank(written[0]) && !IsBlank(written[|written| - 1])
  {
    if written == "\"" + name + "\"" || written == "<" + name + ">" {
      assert written[1..|written| - 1] == name;
    }
  }

  lemma IncludeParts(b1: string, word: string, rest: string)
    requires Blanks(b1) && SameSpelling(word, "include") && rest != "" && (rest[0] == ' ' || rest[0] == '\t')
    ensures
      var line := b1 + word + rest;
      && Tokens(line, 0) != [] && Tokens(line, 0)[0] == word
      && TokenEnd(line, SkipBlanks(line, 0)) == |b1| + |word|
  {
    WordIsInclude(word);
    var line := b1 + word + rest;
    EmptyFirst(b1);
    NextWord("", b1, word, rest);
    var q, e := |b1|, |b1| + |word|;
    assert line[0..q] == b1 && line[q..e] == word && line[q] == word[0] && line[e] == rest[0];
    SkipsBlanks(line, 0, q);
    EndsToken(line, q, e);
  }

  /** Such a line is an include line for that name. */
  lemma {:induction false} IncludeLineNames(line: string, name: string)
    requires Includes(line, name)
    ensures IsInclude(line) && IncludeName(line) == name
  {
    hide SameSpelling, Blanks, Means, Tokens, TokenEnd, SkipBlanks, Trimmed, Unquoted, FirstEquals, Solid;
    var b1, word, b2, written, b3 :|
      && Blanks(b1) && SameSpelling(word, "include") && Blanks(b2) && b2 != "" && Blanks(b3)
      && line == b1 + word + b2 + written + b3 && '=' !in line && Means(written, name);
    var rest := b2 + written + b3;
    assert line == b1 + word + rest;
    assert rest[0] == b2[0] && (b2[0] == ' ' || b2[0] == '\t') by { FirstBlank(b2); }
    IncludeParts(b1, word, rest);
    WordIsInclude(word);
    NoEquals(line);
    var e := |b1| + |word|;
    assert line[e + 1..] == b2[1..] + written + b3;
    BlanksLater(b2);
    MeansUnquoted(written, name);
    BareTrims(b2[1..], written, b3);
  }

  lemma FirstBlank(s: string)
    requires Blanks(s) && s != ""
    ensures s[0] == ' ' || s[0] == '\t'
  {
  }

  lemma BlanksLater(s: string)
    requires Blanks(s) && s != ""
    ensures Blanks(s[1..])
  {
  }

  /** Blank lines, comments, lines with an equals sign and lines that begin with another word are none. */
  lemma {:induction false} NoIncludeLine(line: string)
    ensures Blanks(line) || Comment(line) || '=' in line ==> !IsInclude(line)
    ensures Tokens(line, 0) != [] && !SameSpelling(Tokens(line, 0)[0], "include") ==> !IsInclude(line)
  {
    hide Tokens, SameSpelling, SameText, Blanks, Comment;
    NoEquals(line);
    if Blanks(line) {
      NoMoreWords("", line);
      EmptyFirst(line);
    } else if Comment(line) {
      HashFirst(line);
    }
    if Tokens(line, 0) != [] {
      SameTextIff(Tokens(line, 0)[0], "include");
    }
  }

  lemma HashFirst(line: string)
    requires Comment(line)
    ensures Tokens(line, 0) != [] && Tokens(line, 0)[0] != "" && Tokens(line, 0)[0][0] == '#'
  {
    hide Tokens;
    var n :| 0 <= n < |line| && Blanks(line[..n]) && line[n] == '#';
    CommentToken(line, n);
  }

  // ---- what files are read as ----------------------------------------------------------------------

  /** A line that is no include, and what stands before and behind it. */
  lemma {:induction false} SplicedLine(fs: FileSystem, name: string, before: seq<string>, line: string, after: seq<string>, depth: nat)
    returns (x: seq<string>, y: seq<string>)
    requires 1 <= depth <= MAX_INCLUDES && !IsInclude(line)
    ensures
      var with, without := Splice(fs, File(name, before + [line] + after), depth), Splice(fs, File(name, before + after), depth);
      with.1 == without.1 && (with.1 ==> with.0 == x + [line] + y && without.0 == x + y)
    decreases |before|
  {
    hide Splice, IsInclude, IncludeName;
    var f, g := File(name, before + [line] + after), File(name, before + after);
    if before == [] {
      assert f.lines == [line] + after && g.lines == after;
      assert Later(f) == g;
      SplicePlain(fs, f, depth);
      x, y := [], Splice(fs, g, depth).0;
      assert [] + [line] + y == [line] + y && [] + y == y;
    } else {
      var first := before[0];
      assert f.lines == [first] + (before[1..] + [line] + after) && g.lines == [first] + (before[1..] + after);
      assert Later(f) == File(name, before[1..] + [line] + after) && Later(g) == File(name, before[1..] + after);
      x, y := SplicedLine(fs, name, before[1..], line, after, depth);
      if IsInclude(first) {
        SpliceInclude(fs, f, depth);
        SpliceInclude(fs, g, depth);
        var inner := fs(IncludeName(first), name);
        if depth < MAX_INCLUDES && inner.Some? {
          var text := Splice(fs, inner.value, depth + 1).0;
          Behind(text, x, line, y);
          x := text + x;
        }
      } else {
        SplicePlain(fs, f, depth);
        SplicePlain(fs, g, depth);
        Behind([first], x, line, y);
        x := [first] + x;
      }
    }
  }

  lemma Behind(text: seq<string>, x: seq<string>, line: string, y: seq<string>)
    ensures text + (x + [line] + y) == (text + x) + [line] + y && text + (x + y) == (text + x) + y
  {
  }

  /** Blank lines and comments may stand anywhere in a file with includes, too. */
  lemma {:induction false} CommentsIgnored(words: Words, fs: FileSystem, name: string, before: seq<string>, line: string, after: seq<string>)
    requires Blanks(line) || Comment(line)
    ensures
      var with, without := Splice(fs, File(name, before + [line] + after), 1), Splice(fs, File(name, before + after), 1);
      with.1 == without.1 && (with.1 ==> ReadAll(words, with.0) == ReadAll(words, without.0))
  {
    hide Splice, IsInclude, ReadAll, Blanks, Comment;
    NoIncludeLine(line);
    var x, y := SplicedLine(fs, name, before, line, after, 1);
    NeutralLinesIgnored(words, x, line, y);
  }

  /** A file with one include line is read with the lines of the other file in its place. */
  lemma {:induction false} IncludedInPlace(fs: FileSystem, name: string, before: seq<string>, line: string, after: seq<string>, inner: File, depth: nat)
    requires 1 <= depth < MAX_INCLUDES && IsInclude(line) && fs(IncludeName(line), name) == Some(inner)
    requires forall i :: 0 <= i < |before| ==> !IsInclude(before[i])
    requires forall i :: 0 <= i < |after| ==> !IsInclude(after[i])
    requires forall i :: 0 <= i < |inner.lines| ==> !IsInclude(inner.lines[i])
    ensures Splice(fs, File(name, before + [line] + after), depth) == (before + inner.lines + after, true)
    decreases |before|
  {
    hide Splice, IsInclude, IncludeName;
    var f := File(name, before + [line] + after);
    if before == [] {
      assert f.lines == [line] + after;
      assert Later(f) == File(name, after);
      SpliceInclude(fs, f, depth);
      NoIncludes(fs, inner, depth + 1);
      NoIncludes(fs, File(name, after), depth);
      EmptyFirst(inner.lines);
    } else {
      assert f.lines == [before[0]] + (before[1..] + [line] + after);
      assert Later(f) == File(name, before[1..] + [line] + after);
      SplicePlain(fs, f, depth);
      IncludedInPlace(fs, name, before[1..], line, after, inner, depth);
      assert [before[0]] + (before[1..] + inner.lines + after) == before + inner.lines + after;
    }
  }

  predicate PlainFrom(file: File, k: nat) {
    forall i :: k <= i < |file.lines| ==> !IsInclude(file.lines[i])
  }

  /** The first line of the file includes the next file, and no other line includes anything. */
  predicate Leads(fs: FileSystem, file: File, next: File) {
    && file.lines != [] && IsInclude(file.lines[0]) && fs(IncludeName(file.lines[0]), file.name) == Some(next)
    && PlainFrom(file, 1)
  }

  /** Each file leads to the next; the last includes none. */
  predicate IsNest(fs: FileSystem, files: seq<File>) {
    && files != [] && (forall i :: 0 <= i < |files| - 1 ==> Leads(fs, files[i], files[i + 1]))
    && PlainFrom(files[|files| - 1], 0)
  }

  lemma NestTail(fs: FileSystem, files: seq<File>)
    requires IsNest(fs, files) && |files| > 1
    ensures IsNest(fs, files[1..])
  {
    hide Leads, PlainFrom;
    var tail := files[1..];
    assert forall i :: 0 <= i < |tail| ==> tail[i] == files[i + 1];
  }

  lemma {:induction false} NestFrom(fs: FileSystem, files: seq<File>, depth: nat)
    requires 1 <= depth <= MAX_INCLUDES && IsNest(fs, files)
    ensures Splice(fs, files[0], depth).1 <==> depth + |files| - 1 <= 10
    decreases |files|
  {
    hide Splice, IsInclude, IncludeName;
    if |files| == 1 {
      NoIncludes(fs, files[0], depth);
    } else {
      var file := files[0];
      assert Leads(fs, file, files[1]);
      SpliceInclude(fs, file, depth);
      if depth < MAX_INCLUDES {
        NestTail(fs, files);
        NestFrom(fs, files[1..], depth + 1);
        NoIncludes(fs, Later(file), depth);
      }
    }
  }

  /** Files that include one another in a row are read exactly when there are at most ten of them. */
  lemma {:induction false} TenDeep(fs: FileSystem, files: seq<File>)
    requires IsNest(fs, files)
    ensures Splice(fs, files[0], 1).1 <==> |files| <= 10
  {
    NestFrom(fs, files, 1);
  }

  /** A file that cannot be opened is an error. */
  lemma {:induction false} UnopenedFails(fs: FileSystem, file: File, i: nat, depth: nat)
    requires 1 <= depth <= MAX_INCLUDES && i < |file.lines| && IsInclude(file.lines[i])
    requires fs(IncludeName(file.lines[i]), file.name).None?
    ensures !Splice(fs, file, depth).1
    decreases i
  {
    hide Splice, IsInclude, IncludeName;
    if IsInclude(file.lines[0]) {
      SpliceInclude(fs, file, depth);
    } else {
      SplicePlain(fs, file, depth);
    }
    if i > 0 {
      assert Later(file).lines[i - 1] == file.lines[i];
      UnopenedFails(fs, Later(file), i - 1, depth);
    }
  }
}
