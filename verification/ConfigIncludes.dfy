/** The later reader's file includes: a stack of open files, read depth first. */
module ConfigIncludes {
  import opened Text
  import opened Entries
  import opened ConfigFile
  import opened ConfigParsing

  const MAX_INCLUDES: nat := 10

  /** A file that has been opened: its full name and the lines still to be read. */
  datatype File = File(name: string, lines: seq<string>)

  /** `lirc_open`: the name as written and the name of the including file; None when it cannot be opened. */
  type FileSystem = (string, string) -> Option<File>

  /** A line whose first word is `include`; lines with an equals sign are never includes. */
  predicate IsInclude(line: string) {
    FirstEquals(line) == |line| &&
    var tokens := Tokens(line, 0);
    tokens != [] && tokens[0][0] != '#' && SameText(tokens[0], "include")
  }

  /** `lirc_parse_include`: a pair of quotes or angle brackets is taken off. */
  function Unquoted(s: string): string {
    var n := |s|;
    if n >= 2 && ((s[0] == '"' && s[n - 1] == '"') || (s[0] == '<' && s[n - 1] == '>')) then s[1..n - 1] else s
  }

  /** What stands behind the first word and the blank after it. */
  function IncludeName(line: string): string {
    var e := TokenEnd(line, SkipBlanks(line, 0));
    if e < |line| then Unquoted(Trimmed(line[e + 1..])) else ""
  }

  /** The file behind its first line. */
  function Later(file: File): (r: File)
    requires file.lines != []
    ensures |r.lines| < |file.lines|
  {
    file.(lines := file.lines[1..])
  }

  /** One text and then the other, unless reading the first one failed. */
  function Joined(a: (seq<string>, bool), b: (seq<string>, bool)): (seq<string>, bool) {
    if a.1 then (a.0 + b.0, b.1) else a
  }

  /** The first `depth` files are open, `file` is the one being read. None: too deep or not to be opened. */
  function Splice(fs: FileSystem, file: File, depth: nat): (r: (seq<string>, bool))
    requires 1 <= depth <= MAX_INCLUDES
    decreases MAX_INCLUDES - depth, |file.lines|
  {
    if file.lines == [] then ([], true)
    else
      var line, rest := file.lines[0], Splice(fs, Later(file), depth);
      if !IsInclude(line) then ([line] + rest.0, rest.1)
      else if depth >= MAX_INCLUDES then ([], false)
      else
        var inner := fs(IncludeName(line), file.name);
        if inner.None? then ([], false) else Joined(Splice(fs, inner.value, depth + 1), rest)
  }

  /** The lines still to come from a stack of open files, the innermost first. */
  function SpliceStack(fs: FileSystem, stack: seq<File>): (r: (seq<string>, bool))
    requires |stack| <= MAX_INCLUDES
  {
    if stack == [] then ([], true)
    else
      Joined(Splice(fs, stack[|stack| - 1], |stack|), SpliceStack(fs, stack[..|stack| - 1]))
  }

  lemma NothingToSplice(fs: FileSystem, file: File, depth: nat)
    requires 1 <= depth <= MAX_INCLUDES && file.lines == []
    ensures Splice(fs, file, depth) == ([], true)
  {
  }

  lemma SplicePlain(fs: FileSystem, file: File, depth: nat)
    requires 1 <= depth <= MAX_INCLUDES && file.lines != [] && !IsInclude(file.lines[0])
    ensures
      var rest := Splice(fs, Later(file), depth);
      Splice(fs, file, depth) == ([file.lines[0]] + rest.0, rest.1)
  {
    hide IsInclude, IncludeName;
  }

  lemma SpliceInclude(fs: FileSystem, file: File, depth: nat)
    requires 1 <= depth <= MAX_INCLUDES && file.lines != [] && IsInclude(file.lines[0])
    ensures
      var inner := fs(IncludeName(file.lines[0]), file.name);
      if depth == MAX_INCLUDES || inner.None? then Splice(fs, file, depth) == ([], false)
      else Splice(fs, file, depth) == Joined(Splice(fs, inner.value, depth + 1), Splice(fs, Later(file), depth))
  {
    hide IsInclude, IncludeName;
  }

  lemma StackUnfolds(fs: FileSystem, outer: seq<File>, top: File)
    requires |outer| < MAX_INCLUDES
    ensures SpliceStack(fs, outer + [top]) == Joined(Splice(fs, top, |outer| + 1), SpliceStack(fs, outer))
  {
    hide Splice;
    assert (outer + [top])[..|outer|] == outer;
  }

  lemma JoinedAssociates(a: (seq<string>, bool), b: (seq<string>, bool), c: (seq<string>, bool))
    ensures Joined(Joined(a, b), c) == Joined(a, Joined(b, c))
  {
    Reassociate(a.0, b.0, c.0);
  }

  lemma PopDone(fs: FileSystem, outer: seq<File>, top: File)
    requires |outer| < MAX_INCLUDES && top.lines == []
    ensures SpliceStack(fs, outer + [top]) == SpliceStack(fs, outer)
  {
    hide Splice, SpliceStack;
    NothingToSplice(fs, top, |outer| + 1);
    StackUnfolds(fs, outer, top);
    assert [] + SpliceStack(fs, outer).0 == SpliceStack(fs, outer).0;
  }

  lemma PlainLine(fs: FileSystem, outer: seq<File>, top: File)
    requires |outer| < MAX_INCLUDES && top.lines != [] && !IsInclude(top.lines[0])
    ensures SpliceStack(fs, outer + [top]) == Joined(([top.lines[0]], true), SpliceStack(fs, outer + [Later(top)]))
  {
    hide Splice, SpliceStack, IsInclude, Later;
    var line, rest, below := ([top.lines[0]], true), Splice(fs, Later(top), |outer| + 1), SpliceStack(fs, outer);
    SplicePlain(fs, top, |outer| + 1);
    StackUnfolds(fs, outer, top);
    StackUnfolds(fs, outer, Later(top));
    Reassociate(line.0, rest.0, below.0);
  }

  lemma IncludeLine(fs: FileSystem, outer: seq<File>, top: File)
    requires |outer| < MAX_INCLUDES && top.lines != [] && IsInclude(top.lines[0])
    ensures
      var inner := fs(IncludeName(top.lines[0]), top.name);
      if |outer| + 1 == MAX_INCLUDES || inner.None? then SpliceStack(fs, outer + [top]) == ([], false)
      else SpliceStack(fs, outer + [top]) == SpliceStack(fs, outer + [Later(top)] + [inner.value])
  {
    hide Splice, SpliceStack, IsInclude, IncludeName, Later;
    var inner := fs(IncludeName(top.lines[0]), top.name);
    SpliceInclude(fs, top, |outer| + 1);
    StackUnfolds(fs, outer, top);
    if |outer| + 1 < MAX_INCLUDES && inner.Some? {
      StackUnfolds(fs, outer, Later(top));
      StackUnfolds(fs, outer + [Later(top)], inner.value);
      JoinedAssociates(Splice(fs, inner.value, |outer| + 2), Splice(fs, Later(top), |outer| + 1), SpliceStack(fs, outer));
    }
  }

  /** Line `i` of the file includes a file of this set. */
  predicate IncludesOne(fs: FileSystem, files: set<File>, file: File, i: nat) {
    && i < |file.lines| && IsInclude(file.lines[i])
    && var inner := fs(IncludeName(file.lines[i]), file.name);
       inner.Some? && inner.value in files
  }

  ghost predicate IncludesSome(fs: FileSystem, files: set<File>, file: File) {
    exists i :: IncludesOne(fs, files, file, i)
  }

  /** Every file of the set includes one of them: a circle, or a file that includes itself. */
  ghost predicate Circular(fs: FileSystem, files: set<File>) {
    forall file {:trigger IncludesSome(fs, files, file)} :: file in files ==> IncludesSome(fs, files, file)
  }

  /** Files that include each other are never read to their end, from whatever line and at whatever depth. */
  lemma {:induction false} CircularIncludesFail(fs: FileSystem, files: set<File>, file: File, k: nat, i: nat, depth: nat)
    requires Circular(fs, files) && file in files && k <= i && IncludesOne(fs, files, file, i)
    requires 1 <= depth <= MAX_INCLUDES
    ensures !Splice(fs, file.(lines := file.lines[k..]), depth).1
    decreases MAX_INCLUDES - depth, i - k
  {
    hide Splice, IsInclude, IncludeName;
    var here := file.(lines := file.lines[k..]);
    assert Later(here) == file.(lines := file.lines[k + 1..]);
    if IsInclude(here.lines[0]) {
      SpliceInclude(fs, here, depth);
      if k < i {
        CircularIncludesFail(fs, files, file, k + 1, i, depth);
      } else if depth < MAX_INCLUDES {
        var inner := fs(IncludeName(file.lines[i]), file.name).value;
        assert IncludesSome(fs, files, inner);
        var next: nat :| IncludesOne(fs, files, inner, next);
        assert inner.lines[0..] == inner.lines;
        CircularIncludesFail(fs, files, inner, 0, next, depth + 1);
      }
    } else {
      SplicePlain(fs, here, depth);
      CircularIncludesFail(fs, files, file, k + 1, i, depth);
    }
  }

  /** In particular a file that includes itself. */
  lemma {:induction false} SelfIncludeFails(fs: FileSystem, file: File, k: nat, i: nat, depth: nat)
    requires 1 <= depth <= MAX_INCLUDES && k <= i < |file.lines| && IsInclude(file.lines[i])
    requires fs(IncludeName(file.lines[i]), file.name) == Some(file)
    ensures !Splice(fs, file.(lines := file.lines[k..]), depth).1
  {
    hide Splice, IsInclude, IncludeName;
    assert IncludesOne(fs, {file}, file, i);
    assert IncludesSome(fs, {file}, file);
    CircularIncludesFail(fs, {file}, file, k, i, depth);
  }

  /** Files without includes are handed over as they are. */
  lemma {:induction false} NoIncludes(fs: FileSystem, file: File, depth: nat)
    requires 1 <= depth <= MAX_INCLUDES && forall i :: 0 <= i < |file.lines| ==> !IsInclude(file.lines[i])
    ensures Splice(fs, file, depth) == (file.lines, true)
    decreases |file.lines|
  {
    hide Splice, IsInclude;
    if file.lines == [] {
      NothingToSplice(fs, file, depth);
    } else {
      SplicePlain(fs, file, depth);
      NoIncludes(fs, Later(file), depth);
      assert [file.lines[0]] + file.lines[1..] == file.lines;
    }
  }

  /** No line of any file holds a terminator, and every include line names a file. */
  predicate Proper(file: File) {
    forall i :: 0 <= i < |file.lines| ==> '\0' !in file.lines[i] && (IsInclude(file.lines[i]) ==> Names(file.lines[i]))
  }

  /** There is something behind the word `include`; otherwise the source works on a null pointer. */
  predicate Names(line: string) {
    TokenEnd(line, SkipBlanks(line, 0)) + 1 < |line|
  }

  ghost predicate ProperFiles(fs: FileSystem) {
    forall name, from :: fs(name, from).Some? ==> Proper(fs(name, from).value)
  }

  /** What the parser has made of the lines so far, and then the rest, read like the whole splice. */
  predicate Continues(words: Words, whole: (seq<string>, bool), st: Reading, rest: (seq<string>, bool)) {
    && whole.1 == rest.1
    && (whole.1 ==> ReadLines(words, BEGINNING, whole.0) == ReadLines(words, st, rest.0))
  }

  lemma ContinuesPlain(words: Words, whole: (seq<string>, bool), st: Reading, line: string, rest: (seq<string>, bool))
    requires Continues(words, whole, st, Joined(([line], true), rest))
    ensures var r := LineRead(words, st, line);
      if r.Some? then Continues(words, whole, r.value, rest) else whole.1 ==> ReadLines(words, BEGINNING, whole.0).None?
  {
    hide LineRead;
    assert ([line] + rest.0)[0] == line && ([line] + rest.0)[1..] == rest.0;
  }

  lemma ContinuesToEnd(words: Words, fs: FileSystem, whole: (seq<string>, bool), st: Reading)
    requires Continues(words, whole, st, SpliceStack(fs, []))
    ensures whole.1 && ReadAll(words, whole.0) == Some(AtEnd(words, st))
  {
    hide Splice, LineRead, AtEnd;
  }

  lemma Begins(words: Words, fs: FileSystem, root: File)
    requires Proper(root)
    ensures AllProper([root])
    ensures SpliceStack(fs, [root]) == Splice(fs, root, 1)
    ensures Continues(words, Splice(fs, root, 1), BEGINNING, SpliceStack(fs, [root]))
  {
    hide Splice, ReadLines, Proper;
    assert [root] == [] + [root];
    StackUnfolds(fs, [], root);
    assert Splice(fs, root, 1).0 + [] == Splice(fs, root, 1).0;
  }

  lemma Breaks(words: Words, whole: (seq<string>, bool), st: Reading)
    requires Continues(words, whole, st, ([], false))
    ensures !whole.1
  {
  }

  predicate AllProper(stack: seq<File>) {
    forall i :: 0 <= i < |stack| ==> Proper(stack[i])
  }

  lemma AdvancedProper(outer: seq<File>, top: File)
    requires AllProper(outer + [top])
    ensures AllProper(outer)
    ensures top.lines != [] ==> AllProper(outer + [Later(top)]) && '\0' !in top.lines[0]
  {
    hide IsInclude, Names;
    var stack := outer + [top];
    assert forall i :: 0 <= i < |outer| ==> stack[i] == outer[i];
    assert Proper(stack[|outer|]);
  }

  lemma PushedProper(stack: seq<File>, inner: File)
    requires AllProper(stack) && Proper(inner)
    ensures AllProper(stack + [inner])
  {
    hide Proper;
  }

  /** Unread lines of the file at a depth, and one more while it is open. */
  function Unread(stack: seq<File>, depth: nat): (r: nat)
    ensures r == 0 <==> depth >= |stack|
  {
    if depth < |stack| then |stack[depth].lines| + 1 else 0
  }

  /** What decreases, depth by depth: less is left in the innermost file, and the outer ones are as before. */
  predicate Less(now: seq<File>, before: seq<File>, depth: nat) {
    && (forall d: nat | d < depth :: Unread(now, d) == Unread(before, d))
    && Unread(now, depth) < Unread(before, depth)
  }

  lemma UnreadDecreases(outer: seq<File>, top: File, inner: File)
    ensures Less(outer, outer + [top], |outer|)
    ensures top.lines != [] ==>
      Less(outer + [Later(top)], outer + [top], |outer|) && Less(outer + [Later(top)] + [inner], outer + [top], |outer|)
  {
  }

  /**
    The branch of `lirc_readconfig` for an include line: the file named there is put on the stack.
    The counter `open_files` is always the height of the stack.
   */
  method OpenIncluded(fs: FileSystem, outer: seq<File>, top: File) returns (pushed: Option<seq<File>>)
    requires AllProper(outer + [top]) && ProperFiles(fs)
    requires |outer| < MAX_INCLUDES && top.lines != [] && IsInclude(top.lines[0])
    ensures pushed.None? ==> SpliceStack(fs, outer + [top]) == ([], false)
    ensures pushed.Some? ==>
      && |pushed.value| <= MAX_INCLUDES && AllProper(pushed.value)
      && SpliceStack(fs, pushed.value) == SpliceStack(fs, outer + [top])
      && Less(pushed.value, outer + [top], |outer|)
  {
    hide IsInclude, IncludeName, Splice, SpliceStack, Proper, AllProper, Later, Unread;
    IncludeLine(fs, outer, top);
    if |outer| + 1 >= MAX_INCLUDES {
      return None;
    }
    var inner := fs(IncludeName(top.lines[0]), top.name);
    if inner.None? {
      return None;
    }
    AdvancedProper(outer, top);
    PushedProper(outer + [Later(top)], inner.value);
    UnreadDecreases(outer, top, inner.value);
    return Some(outer + [Later(top)] + [inner.value]);
  }

  /** One turn of the loop of `lirc_readconfig`: a file is closed, another one opened, or a line parsed. */
  method Turn(words: Words, fs: FileSystem, parser: Parser, stack: seq<File>, ghost whole: (seq<string>, bool))
    returns (next: Option<seq<File>>)
    requires 0 < |stack| <= MAX_INCLUDES && AllProper(stack) && ProperFiles(fs)
    requires parser.Valid() && parser.words == words && Continues(words, whole, parser.State(), SpliceStack(fs, stack))
    modifies parser, parser.newEntry
    ensures parser.Valid()
    ensures parser.newEntry == null || parser.newEntry == old(parser.newEntry) || fresh(parser.newEntry)
    ensures next.None? ==> whole.1 ==> ReadLines(words, BEGINNING, whole.0).None?
    ensures next.Some? ==>
      && |next.value| <= MAX_INCLUDES && AllProper(next.value) && Less(next.value, stack, |stack| - 1)
      && Continues(words, whole, parser.State(), SpliceStack(fs, next.value))
  {
    hide IsInclude, Splice, SpliceStack, LineRead, IncludeName, Names, Proper, AllProper, Continues, Joined, Later,
      ReadLines, Unread, Parser.Valid, Less;
    var n := |stack| - 1;
    var outer, top := stack[..n], stack[n];
    assert stack == outer + [top];
    AdvancedProper(outer, top);
    UnreadDecreases(outer, top, top);
    if top.lines == [] {
      PopDone(fs, outer, top);
      return Some(outer);
    }
    var line := top.lines[0];
    if IsInclude(line) {
      next := OpenIncluded(fs, outer, top);
      if next.None? {
        Breaks(words, whole, parser.State());
      }
    } else {
      PlainLine(fs, outer, top);
      ContinuesPlain(words, whole, parser.State(), line, SpliceStack(fs, outer + [Later(top)]));
      var ok := parser.ReadLine(line);
      next := if ok then Some(outer + [Later(top)]) else None;
    }
  }

  /**
    `lirc_readconfig` of the later revision: the parser gets the depth-first splice of the
    included files, at most ten files are open, and reading ends even when files include
    themselves, because the unread lines decrease depth by depth.
   */
  method ReadConfig7(words: Words, fs: FileSystem, root: File)
    returns (result: Option<seq<Entry>>)
    requires Proper(root) && ProperFiles(fs)
    ensures var (lines, ok) := Splice(fs, root, 1);
      && (result.Some? <==> (ok && ReadAll(words, lines).Some?))
      && (result.Some? ==> Mirrors(result.value, ReadAll(words, lines).value))
  {
    hide IsInclude, Splice, SpliceStack, LineRead, IncludeName, Names, Proper, AllProper, Continues, Joined, Later, AtEnd,
      ReadLines, Unread, Mirrors, Parser.Valid;
    var parser := new Parser(words);
    var stack := [root];
    ghost var whole := Splice(fs, root, 1);
    Begins(words, fs, root);
    while stack != []
      invariant |stack| <= MAX_INCLUDES && AllProper(stack)
      invariant parser.Valid() && fresh(parser) && parser.words == words
      invariant parser.newEntry != null ==> fresh(parser.newEntry)
      invariant Continues(words, whole, parser.State(), SpliceStack(fs, stack))
      decreases Unread(stack, 0), Unread(stack, 1), Unread(stack, 2), Unread(stack, 3), Unread(stack, 4),
                Unread(stack, 5), Unread(stack, 6), Unread(stack, 7), Unread(stack, 8), Unread(stack, 9)
    {
      var next := Turn(words, fs, parser, stack, whole);
      if next.None? {
        return None;
      }
      stack := next.value;
    }
    ContinuesToEnd(words, fs, whole, parser.State());
    parser.Close();
    parser.EntriesHold();
    return Some(parser.entries);
  }
}
