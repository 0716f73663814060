/** The shell's line buffer: the redirection is cut off and the words are split in place, by
    writing NUL characters; `argv` points into the buffer. */
module Shell {
  import opened CommandLine
  import opened Text
  import opened Wrappers

  const NUL: char := '\0'
  const ARGC_SIZE := 30

  // ----- strings in a buffer -----

  /** The C string that starts at position i. */
  function StringAt(s: seq<char>, i: nat): string
    decreases |s| - i
  {
    if i >= |s| || s[i] == NUL then "" else [s[i]] + StringAt(s, i + 1)
  }

  /** The string at position i ends inside the buffer. */
  predicate Ends(s: seq<char>, i: nat) {
    i + |StringAt(s, i)| < |s|
  }

  /** The string that starts at i is the next n characters. */
  lemma {:induction false} StringIs(s: seq<char>, i: nat, n: nat)
    requires i + n < |s| && s[i + n] == NUL && forall k :: i <= k < i + n ==> s[k] != NUL
    ensures StringAt(s, i) == s[i..i + n]
    decreases n
  {
    if n > 0 {
      StringIs(s, i + 1, n - 1);
    }
  }

  lemma {:induction false} StringShape(s: seq<char>, i: nat)
    requires Ends(s, i)
    ensures StringAt(s, i) == s[i..i + |StringAt(s, i)|] && s[i + |StringAt(s, i)|] == NUL
    ensures forall k :: i <= k < i + |StringAt(s, i)| ==> s[k] != NUL
    decreases |s| - i
  {
    if s[i] != NUL {
      StringShape(s, i + 1);
    }
  }

  /** Only the characters of a string and its end matter. */
  lemma {:induction false} StringSame(s: seq<char>, s': seq<char>, i: nat)
    requires |s| == |s'| && Ends(s, i) && forall k :: i <= k <= i + |StringAt(s, i)| ==> s[k] == s'[k]
    ensures StringAt(s', i) == StringAt(s, i)
    decreases |s| - i
  {
    if s[i] != NUL {
      StringSame(s, s', i + 1);
    }
  }

  lemma SpaceSkipped(s: seq<char>, i: nat)
    requires Ends(s, i)
    ensures IsSpace(s[i]) ==> Ends(s, i + 1) && SkipSpace(StringAt(s, i)) == SkipSpace(StringAt(s, i + 1))
    ensures !IsSpace(s[i]) ==> SkipSpace(StringAt(s, i)) == StringAt(s, i)
  {
    if IsSpace(s[i]) {
      assert StringAt(s, i)[1..] == StringAt(s, i + 1);
    }
  }

  /** Writing NUL at p cuts the string there; what starts at q, further on, is still to be read. */
  lemma CutAt(s: seq<char>, s': seq<char>, p: nat, q: nat)
    requires Ends(s, 0) && p < q <= |StringAt(s, 0)| && |s'| == |s|
    requires s'[p] == NUL && (forall k :: 0 <= k < p ==> s'[k] == s[k]) && forall k :: q <= k < |s| ==> s'[k] == s[k]
    ensures Ends(s', 0) && StringAt(s', 0) == StringAt(s, 0)[..p]
    ensures Ends(s', q) && StringAt(s', q) == StringAt(s, 0)[q..]
  {
    var n := |StringAt(s, 0)|;
    StringShape(s, 0);
    StringIs(s', 0, p);
    StringIs(s', q, n - q);
  }

  lemma BlankSkipped(s: seq<char>, i: nat)
    requires Ends(s, i) && s[i] == ' '
    ensures Ends(s, i + 1) && |StringAt(s, i)| == 1 + |StringAt(s, i + 1)| && Words(StringAt(s, i)) == Words(StringAt(s, i + 1))
  {
    assert StringAt(s, i)[1..] == StringAt(s, i + 1);
  }

  /** The first word of the string at p ends at e. */
  lemma WordEnds(s: seq<char>, p: nat, e: nat)
    requires Ends(s, p) && p < e <= p + |StringAt(s, p)| && (s[e] == ' ' || s[e] == NUL)
    requires forall k :: p <= k < e ==> s[k] != ' ' && s[k] != NUL
    ensures Ends(s, e) && e + |StringAt(s, e)| == p + |StringAt(s, p)|
    ensures Words(StringAt(s, p)) == [s[p..e]] + Words(StringAt(s, e))
  {
    var t := StringAt(s, p);
    StringShape(s, p);
    StringIs(s, e, p + |t| - e);
    WordLengthIs(t, e - p);
    assert t[..e - p] == s[p..e] && t[e - p..] == StringAt(s, e);
  }

  /** Ending the word at e, where a blank was. */
  lemma WordCut(s: seq<char>, s': seq<char>, p: nat, e: nat)
    requires Ends(s, e) && p < e && s[e] == ' ' && s' == s[e := NUL]
    requires forall k :: p <= k < e ==> s[k] != NUL
    ensures Ends(s', p) && StringAt(s', p) == s[p..e]
    ensures Ends(s', e + 1) && Words(StringAt(s', e + 1)) == Words(StringAt(s, e))
    ensures |StringAt(s, e)| == 1 + |StringAt(s', e + 1)|
  {
    BlankSkipped(s, e);
    StringIs(s', p, e - p);
    StringSame(s, s', e + 1);
  }

  // ----- the globals -----

  datatype Arg = Null | InLine(pos: nat) | Literal(text: string)

  /** What an argument says. */
  function ArgText(line: seq<char>, a: Arg): Option<string> {
    match a
    case Null => None
    case InLine(pos) => Some(StringAt(line, pos))
    case Literal(t) => Some(t)
  }

  /** The argument vector, up to its NULL, holds these words. */
  predicate Holds(line: seq<char>, argv: seq<Arg>, words: seq<string>) {
    && |words| < |argv| && argv[|words|] == Null
    && forall k :: 0 <= k < |words| ==> ArgText(line, argv[k]) == Some(words[k])
  }

  class Shell {
    const commandline: array<char>
    const argv: array<Arg>
    var rdir: Option<Kind>
    var rdirfilename: nat
    /** where `strtok` goes on */
    var save: nat

    constructor (lineSize: nat)
      ensures fresh(commandline) && fresh(argv)
      ensures commandline.Length == lineSize && argv.Length == ARGC_SIZE && rdir == None
    {
      commandline := new char[lineSize](_ => NUL);
      argv := new Arg[ARGC_SIZE](_ => Null);
      rdir, rdirfilename, save := None, 0, 0;
    }

    /** The redirection as the globals have it. */
    function Redirected(): Option<Redirection>
      reads this, commandline
    {
      if rdir.None? then None else Some(Redirection(rdir.value, StringAt(commandline[..], rdirfilename)))
    }

    /** `while (isspace(*pos)) pos++;` */
    method PassSpace(start: nat) returns (pos: nat)
      requires Ends(commandline[..], start)
      ensures start <= pos < commandline.Length
      ensures Ends(commandline[..], pos) && StringAt(commandline[..], pos) == SkipSpace(StringAt(commandline[..], start))
    {
      ghost var s := commandline[..];
      pos := start;
      SpaceSkipped(s, pos);
      while IsSpace(commandline[pos])
        invariant start <= pos < |s| == commandline.Length && Ends(s, pos)
        invariant SkipSpace(StringAt(s, pos)) == SkipSpace(StringAt(s, start))
        decreases |s| - pos
      {
        SpaceSkipped(s, pos);
        pos := pos + 1;
      }
      SpaceSkipped(s, pos);
    }

    /** Notes the file name that starts after the white space at pos, and the kind. */
    method NoteFile(pos: nat, kind: Kind)
      requires Ends(commandline[..], pos)
      modifies `rdir, `rdirfilename
      ensures Redirected() == Some(Redirection(kind, SkipSpace(StringAt(commandline[..], pos))))
      ensures Ends(commandline[..], rdirfilename) && rdirfilename >= pos
    {
      rdirfilename := PassSpace(pos);
      rdir := Some(kind);
    }

    /** Finds the first arrow, ends the command there and notes kind and file name. */
    method CheckRedir()
      requires Ends(commandline[..], 0) && rdir == None
      modifies `rdir, `rdirfilename, commandline
      ensures Read(commandline[..], Redirected(), StringAt(old(commandline[..]), 0))
      ensures rdir.Some? ==> Ends(commandline[..], rdirfilename) && rdirfilename > |StringAt(commandline[..], 0)|
    {
      ghost var s := commandline[..];
      var pos := 0;
      StringShape(s, 0);
      while commandline[pos] != NUL
        invariant 0 <= pos <= |StringAt(s, 0)| < |s| && commandline[..] == s && rdir == None
        invariant forall k :: 0 <= k < pos ==> !IsArrow(s[k])
        decreases |s| - pos
      {
        ghost var p := pos;
        if commandline[pos] == '>' {
          commandline[pos] := NUL;
          pos := pos + 1;
          if commandline[pos] == '>' {
            commandline[pos] := NUL;
            pos := pos + 1;
            ArrowRead(s, commandline[..], p, pos, Append);
            NoteFile(pos, Append);
          } else {
            ArrowRead(s, commandline[..], p, pos, Output);
            NoteFile(pos, Output);
          }
          return;
        } else if commandline[pos] == '<' {
          commandline[pos] := NUL;
          pos := pos + 1;
          ArrowRead(s, commandline[..], p, pos, Input);
          NoteFile(pos, Input);
          return;
        }
        pos := pos + 1;
      }
      ReadAll(s);
    }

    /** `strspn`: the first character from p on that is not a blank. */
    method SkipBlanks(start: nat) returns (p: nat)
      requires Ends(commandline[..], start)
      ensures start <= p && Ends(commandline[..], p) && commandline[p] != ' '
      ensures var s := commandline[..];
              p + |StringAt(s, p)| == start + |StringAt(s, start)| && Words(StringAt(s, p)) == Words(StringAt(s, start))
    {
      p := start;
      while commandline[p] == ' '
        invariant start <= p && Ends(commandline[..], p)
        invariant p + |StringAt(commandline[..], p)| == start + |StringAt(commandline[..], start)|
        invariant Words(StringAt(commandline[..], p)) == Words(StringAt(commandline[..], start))
        decreases commandline.Length - p
      {
        BlankSkipped(commandline[..], p);
        p := p + 1;
      }
    }

    /** `strcspn`: where the word that starts at p ends. */
    method WordEnd(p: nat) returns (e: nat)
      requires Ends(commandline[..], p) && commandline[p] != ' ' && commandline[p] != NUL
      ensures p < e < commandline.Length && (commandline[e] == ' ' || commandline[e] == NUL)
      ensures forall k :: p <= k < e ==> commandline[k] != NUL
      ensures var s := commandline[..];
              && Ends(s, e) && e + |StringAt(s, e)| == p + |StringAt(s, p)|
              && Words(StringAt(s, p)) == [s[p..e]] + Words(StringAt(s, e))
    {
      ghost var s := commandline[..];
      StringShape(s, p);
      e := p;
      while commandline[e] != ' ' && commandline[e] != NUL
        invariant p <= e <= p + |StringAt(s, p)| < |s|
        invariant forall k :: p <= k < e ==> s[k] != ' ' && s[k] != NUL
        decreases |s| - e
      {
        e := e + 1;
      }
      WordEnds(s, p, e);
    }

    /** `strtok(start, " ")`, or `strtok(NULL, " ")` when there is no start. */
    method Strtok(start: Option<nat>) returns (token: Arg)
      requires Ends(commandline[..], if start.Some? then start.value else save)
      modifies `save, commandline
      ensures var from := if start.Some? then start.value else old(save);
              var s := old(commandline[..]);
              && from <= save && save + |StringAt(commandline[..], save)| <= from + |StringAt(s, from)|
              && Taken(commandline[..], token, save, Words(StringAt(s, from)))
              && Untouched(s, commandline[..], from, from + |StringAt(s, from)|)
    {
      ghost var s := commandline[..];
      var p := if start.Some? then start.value else save;
      p := SkipBlanks(p);
      if commandline[p] == NUL {
        save := p;
        return Null;
      }
      var e := WordEnd(p);
      if commandline[e] == NUL {
        save := e;
        StringIs(s, p, e - p);
      } else {
        commandline[e] := NUL;
        save := e + 1;
        WordCut(s, commandline[..], p, e);
      }
      token := InLine(p);
    }

    /** `_argv[i] = strtok(start, " ")`. */
    method SplitOne(start: Option<nat>, i: nat, ghost s: seq<char>, ghost words: seq<string>, ghost j: nat)
      returns (ghost j': nat)
      requires |words| < argv.Length && j <= i < argv.Length && (j < |words| ==> i == j)
      requires start == None || start == Some(0)
      requires Progress(s, commandline[..], argv[..], if start.Some? then 0 else save, words, j)
      modifies `save, commandline, argv
      ensures Progress(s, commandline[..], argv[..], save, words, j')
      ensures j' == if j == |words| then j else j + 1
      ensures argv[i] == Null <==> j == |words|
      ensures forall k :: 0 <= k < argv.Length && k != i ==> argv[k] == old(argv[k])
    {
      ghost var before, from := commandline[..], if start.Some? then 0 else save;
      var token := Strtok(start);
      SplitNext(before, commandline[..], argv[..], i, from, save, token, words, j);
      UntouchedOn(s, before, commandline[..], |StringAt(s, 0)|, from, from + |StringAt(before, from)|);
      argv[i] := token;
      j' := if token == Null then j else j + 1;
    }

    /** Splits the buffer into words. For a blank line the loop runs once too often: the result
        is 1 although there is no word. */
    method SplitString() returns (argc: nat)
      requires Ends(commandline[..], 0) && argv.Length == ARGC_SIZE
      requires |Words(StringAt(commandline[..], 0))| < ARGC_SIZE
      modifies `save, commandline, argv
      ensures var s := old(commandline[..]);
              var words := Words(StringAt(s, 0));
              && argc == (if words == [] then 1 else |words|)
              && Holds(commandline[..], argv[..], words)
              && Untouched(s, commandline[..], 0, |StringAt(s, 0)|)
    {
      ghost var s := commandline[..];
      ghost var words := Words(StringAt(s, 0));
      var i := 0;
      ghost var j := SplitOne(Some(0), i, s, words, 0);
      i := i + 1;
      var more := true;
      while more
        invariant i == (if j == 0 then 1 else j) + (if more then 0 else 1)
        invariant j == 0 ==> words == [] && argv[0] == Null
        invariant !more ==> j == |words| && argv[j] == Null
        invariant Progress(s, commandline[..], argv[..], save, words, j)
        decreases |words| + 2 - i, more
      {
        ghost var k := j;
        j := SplitOne(None, i, s, words, j);
        more := argv[i] != Null;
        i := i + 1;
      }
      return i - 1;
    }

    /** `ls` gets one more argument. */
    method ColorLs(argc: nat, ghost words: seq<string>)
      requires Holds(commandline[..], argv[..], words) && argc == |words| > 0
      requires words[0] == "ls" ==> argc + 1 < argv.Length
      modifies argv
      ensures Holds(commandline[..], argv[..], if words[0] == "ls" then words + ["--color"] else words)
    {
      if ArgText(commandline[..], argv[0]) == Some("ls") {
        argv[argc] := Literal("--color");
        argv[argc + 1] := Null;
      }
    }

    /** Drops the newline and cuts off the redirection. */
    method Interact()
      requires Ends(commandline[..], 0) && StringAt(commandline[..], 0) != "" && rdir == None
      modifies `rdir, `rdirfilename, commandline
      ensures var line := StringAt(old(commandline[..]), 0);
              Read(commandline[..], Redirected(), line[..|line| - 1])
      ensures rdir.Some? ==> Ends(commandline[..], rdirfilename) && rdirfilename > |StringAt(commandline[..], 0)|
    {
      ghost var s := commandline[..];
      var n := |StringAt(commandline[..], 0)|;
      StringShape(s, 0);
      commandline[n - 1] := NUL;
      StringIs(commandline[..], 0, n - 1);
      assert StringAt(commandline[..], 0) == Chomp(StringAt(s, 0));
      CheckRedir();
    }

    /** One turn of the main loop, from the line that `fgets` has stored, newline included, to
        the arguments and the redirection. For a blank line there is nothing at `argv[0]`. */
    method ReadCommand() returns (argc: nat)
      requires Ends(commandline[..], 0) && StringAt(commandline[..], 0) != "" && argv.Length == ARGC_SIZE
      requires |WithColor(Words(Command(Chomp(StringAt(commandline[..], 0)))))| < ARGC_SIZE
      modifies this, commandline, argv
      ensures var line := Chomp(StringAt(old(commandline[..]), 0));
              var words := Words(Command(line));
              && argc == (if words == [] then 1 else |words|)
              && Holds(commandline[..], argv[..], WithColor(words))
              && Redirected() == Redirect(line)
    {
      ghost var words := Words(Command(Chomp(StringAt(commandline[..], 0))));
      rdirfilename, rdir := 0, None;
      Interact();
      ghost var s := commandline[..];
      argc := SplitString();
      if rdir.Some? {
        FileKept(s, commandline[..], |StringAt(s, 0)|, rdirfilename);
      }
      if argv[0] != Null {
        ColorLs(argc, words);
      }
    }
  }

  /** The in-place round trip: whatever words, gaps and redirection are written to the line, reading
      it gives the words, their number (1 if there is none), the null pointer behind them and,
      exactly if it is clear, the redirection. */
  method ReadBackInPlace(sh: Shell, items: seq<Spaced>, trail: nat, r: Option<Written>) returns (argc: nat)
    requires Ends(sh.commandline[..], 0) && sh.argv.Length == ARGC_SIZE
    requires StringAt(sh.commandline[..], 0) == Line(items, trail) + Tail(r) + "\n"
    requires Separated(items) && (r.Some? ==> AllSpace(r.value.pad))
    requires forall i :: 0 <= i < |items| ==> IsWord(items[i].word) && Free(items[i].word)
    requires |items| + (if items != [] && items[0].word == "ls" then 1 else 0) < ARGC_SIZE
    modifies sh, sh.commandline, sh.argv
    ensures argc == (if items == [] then 1 else |items|)
    ensures Holds(sh.commandline[..], sh.argv[..],
                  if items != [] && items[0].word == "ls" then WordsOf(items) + ["--color"] else WordsOf(items))
    ensures sh.Redirected() == Meant(r) <==> r.None? || Clear(r.value)
  {
    ReadBack(items, trail, r);
    assert Chomp(Line(items, trail) + Tail(r) + "\n") == Line(items, trail) + Tail(r);
    argc := sh.ReadCommand();
  }

  /** The line without its last character. */
  function Chomp(line: string): string
    requires line != ""
  {
    line[..|line| - 1]
  }

  function WithColor(words: seq<string>): seq<string> {
    if words != [] && words[0] == "ls" then words + ["--color"] else words
  }

  /** The file name lies behind the command, so splitting the command leaves it alone. */
  lemma FileKept(s: seq<char>, s': seq<char>, n: nat, file: nat)
    requires Untouched(s, s', 0, n) && Ends(s, file) && n <= file
    ensures StringAt(s', file) == StringAt(s, file)
  {
    StringSame(s, s', file);
  }

  /** Somewhere in `splitstring`, which was given the string at the start of s0. */
  predicate Progress(s0: seq<char>, s: seq<char>, argv: seq<Arg>, save: nat, words: seq<string>, j: nat) {
    && Split(s, argv, save, words, j)
    && Untouched(s0, s, 0, |StringAt(s0, 0)|)
    && save + |StringAt(s, save)| <= |StringAt(s0, 0)|
  }

  /** The first j words are in place, and the rest of the words is still to be taken off. */
  predicate Split(s: seq<char>, argv: seq<Arg>, save: nat, words: seq<string>, j: nat) {
    && j <= |words| && j <= |argv|
    && Ends(s, save) && Words(StringAt(s, save)) == words[j..]
    && forall k :: 0 <= k < j ==> InPlace(s, argv[k], words[k], save)
  }

  predicate InPlace(s: seq<char>, a: Arg, word: string, save: nat) {
    a.InLine? && Ends(s, a.pos) && StringAt(s, a.pos) == word && a.pos + |word| <= save
  }

  lemma UntouchedOn(s0: seq<char>, s: seq<char>, s': seq<char>, n: nat, from: nat, to: nat)
    requires Untouched(s0, s, 0, n) && Untouched(s, s', from, to) && to <= n
    ensures Untouched(s0, s', 0, n)
  {
  }

  /** One more word in its place, or none left. */
  lemma SplitNext(s: seq<char>, s': seq<char>, argv: seq<Arg>, i: nat, save: nat, save': nat, token: Arg, words: seq<string>, j: nat)
    requires Split(s, argv, save, words, j) && j <= i < |argv| && (j < |words| ==> i == j)
    requires Taken(s', token, save', words[j..]) && Untouched(s, s', save, save + |StringAt(s, save)|) && save <= save'
    ensures token == Null <==> j == |words|
    ensures Split(s', argv[i := token], save', words, if token == Null then j else j + 1)
  {
    forall k | 0 <= k < j ensures InPlace(s', argv[k], words[k], save') {
      InPlaceStays(s, s', argv[k], words[k], save, save + |StringAt(s, save)|, save');
    }
    if token == Null {
      assert words[j..] == [];
    } else {
      assert words[j..][0] == words[j] && words[j..][1..] == words[j + 1..];
    }
  }

  /** Words in place stay when the next one is cut off. */
  lemma InPlaceStays(s: seq<char>, s': seq<char>, a: Arg, word: string, from: nat, to: nat, save': nat)
    requires InPlace(s, a, word, from) && Untouched(s, s', from, to) && from <= save'
    ensures InPlace(s', a, word, save')
  {
    StringShape(s, a.pos);
    StringSame(s, s', a.pos);
  }

  /** Only characters between from and to have changed, and no NUL. */
  predicate Untouched(s: seq<char>, s': seq<char>, from: nat, to: nat) {
    && |s'| == |s|
    && forall k :: 0 <= k < |s| && (k < from || k >= to || s[k] == NUL) ==> s'[k] == s[k]
  }

  /** The line has been read: the buffer is cut to the command, and the redirection is known. */
  predicate Read(s: seq<char>, r: Option<Redirection>, line: string) {
    Ends(s, 0) && StringAt(s, 0) == Command(line) && r == Redirect(line)
  }

  /** What the line says when its first arrow is at p. */
  lemma ReadArrow(s: seq<char>, p: nat)
    requires Ends(s, 0) && p < |StringAt(s, 0)| && IsArrow(s[p]) && forall k :: 0 <= k < p ==> !IsArrow(s[k])
    ensures var line := StringAt(s, 0);
            && Command(line) == line[..p]
            && (s[p] == '<' ==> Redirect(line) == Some(Redirection(Input, SkipSpace(line[p + 1..]))))
            && (s[p] == '>' && s[p + 1] == '>' ==>
                  p + 2 <= |line| && Redirect(line) == Some(Redirection(Append, SkipSpace(line[p + 2..]))))
            && (s[p] == '>' && s[p + 1] != '>' ==> Redirect(line) == Some(Redirection(Output, SkipSpace(line[p + 1..]))))
  {
    StringShape(s, 0);
    ArrowAtIs(StringAt(s, 0), p);
  }

  /** The arrow at p, which the text after it starts at q, has been overwritten. */
  lemma ArrowRead(s: seq<char>, s': seq<char>, p: nat, q: nat, kind: Kind)
    requires Ends(s, 0) && p < |StringAt(s, 0)| && forall k :: 0 <= k < p ==> !IsArrow(s[k])
    requires || (kind == Input && s[p] == '<' && q == p + 1)
             || (kind == Append && s[p] == '>' && s[p + 1] == '>' && q == p + 2)
             || (kind == Output && s[p] == '>' && s[p + 1] != '>' && q == p + 1)
    requires |s'| == |s| && s'[p] == NUL
    requires forall k :: 0 <= k < |s| && (k < p || k >= q) ==> s'[k] == s[k]
    ensures Ends(s', q) && |StringAt(s', 0)| == p
    ensures Read(s', Some(Redirection(kind, SkipSpace(StringAt(s', q)))), StringAt(s, 0))
  {
    ReadArrow(s, p);
    CutAt(s, s', p, q);
  }

  lemma ReadAll(s: seq<char>)
    requires Ends(s, 0) && forall k :: 0 <= k < |StringAt(s, 0)| ==> !IsArrow(s[k])
    ensures Read(s, None, StringAt(s, 0))
  {
    StringShape(s, 0);
    ArrowAtIs(StringAt(s, 0), |StringAt(s, 0)|);
    assert Command(StringAt(s, 0)) == StringAt(s, 0);
  }

  /** The next of these words has been taken off: it is at `token`, and the others start at
      `save`. */
  predicate Taken(s: seq<char>, token: Arg, save: nat, words: seq<string>) {
    && Ends(s, save)
    && if words == [] then token == Null && StringAt(s, save) == ""
       else
         && token.InLine? && Ends(s, token.pos) && StringAt(s, token.pos) == words[0]
         && token.pos + |words[0]| <= save
         && Words(StringAt(s, save)) == words[1..]
  }
}
