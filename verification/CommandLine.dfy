/** What a command line means: the words of the command and an optional redirection. */
module CommandLine {
  import opened Text
  import opened Wrappers

  datatype Kind = Input | Output | Append

  datatype Redirection = Redirection(kind: Kind, file: string)

  predicate IsArrow(c: char) {
    c == '<' || c == '>'
  }

  /** Where the first `<` or `>` is, or the length. */
  function ArrowAt(s: string): (p: nat)
    ensures p <= |s| && (p < |s| ==> s[p] == '<' || s[p] == '>')
    ensures forall k :: 0 <= k < p ==> s[k] != '<' && s[k] != '>'
  {
    if s == "" || IsArrow(s[0]) then 0 else 1 + ArrowAt(s[1..])
  }

  /** The part of the line before any redirection. */
  function Command(line: string): string {
    line[..ArrowAt(line)]
  }

  /** The redirection that the first arrow of the line starts. */
  function Redirect(line: string): Option<Redirection> {
    var p := ArrowAt(line);
    if p == |line| then None
    else if line[p] == '<' then Some(Redirection(Input, SkipSpace(line[p + 1..])))
    else if p + 1 < |line| && line[p + 1] == '>' then Some(Redirection(Append, SkipSpace(line[p + 2..])))
    else Some(Redirection(Output, SkipSpace(line[p + 1..])))
  }

  predicate IsWord(w: string) {
    w != "" && ' ' !in w
  }

  /** How many characters there are before the first blank. */
  function WordLength(s: string): (n: nat)
    ensures n <= |s| && (n < |s| ==> s[n] == ' ')
    ensures forall k :: 0 <= k < n ==> s[k] != ' '
  {
    if s == "" || s[0] == ' ' then 0 else 1 + WordLength(s[1..])
  }

  /** The words of a command, which are separated by any number of blanks. */
  function Words(s: string): (ws: seq<string>)
    ensures forall i :: 0 <= i < |ws| ==> IsWord(ws[i])
    decreases |s|
  {
    if s == "" then []
    else if s[0] == ' ' then Words(s[1..])
    else
      var n := WordLength(s);
      [s[..n]] + Words(s[n..])
  }

  // ----- writing a line and reading it back -----

  /** A word with the blanks in front of it. */
  datatype Spaced = Spaced(gap: nat, word: string)

  function Gap(n: nat): (s: string)
    ensures |s| == n && forall i :: 0 <= i < n ==> s[i] == ' '
  {
    seq(n, i => ' ')
  }

  /** The words with their gaps, and trailing blanks. */
  function Line(items: seq<Spaced>, trail: nat): string
  {
    if items == [] then Gap(trail)
    else Gap(items[0].gap) + items[0].word + Line(items[1..], trail)
  }

  /** Only the first word may go without a blank in front. */
  predicate Separated(items: seq<Spaced>) {
    forall i :: 0 < i < |items| ==> items[i].gap > 0
  }

  function WordsOf(items: seq<Spaced>): (ws: seq<string>)
    ensures |ws| == |items| && forall i :: 0 <= i < |items| ==> ws[i] == items[i].word
  {
    seq(|items|, i requires 0 <= i < |items| => items[i].word)
  }

  predicate Free(s: string) {
    forall i :: 0 <= i < |s| ==> s[i] != '<' && s[i] != '>'
  }

  /** A redirection as it is written: the arrow, some white space, the file name. */
  datatype Written = Written(r: Redirection, pad: string)

  function Arrow(k: Kind): string {
    match k
    case Input => "<"
    case Output => ">"
    case Append => ">>"
  }

  function Tail(r: Option<Written>): string {
    match r
    case None => ""
    case Some(w) => Arrow(w.r.kind) + w.pad + w.r.file
  }

  function Meant(r: Option<Written>): Option<Redirection> {
    if r.None? then None else Some(r.value.r)
  }

  /** The file name does not start with white space, and `>` is not followed by another one. */
  predicate Clear(w: Written) {
    && (w.r.file != "" ==> !AllSpace(w.r.file[..1]))
    && (w.r.kind.Output? && w.pad == "" && w.r.file != "" ==> w.r.file[0] != '>')
  }

  /** White space: blanks, and the characters with the codes 9 to 13. */
  predicate AllSpace(s: string) {
    forall i :: 0 <= i < |s| ==> s[i] == ' ' || 9 <= s[i] as int <= 13
  }

  lemma WordsOfGap(n: nat, s: string)
    ensures Words(Gap(n) + s) == Words(s)
    decreases n
  {
    if n == 0 {
      assert Gap(0) + s == s;
    } else {
      assert (Gap(n) + s)[1..] == Gap(n - 1) + s;
      WordsOfGap(n - 1, s);
    }
  }

  lemma WordLengthIs(s: string, n: nat)
    requires n <= |s| && (n < |s| ==> s[n] == ' ') && forall k :: 0 <= k < n ==> s[k] != ' '
    ensures WordLength(s) == n
  {
  }

  lemma FirstWord(w: string, s: string)
    requires IsWord(w) && (s == "" || s[0] == ' ')
    ensures Words(w + s) == [w] + Words(s)
  {
    assert (w + s)[..|w|] == w && (w + s)[|w|..] == s;
    WordLengthIs(w + s, |w|);
  }

  lemma LineStart(items: seq<Spaced>, trail: nat)
    requires items != [] ==> items[0].gap > 0
    ensures var s := Line(items, trail); s == "" || s[0] == ' '
  {
  }

  /** The words of a command line come back exactly, however many blanks there are around them. */
  lemma {:induction false} WordsOfLine(items: seq<Spaced>, trail: nat)
    requires Separated(items) && forall i :: 0 <= i < |items| ==> IsWord(items[i].word)
    ensures Words(Line(items, trail)) == WordsOf(items)
    decreases |items|
  {
    if items == [] {
      WordsOfGap(trail, "");
      assert Gap(trail) + "" == Gap(trail);
    } else {
      var later := Line(items[1..], trail);
      assert Line(items, trail) == Gap(items[0].gap) + (items[0].word + later);
      WordsOfGap(items[0].gap, items[0].word + later);
      LineStart(items[1..], trail);
      FirstWord(items[0].word, later);
      WordsOfLine(items[1..], trail);
    }
  }

  lemma {:induction false} LineFree(items: seq<Spaced>, trail: nat)
    requires forall i :: 0 <= i < |items| ==> Free(items[i].word)
    ensures Free(Line(items, trail))
    decreases |items|
  {
    if items != [] {
      LineFree(items[1..], trail);
    }
  }

  lemma ArrowAtIs(s: string, p: nat)
    requires p <= |s| && (p < |s| ==> IsArrow(s[p])) && forall k :: 0 <= k < p ==> !IsArrow(s[k])
    ensures ArrowAt(s) == p
  {
  }

  lemma BlanksOf(pad: string, file: string)
    requires AllSpace(pad)
    ensures SkipSpace(pad + file) == SkipSpace(file)
    decreases |pad|
  {
    if pad == "" {
      assert pad + file == file;
    } else {
      assert (pad + file)[1..] == pad[1..] + file;
      BlanksOf(pad[1..], file);
    }
  }

  /** The command is what was written before the arrow. */
  lemma CommandOf(cmd: string, r: Option<Written>)
    requires Free(cmd)
    ensures Command(cmd + Tail(r)) == cmd && ArrowAt(cmd + Tail(r)) == |cmd|
  {
    assert (cmd + Tail(r))[..|cmd|] == cmd;
    ArrowAtIs(cmd + Tail(r), |cmd|);
  }

  /** What is read when this follows the arrow's first character. */
  function AfterArrow(c: char, rest: string): Redirection {
    if c == '<' then Redirection(Input, SkipSpace(rest))
    else if rest != "" && rest[0] == '>' then Redirection(Append, SkipSpace(rest[1..]))
    else Redirection(Output, SkipSpace(rest))
  }

  lemma RedirectAt(line: string, p: nat)
    requires ArrowAt(line) == p < |line|
    ensures Redirect(line) == Some(AfterArrow(line[p], line[p + 1..]))
  {
    assert p + 1 < |line| ==> line[p + 2..] == line[p + 1..][1..];
  }

  /** What the line says after the arrow. */
  lemma RedirectOf(cmd: string, w: Written)
    requires Free(cmd) && AllSpace(w.pad)
    ensures Redirect(cmd + Tail(Some(w))) ==
            if w.r.kind.Output? && w.pad == "" && w.r.file != "" && w.r.file[0] == '>'
            then Some(Redirection(Append, SkipSpace(w.r.file[1..])))
            else Some(Redirection(w.r.kind, SkipSpace(w.r.file)))
  {
    CommandOf(cmd, Some(w));
    TailParts(cmd, Arrow(w.r.kind), w.pad, w.r.file);
    RedirectAt(cmd + Tail(Some(w)), |cmd|);
    AfterArrowOf(w);
  }

  lemma TailParts(cmd: string, arrow: string, pad: string, file: string)
    requires arrow != ""
    ensures var line := cmd + (arrow + pad + file);
            && |line| > |cmd| && line[|cmd|] == arrow[0]
            && line[|cmd| + 1..] == arrow[1..] + (pad + file)
  {
  }

  lemma AfterArrowOf(w: Written)
    requires AllSpace(w.pad)
    ensures AfterArrow(Arrow(w.r.kind)[0], Arrow(w.r.kind)[1..] + (w.pad + w.r.file)) ==
            if w.r.kind.Output? && w.pad == "" && w.r.file != "" && w.r.file[0] == '>'
            then Redirection(Append, SkipSpace(w.r.file[1..]))
            else Redirection(w.r.kind, SkipSpace(w.r.file))
  {
    var after := w.pad + w.r.file;
    BlanksOf(w.pad, w.r.file);
    if w.r.kind.Append? {
      assert ([">"[0]] + after)[1..] == after;
    } else {
      assert [] + after == after;
      if w.pad == "" {
        assert after == w.r.file;
      }
    }
  }

  lemma SkipSpaceKeeps(s: string)
    ensures SkipSpace(s) == s <==> s == "" || !IsSpace(s[0])
  {
  }

  /** Round trip: words, number of words and redirection come back for every command line whose
      words hold no blank and no arrow; the redirection does exactly when it is clear. */
  lemma ReadBack(items: seq<Spaced>, trail: nat, r: Option<Written>)
    requires Separated(items) && (r.Some? ==> AllSpace(r.value.pad))
    requires forall i :: 0 <= i < |items| ==> IsWord(items[i].word) && Free(items[i].word)
    ensures var line := Line(items, trail) + Tail(r);
            && Words(Command(line)) == WordsOf(items)
            && (Redirect(line) == Meant(r) <==> r.None? || Clear(r.value))
  {
    var cmd := Line(items, trail);
    LineFree(items, trail);
    CommandOf(cmd, r);
    WordsOfLine(items, trail);
    if r.Some? {
      RedirectOf(cmd, r.value);
      SkipSpaceKeeps(r.value.r.file);
    }
  }
}
