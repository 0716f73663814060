/** Splitting an HTTP request into header lines and the rest (message shape of section 5 of
    RFC 1945). */
module HttpRequest {
  import opened Counting
  import opened Wrappers

  const SEP := "\r\n"

  predicate SepAt(s: string, p: nat) {
    p + 1 < |s| && s[p] == '\r' && s[p + 1] == '\n'
  }

  /** `find("\r\n")`. */
  function FindSep(s: string): (r: Option<nat>)
    ensures r.Some? ==> SepAt(s, r.value) && forall k :: 0 <= k < r.value ==> !SepAt(s, k)
    ensures r.None? ==> forall k :: 0 <= k < |s| ==> !SepAt(s, k)
  {
    FindSepFrom(s, 0)
  }

  function FindSepFrom(s: string, p: nat): (r: Option<nat>)
    requires p <= |s|
    ensures r.Some? ==> p <= r.value && SepAt(s, r.value) && forall k :: p <= k < r.value ==> !SepAt(s, k)
    ensures r.None? ==> forall k :: p <= k < |s| ==> !SepAt(s, k)
    decreases |s| - p
  {
    if p == |s| then None
    else if SepAt(s, p) then Some(p)
    else FindSepFrom(s, p + 1)
  }

  datatype Parsed = Parsed(headers: seq<string>, text: string)

  /** Lines up to the first empty one; the rest, the empty line included, is the text. */
  function Parse(req: string): Parsed
    decreases |req|
  {
    var pos := FindSep(req);
    if pos.None? || pos.value == 0 then Parsed([], req)
    else
      var p := Parse(req[pos.value + |SEP|..]);
      Parsed([req[..pos.value]] + p.headers, p.text)
  }

  class HttpRequest {
    var req_header: seq<string>
    var text: string

    constructor ()
      ensures req_header == [] && text == ""
    {
      req_header, text := [], "";
    }

    method Deserialize(request: string)
      modifies this
      ensures Parsed(req_header, text) == Parsed(old(req_header) + Parse(request).headers, Parse(request).text)
    {
      var req := request;
      while true
        invariant req_header + Parse(req).headers == old(req_header) + Parse(request).headers
        invariant Parse(req).text == Parse(request).text
        decreases |req|
      {
        var pos := FindSep(req);
        if pos.None? {
          break;
        }
        var temp := req[..pos.value];
        if |temp| == 0 {
          break;
        }
        ghost var p := Parse(req[pos.value + |SEP|..]);
        assert req_header + ([temp] + p.headers) == (req_header + [temp]) + p.headers;
        req_header := req_header + [temp];
        req := req[pos.value + |SEP|..];
      }
      text := req;
      assert req_header + [] == req_header;
    }
  }

  // ----- what the result means -----

  /** The lines, each with its line end. */
  function Join(lines: seq<string>): string {
    if lines == [] then "" else lines[0] + "\r\n" + Join(lines[1..])
  }

  /** A line has at least one character and no line end. */
  predicate IsLine(s: string) {
    s != "" && forall k :: 0 <= k < |s| - 1 ==> !(s[k] == '\r' && s[k + 1] == '\n')
  }

  /** Where the header lines end: at an empty line, or where no complete line is left. */
  predicate IsText(s: string) {
    || (|s| >= 2 && s[0] == '\r' && s[1] == '\n')
    || forall k :: 0 <= k < |s| - 1 ==> !(s[k] == '\r' && s[k + 1] == '\n')
  }

  lemma LineFirst(line: string, rest: string)
    requires IsLine(line)
    ensures FindSep(line + SEP + rest) == Some(|line|)
  {
    var s := line + SEP + rest;
    assert SepAt(s, |line|);
    forall k | 0 <= k < |line| ensures !SepAt(s, k) {
      assert s[k] == line[k] && (k + 1 < |line| ==> s[k + 1] == line[k + 1]);
      assert !SepAt(line, k);
    }
  }

  /** Parsing takes lines off the front. */
  lemma {:induction false} ParseLines(lines: seq<string>, text: string)
    requires (forall i :: 0 <= i < |lines| ==> IsLine(lines[i])) && IsText(text)
    ensures Parse(Join(lines) + text) == Parsed(lines, text)
    decreases |lines|
  {
    if lines == [] {
      assert Join(lines) + text == text;
    } else {
      var rest := Join(lines[1..]) + text;
      JoinCons(lines[0], lines[1..], text);
      assert [lines[0]] + lines[1..] == lines;
      ParseLines(lines[1..], text);
      ParseStep(lines[0], rest);
    }
  }

  lemma ParseStep(line: string, rest: string)
    requires IsLine(line)
    ensures Parse(line + SEP + rest) == Parsed([line] + Parse(rest).headers, Parse(rest).text)
  {
    LineFirst(line, rest);
    Parts(line, rest);
  }

  lemma Parts(line: string, rest: string)
    ensures (line + SEP + rest)[..|line|] == line && (line + SEP + rest)[|line| + 2..] == rest
  {
  }

  lemma JoinCons(line: string, lines: seq<string>, text: string)
    ensures Join([line] + lines) + text == line + SEP + (Join(lines) + text)
  {
    assert ([line] + lines)[1..] == lines;
    Assoc(line + SEP, Join(lines), text);
  }

  lemma NoEnd(s: string)
    requires forall k :: 0 <= k < |s| ==> !SepAt(s, k)
    ensures IsText(s) && (s != "" ==> IsLine(s))
  {
    forall k | 0 <= k < |s| - 1 ensures !(s[k] == '\r' && s[k + 1] == '\n') {
      assert !SepAt(s, k);
    }
  }

  lemma CutLine(req: string, pos: nat)
    requires FindSep(req) == Some(pos) && pos > 0
    ensures IsLine(req[..pos]) && req == req[..pos] + SEP + req[pos + 2..]
  {
    var line := req[..pos];
    forall k | 0 <= k < |line| ensures !SepAt(line, k) {
      assert !SepAt(req, k);
    }
    NoEnd(line);
  }

  /** These lines, each with its line end, and then this text are the request. */
  predicate Divided(req: string, p: Parsed) {
    && req == Join(p.headers) + p.text
    && (forall i :: 0 <= i < |p.headers| ==> IsLine(p.headers[i]))
    && IsText(p.text)
  }

  lemma DividedCons(line: string, rest: string, p: Parsed)
    requires IsLine(line) && Divided(rest, p)
    ensures Divided(line + SEP + rest, Parsed([line] + p.headers, p.text))
  {
    JoinCons(line, p.headers, p.text);
  }

  /** Nothing is lost and nothing is made up: for every request, the header lines with their line
      ends and then the text are the request again. */
  lemma {:induction false} Rebuild(req: string)
    ensures Divided(req, Parse(req))
    decreases |req|
  {
    var pos := FindSep(req);
    if pos.None? || pos.value == 0 {
      if pos.None? {
        NoEnd(req);
      }
      assert "" + req == req;
    } else {
      CutLine(req, pos.value);
      Rebuild(req[pos.value + 2..]);
      DividedCons(req[..pos.value], req[pos.value + 2..], Parse(req[pos.value + 2..]));
    }
  }

  /** The result is the only division of the request into lines and a text. */
  lemma ParseIff(req: string, p: Parsed)
    ensures Parse(req) == p <==> Divided(req, p)
  {
    Rebuild(req);
    if Divided(req, p) {
      ParseLines(p.headers, p.text);
    }
  }

  /** A complete request: header lines, an empty line, a body. The text keeps the empty line's
      end in front of the body. */
  lemma WholeRequest(lines: seq<string>, body: string)
    requires forall i :: 0 <= i < |lines| ==> IsLine(lines[i])
    ensures Parse(Join(lines) + "\r\n" + body) == Parsed(lines, "\r\n" + body)
  {
    assert SepAt(SEP + body, 0);
    assert Join(lines) + SEP + body == Join(lines) + (SEP + body);
    ParseLines(lines, SEP + body);
  }
}
