/** Length-prefixed frames on a byte stream. */
module Framing {
  import opened Counting
  import opened Text
  import opened Wrappers

  const SEP: char := '\n'
  const SIZE_T: int := 0x1_0000_0000_0000_0000

  /** Decimal length, separator, content, separator. */
  function Encode(content: string): (package: string)
  {
    ToString(|content|) + [SEP] + content + [SEP]
  }

  /** What `Decode` does to the front of the stream: nothing yet, throw from `stoi`, or take a
      frame off. */
  datatype Decoded = Incomplete | Throws | Frame(content: string, rest: string)

  /** The whole frame's length as `size_t` arithmetic computes it: the parsed int becomes a
      64-bit unsigned length and the sum wraps around. */
  function TotalLength(pos: nat, n: int): (total: nat) {
    (pos + n % SIZE_T + 2) % SIZE_T
  }

  /** `substr(pos + 1, len)`, which stops at the end of the string. */
  function Body(package: string, pos: nat, n: int): string
    requires pos < |package|
  {
    var len := n % SIZE_T;
    package[pos + 1..if pos + 1 + len < |package| then pos + 1 + len else |package|]
  }

  function Decode(package: string): (r: Decoded)
    ensures r.Frame? ==> |r.rest| <= |package|
  {
    match Find(package, SEP)
    case None => Incomplete
    case Some(pos) =>
      match Stoi(package[..pos])
      case NoDigits => Throws
      case OutOfRange => Throws
      case Number(n) =>
        if |package| < TotalLength(pos, n) then Incomplete
        else Frame(Body(package, pos, n), package[TotalLength(pos, n)..])
  }

  /** The stream object: `Decode` erases the frame it returns from the front in place. */
  class Stream {
    var package: string

    constructor (package: string)
      ensures this.package == package
    {
      this.package := package;
    }

    /** `ok` as in the source; `threw` when `stoi` throws, with the stream untouched. */
    method TakeFrame() returns (ok: bool, threw: bool, content: string)
      modifies this
      ensures ok <==> Decode(old(package)).Frame?
      ensures threw <==> Decode(old(package)).Throws?
      ensures ok ==> Decode(old(package)) == Frame(content, package)
      ensures !ok ==> package == old(package)
    {
      ok, threw, content := false, false, "";
      var found := Find(package, SEP);
      if found.None? {
        return;
      }
      var pos := found.value;
      var lenStr := package[..pos];
      var parsed := Stoi(lenStr);
      if !parsed.Number? {
        threw := true;
        return;
      }
      var total := TotalLength(|lenStr|, parsed.n);
      if |package| < total {
        return;
      }
      content := Body(package, pos, parsed.n);
      package := package[total..];
      ok := true;
    }
  }

  // ----- one frame -----

  lemma HeaderHasNoSep(n: nat)
    ensures SEP !in ToString(n)
  {
  }

  /** With a sensible length in the header nothing wraps. */
  lemma DecodeAt(package: string, pos: nat, n: nat)
    requires pos < |package| && package[pos] == SEP && SEP !in package[..pos]
    requires Stoi(package[..pos]) == Number(n) && pos + n + 2 < SIZE_T
    ensures Decode(package) ==
            if |package| < pos + n + 2 then Incomplete
            else Frame(package[pos + 1..pos + 1 + n], package[pos + n + 2..])
  {
    FindIs(package, SEP, pos);
    NoWrap(pos, n);
    if |package| >= pos + n + 2 {
      assert Body(package, pos, n) == package[pos + 1..pos + 1 + n];
    }
  }

  lemma NoWrap(pos: nat, n: nat)
    requires pos + n + 2 < SIZE_T
    ensures n % SIZE_T == n && TotalLength(pos, n) == pos + n + 2
  {
  }

  lemma HeaderLength(m: string)
    requires |m| <= INT_MAX
    ensures |Encode(m)| == |ToString(|m|)| + |m| + 2 < SIZE_T
  {
    ToStringLength(|m|);
  }

  /** Where header, content and rest lie in the text. */
  lemma EncodeParts(m: string, rest: string)
    ensures var h, package := ToString(|m|), Encode(m) + rest;
            && |package| == |h| + |m| + 2 + |rest|
            && package[..|h|] == h && package[|h|] == SEP
            && package[|h| + 1..|h| + 1 + |m|] == m
            && package[|h| + |m| + 2..] == rest
  {
  }

  /** A frame can be taken off again exactly when its length fits an int; a longer content makes
      the reader throw. What follows the frame stays. */
  lemma DecodeEncode(m: string, rest: string)
    ensures Decode(Encode(m) + rest) == if |m| <= INT_MAX then Frame(m, rest) else Throws
  {
    var h := ToString(|m|);
    var package := Encode(m) + rest;
    EncodeParts(m, rest);
    HeaderHasNoSep(|m|);
    StoiToString(|m|);
    if |m| <= INT_MAX {
      ToStringLength(|m|);
      DecodeAt(package, |h|, |m|);
    } else {
      FindIs(package, SEP, |h|);
    }
  }

  /** A frame that has not arrived completely is left alone. */
  lemma DecodePrefix(m: string, p: string)
    requires |m| <= INT_MAX && p <= Encode(m) && p != Encode(m)
    ensures Decode(p) == Incomplete
  {
    var h := ToString(|m|);
    HeaderHasNoSep(|m|);
    if |p| <= |h| {
      assert SEP !in p;
    } else {
      assert p[..|h|] == h && p[|h|] == SEP;
      StoiToString(|m|);
      HeaderLength(m);
      DecodeAt(p, |h|, |m|);
    }
  }

  /** A call that returns true shortens the stream unless the length it reads is exactly minus
      the length of the header line and two; then the wrapped total is 0 and nothing is erased. */
  lemma DecodeShortensIff(package: string)
    requires Decode(package).Frame? && |package| < SIZE_T / 2
    ensures var pos := Find(package, SEP).value;
            |Decode(package).rest| < |package| <==> Stoi(package[..pos]) != Number(-(pos as int + 2))
  {
    var pos := Find(package, SEP).value;
    TotalIsZeroIff(pos, Stoi(package[..pos]).n);
  }

  lemma TotalIsZeroIff(pos: nat, n: int)
    requires IsInt(n) && pos < SIZE_T / 2
    ensures TotalLength(pos, n) == 0 <==> n == -(pos as int + 2)
  {
    if n < 0 {
      assert n % SIZE_T == n + SIZE_T;
    } else {
      assert n % SIZE_T == n;
    }
  }

  /** `Decode` on every buffer whose first newline ends a header of pos characters: it throws exactly when
      the header is no int. A length n that is not negative asks for pos + n + 2 characters. A
      negative one either asks for more than any string has, so that the frame never completes, or
      takes all the rest as content and erases only pos + n + 2 characters. */
  lemma DecodeIs(package: string, pos: nat)
    requires |package| < SIZE_T / 2
    requires pos < |package| && package[pos] == '\n' && '\n' !in package[..pos]
    ensures Decode(package).Throws? <==> !Stoi(package[..pos]).Number?
    ensures Stoi(package[..pos]).Number? ==>
              var n := Stoi(package[..pos]).n;
              var total: int := pos + n + 2;
              Decode(package) ==
                if total < 0 || |package| < total then Incomplete
                else if n >= 0 then Frame(package[pos + 1..pos + 1 + n], package[total..])
                else Frame(package[pos + 1..], package[total..])
  {
    FindIs(package, SEP, pos);
    if Stoi(package[..pos]).Number? {
      var n := Stoi(package[..pos]).n;
      if n >= 0 {
        DecodeAt(package, pos, n);
      } else {
        DecodeNegative(package, pos, n);
      }
    }
  }

  lemma DecodeNegative(package: string, pos: nat, n: int)
    requires |package| < SIZE_T / 2 && INT_MIN <= n < 0
    requires pos < |package| && Find(package, SEP) == Some(pos) && Stoi(package[..pos]) == Number(n)
    ensures Decode(package) ==
            if pos + n + 2 < 0 then Incomplete else Frame(package[pos + 1..], package[pos + n + 2..])
  {
    WrapsBelow(pos, n);
    BodyIsRest(package, pos, n);
  }

  lemma BodyIsRest(package: string, pos: nat, n: int)
    requires |package| < SIZE_T / 2 && INT_MIN <= n < 0 && pos < |package|
    ensures Body(package, pos, n) == package[pos + 1..]
  {
    assert n % SIZE_T == n + SIZE_T;
  }

  lemma WrapsBelow(pos: nat, n: int)
    requires INT_MIN <= n < 0 && pos < SIZE_T / 2
    ensures TotalLength(pos, n) == if pos + n + 2 < 0 then pos + n + 2 + SIZE_T else pos + n + 2
  {
    assert n % SIZE_T == n + SIZE_T;
  }

  /** Without a newline there is no header yet. */
  lemma DecodeNeedsHeader(package: string)
    requires '\n' !in package
    ensures Decode(package) == Incomplete
  {
  }

  lemma MinusFour()
    ensures Stoi("-4") == Number(-4)
  {
    StoiToString(-4);
    assert Digits(4) == "4";
  }

  /** A header of that kind: the content is all the rest, and all of it stays. */
  lemma DecodeMinusFour(m: string)
    requires |m| <= INT_MAX
    ensures Decode("-4\n" + m) == Frame(m, "-4\n" + m)
  {
    var package := "-4\n" + m;
    assert package[..2] == "-4" && package[2] == SEP && package[3..] == m;
    FindIs(package, SEP, 2);
    MinusFour();
    TotalIsZeroIff(2, -4);
    assert -4 % SIZE_T == SIZE_T - 4;
    assert Body(package, 2, -4) == package[3..];
  }

  // ----- whole streams, in any pieces -----

  function Wire(ms: seq<string>): string {
    if ms == [] then "" else Encode(ms[0]) + Wire(ms[1..])
  }

  function Join(chunks: seq<string>): string {
    if chunks == [] then "" else chunks[0] + Join(chunks[1..])
  }

  datatype Taken = Taken(msgs: seq<string>, rest: string)

  /** Calling `Decode` until it returns false, throws, or takes nothing off. */
  function TakeAll(package: string): (t: Taken)
    ensures |t.rest| <= |package|
    decreases |package|
  {
    match Decode(package)
    case Incomplete => Taken([], package)
    case Throws => Taken([], package)
    case Frame(content, rest) =>
      if |rest| == |package| then Taken([], package)
      else
        var t := TakeAll(rest);
        Taken([content] + t.msgs, t.rest)
  }

  /** Appending each chunk as it arrives and taking off all complete frames. */
  function Receive(buffer: string, chunks: seq<string>): Taken
    decreases |chunks|
  {
    if chunks == [] then Taken([], buffer)
    else
      var t := TakeAll(buffer + chunks[0]);
      var u := Receive(t.rest, chunks[1..]);
      Taken(t.msgs + u.msgs, u.rest)
  }

  predicate Readable(ms: seq<string>) {
    forall i :: 0 <= i < |ms| ==> |ms[i]| <= INT_MAX
  }

  /** The buffer holds a proper part of the next frame, and nothing when there is none. */
  predicate Pending(ms: seq<string>, buffer: string) {
    if ms == [] then buffer == "" else buffer <= Encode(ms[0]) && buffer != Encode(ms[0])
  }

  lemma {:induction false} WireConcat(a: seq<string>, b: seq<string>)
    ensures Wire(a + b) == Wire(a) + Wire(b)
    decreases |a|
  {
    if a == [] {
      assert a + b == b;
    } else {
      assert (a + b)[1..] == a[1..] + b;
      WireConcat(a[1..], b);
    }
  }

  /** These messages and this rest are how far the first part s of the stream reaches: the
      frames that are complete in s, in order, and the incomplete tail. */
  predicate Reaches(ms: seq<string>, t: Taken, s: string) {
    && t.msgs <= ms
    && Wire(t.msgs) + t.rest == s
    && Pending(ms[|t.msgs|..], t.rest)
  }

  lemma ReachesNothing(ms: seq<string>, s: string)
    requires Pending(ms, s)
    ensures Reaches(ms, Taken([], s), s)
  {
    assert ms[0..] == ms;
    assert "" + s == s;
  }

  lemma PrefixTwice<A>(ms: seq<A>, a: seq<A>, b: seq<A>)
    requires a <= ms && b <= ms[|a|..]
    ensures a + b <= ms && ms[|a + b|..] == ms[|a|..][|b|..]
  {
  }

  lemma PrefixCancel<A>(a: seq<A>, b: seq<A>, c: seq<A>)
    requires a + b <= a + c
    ensures b <= c
  {
    forall i | 0 <= i < |b| ensures b[i] == c[i] {
      assert (a + b)[|a| + i] == (a + c)[|a| + i];
    }
  }

  lemma ReachesOn(ms: seq<string>, t: Taken, s: string, u: Taken, more: string)
    requires Reaches(ms, t, s) && Reaches(ms[|t.msgs|..], u, t.rest + more)
    ensures Reaches(ms, Taken(t.msgs + u.msgs, u.rest), s + more)
  {
    PrefixTwice(ms, t.msgs, u.msgs);
    WireConcat(t.msgs, u.msgs);
    Assoc(Wire(t.msgs), Wire(u.msgs), u.rest);
    Assoc(Wire(t.msgs), t.rest, more);
  }

  lemma ReachesOne(ms: seq<string>)
    requires ms != []
    ensures Reaches(ms, Taken([ms[0]], ""), Encode(ms[0]))
    ensures Wire(ms) == Encode(ms[0]) + Wire(ms[1..])
  {
    assert [ms[0]][1..] == [];
    assert Wire([ms[0]]) == Encode(ms[0]) + "";
    if |ms| > 1 {
      assert Encode(ms[1]) != "";
    }
  }

  /** What is left of the stream once s has been dealt with. */
  lemma ReachesRest(ms: seq<string>, t: Taken, s: string, more: string)
    requires Reaches(ms, t, s) && s + more <= Wire(ms)
    ensures t.rest + more <= Wire(ms[|t.msgs|..])
  {
    var later := ms[|t.msgs|..];
    assert ms == t.msgs + later;
    WireConcat(t.msgs, later);
    Assoc(Wire(t.msgs), t.rest, more);
    PrefixCancel(Wire(t.msgs), t.rest + more, Wire(later));
  }

  lemma TakeAllFrame(m: string, rest: string)
    requires |m| <= INT_MAX
    ensures TakeAll(Encode(m) + rest) == Taken([m] + TakeAll(rest).msgs, TakeAll(rest).rest)
  {
    DecodeEncode(m, rest);
    assert |Encode(m)| > 0;
  }

  lemma TakeAllPart(ms: seq<string>, p: string)
    requires ms != [] && |ms[0]| <= INT_MAX && p <= Encode(ms[0]) && p != Encode(ms[0])
    ensures Reaches(ms, TakeAll(p), p)
  {
    DecodePrefix(ms[0], p);
    ReachesNothing(ms, p);
  }

  lemma TakeAllWhole(ms: seq<string>, rest: string)
    requires ms != [] && |ms[0]| <= INT_MAX && Reaches(ms[1..], TakeAll(rest), rest)
    ensures Reaches(ms, TakeAll(Encode(ms[0]) + rest), Encode(ms[0]) + rest)
  {
    TakeAllFrame(ms[0], rest);
    ReachesOne(ms);
    assert "" + rest == rest;
    ReachesOn(ms, Taken([ms[0]], ""), Encode(ms[0]), TakeAll(rest), rest);
  }

  lemma PrefixSplit<A>(p: seq<A>, a: seq<A>, b: seq<A>)
    requires p <= a + b
    ensures |p| < |a| ==> p <= a && p != a
    ensures |p| >= |a| ==> p == a + p[|a|..] && p[|a|..] <= b
  {
    if |p| >= |a| {
      assert p == a + p[|a|..];
      PrefixCancel(a, p[|a|..], b);
    }
  }

  /** Taking frames off any initial part of a stream yields the complete frames and keeps the rest. */
  lemma {:induction false} TakeAllPrefix(ms: seq<string>, buffer: string)
    requires Readable(ms) && buffer <= Wire(ms)
    ensures Reaches(ms, TakeAll(buffer), buffer)
    decreases |ms|
  {
    if ms == [] {
      ReachesNothing(ms, buffer);
    } else {
      var e := Encode(ms[0]);
      PrefixSplit(buffer, e, Wire(ms[1..]));
      if |buffer| < |e| {
        TakeAllPart(ms, buffer);
      } else {
        TakeAllPrefix(ms[1..], buffer[|e|..]);
        TakeAllWhole(ms, buffer[|e|..]);
      }
    }
  }

  /** Reassembly: however the stream is cut into chunks, what has been received so far is exactly
      the messages whose frames have arrived completely, in order, and the buffer keeps exactly
      the incomplete tail. Contents may hold anything, separators included. */
  lemma {:induction false} ReceiveInChunks(ms: seq<string>, buffer: string, chunks: seq<string>)
    requires Readable(ms) && Pending(ms, buffer) && buffer + Join(chunks) <= Wire(ms)
    ensures Reaches(ms, Receive(buffer, chunks), buffer + Join(chunks))
    decreases |chunks|
  {
    if chunks == [] {
      assert buffer + "" == buffer;
      ReachesNothing(ms, buffer);
    } else {
      var arrived := buffer + chunks[0];
      var more := Join(chunks[1..]);
      assert buffer + Join(chunks) == arrived + more;
      TakeAllPrefix(ms, arrived);
      var t := TakeAll(arrived);
      ReachesRest(ms, t, arrived, more);
      ReceiveInChunks(ms[|t.msgs|..], t.rest, chunks[1..]);
      ReachesOn(ms, t, arrived, Receive(t.rest, chunks[1..]), more);
    }
  }

  /** Once the whole stream has arrived, all messages have, and the buffer is empty. */
  lemma ReceiveEverything(ms: seq<string>, chunks: seq<string>)
    requires Readable(ms) && Join(chunks) == Wire(ms)
    ensures Receive("", chunks) == Taken(ms, "")
  {
    if ms != [] {
      assert |Encode(ms[0])| > 0;
    }
    ReceiveInChunks(ms, "", chunks);
    var r := Receive("", chunks);
    var later := ms[|r.msgs|..];
    assert ms == r.msgs + later;
    WireConcat(r.msgs, later);
    assert |r.rest| == |Wire(later)|;
    if later == [] {
      assert r.msgs == ms;
    }
  }

  // ----- frames as lines of text -----

  /** A text cut at its newlines; what follows the last one is not a line. */
  function Lines(s: string): (ls: seq<string>)
    decreases |s|
  {
    match Find(s, '\n')
    case None => []
    case Some(i) => [s[..i]] + Lines(s[i + 1..])
  }

  lemma FirstLine(l: string, s: string)
    requires '\n' !in l
    ensures Lines(l + "\n" + s) == [l] + Lines(s)
  {
    var t := l + "\n" + s;
    assert t[..|l|] == l && t[|l|] == '\n' && t[|l| + 1..] == s;
    FindIs(t, '\n', |l|);
  }

  /** A frame is two lines. */
  lemma FrameLines(m: string, more: string)
    requires '\n' !in m
    ensures Lines(Encode(m) + more) == [ToString(|m|), m] + Lines(more)
  {
    var h := ToString(|m|);
    HeaderHasNoSep(|m|);
    Assoc(h + "\n", m + "\n", more);
    Assoc(h + "\n", m, "\n");
    FirstLine(h, m + "\n" + more);
    FirstLine(m, more);
    Assoc([h], [m], Lines(more));
  }

  lemma LastOfFrame(m: string, more: string)
    requires more == "" || more[|more| - 1] == '\n'
    ensures var s := Encode(m) + more; s != "" && s[|s| - 1] == '\n'
  {
  }

  /** The length of each message in decimal, and the message. */
  function Labelled(ms: seq<string>): seq<string> {
    if ms == [] then [] else [ToString(|ms[0]|), ms[0]] + Labelled(ms[1..])
  }

  /** On the wire messages without newlines are lines of text: the length of the first message, the
      message, the length of the second, and so on; and the wire ends with a newline. */
  lemma {:induction false} WireIsLines(ms: seq<string>)
    requires forall i :: 0 <= i < |ms| ==> '\n' !in ms[i]
    ensures Lines(Wire(ms)) == Labelled(ms)
    ensures ms != [] ==> Wire(ms) != "" && Wire(ms)[|Wire(ms)| - 1] == '\n'
    decreases |ms|
  {
    if ms != [] {
      WireIsLines(ms[1..]);
      FrameLines(ms[0], Wire(ms[1..]));
      LastOfFrame(ms[0], Wire(ms[1..]));
    }
  }
}
