/** The connection loop of the calculator server: append what was read, answer every complete
    request in the buffer, wait for more. */
module CalcServer {
  import opened Counting
  import opened Text
  import opened Framing
  import opened Calculator

  /** One call of `Calculator`: nothing to say, an answer, or a state C++ leaves behind undefined
      (an exception nobody catches, or signed overflow). */
  datatype Reply = Silent(rest: string) | Answer(text: string, rest: string) | Broken

  function Respond(r: Req): (text: string)
    requires Defined(r)
    ensures text != ""
  {
    Encode(SerializeResponse(CalculatorHelper(r)))
  }

  function Calculate(package: string): (r: Reply)
    ensures r.Answer? ==> r.text != "" && |r.rest| <= |package|
  {
    match Decode(package)
    case Incomplete => Silent(package)
    case Throws => Broken
    case Frame(content, rest) =>
      match DeserializeRequest(content)
      case Rejected => Silent(rest)
      case Threw => Broken
      case Accepted(r) => if Defined(r) then Answer(Respond(r), rest) else Broken
  }

  /** `Spinning` is the inner loop answering for ever because an answered frame took nothing off
      the buffer. */
  datatype Status = Open | Dead | Spinning

  datatype Session = Session(replies: seq<string>, buffer: string, status: Status)

  /** The inner loop. */
  function Drain(buffer: string): (s: Session)
    decreases |buffer|
  {
    match Calculate(buffer)
    case Silent(rest) => Session([], rest, Open)
    case Broken => Session([], buffer, Dead)
    case Answer(text, rest) =>
      if |rest| < |buffer| then
        var s := Drain(rest);
        Session([text] + s.replies, s.buffer, s.status)
      else Session([text], buffer, Spinning)
  }

  /** Appending a C string stops at its first NUL. */
  function CString(chunk: string): string {
    match Find(chunk, NUL)
    case None => chunk
    case Some(i) => chunk[..i]
  }

  /** A session that continues after earlier replies. */
  function After(earlier: seq<string>, s: Session): Session {
    Session(earlier + s.replies, s.buffer, s.status)
  }

  lemma DrainStep(sent: seq<string>, buffer: string)
    requires Drain(buffer).status != Spinning
    ensures After(sent, Drain(buffer)) ==
            match Calculate(buffer)
            case Silent(rest) => Session(sent, rest, Open)
            case Broken => Session(sent, buffer, Dead)
            case Answer(text, rest) => After(sent + [text], Drain(rest))
    ensures Calculate(buffer).Answer? ==> |Calculate(buffer).rest| < |buffer|
  {
    match Calculate(buffer)
    case Silent(rest) => AfterNothing(sent, rest, Open);
    case Broken => AfterNothing(sent, buffer, Dead);
    case Answer(text, rest) => AfterAnswer(sent, text, Drain(rest));
  }

  lemma AfterNothing(sent: seq<string>, buffer: string, status: Status)
    ensures After(sent, Session([], buffer, status)) == Session(sent, buffer, status)
  {
  }

  lemma AfterAnswer(sent: seq<string>, text: string, s: Session)
    ensures After(sent, Session([text] + s.replies, s.buffer, s.status)) == After(sent + [text], s)
  {
    assert sent + ([text] + s.replies) == (sent + [text]) + s.replies;
  }

  function OnRead(s: Session, chunk: string): Session {
    if s.status != Open then s
    else
      After(s.replies, Drain(s.buffer + CString(chunk)))
  }

  function Serve(s: Session, chunks: seq<string>): Session
    decreases |chunks|
  {
    if chunks == [] then s else Serve(OnRead(s, chunks[0]), chunks[1..])
  }

  /** The connection object: the buffer is appended to and drained in place. */
  class Connection {
    var inbuffer: string
    var sent: seq<string>
    var dead: bool

    constructor ()
      ensures View() == Session([], "", Open)
    {
      inbuffer, sent, dead := "", [], false;
    }

    function View(): Session
      reads this
    {
      Session(sent, inbuffer, if dead then Dead else Open)
    }

    /** Consumes a frame from the buffer, if there is one, and answers it. */
    method Calculator() returns (info: string)
      modifies this`inbuffer, this`dead
      requires !dead
      ensures dead <==> Calculate(old(inbuffer)).Broken?
      ensures !dead ==> Calculate(old(inbuffer)) == if info == "" then Silent(inbuffer) else Answer(info, inbuffer)
      ensures dead ==> inbuffer == old(inbuffer) && info == ""
    {
      info := "";
      match Decode(inbuffer)
      case Incomplete =>
      case Throws =>
        dead := true;
      case Frame(content, rest) =>
        CalculateFrame(inbuffer, content, rest);
        var died;
        info, died := AnswerContent(content);
        if died {
          dead := true;
        } else {
          inbuffer := rest;
        }
    }

    /** `Deserialize`, `CalculatorHelper`, `Serialize` and `Encode`, one after the other. */
    static method AnswerContent(content: string) returns (info: string, died: bool)
      ensures died <==> !Answerable(content) && !Refused(content)
      ensures info == AnswerTo(content) && (info != "" <==> Answerable(content))
    {
      info, died := "", false;
      match DeserializeRequest(content)
      case Rejected =>
      case Threw =>
        died := true;
      case Accepted(r) =>
        if Defined(r) {
          info := Respond(r);
        } else {
          died := true;
        }
    }

    /** One iteration of the read loop, for buffers that do not make it spin. */
    method Read(chunk: string)
      requires OnRead(View(), chunk).status != Spinning
      modifies this
      ensures View() == OnRead(old(View()), chunk)
    {
      if dead {
        return;
      }
      inbuffer := inbuffer + CString(chunk);
      ghost var goal := After(sent, Drain(inbuffer));
      var more := true;
      while more
        invariant goal.status != Spinning
        invariant if more then !dead && After(sent, Drain(inbuffer)) == goal else View() == goal
        decreases more, |inbuffer|
      {
        DrainStep(sent, inbuffer);
        var info := Calculator();
        if info == "" {
          more := false;
        } else {
          sent := sent + [info];
        }
      }
    }

    method Run(chunks: seq<string>)
      requires Serve(View(), chunks).status != Spinning
      modifies this
      ensures View() == Serve(old(View()), chunks)
    {
      ghost var start := View();
      for i := 0 to |chunks|
        invariant Serve(View(), chunks[i..]) == Serve(start, chunks)
      {
        assert chunks[i..][0] == chunks[i] && chunks[i..][1..] == chunks[i + 1..];
        StaysStuck(OnRead(View(), chunks[i]), chunks[i + 1..]);
        Read(chunks[i]);
      }
    }
  }

  lemma CalculateFrame(buffer: string, content: string, rest: string)
    requires Decode(buffer) == Frame(content, rest)
    ensures Calculate(buffer) ==
            if Answerable(content) then Answer(AnswerTo(content), rest)
            else if Refused(content) then Silent(rest)
            else Broken
  {
  }

  lemma {:induction false} StaysStuck(s: Session, chunks: seq<string>)
    ensures s.status != Open ==> Serve(s, chunks) == s
    decreases |chunks|
  {
    if chunks != [] {
      StaysStuck(OnRead(s, chunks[0]), chunks[1..]);
    }
  }

  // ----- the server is framing followed by calculation -----

  predicate Answerable(m: string) {
    var o := DeserializeRequest(m);
    o.Accepted? && Defined(o.value)
  }

  predicate AllAnswerable(ms: seq<string>) {
    forall i :: 0 <= i < |ms| ==> Answerable(ms[i])
  }

  /** What `Calculator` returns for the content of a frame. */
  function AnswerTo(m: string): string {
    if Answerable(m) then Respond(DeserializeRequest(m).value) else ""
  }

  function Answers(ms: seq<string>): seq<string> {
    Map(ms, AnswerTo)
  }

  lemma AnswerableParts(a: seq<string>, b: seq<string>)
    requires AllAnswerable(a + b)
    ensures AllAnswerable(a) && AllAnswerable(b)
  {
    assert forall i :: 0 <= i < |a| ==> a[i] == (a + b)[i];
    assert forall i :: 0 <= i < |b| ==> b[i] == (a + b)[|a| + i];
  }

  lemma DrainFrame(buffer: string, content: string, rest: string)
    requires Decode(buffer) == Frame(content, rest) && Answerable(content) && |rest| < |buffer|
    ensures Drain(buffer) == After([AnswerTo(content)], Drain(rest))
  {
    CalculateFrame(buffer, content, rest);
  }

  lemma TakeAllStep(buffer: string, content: string, rest: string)
    requires Decode(buffer) == Frame(content, rest) && |rest| < |buffer|
    ensures TakeAll(buffer) == Taken([content] + TakeAll(rest).msgs, TakeAll(rest).rest)
  {
  }

  /** The last call finds nothing complete. */
  lemma DrainIdle(buffer: string)
    requires Decode(TakeAll(buffer).rest) == Incomplete
    requires !(Decode(buffer).Frame? && |Decode(buffer).rest| < |buffer|)
    ensures TakeAll(buffer) == Taken([], buffer) && Drain(buffer) == Session([], buffer, Open)
  {
  }

  /** On any buffer whose complete frames all hold answerable requests, the inner loop answers
      each of them once, in order, and leaves the incomplete tail. */
  lemma {:induction false} DrainAnswersAll(buffer: string)
    requires AllAnswerable(TakeAll(buffer).msgs) && Decode(TakeAll(buffer).rest) == Incomplete
    ensures Drain(buffer) == Session(Answers(TakeAll(buffer).msgs), TakeAll(buffer).rest, Open)
    decreases |buffer|
  {
    var d := Decode(buffer);
    if d.Frame? && |d.rest| < |buffer| {
      TakeAllStep(buffer, d.content, d.rest);
      AnswerableParts([d.content], TakeAll(d.rest).msgs);
      assert Answerable([d.content][0]);
      MapAppend([d.content], TakeAll(d.rest).msgs, AnswerTo);
      assert Answers([d.content]) == [AnswerTo(d.content)];
      DrainAnswersAll(d.rest);
      DrainFrame(buffer, d.content, d.rest);
    } else {
      DrainIdle(buffer);
    }
  }

  lemma PendingIsIncomplete(ms: seq<string>, buffer: string)
    requires Readable(ms) && Pending(ms, buffer)
    ensures Decode(buffer) == Incomplete
  {
    if ms != [] {
      DecodePrefix(ms[0], buffer);
    }
  }

  /** One read on a stream of answerable requests. */
  lemma ReadAnswers(ms: seq<string>, replies: seq<string>, buffer: string, chunk: string)
    requires Readable(ms) && AllAnswerable(ms) && NUL !in chunk && buffer + chunk <= Wire(ms)
    ensures var t := TakeAll(buffer + chunk);
            && Reaches(ms, t, buffer + chunk)
            && OnRead(Session(replies, buffer, Open), chunk) == Session(replies + Answers(t.msgs), t.rest, Open)
  {
    TakeAllPrefix(ms, buffer + chunk);
    var t := TakeAll(buffer + chunk);
    FirstAreAnswerable(ms, t.msgs);
    LastAreReadable(ms, |t.msgs|);
    PendingIsIncomplete(ms[|t.msgs|..], t.rest);
    DrainAnswersAll(buffer + chunk);
  }

  lemma FirstAreAnswerable(ms: seq<string>, a: seq<string>)
    requires AllAnswerable(ms) && a <= ms
    ensures AllAnswerable(a)
  {
    assert forall i :: 0 <= i < |a| ==> a[i] == ms[i];
  }

  lemma LastAreReadable(ms: seq<string>, n: nat)
    requires Readable(ms) && n <= |ms|
    ensures Readable(ms[n..])
  {
  }

  predicate NoNul(chunks: seq<string>) {
    forall i :: 0 <= i < |chunks| ==> NUL !in chunks[i]
  }

  /** Serving a stream of answerable requests, cut into chunks in any way, is receiving the
      requests and answering each. */
  lemma {:induction false} ServeIsReceive(ms: seq<string>, replies: seq<string>, buffer: string, chunks: seq<string>)
    requires Readable(ms) && AllAnswerable(ms) && NoNul(chunks)
    requires Pending(ms, buffer) && buffer + Join(chunks) <= Wire(ms)
    ensures var r := Receive(buffer, chunks);
            && Serve(Session(replies, buffer, Open), chunks) == Session(replies + Answers(r.msgs), r.rest, Open)
    decreases |chunks|
  {
    if chunks == [] {
      assert replies + [] == replies;
    } else {
      var more := Join(chunks[1..]);
      Assoc(buffer, chunks[0], more);
      PrefixShorten(buffer + chunks[0], more, Wire(ms));
      ReadAnswers(ms, replies, buffer, chunks[0]);
      var t := TakeAll(buffer + chunks[0]);
      ReachesRest(ms, t, buffer + chunks[0], more);
      var u := Receive(t.rest, chunks[1..]);
      ServeIsReceive(ms[|t.msgs|..], replies + Answers(t.msgs), t.rest, chunks[1..]);
      MapAppend(t.msgs, u.msgs, AnswerTo);
      Assoc(replies, Answers(t.msgs), Answers(u.msgs));
    }
  }

  lemma PrefixShorten<A>(a: seq<A>, b: seq<A>, c: seq<A>)
    requires a + b <= c
    ensures a <= c
  {
    assert forall i :: 0 <= i < |a| ==> a[i] == (a + b)[i];
  }

  // ----- streams of requests -----

  /** The operator is not the NUL character, which the C string append would cut the stream at. */
  predicate Proper(r: Req) {
    Defined(r) && r.op != NUL
  }

  predicate AllDefined(rs: seq<Req>) {
    forall i :: 0 <= i < |rs| ==> Defined(rs[i])
  }

  predicate AllProper(rs: seq<Req>) {
    forall i :: 0 <= i < |rs| ==> Proper(rs[i])
  }

  function Texts(rs: seq<Req>): (ms: seq<string>)
    ensures |ms| == |rs| && forall i :: 0 <= i < |rs| ==> ms[i] == SerializeRequest(rs[i])
  {
    seq(|rs|, i requires 0 <= i < |rs| => SerializeRequest(rs[i]))
  }

  function Responses(rs: seq<Req>): (ms: seq<string>)
    requires AllDefined(rs)
    ensures |ms| == |rs| && forall i :: 0 <= i < |rs| ==> ms[i] == Respond(rs[i])
  {
    seq(|rs|, i requires 0 <= i < |rs| => Respond(rs[i]))
  }

  lemma TextsAreAnswerable(rs: seq<Req>)
    requires AllDefined(rs)
    ensures Readable(Texts(rs)) && AllAnswerable(Texts(rs)) && Answers(Texts(rs)) == Responses(rs)
  {
    forall i | 0 <= i < |rs|
      ensures |Texts(rs)[i]| <= INT_MAX && DeserializeRequest(Texts(rs)[i]) == Accepted(rs[i])
    {
      RequestRoundTrip(rs[i]);
      RequestIsShort(rs[i]);
    }
  }

  lemma {:induction false} WireHasNoNul(rs: seq<Req>)
    requires AllProper(rs)
    ensures NUL !in Wire(Texts(rs))
  {
    if rs != [] {
      WireHasNoNul(rs[1..]);
      FrameHasNoNul(rs[0]);
      assert Texts(rs)[1..] == Texts(rs[1..]);
      assert Wire(Texts(rs)) == Encode(SerializeRequest(rs[0])) + Wire(Texts(rs[1..]));
    }
  }

  lemma FrameHasNoNul(r: Req)
    requires Proper(r)
    ensures NUL !in Encode(SerializeRequest(r))
  {
    NumbersHaveNoSpace(r.x);
    NumbersHaveNoSpace(r.y);
    assert NUL !in SerializeRequest(r);
    NumbersHaveNoSpace(|SerializeRequest(r)|);
  }

  lemma {:induction false} JoinHasNoNul(chunks: seq<string>)
    requires NUL !in Join(chunks)
    ensures NoNul(chunks)
  {
    if chunks != [] {
      forall c | c in chunks[0] ensures c in Join(chunks) {
      }
      assert forall c :: c in Join(chunks[1..]) ==> c in Join(chunks);
      JoinHasNoNul(chunks[1..]);
      assert forall i :: 0 < i < |chunks| ==> chunks[i] == chunks[1..][i - 1];
    }
  }

  lemma ServeTexts(ms: seq<string>, chunks: seq<string>)
    requires Readable(ms) && AllAnswerable(ms) && NoNul(chunks) && Join(chunks) <= Wire(ms)
    ensures var r := Receive("", chunks);
            && Reaches(ms, r, Join(chunks))
            && Serve(Session([], "", Open), chunks) == Session(Answers(r.msgs), r.rest, Open)
  {
    EmptyIsPending(ms);
    assert "" + Join(chunks) == Join(chunks);
    ReceiveInChunks(ms, "", chunks);
    ServeIsReceive(ms, [], "", chunks);
    var r := Receive("", chunks);
    assert [] + Answers(r.msgs) == Answers(r.msgs);
  }

  lemma TextsSplit(rs: seq<Req>, n: nat)
    requires n <= |rs|
    ensures Texts(rs)[..n] == Texts(rs[..n]) && Texts(rs)[n..] == Texts(rs[n..])
  {
  }

  /** For any requests and any way the network cuts their stream into reads, the server sends
      exactly one response per complete request, in order, each the encoding of that request's
      result, and keeps exactly the incomplete tail; it neither dies nor spins. */
  lemma ServeRequests(rs: seq<Req>, chunks: seq<string>)
    requires AllProper(rs)
    requires Join(chunks) <= Wire(Texts(rs))
    ensures AllDefined(rs)
    ensures var s := Serve(Session([], "", Open), chunks);
            var n := |s.replies|;
            && s.status == Open
            && s.replies <= Responses(rs)
            && Wire(Texts(rs[..n])) + s.buffer == Join(chunks)
            && Pending(Texts(rs[n..]), s.buffer)
  {
    var ms := Texts(rs);
    TextsAreAnswerable(rs);
    StreamHasNoNul(rs, chunks);
    ServeTexts(ms, chunks);
    ReachedRequests(rs, Receive("", chunks), Join(chunks));
  }

  lemma ReachedRequests(rs: seq<Req>, r: Taken, s: string)
    requires AllDefined(rs) && Reaches(Texts(rs), r, s)
    ensures |Answers(r.msgs)| == |r.msgs| <= |rs| && Answers(r.msgs) <= Answers(Texts(rs))
    ensures Wire(Texts(rs[..|r.msgs|])) + r.rest == s && Pending(Texts(rs[|r.msgs|..]), r.rest)
  {
    var n := |r.msgs|;
    TextsSplit(rs, n);
    MapPrefix(r.msgs, Texts(rs), AnswerTo);
    assert r.msgs == Texts(rs[..n]);
  }

  lemma StreamHasNoNul(rs: seq<Req>, chunks: seq<string>)
    requires AllProper(rs) && Join(chunks) <= Wire(Texts(rs))
    ensures NoNul(chunks)
  {
    WireHasNoNul(rs);
    assert forall c :: c in Join(chunks) ==> c in Wire(Texts(rs));
    JoinHasNoNul(chunks);
  }

  lemma EmptyIsPending(ms: seq<string>)
    ensures Pending(ms, "")
  {
    if ms != [] {
      assert |Encode(ms[0])| > 0;
    }
  }

  /** When all of the stream has arrived, every request has been answered and nothing is left. */
  lemma ServeAllRequests(rs: seq<Req>, chunks: seq<string>)
    requires AllProper(rs)
    requires Join(chunks) == Wire(Texts(rs))
    ensures AllDefined(rs)
    ensures Serve(Session([], "", Open), chunks) == Session(Responses(rs), "", Open)
  {
    var ms := Texts(rs);
    TextsAreAnswerable(rs);
    StreamHasNoNul(rs, chunks);
    ServeTexts(ms, chunks);
    ReceiveEverything(ms, chunks);
  }

  /** The client can read every response back, whatever follows it. */
  lemma ResponseReadsBack(r: Req, rest: string)
    requires Defined(r)
    ensures var d := Decode(Respond(r) + rest);
            d.Frame? && d.rest == rest && DeserializeResponse(d.content) == Accepted(CalculatorHelper(r))
  {
    var a := CalculatorHelper(r);
    AnswersFit(r);
    ResponseRoundTrip(a);
    ToStringLength(a.result);
    ToStringLength(a.code);
    DecodeEncode(SerializeResponse(a), rest);
  }

  // ----- where one read is not enough, and where the loop does not end -----

  predicate Refused(m: string) {
    DeserializeRequest(m).Rejected?
  }

  lemma DrainRefused(m: string, rest: string)
    requires |m| <= INT_MAX && Refused(m)
    ensures Drain(Encode(m) + rest) == Session([], rest, Open)
  {
    DecodeEncode(m, rest);
  }

  lemma DrainAnswered(m: string, rest: string)
    requires |m| <= INT_MAX && Answerable(m)
    ensures Drain(Encode(m) + rest) == After([AnswerTo(m)], Drain(rest))
  {
    DecodeEncode(m, rest);
    assert |Encode(m)| > 0;
    DrainFrame(Encode(m) + rest, m, rest);
  }

  predicate OnlyLastRefused(ms: seq<string>) {
    |ms| <= 1 || (Answerable(ms[0]) && OnlyLastRefused(ms[1..]))
  }

  /** A refused request ends the inner loop, as an incomplete one does, although complete frames
      may be waiting behind it. So one pass over complete frames empties the buffer exactly when
      no frame but the last is refused; otherwise frames stay unanswered until the next read. */
  lemma {:induction false} PassEmptiesBufferIff(ms: seq<string>)
    requires Readable(ms) && AllHandled(ms)
    ensures Drain(Wire(ms)).buffer == "" <==> OnlyLastRefused(ms)
    decreases |ms|
  {
    if ms == [] {
    } else if Refused(ms[0]) {
      DrainRefused(ms[0], Wire(ms[1..]));
      if |ms| > 1 {
        assert |Wire(ms[1..])| > 0;
      }
    } else {
      DrainAnswered(ms[0], Wire(ms[1..]));
      PassEmptiesBufferIff(ms[1..]);
    }
  }

  predicate AllHandled(ms: seq<string>) {
    forall i :: 0 <= i < |ms| ==> Answerable(ms[i]) || Refused(ms[i])
  }

  function ReplyTo(m: string): seq<string> {
    if Answerable(m) then [AnswerTo(m)] else []
  }

  /** The answers to those messages that are answerable, in order. */
  function RepliesTo(ms: seq<string>): seq<string> {
    if ms == [] then [] else ReplyTo(ms[0]) + RepliesTo(ms[1..])
  }

  lemma {:induction false} RepliesConcat(a: seq<string>, b: seq<string>)
    ensures RepliesTo(a + b) == RepliesTo(a) + RepliesTo(b)
    decreases |a|
  {
    if a == [] {
      assert a + b == b;
    } else {
      assert (a + b)[1..] == a[1..] + b;
      RepliesConcat(a[1..], b);
      Assoc(ReplyTo(a[0]), RepliesTo(a[1..]), RepliesTo(b));
    }
  }

  /** The first k messages have been dealt with, each once, and the buffer is what else arrived. */
  predicate Passed(ms: seq<string>, k: nat, earlier: seq<string>, s: Session, arrived: string) {
    && k <= |ms|
    && s == Session(earlier + RepliesTo(ms[..k]), s.buffer, Open)
    && Wire(ms[..k]) + s.buffer == arrived
  }

  /** A read deals with all complete frames, or ends with a refused one. */
  predicate Paused(ms: seq<string>, k: nat, buffer: string)
    requires k <= |ms|
  {
    Pending(ms[k..], buffer) || (k > 0 && Refused(ms[k - 1]))
  }

  lemma PassedNothing(ms: seq<string>, earlier: seq<string>, buffer: string)
    ensures Passed(ms, 0, earlier, Session(earlier, buffer, Open), buffer)
  {
    assert ms[..0] == [] && earlier + [] == earlier && "" + buffer == buffer;
  }

  lemma PassedOn(ms: seq<string>, k: nat, earlier: seq<string>, s: Session, arrived: string,
                 more: string, n: nat, s': Session, m: nat)
    requires Passed(ms, k, earlier, s, arrived) && Passed(ms[k..], n, s.replies, s', s.buffer + more) && m == k + n
    ensures Passed(ms, m, earlier, s', arrived + more)
  {
    Cut(ms, k, n);
    TwoParts(ms[..k], ms[k..][..n], ms[..m], earlier, s, s', more);
  }

  lemma TwoParts(a: seq<string>, b: seq<string>, c: seq<string>, earlier: seq<string>, s: Session, s': Session, more: string)
    requires c == a + b && Wire(b) + s'.buffer == s.buffer + more
    requires s.replies == earlier + RepliesTo(a) && s'.replies == s.replies + RepliesTo(b)
    ensures s'.replies == earlier + RepliesTo(c)
    ensures Wire(c) + s'.buffer == (Wire(a) + s.buffer) + more
  {
    RepliesConcat(a, b);
    WireConcat(a, b);
    Assoc(earlier, RepliesTo(a), RepliesTo(b));
    Assoc(Wire(a), s.buffer, more);
    Assoc(Wire(a), Wire(b), s'.buffer);
  }

  lemma Cut<A>(s: seq<A>, k: nat, n: nat)
    requires k <= |s| && n <= |s[k..]|
    ensures s[..k + n] == s[..k] + s[k..][..n]
  {
  }

  lemma PassedOne(ms: seq<string>, earlier: seq<string>, rest: string)
    requires ms != []
    ensures Passed(ms, 1, earlier, Session(earlier + ReplyTo(ms[0]), rest, Open), Encode(ms[0]) + rest)
  {
    var one := [ms[0]];
    assert ms[..1] == one && one[1..] == [];
    assert Wire(one) == Encode(ms[0]) + "" == Encode(ms[0]);
    assert RepliesTo(one) == ReplyTo(ms[0]) + [] == ReplyTo(ms[0]);
  }

  /** The inner loop at a first frame that is complete. */
  lemma DrainOne(m: string, earlier: seq<string>, rest: string)
    requires |m| <= INT_MAX && (Answerable(m) || Refused(m))
    ensures After(earlier, Drain(Encode(m) + rest)) ==
            if Answerable(m) then After(earlier + ReplyTo(m), Drain(rest))
            else Session(earlier + ReplyTo(m), rest, Open)
  {
    if Answerable(m) {
      DrainAnswered(m, rest);
      Assoc(earlier, [AnswerTo(m)], Drain(rest).replies);
    } else {
      DrainRefused(m, rest);
    }
  }

  /** One pass over the first part of a stream. */
  lemma {:induction false} DrainPasses(ms: seq<string>, earlier: seq<string>, buffer: string) returns (k: nat)
    requires Readable(ms) && AllHandled(ms) && buffer <= Wire(ms)
    ensures Passed(ms, k, earlier, After(earlier, Drain(buffer)), buffer)
    ensures Paused(ms, k, Drain(buffer).buffer)
    decreases |ms|, 1
  {
    if ms == [] || |buffer| < |Encode(ms[0])| {
      k := 0;
      if ms != [] {
        PrefixSplit(buffer, Encode(ms[0]), Wire(ms[1..]));
      }
      PendingIsIncomplete(ms, buffer);
      PassedNothing(ms, earlier, buffer);
      AfterNothing(earlier, buffer, Open);
    } else {
      PrefixSplit(buffer, Encode(ms[0]), Wire(ms[1..]));
      var rest := buffer[|Encode(ms[0])|..];
      PassedOne(ms, earlier, rest);
      DrainOne(ms[0], earlier, rest);
      k := 1;
      if Answerable(ms[0]) {
        k := DrainPassesOn(ms, earlier, rest);
      }
    }
  }

  /** What follows an answered frame. */
  lemma {:induction false} DrainPassesOn(ms: seq<string>, earlier: seq<string>, rest: string) returns (k: nat)
    requires Readable(ms) && AllHandled(ms) && ms != [] && rest <= Wire(ms[1..])
    ensures Passed(ms, k, earlier, After(earlier + ReplyTo(ms[0]), Drain(rest)), Encode(ms[0]) + rest)
    ensures Paused(ms, k, Drain(rest).buffer)
    decreases |ms|, 0
  {
    var s := Session(earlier + ReplyTo(ms[0]), rest, Open);
    var n := DrainPasses(ms[1..], s.replies, rest);
    PassedOne(ms, earlier, rest);
    assert rest + "" == rest && (Encode(ms[0]) + rest) + "" == Encode(ms[0]) + rest;
    k := 1 + n;
    PassedOn(ms, 1, earlier, s, Encode(ms[0]) + rest, "", n, After(s.replies, Drain(rest)), k);
    PausedOn(ms, 1, n, Drain(rest).buffer, k);
  }

  lemma PausedOn(ms: seq<string>, k: nat, n: nat, buffer: string, m: nat)
    requires k <= |ms| && n <= |ms[k..]| && Paused(ms[k..], n, buffer) && m == k + n
    ensures Paused(ms, m, buffer)
  {
    assert ms[k..][n..] == ms[k + n..];
  }

  lemma LastAreHandled(ms: seq<string>, n: nat)
    requires Readable(ms) && AllHandled(ms) && n <= |ms|
    ensures Readable(ms[n..]) && AllHandled(ms[n..])
  {
    assert forall i :: 0 <= i < |ms[n..]| ==> ms[n..][i] == ms[n + i];
  }

  /** One more read. */
  lemma ReadPasses(ms: seq<string>, k: nat, earlier: seq<string>, s: Session, arrived: string, chunk: string) returns (k': nat)
    requires Readable(ms) && AllHandled(ms) && NUL !in chunk
    requires Passed(ms, k, earlier, s, arrived) && arrived + chunk <= Wire(ms)
    ensures Passed(ms, k', earlier, OnRead(s, chunk), arrived + chunk)
    ensures Paused(ms, k', OnRead(s, chunk).buffer)
  {
    RestOfWire(ms, k, s.buffer, chunk);
    LastAreHandled(ms, k);
    var n, u := FrontPasses(ms[k..], s, chunk);
    k' := k + n;
    PassedOn(ms, k, earlier, s, arrived, chunk, n, u, k');
    PausedOn(ms, k, n, u.buffer, k');
  }

  /** One read with nothing passed before. */
  lemma FrontPasses(ms: seq<string>, s: Session, chunk: string) returns (k: nat, u: Session)
    requires Readable(ms) && AllHandled(ms) && NUL !in chunk
    requires s.status == Open && s.buffer + chunk <= Wire(ms)
    ensures u == OnRead(s, chunk)
    ensures Passed(ms, k, s.replies, u, s.buffer + chunk) && Paused(ms, k, u.buffer)
  {
    u := OnRead(s, chunk);
    k := DrainPasses(ms, s.replies, s.buffer + chunk);
  }

  /** All the reads that follow. */
  lemma {:induction false} ServePasses(ms: seq<string>, k: nat, s: Session, arrived: string, chunks: seq<string>) returns (k': nat)
    requires Readable(ms) && AllHandled(ms) && NoNul(chunks)
    requires Passed(ms, k, [], s, arrived) && Paused(ms, k, s.buffer) && arrived + Join(chunks) <= Wire(ms)
    ensures Passed(ms, k', [], Serve(s, chunks), arrived + Join(chunks))
    ensures Paused(ms, k', Serve(s, chunks).buffer)
    decreases |chunks|
  {
    if chunks == [] {
      k' := k;
      assert arrived + "" == arrived;
    } else {
      FirstOfJoin(arrived, chunks, Wire(ms));
      k' := ReadPasses(ms, k, [], s, arrived, chunks[0]);
      k' := ServePasses(ms, k', OnRead(s, chunks[0]), arrived + chunks[0], chunks[1..]);
    }
  }

  lemma FirstOfJoin(arrived: string, chunks: seq<string>, wire: string)
    requires chunks != [] && arrived + Join(chunks) <= wire && NoNul(chunks)
    ensures arrived + Join(chunks) == arrived + chunks[0] + Join(chunks[1..])
    ensures arrived + chunks[0] <= wire && NoNul(chunks[1..])
  {
    Assoc(arrived, chunks[0], Join(chunks[1..]));
    PrefixShorten(arrived + chunks[0], Join(chunks[1..]), wire);
    assert forall i :: 0 <= i < |chunks[1..]| ==> chunks[1..][i] == chunks[i + 1];
  }

  lemma RestOfWire(ms: seq<string>, k: nat, buffer: string, more: string)
    requires k <= |ms| && (Wire(ms[..k]) + buffer) + more <= Wire(ms)
    ensures buffer + more <= Wire(ms[k..])
  {
    assert ms == ms[..k] + ms[k..];
    WireConcat(ms[..k], ms[k..]);
    Assoc(Wire(ms[..k]), buffer, more);
    PrefixCancel(Wire(ms[..k]), buffer + more, Wire(ms[k..]));
  }

  /** For any stream of answerable and refused frames, cut into reads in any way: the replies are the
      answers to the answerable ones among the first k, in order, and the buffer is the rest of
      what arrived, so nothing is skipped or answered twice; and complete frames wait in the
      buffer only behind a refused one that ended the last read. */
  lemma ServeMixed(ms: seq<string>, chunks: seq<string>) returns (k: nat)
    requires Readable(ms) && AllHandled(ms) && NoNul(chunks) && Join(chunks) <= Wire(ms)
    ensures k <= |ms|
    ensures var s := Serve(Session([], "", Open), chunks);
            && s.status == Open
            && s.replies == RepliesTo(ms[..k])
            && Wire(ms[..k]) + s.buffer == Join(chunks)
            && (Pending(ms[k..], s.buffer) || (k > 0 && Refused(ms[k - 1])))
  {
    EmptyIsPending(ms);
    PassedNothing(ms, [], "");
    assert ms[0..] == ms && "" + Join(chunks) == Join(chunks);
    k := ServePasses(ms, 0, Session([], "", Open), "", chunks);
    assert [] + RepliesTo(ms[..k]) == RepliesTo(ms[..k]);
  }

  /** An answered request takes something off the buffer, so that the inner loop gets nearer its
      end, exactly when the length in the header is not minus the header's own size. */
  lemma AnswerShortensIff(buffer: string)
    requires Calculate(buffer).Answer? && |buffer| < SIZE_T / 2
    ensures var pos := Find(buffer, SEP).value;
            |Calculate(buffer).rest| < |buffer| <==> Stoi(buffer[..pos]) != Number(-(pos as int + 2))
  {
    DecodeShortensIff(buffer);
  }

  /** Behind the header line "-4", any answerable request is answered for ever. */
  lemma NegativeLengthSpins(m: string)
    requires Answerable(m) && |m| <= INT_MAX
    ensures Drain("-4\n" + m).status == Spinning
  {
    DecodeMinusFour(m);
    CalculateFrame("-4\n" + m, m, "-4\n" + m);
    NothingTaken("-4\n" + m);
  }

  lemma NothingTaken(buffer: string)
    requires Calculate(buffer).Answer? && |Calculate(buffer).rest| == |buffer|
    ensures Drain(buffer).status == Spinning
  {
  }

  /** The header's number is minus the header's own size and two. */
  predicate SelfCancelling(buffer: string) {
    match Find(buffer, SEP)
    case None => false
    case Some(pos) => Stoi(buffer[..pos]) == Number(-(pos as int + 2))
  }

  /** Some answered frames, each of which took something off, lead from the buffer to this rest. */
  predicate Answered(buffer: string, rest: string)
    decreases |buffer|
  {
    || rest == buffer
    || match Calculate(buffer)
       case Answer(_, next) => |next| < |buffer| && Answered(next, rest)
       case _ => false
  }

  lemma {:induction false} SpinFinds(buffer: string) returns (rest: string)
    requires Drain(buffer).status == Spinning && |buffer| < SIZE_T / 2
    ensures Answered(buffer, rest) && Calculate(rest).Answer? && SelfCancelling(rest)
    decreases |buffer|
  {
    AnswerShortensIff(buffer);
    if SelfCancelling(buffer) {
      rest := buffer;
    } else {
      rest := SpinFinds(Calculate(buffer).rest);
    }
  }

  lemma {:induction false} SpinsBehind(buffer: string, rest: string)
    requires |buffer| < SIZE_T / 2
    requires Answered(buffer, rest) && Calculate(rest).Answer? && SelfCancelling(rest)
    ensures Drain(buffer).status == Spinning
    decreases |buffer|
  {
    if rest == buffer {
      AnswerShortensIff(buffer);
    } else {
      SpinsBehind(Calculate(buffer).rest, rest);
    }
  }

  /** The inner loop does not end exactly when, behind frames that are answered, there is one whose
      header cancels itself and whose content is answered too. */
  lemma DrainSpinsIff(buffer: string)
    requires |buffer| < SIZE_T / 2
    ensures Drain(buffer).status == Spinning <==>
            exists rest :: Answered(buffer, rest) && Calculate(rest).Answer? && SelfCancelling(rest)
  {
    if Drain(buffer).status == Spinning {
      var rest := SpinFinds(buffer);
    }
    if rest :| Answered(buffer, rest) && Calculate(rest).Answer? && SelfCancelling(rest) {
      SpinsBehind(buffer, rest);
    }
  }

  /** Something at the front that C++ does not survive: a header that is no int, an operand that is none,
      or a result that is none. */
  predicate Fatal(buffer: string) {
    match Decode(buffer)
    case Incomplete => false
    case Throws => true
    case Frame(content, _) =>
      match DeserializeRequest(content)
      case Rejected => false
      case Threw => true
      case Accepted(r) => !Defined(r)
  }

  lemma {:induction false} DeathFinds(buffer: string)
    requires Drain(buffer).status == Dead
    ensures var rest := Drain(buffer).buffer; Answered(buffer, rest) && Fatal(rest)
    decreases |buffer|
  {
    match Calculate(buffer)
    case Answer(_, rest) => DeathFinds(rest);
    case _ =>
  }

  lemma {:induction false} DiesBehind(buffer: string, rest: string)
    requires Answered(buffer, rest) && Fatal(rest)
    ensures Drain(buffer).status == Dead && Drain(buffer).buffer == rest
    decreases |buffer|
  {
    if rest != buffer {
      DiesBehind(Calculate(buffer).rest, rest);
    }
  }

  /** The server dies in a pass exactly when, behind frames that are answered, there is something
      fatal; it has then answered those frames and stopped in front of it. */
  lemma DrainDiesIff(buffer: string, rest: string)
    ensures Drain(buffer).status == Dead && Drain(buffer).buffer == rest <==> Answered(buffer, rest) && Fatal(rest)
  {
    if Drain(buffer).status == Dead {
      DeathFinds(buffer);
    }
    if Answered(buffer, rest) && Fatal(rest) {
      DiesBehind(buffer, rest);
    }
  }

  /** What follows a NUL in a read is lost. */
  lemma NulCuts(s: Session, a: string, b: string)
    requires 0 as char !in a
    ensures OnRead(s, a + [0 as char] + b) == OnRead(s, a)
  {
    var chunk := a + [0 as char] + b;
    assert chunk[..|a|] == a && chunk[|a|] == 0 as char;
    FindIs(chunk, 0 as char, |a|);
  }

  /** An input on which it does not end. */
  lemma SpinExample()
    ensures Drain("-4\n" + SerializeRequest(Req(1, '+', 2))).status == Spinning
  {
    RequestRoundTrip(Req(1, '+', 2));
    RequestIsShort(Req(1, '+', 2));
    NegativeLengthSpins(SerializeRequest(Req(1, '+', 2)));
  }

  /** An input on which a request stays unanswered: it is behind an empty frame, which is refused. */
  lemma RefusedExample(r: Req)
    requires Defined(r)
    ensures Drain(Wire(["", SerializeRequest(r)])).buffer != "" && Drain(Wire(["", SerializeRequest(r)])).replies == []
  {
    var ms := ["", SerializeRequest(r)];
    assert ms[1..] == [SerializeRequest(r)];
    assert Find("", ' ').None?;
    assert Refused("");
    DrainRefused("", Wire(ms[1..]));
    assert |Wire(ms[1..])| > 0;
  }
}
