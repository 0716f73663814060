/** The calculator service: requests and responses as text, the arithmetic, and the loop that
    drains the connection's buffer after every read. */
module Calculator {
  import opened Text
  import opened Wrappers

  const SPACE: char := ' '
  const NUL: char := 0 as char

  // ----- requests and responses as text -----

  datatype Req = Req(x: int, op: char, y: int)
  datatype Resp = Resp(result: int, code: int)

  /** `Deserialize` returns false, throws from `stoi`, or fills the fields. */
  datatype Outcome<+T> = Rejected | Threw | Accepted(value: T)

  function SerializeRequest(r: Req): string {
    ToString(r.x) + [SPACE] + [r.op] + [SPACE] + ToString(r.y)
  }

  /** The two numbers as text, and the operator between them. */
  datatype Parts = Parts(x: string, op: char, y: string)

  function RequestParts(s: string): Option<Parts> {
    match Find(s, SPACE)
    case None => None
    case Some(left) =>
      match Rfind(s, SPACE)
      case None => None
      case Some(right) => if left + 2 != right then None else Some(Parts(s[..left], s[left + 1], s[right + 1..]))
  }

  function DeserializeRequest(s: string): Outcome<Req> {
    match RequestParts(s)
    case None => Rejected
    case Some(p) =>
      match (Stoi(p.x), Stoi(p.y))
      case (Number(x), Number(y)) => Accepted(Req(x, p.op, y))
      case _ => Threw
  }

  function SerializeResponse(r: Resp): string {
    ToString(r.result) + [SPACE] + ToString(r.code)
  }

  function DeserializeResponse(s: string): Outcome<Resp> {
    match Find(s, SPACE)
    case None => Rejected
    case Some(left) =>
      match (Stoi(s[..left]), Stoi(s[left + 1..]))
      case (Number(result), Number(code)) => Accepted(Resp(result, code))
      case _ => Threw
  }

  lemma NumbersHaveNoSpace(n: int)
    ensures SPACE !in ToString(n) && NUL !in ToString(n)
  {
  }

  /** Two texts and a character between blanks. */
  function Spelled(a: string, op: char, b: string): string {
    a + " " + [op] + " " + b
  }

  /** Every request survives the trip, whatever its operator, a space included: the first and the
      last space are the separators, two apart. */
  lemma RequestRoundTrip(r: Req)
    requires IsInt(r.x) && IsInt(r.y)
    ensures DeserializeRequest(SerializeRequest(r)) == Accepted(r)
    ensures SerializeRequest(r) == Spelled(ToString(r.x), r.op, ToString(r.y))
  {
    var s := SerializeRequest(r);
    var a, b := ToString(r.x), ToString(r.y);
    NumbersHaveNoSpace(r.x);
    NumbersHaveNoSpace(r.y);
    assert s[..|a|] == a;
    FindIs(s, SPACE, |a|);
    assert s[|a| + 3..] == b;
    RfindIs(s, SPACE, |a| + 2);
    StoiToString(r.x);
    StoiToString(r.y);
  }

  lemma ResponseRoundTrip(r: Resp)
    requires IsInt(r.result) && IsInt(r.code)
    ensures DeserializeResponse(SerializeResponse(r)) == Accepted(r)
    ensures SerializeResponse(r) == ToString(r.result) + " " + ToString(r.code)
  {
    var s := SerializeResponse(r);
    var a, b := ToString(r.result), ToString(r.code);
    NumbersHaveNoSpace(r.result);
    assert s[..|a|] == a;
    FindIs(s, SPACE, |a|);
    assert s[|a| + 1..] == b;
    StoiToString(r.result);
    StoiToString(r.code);
  }

  // ----- which texts are read, and how -----

  /** A text of that shape is read: its two parts are the numbers, or it throws. */
  lemma RequestIs(a: string, op: char, b: string)
    requires ' ' !in a && ' ' !in b
    ensures DeserializeRequest(Spelled(a, op, b)) ==
            match (Stoi(a), Stoi(b))
            case (Number(x), Number(y)) => Accepted(Req(x, op, y))
            case _ => Threw
  {
    var s := Spelled(a, op, b);
    assert s[..|a|] == a && s[|a|] == ' ' && s[|a| + 1] == op && s[|a| + 2] == ' ' && s[|a| + 3..] == b;
    FindIs(s, ' ', |a|);
    RfindIs(s, ' ', |a| + 2);
  }

  /** And exactly the texts of any other shape are rejected. */
  lemma RequestRejectedIff(s: string)
    ensures DeserializeRequest(s) == Rejected <==>
            forall a, op, b :: ' ' !in a && ' ' !in b ==> s != Spelled(a, op, b)
  {
    forall a, op, b | ' ' !in a && ' ' !in b && s == Spelled(a, op, b) ensures DeserializeRequest(s) != Rejected {
      RequestIs(a, op, b);
    }
    if RequestParts(s).Some? {
      var p := RequestParts(s).value;
      SpelledBy(s, p);
    }
  }

  lemma SpelledBy(s: string, p: Parts)
    requires RequestParts(s) == Some(p)
    ensures ' ' !in p.x && ' ' !in p.y && s == Spelled(p.x, p.op, p.y)
  {
    var left, right := Find(s, SPACE).value, Rfind(s, SPACE).value;
    assert s == s[..left] + [s[left]] + [s[left + 1]] + [s[right]] + s[right + 1..];
  }

  /** A response is split at its first blank, and rejected exactly when there is none. */
  lemma ResponseIs(a: string, b: string)
    requires ' ' !in a
    ensures DeserializeResponse(a) == Rejected
    ensures DeserializeResponse(a + " " + b) ==
            match (Stoi(a), Stoi(b))
            case (Number(result), Number(code)) => Accepted(Resp(result, code))
            case _ => Threw
  {
    var s := a + " " + b;
    assert s[..|a|] == a && s[|a|] == ' ' && s[|a| + 1..] == b;
    FindIs(s, ' ', |a|);
  }

  lemma RequestIsShort(r: Req)
    requires IsInt(r.x) && IsInt(r.y)
    ensures |SerializeRequest(r)| <= 25
  {
    ToStringLength(r.x);
    ToStringLength(r.y);
  }

  /** The request object, whose fields `Deserialize` fills one after the other. */
  class Request {
    var x: int
    var y: int
    var op: char

    constructor (x: int, y: int, op: char)
      ensures this.x == x && this.y == y && this.op == op
    {
      this.x, this.y, this.op := x, y, op;
    }

    method Serialize() returns (out: string)
      ensures out == SerializeRequest(Req(x, op, y))
      ensures IsInt(x) && IsInt(y) ==> DeserializeRequest(out) == Accepted(Req(x, op, y))
    {
      var s := ToString(x);
      s := s + [SPACE];
      s := s + [op];
      s := s + [SPACE];
      s := s + ToString(y);
      out := s;
      if IsInt(x) && IsInt(y) {
        RequestRoundTrip(Req(x, op, y));
      }
    }

    /** A rejected text leaves the request as it was; a throw leaves y, and x too unless its own
        text was in order. */
    method Deserialize(s: string) returns (ok: bool, threw: bool)
      modifies this
      ensures ok <==> DeserializeRequest(s).Accepted?
      ensures ok ==> DeserializeRequest(s) == Accepted(Req(x, op, y))
      ensures threw <==> DeserializeRequest(s).Threw?
      ensures threw ==>
                var p := RequestParts(s).value;
                y == old(y) && op == p.op && x == if Stoi(p.x).Number? then Stoi(p.x).n else old(x)
      ensures !ok && !threw ==> (x, op, y) == old((x, op, y))
    {
      ok, threw := false, false;
      var left := Find(s, SPACE);
      if left.None? {
        return;
      }
      var partX := s[..left.value];
      var right := Rfind(s, SPACE);
      if right.None? {
        return;
      }
      var partY := s[right.value + 1..];
      if left.value + 2 != right.value {
        return;
      }
      op := s[left.value + 1];
      assert RequestParts(s) == Some(Parts(partX, op, partY));
      var px := Stoi(partX);
      if !px.Number? {
        threw := true;
        return;
      }
      x := px.n;
      var py := Stoi(partY);
      if !py.Number? {
        threw := true;
        return;
      }
      y := py.n;
      ok := true;
    }
  }

  lemma SplitResponse(s: string, left: nat)
    requires Find(s, SPACE) == Some(left)
    ensures DeserializeResponse(s) ==
            match (Stoi(s[..left]), Stoi(s[left + 1..]))
            case (Number(result), Number(code)) => Accepted(Resp(result, code))
            case _ => Threw
  {
  }

  class Response {
    var result: int
    var code: int

    constructor (result: int, code: int)
      ensures this.result == result && this.code == code
    {
      this.result, this.code := result, code;
    }

    method Serialize() returns (out: string)
      ensures out == SerializeResponse(Resp(result, code))
      ensures IsInt(result) && IsInt(code) ==> DeserializeResponse(out) == Accepted(Resp(result, code))
    {
      var s := ToString(result);
      s := s + [SPACE];
      s := s + ToString(code);
      out := s;
      if IsInt(result) && IsInt(code) {
        ResponseRoundTrip(Resp(result, code));
      }
    }

    /** A rejected text leaves the response as it was; a throw leaves the code, and the result too
        unless its own text was in order. */
    method Deserialize(s: string) returns (ok: bool, threw: bool)
      modifies this
      ensures ok <==> DeserializeResponse(s).Accepted?
      ensures ok ==> DeserializeResponse(s) == Accepted(Resp(result, code))
      ensures threw <==> DeserializeResponse(s).Threw?
      ensures threw ==>
                var left := Stoi(s[..Find(s, ' ').value]);
                code == old(code) && result == if left.Number? then left.n else old(result)
      ensures !ok && !threw ==> (result, code) == old((result, code))
    {
      ok, threw := false, false;
      var left := Find(s, SPACE);
      if left.None? {
        return;
      }
      var partLeft := s[..left.value];
      var partRight := s[left.value + 1..];
      SplitResponse(s, left.value);
      var pl := Stoi(partLeft);
      if !pl.Number? {
        threw := true;
        return;
      }
      result := pl.n;
      var pr := Stoi(partRight);
      if !pr.Number? {
        threw := true;
        return;
      }
      code := pr.n;
      ok := true;
    }
  }

  // ----- arithmetic -----

  const DIV_ZERO := 1
  const MODE_ZERO := 2
  const OTHER_OPER := 3

  /** C++ division and remainder truncate toward zero. */
  function TruncDiv(a: int, b: int): int
    requires b != 0
  {
    var q := Abs(a) / Abs(b);
    if (a < 0) == (b < 0) then q else -q
  }

  function TruncMod(a: int, b: int): int
    requires b != 0
  {
    var r := Abs(a) % Abs(b);
    if a < 0 then -r else r
  }

  function Abs(a: int): nat {
    if a < 0 then -a else a
  }

  /** Quotient and remainder belong together, the remainder takes the dividend's sign, and the
      quotient is never too far from zero. */
  lemma TruncatedDivision(a: int, b: int)
    requires b != 0
    ensures a == b * TruncDiv(a, b) + TruncMod(a, b)
    ensures Abs(TruncMod(a, b)) < Abs(b) && Abs(b * TruncDiv(a, b)) <= Abs(a)
    ensures TruncMod(a, b) != 0 ==> (TruncMod(a, b) < 0 <==> a < 0)
  {
    DivMod(Abs(a), Abs(b));
    QuotientTimes(a, b);
  }

  lemma DivMod(n: nat, d: nat)
    requires d > 0
    ensures n == d * (n / d) + n % d && n % d < d && d * (n / d) >= 0
  {
  }

  /** The product takes the dividend's sign. */
  lemma QuotientTimes(a: int, b: int)
    requires b != 0
    ensures var m := Abs(b) * (Abs(a) / Abs(b)); b * TruncDiv(a, b) == if a < 0 then -m else m
  {
    var q := Abs(a) / Abs(b);
    SignedProduct(b, q, Abs(b) * q);
  }

  lemma SignedProduct(b: int, q: int, m: int)
    requires m == Abs(b) * q
    ensures b * q == (if b < 0 then -m else m) && b * -q == if b < 0 then m else -m
  {
    assert b * -q == -(b * q);
    assert b < 0 ==> Abs(b) == -b && -b * q == -(b * q);
  }

  /** No signed overflow, which C++ leaves undefined. */
  predicate Defined(r: Req) {
    && IsInt(r.x) && IsInt(r.y)
    && (r.op == '+' ==> IsInt(r.x + r.y))
    && (r.op == '-' ==> IsInt(r.x - r.y))
    && (r.op == '*' ==> IsInt(r.x * r.y))
    && ((r.op == '/' || r.op == '%') ==> !(r.x == INT_MIN && r.y == -1))
  }

  /** A request is answered exactly when its operands and its exact result, if it has one, are ints. */
  lemma DefinedIff(r: Req)
    ensures Defined(r) <==>
            && IsInt(r.x) && IsInt(r.y)
            && (r.op == '+' ==> IsInt(r.x + r.y))
            && (r.op == '-' ==> IsInt(r.x - r.y))
            && (r.op == '*' ==> IsInt(r.x * r.y))
            && (r.op in "/%" && r.y != 0 ==> IsInt(TruncDiv(r.x, r.y)))
  {
    if IsInt(r.x) && IsInt(r.y) && r.y != 0 {
      if r.x == INT_MIN && r.y == -1 {
        assert TruncDiv(r.x, r.y) == 0x8000_0000;
      } else {
        QuotientFits(r.x, r.y);
      }
    }
  }

  /** The switch, with the case that falls through: after `%` the code is OTHER_OPER as well. */
  function CalculatorHelper(r: Req): Resp
    requires Defined(r)
  {
    if r.op == '+' then Resp(r.x + r.y, 0)
    else if r.op == '-' then Resp(r.x - r.y, 0)
    else if r.op == '*' then Resp(r.x * r.y, 0)
    else if r.op == '/' then
      if r.y == 0 then Resp(0, DIV_ZERO) else Resp(TruncDiv(r.x, r.y), 0)
    else if r.op == '%' then
      if r.y == 0 then Resp(0, OTHER_OPER) else Resp(TruncMod(r.x, r.y), OTHER_OPER)
    else Resp(0, OTHER_OPER)
  }

  /** Every answer fits the response fields. A remainder is computed but never reported as
      trustworthy: code 0 goes to exactly the sums, differences, products and the quotients by
a non-zero divisor, code 1 to a quotient by zero, code 3 to everything else, and no request at
      all is answered with 2, MODE_ZERO. Apart from remainders the result is then 0. */
  lemma AnswersFit(r: Req)
    requires Defined(r)
    ensures var a := CalculatorHelper(r);
            && IsInt(a.result) && a.code in {0, 1, 3}
            && (a.code == 0 <==> r.op in "+-*" || (r.op == '/' && r.y != 0))
            && (a.code == 1 <==> r.op == '/' && r.y == 0)
            && (a.code != 0 && !(r.op == '%' && r.y != 0) ==> a.result == 0)
            && (r.op == '+' ==> a.result - r.y == r.x)
            && (r.op == '-' ==> a.result + r.y == r.x)
            && (r.op == '*' ==> a.result == r.y * r.x)
            && (r.op == '/' && r.y != 0 ==>
                  Abs(r.x - r.y * a.result) < Abs(r.y) && Abs(r.y * a.result) <= Abs(r.x))
            && (r.op == '%' && r.y != 0 ==>
                  && Abs(a.result) < Abs(r.y) && (a.result != 0 ==> (a.result < 0 <==> r.x < 0))
                  && exists q :: r.x == r.y * q + a.result)
  {
    if r.y != 0 && (r.op == '/' || r.op == '%') {
      TruncatedDivision(r.x, r.y);
      QuotientFits(r.x, r.y);
      assert r.x == r.y * TruncDiv(r.x, r.y) + TruncMod(r.x, r.y);
    }
  }

  lemma QuotientFits(a: int, b: int)
    requires IsInt(a) && IsInt(b) && b != 0 && !(a == INT_MIN && b == -1)
    ensures IsInt(TruncDiv(a, b)) && IsInt(TruncMod(a, b))
  {
    QuotientBound(Abs(a), Abs(b));
  }

  lemma QuotientBound(n: nat, d: nat)
    requires d > 0
    ensures n % d < d && n % d <= n
    ensures if d == 1 then n / d == n else 2 * (n / d) <= n
  {
    var q := n / d;
    assert n == d * q + n % d;
    if d > 1 {
      MulAtLeastTwice(d, q);
    }
  }

  lemma MulAtLeastTwice(d: nat, q: nat)
    requires d >= 2
    ensures d * q >= 2 * q
  {
  }
}
