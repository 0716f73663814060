/** The parts of the C++ string library the programs rely on: searching, `std::to_string` and
    `std::stoi`. */
module Text {
  import opened Wrappers

  const INT_MAX: int := 0x7fff_ffff
  const INT_MIN: int := -0x8000_0000

  predicate IsInt(n: int) {
    INT_MIN <= n <= INT_MAX
  }

  // ----- searching -----

  /** `find`: the first occurrence. */
  function Find(s: string, c: char): (r: Option<nat>)
    ensures r.Some? ==> r.value < |s| && s[r.value] == c && c !in s[..r.value]
    ensures r.None? ==> c !in s
  {
    if s == [] then None
    else if s[0] == c then Some(0)
    else
      match Find(s[1..], c)
      case None => None
      case Some(i) =>
        assert s[..i + 1] == [s[0]] + s[1..][..i];
        Some(i + 1)
  }

  /** `rfind`: the last occurrence. */
  function Rfind(s: string, c: char): (r: Option<nat>)
    ensures r.Some? ==> r.value < |s| && s[r.value] == c && c !in s[r.value + 1..]
    ensures r.None? ==> c !in s
  {
    if s == [] then None
    else
      var n := |s| - 1;
      if s[n] == c then Some(n)
      else
        match Rfind(s[..n], c)
        case None => None
        case Some(i) =>
          assert s[i + 1..] == s[..n][i + 1..] + [s[n]];
          Some(i)
  }

  lemma FindIs(s: string, c: char, i: nat)
    requires i < |s| && s[i] == c && c !in s[..i]
    ensures Find(s, c) == Some(i)
  {
  }

  lemma RfindIs(s: string, c: char, i: nat)
    requires i < |s| && s[i] == c && c !in s[i + 1..]
    ensures Rfind(s, c) == Some(i)
  {
  }

  // ----- decimal numbers -----

  predicate IsDigit(c: char) {
    '0' <= c <= '9'
  }

  predicate AllDigits(s: string) {
    forall i :: 0 <= i < |s| ==> IsDigit(s[i])
  }

  function Digit(d: nat): (c: char)
    requires d < 10
    ensures IsDigit(c) && c as int - '0' as int == d
  {
    (d + '0' as int) as char
  }

  function Digits(n: nat): (s: string)
    ensures s != [] && AllDigits(s)
  {
    if n < 10 then [Digit(n)] else Digits(n / 10) + [Digit(n % 10)]
  }

  /** `std::to_string`. */
  function ToString(n: int): (s: string)
    ensures s != [] && forall i :: 0 <= i < |s| ==> IsDigit(s[i]) || s[i] == '-'
  {
    if n < 0 then "-" + Digits(-n) else Digits(n)
  }

  function NatOf(s: string): nat
    requires AllDigits(s)
  {
    if s == [] then 0 else NatOf(s[..|s| - 1]) * 10 + (s[|s| - 1] as int - '0' as int)
  }

  lemma {:induction false} NatOfDigits(n: nat)
    ensures NatOf(Digits(n)) == n
  {
    if n >= 10 {
      NatOfDigits(n / 10);
      assert Digits(n)[..|Digits(n)| - 1] == Digits(n / 10);
    } else {
      assert Digits(n)[..0] == [];
    }
  }

  /** Ten digits are enough for any int. */
  lemma {:induction false} DigitsLength(n: nat, k: nat, bound: nat)
    requires n < bound && bound == Power10(k) && k > 0
    ensures |Digits(n)| <= k
    decreases k
  {
    if n >= 10 && k > 1 {
      DigitsLength(n / 10, k - 1, Power10(k - 1));
    }
  }

  function Power10(k: nat): nat {
    if k == 0 then 1 else 10 * Power10(k - 1)
  }

  lemma ToStringLength(n: int)
    requires IsInt(n)
    ensures |ToString(n)| <= 11
  {
    assert Power10(10) == 10000000000 by {
      assert Power10(5) == 100000;
      assert Power10(10) == 100000 * Power10(5);
    }
    DigitsLength(if n < 0 then -n else n, 10, Power10(10));
  }

  /** `isspace` in the C locale. */
  predicate IsSpace(c: char) {
    c == ' ' || c == '\t' || c == '\n' || c as int == 11 || c as int == 12 || c == '\r'
  }

  function SkipSpace(s: string): (t: string)
    ensures t == "" || !IsSpace(t[0])
  {
    if s != [] && IsSpace(s[0]) then SkipSpace(s[1..]) else s
  }

  /** The longest prefix made of digits. */
  function DigitPrefix(s: string): (p: string)
    ensures p <= s && AllDigits(p)
    ensures |p| < |s| ==> !IsDigit(s[|p|])
  {
    if s != [] && IsDigit(s[0]) then [s[0]] + DigitPrefix(s[1..]) else []
  }

  lemma {:induction false} DigitPrefixAll(s: string)
    requires AllDigits(s)
    ensures DigitPrefix(s) == s
  {
    if s != [] {
      DigitPrefixAll(s[1..]);
    }
  }

  datatype Parsed = Number(n: int) | NoDigits | OutOfRange

  /** `std::stoi`: blanks, an optional sign, digits, then anything; it throws when there are no
      digits or the number is not an int. */
  function Stoi(s: string): (r: Parsed)
    ensures r.Number? ==> IsInt(r.n)
  {
    var t := SkipSpace(s);
    var negative := t != [] && t[0] == '-';
    var digits := DigitPrefix(if t != [] && (t[0] == '-' || t[0] == '+') then t[1..] else t);
    Signed(negative, digits)
  }

  function Signed(negative: bool, digits: string): (r: Parsed)
    requires AllDigits(digits)
    ensures r.Number? ==> IsInt(r.n)
  {
    if digits == [] then NoDigits
    else
      var n: int := if negative then 0 - NatOf(digits) else NatOf(digits);
      if IsInt(n) then Number(n) else OutOfRange
  }

  lemma DigitsRead(m: nat)
    ensures var d := Digits(m); DigitPrefix(d) == d && SkipSpace(d) == d && SkipSpace("-" + d) == "-" + d
  {
    DigitPrefixAll(Digits(m));
    assert IsDigit(Digits(m)[0]);
  }

  lemma StoiDigits(negative: bool, m: nat)
    ensures Stoi(if negative then "-" + Digits(m) else Digits(m)) == Signed(negative, Digits(m))
  {
    DigitsRead(m);
    if negative {
      assert ("-" + Digits(m))[1..] == Digits(m);
    } else {
      assert IsDigit(Digits(m)[0]);
    }
  }

  /** Reading a written number gives it back exactly when it is an int; otherwise it throws. */
  lemma StoiToString(n: int)
    ensures Stoi(ToString(n)) == if IsInt(n) then Number(n) else OutOfRange
  {
    var m := if n < 0 then -n else n;
    StoiDigits(n < 0, m);
    NatOfDigits(m);
  }

  // ----- what `std::to_string` writes and `std::stoi` reads, in all cases -----

  /** Positional notation: one more digit is ten times the number and the digit. */
  lemma DigitsAppend(n: nat, d: nat)
    requires n > 0 && d < 10
    ensures Digits(10 * n + d) == Digits(n) + [(48 + d) as char]
    ensures Digits(d) == [(48 + d) as char]
    ensures ToString(n) == Digits(n) && ToString(-(n as int)) == "-" + Digits(n)
  {
    assert (10 * n + d) / 10 == n && (10 * n + d) % 10 == d;
  }

  /** White space: the blank and the five characters with the codes 9 to 13. */
  lemma IsSpaceIff(c: char)
    ensures IsSpace(c) <==> c as int == 32 || 9 <= c as int <= 13
  {
  }

  predicate White(s: string) {
    forall i :: 0 <= i < |s| ==> s[i] as int == 32 || 9 <= s[i] as int <= 13
  }

  lemma {:induction false} SkipWhite(pad: string, s: string)
    requires White(pad) && (s == "" || !IsSpace(s[0]))
    ensures SkipSpace(pad + s) == s
    decreases |pad|
  {
    if pad == "" {
      assert pad + s == s;
    } else {
      assert (pad + s)[1..] == pad[1..] + s;
      SkipWhite(pad[1..], s);
    }
  }

  lemma {:induction false} DigitPrefixOf(d: string, rest: string)
    requires AllDigits(d) && (rest == "" || !IsDigit(rest[0]))
    ensures DigitPrefix(d + rest) == d
    decreases |d|
  {
    if d == "" {
      assert d + rest == rest;
    } else {
      assert (d + rest)[1..] == d[1..] + rest;
      DigitPrefixOf(d[1..], rest);
    }
  }

  function Zeros(k: nat): (z: string)
    ensures |z| == k && forall i :: 0 <= i < k ==> z[i] == '0'
  {
    seq(k, i => '0')
  }

  lemma {:induction false} NatOfZeros(k: nat, d: string)
    requires AllDigits(d)
    ensures AllDigits(Zeros(k) + d) && NatOf(Zeros(k) + d) == NatOf(d)
    decreases |d|, k
  {
    var s := Zeros(k) + d;
    if d != "" {
      assert s[..|s| - 1] == Zeros(k) + d[..|d| - 1];
      NatOfZeros(k, d[..|d| - 1]);
    } else if k > 0 {
      assert s[..|s| - 1] == Zeros(k - 1) + d;
      NatOfZeros(k - 1, d);
    }
  }

  /** White space, an optional sign, and then something that starts with neither. */
  lemma StoiParts(pad: string, sign: string, s: string)
    requires White(pad) && sign in {"", "+", "-"}
    requires sign == "" ==> s == "" || (!IsSpace(s[0]) && s[0] != '+' && s[0] != '-')
    ensures Stoi(pad + sign + s) == Signed(sign == "-", DigitPrefix(s))
  {
    if sign == "" {
      assert pad + sign + s == pad + s;
      StoiUnsigned(pad, s);
    } else {
      assert sign == [sign[0]];
      Cons(pad, sign[0], s);
      StoiSigned(pad, sign[0], s);
    }
  }

  lemma Cons(pad: string, c: char, s: string)
    ensures pad + [c] + s == pad + ([c] + s)
  {
  }

  lemma StoiUnsigned(pad: string, s: string)
    requires White(pad) && (s == "" || (!IsSpace(s[0]) && s[0] != '+' && s[0] != '-'))
    ensures Stoi(pad + s) == Signed(false, DigitPrefix(s))
  {
    SkipWhite(pad, s);
    StoiFrom(pad + s, s);
  }

  lemma StoiSigned(pad: string, c: char, s: string)
    requires White(pad) && (c == '+' || c == '-')
    ensures Stoi(pad + ([c] + s)) == Signed(c == '-', DigitPrefix(s))
  {
    var t := [c] + s;
    assert t[1..] == s;
    SkipWhite(pad, t);
    StoiFrom(pad + t, t);
  }

  /** Once the white space is skipped. */
  lemma StoiFrom(s: string, t: string)
    requires SkipSpace(s) == t
    ensures (t == "" || (t[0] != '+' && t[0] != '-')) ==> Stoi(s) == Signed(false, DigitPrefix(t))
    ensures t != "" && t[0] == '+' ==> Stoi(s) == Signed(false, DigitPrefix(t[1..]))
    ensures t != "" && t[0] == '-' ==> Stoi(s) == Signed(true, DigitPrefix(t[1..]))
  {
  }

  /** What `stoi` reads: any white space, a sign or none, any zeros, the digits of a number, and then
      anything that does not go on with a digit. It gives that number, with its sign, if it is an
      int, and throws otherwise. */
  lemma StoiReads(pad: string, sign: string, k: nat, n: nat, rest: string)
    requires White(pad) && sign in {"", "+", "-"} && (rest == "" || !('0' <= rest[0] <= '9'))
    ensures var m: int := if sign == "-" then 0 - n else n;
            Stoi(pad + sign + (Zeros(k) + Digits(n) + rest)) == if IsInt(m) then Number(m) else OutOfRange
  {
    var d := Zeros(k) + Digits(n);
    NatOfZeros(k, Digits(n));
    NatOfDigits(n);
    DigitPrefixOf(d, rest);
    StartsWithDigit(d, rest);
    StoiParts(pad, sign, d + rest);
    SignedIs(sign == "-", d, n);
  }

  lemma StartsWithDigit(d: string, rest: string)
    requires AllDigits(d) && d != ""
    ensures var s := d + rest; s != "" && !IsSpace(s[0]) && s[0] != '+' && s[0] != '-'
  {
    assert IsDigit((d + rest)[0]);
  }

  lemma SignedIs(negative: bool, d: string, n: nat)
    requires AllDigits(d) && d != "" && NatOf(d) == n
    ensures var m: int := if negative then 0 - n else n;
            Signed(negative, d) == if IsInt(m) then Number(m) else OutOfRange
  {
  }

  /** It throws when there is no digit after the white space and the sign. */
  lemma StoiThrows(pad: string, sign: string, rest: string)
    requires White(pad) && sign in {"", "+", "-"} && (rest == "" || !('0' <= rest[0] <= '9'))
    requires sign == "" && rest != "" ==> !White(rest[..1]) && rest[0] != '+' && rest[0] != '-'
    ensures Stoi(pad + sign + rest) == NoDigits
  {
    assert rest != "" ==> rest[..1] == [rest[0]];
    assert "" + rest == rest;
    DigitPrefixOf("", rest);
    StoiParts(pad, sign, rest);
  }
}
