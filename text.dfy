/** The pieces of the C++ standard library the protocol code leans on:
    decimal output of unsigned integers (ostream <<), std::stoi,
    std::string::find, and std::getline over an std::istringstream. */
module Text {
  import opened Wrappers

  /** The two standard exception classes the decoding path can throw. */
  datatype Exception = InvalidArgument(what: string) | OutOfRange(what: string)

  const INT_MIN: int := -0x8000_0000
  const INT_MAX: int := 0x7FFF_FFFF

  /** isspace in the "C" locale: space, \t, \n, \v, \f, \r. */
  predicate IsSpace(c: char) {
    c == ' ' || ('\t' <= c <= '\r')
  }

  predicate IsDigit(c: char) {
    '0' <= c <= '9'
  }

  predicate AllDigits(s: string) {
    forall i :: 0 <= i < |s| ==> IsDigit(s[i])
  }

  function DigitChar(d: nat): (c: char)
    requires d < 10
    ensures IsDigit(c)
  {
    ('0' as int + d) as char
  }

  function DigitValue(c: char): (d: nat)
    requires IsDigit(c)
    ensures d < 10 && DigitChar(d) == c
  {
    c as int - '0' as int
  }

  /** The text `os << n` writes for an unsigned integer n. */
  function Decimal(n: nat): (r: string)
    ensures |r| > 0 && AllDigits(r)
    ensures |r| > 1 ==> r[0] != '0'
  {
    if n < 10 then [DigitChar(n)] else Decimal(n / 10) + [DigitChar(n % 10)]
  }

  /** The number a non-empty run of decimal digits denotes. */
  function DigitsValue(s: string): nat
    requires AllDigits(s)
  {
    if s == [] then 0 else DigitsValue(s[..|s| - 1]) * 10 + DigitValue(s[|s| - 1])
  }

  /** Reading back what Decimal writes gives the number again. */
  lemma {:induction false} DigitsValueOfDecimal(n: nat)
    ensures DigitsValue(Decimal(n)) == n
  {
    if n >= 10 {
      DigitsValueOfDecimal(n / 10);
      var s := Decimal(n);
      assert s[..|s| - 1] == Decimal(n / 10);
    }
  }

  /** Decimal is injective: distinct numbers print differently. */
  lemma DecimalInjective(m: nat, n: nat)
    requires Decimal(m) == Decimal(n)
    ensures m == n
  {
    DigitsValueOfDecimal(m);
    DigitsValueOfDecimal(n);
  }

  /** What strtol skips before the number: the longest run of isspace. */
  function SkipSpaces(s: string): (r: string)
    ensures |r| <= |s| && r == s[|s| - |r|..]
    ensures r == [] || !IsSpace(r[0])
    ensures forall i :: 0 <= i < |s| - |r| ==> IsSpace(s[i])
  {
    if s != [] && IsSpace(s[0]) then SkipSpaces(s[1..]) else s
  }

  /** The longest prefix of s made of decimal digits. */
  function LeadingDigits(s: string): (r: string)
    ensures |r| <= |s| && r == s[..|r|] && AllDigits(r)
    ensures |r| < |s| ==> !IsDigit(s[|r|])
  {
    if s != [] && IsDigit(s[0]) then [s[0]] + LeadingDigits(s[1..]) else []
  }

  /** std::stoi(token) in base 10: leading white space is skipped, an optional
      sign is read, then the longest run of digits; anything after it is
      ignored. No digit at all throws std::invalid_argument, a value outside
      the range of int throws std::out_of_range. */
  function Stoi(token: string): (r: Result<int, Exception>)
    ensures r.Success? ==> INT_MIN <= r.value <= INT_MAX
  {
    var t := SkipSpaces(token);
    var digits := LeadingDigits(Unsigned(t));
    if digits == [] then Failure(InvalidArgument("stoi"))
    else if SignedValue(t) < INT_MIN || SignedValue(t) > INT_MAX then Failure(OutOfRange("stoi"))
    else Success(SignedValue(t))
  }

  /** The text after an optional leading sign. */
  function Unsigned(t: string): (r: string)
    ensures r == t || (t != [] && (t[0] == '-' || t[0] == '+') && r == t[1..])
  {
    if t != [] && (t[0] == '-' || t[0] == '+') then t[1..] else t
  }

  /** The value of the sign and digits at the head of t. */
  function SignedValue(t: string): int {
    var magnitude: int := DigitsValue(LeadingDigits(Unsigned(t)));
    if t != [] && t[0] == '-' then -magnitude else magnitude
  }

  /** stoi reads back every decimal text within int's range, and rejects the rest. */
  lemma StoiDecimal(n: nat)
    ensures n <= INT_MAX ==> Stoi(Decimal(n)) == Success(n)
    ensures n > INT_MAX ==> Stoi(Decimal(n)) == Failure(OutOfRange("stoi"))
  {
    var d := Decimal(n);
    assert SkipSpaces(d) == d;
    assert Unsigned(d) == d;
    LeadingDigitsOfDigits(d);
    DigitsValueOfDecimal(n);
  }

  /** stoi reads a minus sign followed by a decimal text as the negated number. */
  lemma StoiNegative(n: nat)
    requires n <= -INT_MIN
    ensures Stoi("-" + Decimal(n)).Success? && Stoi("-" + Decimal(n)).value == -(n as int)
  {
    var d := Decimal(n);
    var t := "-" + d;
    assert SkipSpaces(t) == t;
    assert Unsigned(t) == d;
    LeadingDigitsOfDigits(d);
    DigitsValueOfDecimal(n);
  }

  lemma {:induction false} LeadingDigitsOfDigits(s: string)
    requires AllDigits(s)
    ensures LeadingDigits(s) == s
  {
    if s != [] {
      LeadingDigitsOfDigits(s[1..]);
    }
  }

  /** The index of the first c in s. */
  function IndexOf(s: string, c: char): (i: nat)
    requires c in s
    ensures i < |s| && s[i] == c && c !in s[..i]
  {
    if s[0] == c then 0 else 1 + IndexOf(s[1..], c)
  }

  /** The first occurrence is the only one with no c before it. */
  lemma IndexOfUnique(s: string, c: char, i: nat)
    requires i < |s| && s[i] == c && c !in s[..i]
    ensures IndexOf(s, c) == i
  {
  }

  lemma IndexOfSplit(a: string, c: char, b: string)
    requires c !in a
    ensures c in a + [c] + b && IndexOf(a + [c] + b, c) == |a|
  {
    var s := a + [c] + b;
    assert s[|a|] == c;
    assert s[..|a|] == a;
    IndexOfUnique(s, c, |a|);
  }

  /** The state of an std::istringstream that matters to getline: the
      unread characters, and whether the stream is still good. */
  datatype Stream = Stream(rest: string, good: bool)

  /** std::getline(stream, token, delim). On a stream that is no longer good
      the sentry fails before the token is cleared, so the token keeps its
      old value. Otherwise the characters up to the delimiter become the
      token and the delimiter is consumed; reaching the end without meeting
      it sets eofbit, which leaves the stream not good. */
  function NextToken(s: Stream, token: string, delim: char): (r: (Stream, string))
    ensures !s.good ==> r == (s, token)
    ensures s.good && delim in s.rest ==>
              r.0.good && delim !in r.1 && s.rest == r.1 + [delim] + r.0.rest
    ensures s.good && delim !in s.rest ==> r == (Stream([], false), s.rest)
  {
    if !s.good then (s, token)
    else if delim in s.rest then
      var i := IndexOf(s.rest, delim);
      assert s.rest == s.rest[..i] + [delim] + s.rest[i + 1..];
      (Stream(s.rest[i + 1..], true), s.rest[..i])
    else (Stream([], false), s.rest)
  }

  /** A good stream positioned at a + delim + b yields a and is left at b. */
  lemma NextTokenSplit(a: string, delim: char, b: string, token: string)
    requires delim !in a
    ensures NextToken(Stream(a + [delim] + b, true), token, delim) == (Stream(b, true), a)
  {
    IndexOfSplit(a, delim, b);
    var s := a + [delim] + b;
    assert s[..|a|] == a && s[|a| + 1..] == b;
  }

  /** std::istringstream, as far as getline moves its read position. */
  class InputStream {
    const data: string
    var pos: nat
    var good: bool

    ghost predicate Valid()
      reads this
    {
      pos <= |data|
    }

    /** The abstract stream: what is left to read, and the good flag. */
    function State(): Stream
      reads this
      requires Valid()
    {
      Stream(data[pos..], good)
    }

    constructor (s: string)
      ensures Valid() && State() == Stream(s, true)
    {
      data := s;
      pos := 0;
      good := true;
    }

    /** std::getline(*this, token, delim); returns the new token. */
    method GetLine(token: string, delim: char) returns (token': string)
      requires Valid()
      modifies this
      ensures Valid()
      ensures (State(), token') == NextToken(old(State()), token, delim)
    {
      if !good {
        return token;
      }
      ghost var before := State();
      ghost var rest := data[pos..];
      var i := pos;
      while i < |data| && data[i] != delim
        invariant pos <= i <= |data|
        invariant delim !in data[pos..i]
      {
        i := i + 1;
      }
      token' := data[pos..i];
      if i < |data| {
        assert rest == token' + [delim] + data[i + 1..];
        NextTokenSplit(token', delim, data[i + 1..], token);
        pos := i + 1;
        assert State() == Stream(data[i + 1..], true);
        assert NextToken(before, token, delim) == (State(), token');
      } else {
        assert rest == token' && delim !in rest;
        pos := |data|;
        good := false;
        assert State() == Stream([], false);
        assert NextToken(before, token, delim) == (State(), token');
      }
    }
  }
}
