/** The token format of src/common/security/csrf.guard.ts: a base-36 time, a
    random part and a signature, joined by dots. The signing function, an HMAC in
    hexadecimal, is a parameter. */
module Csrf {
  import opened Wrappers

  // ----- Base 36 -----

  function Digit(d: nat): (c: char)
    requires d < 36
  {
    if d < 10 then '0' + d as char else 'a' + (d - 10) as char
  }

  /** The digits `parseInt` takes, in either case. */
  predicate IsDigit(c: char) {
    '0' <= c <= '9' || 'a' <= c <= 'z' || 'A' <= c <= 'Z'
  }

  function DigitValue(c: char): (d: nat)
    requires IsDigit(c)
    ensures d < 36
  {
    if '0' <= c <= '9' then (c - '0') as nat
    else if 'a' <= c <= 'z' then (c - 'a') as nat + 10
    else (c - 'A') as nat + 10
  }

  /** `n.toString(36)`. */
  function ToBase36(n: nat): string {
    if n < 36 then [Digit(n)] else ToBase36(n / 36) + [Digit(n % 36)]
  }

  predicate AllDigits(s: string) {
    forall i :: 0 <= i < |s| ==> IsDigit(s[i])
  }

  function Value(s: string): nat
    requires AllDigits(s)
  {
    if s == "" then 0 else Value(s[..|s| - 1]) * 36 + DigitValue(s[|s| - 1])
  }

  /** The white space and line ends that `parseInt` skips. */
  predicate IsSpace(c: char) {
    c in " \t\n\r\U{0b}\U{0c}\U{a0}\U{feff}\U{1680}\U{2028}\U{2029}\U{202f}\U{205f}\U{3000}"
    || '\U{2000}' <= c <= '\U{200a}'
  }

  function TrimStart(s: string): string {
    if s != "" && IsSpace(s[0]) then TrimStart(s[1..]) else s
  }

  function LeadingDigits(s: string): (n: nat)
    ensures n <= |s| && AllDigits(s[..n])
    ensures n < |s| ==> !IsDigit(s[n])
  {
    if s == "" || !IsDigit(s[0]) then 0 else 1 + LeadingDigits(s[1..])
  }

  /** `parseInt(s, 36)`; None is NaN. */
  function ParseInt(s: string): Option<int> {
    var t := TrimStart(s);
    var negative := t != "" && t[0] == '-';
    var u := if t != "" && (t[0] == '-' || t[0] == '+') then t[1..] else t;
    var n := LeadingDigits(u);
    if n == 0 then None else Some((if negative then -1 else 1) * Value(u[..n]))
  }

  /** Upper-case digits count as lower-case ones do. */
  lemma UpperAsLower(c: char)
    requires 'A' <= c <= 'Z'
    ensures DigitValue(c) == DigitValue(c - 'A' + 'a')
  {
  }

  /** `s` is white space, a sign, a numeral as long as it gets, and anything. */
  ghost predicate Reads(s: string, space: string, sign: string, digits: string, rest: string) {
    && s == space + sign + digits + rest
    && (forall i :: 0 <= i < |space| ==> IsSpace(space[i]))
    && (sign == "" || sign == "+" || sign == "-")
    && digits != "" && AllDigits(digits) && (rest == "" || !IsDigit(rest[0]))
  }

  lemma {:induction false} TrimSpace(space: string, t: string)
    requires (forall i :: 0 <= i < |space| ==> IsSpace(space[i])) && (t == "" || !IsSpace(t[0]))
    ensures TrimStart(space + t) == t
    decreases space
  {
    if space == "" {
      assert space + t == t;
    } else {
      TrimSpace(space[1..], t);
      assert (space + t)[1..] == space[1..] + t;
    }
  }

  lemma {:induction false} LeadingDigitsThen(digits: string, rest: string)
    requires AllDigits(digits) && (rest == "" || !IsDigit(rest[0]))
    ensures LeadingDigits(digits + rest) == |digits|
    decreases digits
  {
    if digits == "" {
      assert digits + rest == rest;
    } else {
      LeadingDigitsThen(digits[1..], rest);
      assert (digits + rest)[1..] == digits[1..] + rest;
    }
  }

  lemma SignOrDigitNoSpace(c: char)
    requires c == '+' || c == '-' || IsDigit(c)
    ensures !IsSpace(c)
  {
  }

  /** Such a text reads as the number of its numeral, with its sign. */
  lemma ReadsParsed(s: string, space: string, sign: string, digits: string, rest: string)
    requires Reads(s, space, sign, digits, rest)
    ensures ParseInt(s) == Some(if sign == "-" then 0 - Value(digits) else Value(digits))
  {
    hide IsSpace, Value, TrimStart, LeadingDigits;
    var t, u := sign + digits + rest, digits + rest;
    FourParts(space, sign, digits, rest);
    assert t == sign + u;
    assert t[0] == if sign == "" then digits[0] else sign[0];
    assert digits[0] != '-' && digits[0] != '+';
    SignOrDigitNoSpace(t[0]);
    TrimSpace(space, t);
    assert sign != "" ==> t[1..] == u;
    assert sign == "" ==> t == u;
    LeadingDigitsThen(digits, rest);
    assert u[..|digits|] == digits;
  }

  lemma {:induction false} TrimmedSpace(s: string) returns (space: string)
    ensures s == space + TrimStart(s) && forall i :: 0 <= i < |space| ==> IsSpace(space[i])
    decreases s
  {
    if s != "" && IsSpace(s[0]) {
      var more := TrimmedSpace(s[1..]);
      space := [s[0]] + more;
      assert s == [s[0]] + (more + TrimStart(s[1..]));
    } else {
      space := "";
    }
  }

  /** And nothing else reads as a number. */
  lemma ParsedReads(s: string)
    requires ParseInt(s).Some?
    ensures exists space, sign, digits, rest :: Reads(s, space, sign, digits, rest)
  {
    hide IsSpace, Value, TrimStart, LeadingDigits, IsDigit;
    var space := TrimmedSpace(s);
    var t := TrimStart(s);
    var sign := if t != "" && (t[0] == '-' || t[0] == '+') then [t[0]] else "";
    var u := t[|sign|..];
    var n := LeadingDigits(u);
    assert u == if t != "" && (t[0] == '-' || t[0] == '+') then t[1..] else t;
    assert n > 0;
    FourParts(space, sign, u[..n], u[n..]);
    assert t == sign + u && u == u[..n] + u[n..];
    assert n < |u| ==> u[n..][0] == u[n];
    assert Reads(s, space, sign, u[..n], u[n..]);
  }

  lemma FourParts(a: string, b: string, c: string, d: string)
    ensures a + (b + (c + d)) == a + b + c + d
  {
  }

  /** Numerals as `toString` writes them: lower case, no leading zero. */
  predicate Canonical(s: string) {
    && s != ""
    && (forall i :: 0 <= i < |s| ==> '0' <= s[i] <= '9' || 'a' <= s[i] <= 'z')
    && (|s| > 1 ==> s[0] != '0')
  }

  lemma {:induction false} PrintedValue(n: nat)
    ensures Canonical(ToBase36(n)) && Value(ToBase36(n)) == n
    ensures n > 0 ==> ToBase36(n)[0] != '0'
    decreases n
  {
    var s := ToBase36(n);
    if n < 36 {
      assert s[..0] == "";
    } else {
      PrintedValue(n / 36);
      assert s[..|s| - 1] == ToBase36(n / 36);
    }
  }

  lemma {:induction false} LeadingDigitsAll(s: string)
    requires AllDigits(s)
    ensures LeadingDigits(s) == |s|
  {
  }

  lemma ParseCanonical(s: string)
    requires Canonical(s)
    ensures ParseInt(s) == Some(Value(s))
  {
    assert IsDigit(s[0]) && TrimStart(s) == s;
    LeadingDigitsAll(s);
    assert s[..|s|] == s;
  }

  /** Reading what was printed gives the number back. */
  lemma ParsePrinted(n: nat)
    ensures ParseInt(ToBase36(n)) == Some(n)
  {
    PrintedValue(n);
    ParseCanonical(ToBase36(n));
  }

  lemma {:induction false} ValuePositive(s: string)
    requires Canonical(s) && s != "0"
    ensures Value(s) > 0 && (|s| > 1 ==> Value(s) >= 36)
    decreases s
  {
    var front := s[..|s| - 1];
    if |s| > 1 { ValuePositive(front); }
  }

  lemma DigitOfValue(c: char)
    requires '0' <= c <= '9' || 'a' <= c <= 'z'
    ensures Digit(DigitValue(c)) == c
  {
  }

  /** Printing what was read gives the numeral back, on every numeral a printer
      writes. */
  lemma {:induction false} PrintParsed(s: string)
    requires Canonical(s)
    ensures ParseInt(s) == Some(Value(s)) && ToBase36(Value(s)) == s
    decreases s
  {
    hide Digit, DigitValue, ParseInt;
    var front, last := s[..|s| - 1], s[|s| - 1];
    ParseCanonical(s);
    DigitOfValue(last);
    assert s == front + [last];
    if |s| > 1 {
      ValuePositive(s);
      PrintParsed(front);
      assert Value(s) / 36 == Value(front) && Value(s) % 36 == DigitValue(last);
    } else {
      assert front == "" && Value(s) == DigitValue(last);
    }
  }

  // ----- Dots -----

  predicate DotFree(s: string) { '.' !in s }

  /** `s.split('.')`. */
  function Split(s: string): (parts: seq<string>)
    ensures parts != []
  {
    if s == "" then [""]
    else
      var rest := Split(s[1..]);
      if s[0] == '.' then [""] + rest else [[s[0]] + rest[0]] + rest[1..]
  }

  function Join(parts: seq<string>): string
    requires parts != []
  {
    if |parts| == 1 then parts[0] else parts[0] + "." + Join(parts[1..])
  }

  /** Splitting loses nothing and leaves no dot in a part. */
  lemma {:induction false} JoinSplit(s: string)
    ensures Join(Split(s)) == s
    ensures forall k :: 0 <= k < |Split(s)| ==> DotFree(Split(s)[k])
  {
    if s != "" {
      JoinSplit(s[1..]);
      var rest := Split(s[1..]);
      if s[0] == '.' {
        assert ([""] + rest)[1..] == rest;
      } else {
        assert Split(s)[1..] == rest[1..];
        if |rest| > 1 {
          assert [s[0]] + rest[0] + "." + Join(rest[1..]) == [s[0]] + (rest[0] + "." + Join(rest[1..]));
        }
      }
    }
  }

  lemma {:induction false} SplitDotFree(s: string)
    requires DotFree(s)
    ensures Split(s) == [s]
  {
    if s != "" {
      SplitDotFree(s[1..]);
      assert [s[0]] + s[1..] == s;
    }
  }

  lemma {:induction false} SplitAtDot(a: string, rest: string)
    requires DotFree(a)
    ensures Split(a + "." + rest) == [a] + Split(rest)
  {
    var s := a + "." + rest;
    if a == "" {
      assert s[1..] == rest;
    } else {
      SplitAtDot(a[1..], rest);
      assert s[1..] == a[1..] + "." + rest && s[0] == a[0];
      assert [a[0]] + a[1..] == a;
      assert ([a[1..]] + Split(rest))[1..] == Split(rest);
    }
  }

  /** Dot-free parts come back from their joined form. */
  lemma {:induction false} SplitJoin(parts: seq<string>)
    requires parts != [] && forall k :: 0 <= k < |parts| ==> DotFree(parts[k])
    ensures Split(Join(parts)) == parts
  {
    if |parts| == 1 {
      SplitDotFree(parts[0]);
    } else {
      SplitJoin(parts[1..]);
      SplitAtDot(parts[0], Join(parts[1..]));
    }
  }

  // ----- Tokens -----

  predicate IsHex(s: string) {
    forall i :: 0 <= i < |s| ==> '0' <= s[i] <= '9' || 'a' <= s[i] <= 'f'
  }

  /** A SHA-256 digest in hexadecimal. */
  ghost predicate IsSigner(sign: string -> string) {
    forall data :: |sign(data)| == 64 && IsHex(sign(data))
  }

  function DataOf(timestamp: string, random: string): string { timestamp + "." + random }

  function GenerateToken(now: nat, random: string, sign: string -> string): string {
    var data := DataOf(ToBase36(now), random);
    data + "." + sign(data)
  }

  /** Bytes of `Buffer.from(s)`, which encodes in UTF-8. */
  function ByteLength(s: string): nat {
    if s == "" then 0
    else
      var c := s[0];
      (if c < '\U{80}' then 1 else if c < '\U{800}' then 2 else if c < '\U{10000}' then 3 else 4) + ByteLength(s[1..])
  }

  /** `timingSafeEqual` throws on buffers of different lengths. */
  datatype Verdict = Accepted | Rejected | Throws

  /** A time that is not a number never compares as too old. */
  predicate Expired(timestamp: string, now: int, tokenExpiry: int) {
    var t := ParseInt(timestamp);
    t.Some? && now - t.value > tokenExpiry * 1000
  }

  function ValidateToken(cookieToken: string, headerToken: string, now: int, tokenExpiry: int,
                         sign: string -> string): Verdict
  {
    if cookieToken != headerToken then Rejected
    else
      var parts := Split(cookieToken);
      if |parts| != 3 then Rejected
      else
        var expected := sign(DataOf(parts[0], parts[1]));
        if ByteLength(parts[2]) != ByteLength(expected) then Throws
        else if parts[2] != expected then Rejected
        else if Expired(parts[0], now, tokenExpiry) then Rejected
        else Accepted
  }

  /** How many characters are `c` or beyond. */
  function CountFrom(s: string, c: char): nat {
    if s == "" then 0 else CountFrom(s[1..], c) + if s[0] >= c then 1 else 0
  }

  /** One byte for each character, and one more beyond each of the three limits. */
  lemma {:induction false} ByteLengthIs(s: string)
    ensures ByteLength(s)
         == |s| + CountFrom(s, '\U{80}') + CountFrom(s, '\U{800}') + CountFrom(s, '\U{10000}')
    decreases s
  {
    if s != "" { ByteLengthIs(s[1..]); }
  }

  lemma {:induction false} ByteLengthAscii(s: string)
    requires forall i :: 0 <= i < |s| ==> s[i] < '\U{80}'
    ensures ByteLength(s) == |s|
  {
    if s != "" { ByteLengthAscii(s[1..]); }
  }

  lemma JoinThree(a: string, b: string, c: string)
    ensures Join([a, b, c]) == DataOf(a, b) + "." + c
  {
    assert [a, b, c][1..] == [b, c] && [b, c][1..] == [c];
    assert Join([b, c]) == b + "." + c;
    assert a + "." + (b + "." + c) == a + "." + b + "." + c;
  }

  lemma SplitThree(a: string, b: string, c: string)
    requires DotFree(a) && DotFree(b) && DotFree(c)
    ensures Split(DataOf(a, b) + "." + c) == [a, b, c]
  {
    JoinThree(a, b, c);
    SplitJoin([a, b, c]);
  }

  /** A generated token splits back into its time, its random part and the
      signature of both. */
  lemma TokenParts(now: nat, random: string, sign: string -> string)
    requires IsSigner(sign) && IsHex(random)
    ensures Split(GenerateToken(now, random, sign)) == [ToBase36(now), random, sign(DataOf(ToBase36(now), random))]
  {
    PrintedValue(now);
    var signature := sign(DataOf(ToBase36(now), random));
    assert IsHex(signature);
    SplitThree(ToBase36(now), random, signature);
  }

  /** Presented in both places a generated token is accepted exactly until
      `tokenExpiry` seconds have passed; beside any other header it is not. */
  lemma GeneratedAcceptedIff(issued: nat, random: string, header: string, now: int, tokenExpiry: int,
                             sign: string -> string)
    requires IsSigner(sign) && IsHex(random)
    ensures var token := GenerateToken(issued, random, sign);
      ValidateToken(token, header, now, tokenExpiry, sign)
      == if header == token && now - issued <= tokenExpiry * 1000 then Accepted else Rejected
  {
    TokenParts(issued, random, sign);
    ParsePrinted(issued);
  }

  /** What is accepted, among all strings: the cookie and the header are the same
      signed data, whose time is not too old. */
  lemma AcceptedIff(cookieToken: string, headerToken: string, now: int, tokenExpiry: int, sign: string -> string)
    requires IsSigner(sign)
    ensures ValidateToken(cookieToken, headerToken, now, tokenExpiry, sign) == Accepted <==>
      cookieToken == headerToken
      && exists timestamp, random :: DotFree(timestamp) && DotFree(random)
           && cookieToken == timestamp + "." + random + "." + sign(timestamp + "." + random)
           && (ParseInt(timestamp).Some? ==> now - ParseInt(timestamp).value <= tokenExpiry * 1000)
  {
    var parts := Split(cookieToken);
    JoinSplit(cookieToken);
    if ValidateToken(cookieToken, headerToken, now, tokenExpiry, sign) == Accepted {
      assert parts == [parts[0], parts[1], parts[2]];
      JoinThree(parts[0], parts[1], parts[2]);
    }
    forall timestamp, random | DotFree(timestamp) && DotFree(random)
        && cookieToken == DataOf(timestamp, random) + "." + sign(DataOf(timestamp, random))
        ensures parts == [timestamp, random, sign(DataOf(timestamp, random))] {
      assert IsHex(sign(DataOf(timestamp, random)));
      SplitThree(timestamp, random, sign(DataOf(timestamp, random)));
    }
  }

  /** The call fails instead of answering exactly on equal tokens of three parts
      whose last is not 64 bytes long. */
  lemma ThrowsIff(cookieToken: string, headerToken: string, now: int, tokenExpiry: int, sign: string -> string)
    requires IsSigner(sign)
    ensures ValidateToken(cookieToken, headerToken, now, tokenExpiry, sign) == Throws <==>
      cookieToken == headerToken && |Split(cookieToken)| == 3 && ByteLength(Split(cookieToken)[2]) != 64
  {
    var parts := Split(cookieToken);
    if |parts| == 3 {
      var expected := sign(DataOf(parts[0], parts[1]));
      assert IsHex(expected);
      ByteLengthAscii(expected);
    }
  }
}
