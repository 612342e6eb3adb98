/** SQLSTATE codes as numbers in base 36: parsing, and printing for messages. */
module SqlState {
  import opened Words

  const DIGITS: string := "0123456789ABCDEFGHIJKLMNOPQRSTUVWXYZ"

  function Digit(d: int): char
    requires 0 <= d < 36
  {
    DIGITS[d]
  }

  /** The value of a base 36 digit in either case, and -1 for other characters. */
  function DigitValue(c: char): int {
    if '0' <= c <= '9' then c as int - '0' as int
    else if 'A' <= c <= 'Z' then c as int - 'A' as int + 10
    else if 'a' <= c <= 'z' then c as int - 'a' as int + 10
    else -1
  }

  predicate AllDigits(s: string) {
    forall i | 0 <= i < |s| :: DigitValue(s[i]) >= 0
  }

  function Number(s: string): nat
    requires AllDigits(s)
  {
    if s == "" then 0 else 36 * Number(s[..|s| - 1]) + DigitValue(s[|s| - 1])
  }

  // strtol with base 36 (section 7.22.1.4 of ISO C11), on a 64-bit long

  predicate IsSpace(c: char) {
    c == ' ' || '\t' <= c <= '\r'
  }

  function SkipSpace(s: string): string {
    if s != "" && IsSpace(s[0]) then SkipSpace(s[1..]) else s
  }

  /** The longest prefix of digits. */
  function DigitPrefix(s: string): (d: string)
    ensures AllDigits(d) && d <= s
  {
    if s != "" && DigitValue(s[0]) >= 0 then [s[0]] + DigitPrefix(s[1..]) else ""
  }

  function Strtol36(s: string): int {
    var t := SkipSpace(s);
    var minus := t != "" && t[0] == '-';
    var body := if t != "" && (t[0] == '-' || t[0] == '+') then t[1..] else t;
    var n: int := Number(DigitPrefix(body));
    if minus then (if n > TWO_63 then -TWO_63 else -n)
    else if n >= TWO_63 then TWO_63 - 1 else n
  }

  /** `static_cast<sqlstate>(std::strtol(e, nullptr, 36))`; the enumeration is an `int`. */
  function Parse(s: string): int {
    ToInt32(Strtol36(s))
  }

  // The printer

  function Printed(value: int): string {
    if value <= 0 then "" else Printed(value / 36) + [Digit(value % 36)]
  }

  function Reverse(s: string): string {
    if s == "" then "" else Reverse(s[1..]) + [s[0]]
  }

  /** Digits are pushed from the lowest up and turned round at the end. */
  method ToBase36(value: int) returns (result: string)
    ensures result == Printed(value)
    ensures AllDigits(result) && Upper(result) == result
    ensures value > 0 ==> Number(result) == value && result[0] != '0'
  {
    result := "";
    var v := value;
    hide Printed, Reverse, Digit, AllDigits, Upper, Number;
    ReverseNothing(Printed(v));
    while v > 0
      invariant Printed(value) == Printed(v) + Reverse(result)
      decreases v
    {
      PrintedLast(v);
      ReversePush(result, Digit(v % 36));
      Join(Printed(v / 36), Digit(v % 36), Reverse(result));
      result := result + [Digit(v % 36)];
      v := v / 36;
    }
    PrintedIsNumber(v);
    result := Reverse(result);
    assert "" + result == result;
    PrintedIsNumber(value);
  }

  lemma ReverseNothing(s: string)
    ensures s + Reverse("") == s
  {
  }

  lemma PrintedLast(v: int)
    requires v > 0
    ensures Printed(v) == Printed(v / 36) + [Digit(v % 36)]
  {
  }

  lemma Join(a: string, c: char, b: string)
    ensures a + [c] + b == a + ([c] + b)
  {
  }

  lemma {:induction false} ReversePush(s: string, c: char)
    ensures Reverse(s + [c]) == [c] + Reverse(s)
  {
    if s == "" {
      assert s + [c] == [c];
    } else {
      assert (s + [c])[1..] == s[1..] + [c];
      ReversePush(s[1..], c);
    }
  }

  function UpperChar(c: char): char {
    if 'a' <= c <= 'z' then (c as int - 'a' as int + 'A' as int) as char else c
  }

  function Upper(s: string): (u: string)
    ensures |u| == |s| && forall i | 0 <= i < |s| :: u[i] == UpperChar(s[i])
  {
    seq(|s|, i requires 0 <= i < |s| => UpperChar(s[i]))
  }

  function StripZeros(s: string): string {
    if s != "" && s[0] == '0' then StripZeros(s[1..]) else s
  }

  lemma DigitTable(d: int)
    requires 0 <= d < 36
    ensures Digit(d) == if d < 10 then ('0' as int + d) as char else ('A' as int + d - 10) as char
  {
  }

  lemma DigitOfValue(c: char)
    requires DigitValue(c) >= 0
    ensures DigitValue(c) < 36 && Digit(DigitValue(c)) == UpperChar(c)
  {
    DigitTable(DigitValue(c));
    hide Digit;
  }

  lemma ValueOfDigit(d: int)
    requires 0 <= d < 36
    ensures DigitValue(Digit(d)) == d && UpperChar(Digit(d)) == Digit(d)
    ensures Digit(d) == '0' <==> d == 0
  {
    DigitTable(d);
    hide Digit;
  }

  /** Exactly the characters of the table are digits, in either case. */
  lemma DigitIff(c: char)
    ensures DigitValue(c) >= 0 <==> exists d | 0 <= d < 36 :: Digit(d) == UpperChar(c)
  {
    if DigitValue(c) >= 0 {
      DigitOfValue(c);
    }
    if d :| 0 <= d < 36 && Digit(d) == UpperChar(c) {
      ValueOfDigit(d);
    }
    hide Digit;
  }

  lemma {:induction false} PrintedIsNumber(value: int)
    ensures AllDigits(Printed(value)) && Upper(Printed(value)) == Printed(value)
    ensures Printed(value) == "" <==> value <= 0
    ensures value > 0 ==> Number(Printed(value)) == value && Printed(value)[0] != '0'
  {
    if value > 0 {
      var front, c := Printed(value / 36), Digit(value % 36);
      PrintedIsNumber(value / 36);
      ValueOfDigit(value % 36);
      hide Digit, DigitValue, UpperChar;
      assert (front + [c])[..|front|] == front;
    }
  }

  // The two directions

  lemma DigitsParse(s: string)
    requires AllDigits(s)
    ensures Strtol36(s) == if Number(s) >= TWO_63 then TWO_63 - 1 else Number(s)
    ensures Parse(s) == Number(s) <==> Number(s) < TWO_31
  {
    DigitPrefixOfDigits(s);
    Saturated(Number(s));
    NoSpaceNoSign(s);
    hide Number, DigitPrefix, ToInt32, SkipSpace, AllDigits, DigitValue;
  }

  /** The whole of `strtol` on text with a digit where the number starts: white space is
      skipped, a sign taken, digits of either case are read up to the first other character, and
      the result saturates at 64 bits. */
  lemma StrtolReads(spaces: string, sign: string, digits: string, rest: string)
    requires forall i | 0 <= i < |spaces| :: spaces[i] as int in {9, 10, 11, 12, 13, 32}
    requires sign in {"", "+", "-"} && AllDigits(digits) && digits != ""
    requires rest != "" ==> DigitValue(rest[0]) < 0
    ensures var n: int := if sign == "-" then -(Number(digits) as int) else Number(digits);
            Strtol36(spaces + sign + digits + rest)
            == if n >= TWO_63 then TWO_63 - 1 else if n < -TWO_63 then -TWO_63 else n
  {
    hide *;
    StrtolParts(spaces, sign, digits, rest);
    SkipsSpace(spaces, sign + (digits + rest));
    PrefixOfDigits(digits, rest);
    StrtolSigned(spaces + sign + digits + rest, sign, digits, rest);
  }

  lemma StrtolParts(spaces: string, sign: string, digits: string, rest: string)
    requires sign in {"", "+", "-"} && AllDigits(digits) && digits != ""
    ensures spaces + sign + digits + rest == spaces + (sign + (digits + rest))
    ensures var t := sign + (digits + rest); t != "" && (DigitValue(t[0]) >= 0 || t[0] in {'+', '-'})
    ensures digits[0] != '+' && digits[0] != '-'
  {
    assert (digits + rest)[0] == digits[0] && DigitValue(digits[0]) >= 0;
    assert (sign + (digits + rest))[0] == if sign == "" then digits[0] else sign[0];
  }

  lemma StrtolSigned(s: string, sign: string, digits: string, rest: string)
    requires sign in {"", "+", "-"} && digits != "" && digits[0] != '+' && digits[0] != '-'
    requires AllDigits(digits) && DigitPrefix(digits + rest) == digits && SkipSpace(s) == sign + (digits + rest)
    ensures var n: int := if sign == "-" then -(Number(digits) as int) else Number(digits);
            Strtol36(s) == if n >= TWO_63 then TWO_63 - 1 else if n < -TWO_63 then -TWO_63 else n
  {
    hide Number, AllDigits, DigitPrefix, SkipSpace;
    var t := sign + (digits + rest);
    assert t[0] == if sign == "" then digits[0] else sign[0];
    assert if sign == "" then t == digits + rest else t[1..] == digits + rest;
  }

  lemma {:induction false} SkipsSpace(spaces: string, t: string)
    requires forall i | 0 <= i < |spaces| :: spaces[i] as int in {9, 10, 11, 12, 13, 32}
    requires t != "" && (DigitValue(t[0]) >= 0 || t[0] in {'+', '-'})
    ensures SkipSpace(spaces + t) == t
  {
    if spaces == "" {
      assert spaces + t == t;
    } else {
      SkipsSpace(spaces[1..], t);
      assert (spaces + t)[1..] == spaces[1..] + t;
    }
  }

  lemma {:induction false} PrefixOfDigits(digits: string, rest: string)
    requires AllDigits(digits) && (rest != "" ==> DigitValue(rest[0]) < 0)
    ensures DigitPrefix(digits + rest) == digits
  {
    hide DigitValue;
    if digits == "" {
      assert digits + rest == rest;
    } else {
      PrefixOfDigits(digits[1..], rest);
      assert (digits + rest)[1..] == digits[1..] + rest;
      assert [digits[0]] + digits[1..] == digits;
    }
  }

  lemma NoSpaceNoSign(s: string)
    requires AllDigits(s)
    ensures SkipSpace(s) == s
    ensures s != "" ==> s[0] != '-' && s[0] != '+'
  {
    assert s != "" ==> DigitValue(s[0]) >= 0;
  }

  lemma Saturated(n: nat)
    ensures ToInt32(if n >= TWO_63 then TWO_63 - 1 else n) == n <==> n < TWO_31
  {
  }

  lemma {:induction false} DigitPrefixOfDigits(s: string)
    requires AllDigits(s)
    ensures DigitPrefix(s) == s
  {
    if s != "" {
      DigitPrefixOfDigits(s[1..]);
      assert [s[0]] + s[1..] == s;
    }
  }

  /** Parsing what was printed gives the code back; for 0 and below nothing is printed. */
  lemma ParsePrinted(value: int)
    requires -TWO_31 <= value < TWO_31
    ensures Parse(Printed(value)) == if value > 0 then value else 0
  {
    PrintedIsNumber(value);
    DigitsParse(Printed(value));
  }

  lemma PrintedStep(n: nat, d: int)
    requires 0 <= d < 36
    ensures Printed(36 * n + d) == if n == 0 && d == 0 then "" else Printed(n) + [Digit(d)]
  {
    assert (36 * n + d) / 36 == n && (36 * n + d) % 36 == d;
  }

  lemma NumberLast(s: string)
    requires AllDigits(s) && s != ""
    ensures var front, c := s[..|s| - 1], s[|s| - 1];
            && AllDigits(front) && DigitValue(c) >= 0 && Number(s) == 36 * Number(front) + DigitValue(c)
            && Upper(s) == Upper(front) + [UpperChar(c)]
  {
    hide DigitValue, UpperChar;
  }

  lemma {:induction false} PrintedNumber(s: string)
    requires AllDigits(s)
    ensures Printed(Number(s)) == StripZeros(Upper(s))
  {
    if s == "" {
      assert Upper(s) == "" && Number(s) == 0 && Printed(0) == "" && StripZeros("") == "";
      hide *;
    } else {
      var front, c := s[..|s| - 1], s[|s| - 1];
      PrintedNumber(front);
      NumberLast(s);
      hide *;
      PrintedPush(Number(s), Number(front), c, Upper(front));
    }
  }

  lemma PrintedPush(m: nat, n: nat, c: char, front: string)
    requires DigitValue(c) >= 0 && m == 36 * n + DigitValue(c)
    requires Printed(n) == StripZeros(front)
    ensures Printed(m) == StripZeros(front + [UpperChar(c)])
  {
    hide *;
    var d := DigitValue(c);
    DigitOfValue(c);
    ValueOfDigit(d);
    PrintedIsNumber(n);
    PrintedStep(n, d);
    StripZerosPush(front, UpperChar(c));
  }

  lemma {:induction false} StripZerosPush(s: string, c: char)
    ensures StripZeros(s + [c]) == if StripZeros(s) == "" then (if c == '0' then "" else [c]) else StripZeros(s) + [c]
  {
    if s == "" {
      assert s + [c] == [c];
    } else {
      assert (s + [c])[1..] == s[1..] + [c];
      StripZerosPush(s[1..], c);
    }
  }

  /** A code with a leading zero is not printed as it was received. */
  lemma LeadingZeroIsLost()
    ensures AllDigits("01000") && Printed(Parse("01000")) != "01000"
  {
    assert AllDigits("01000");
    FiveIsSmall("01000");
    assert Upper("01000") == "01000";
    PrintParsed("01000");
    hide *;
  }

  /** Printing the code of a digit string gives it back in upper case without leading zeros,
      so it gives the whole string back exactly when that does not start with a zero. */
  lemma PrintParsed(s: string)
    requires AllDigits(s) && Number(s) < TWO_31
    ensures Printed(Parse(s)) == StripZeros(Upper(s))
    ensures Printed(Parse(s)) == Upper(s) <==> s == "" || s[0] != '0'
  {
    DigitsParse(s);
    PrintedNumber(s);
    StripZerosShorter(Upper(s));
  }

  lemma {:induction false} StripZerosShorter(s: string)
    ensures |StripZeros(s)| <= |s|
    ensures s != "" && s[0] == '0' ==> |StripZeros(s)| < |s|
  {
    if s != "" && s[0] == '0' {
      StripZerosShorter(s[1..]);
    }
  }

  /** Strings of one length with the same number are the same up to case. */
  lemma {:induction false} NumberInjective(s: string, t: string)
    requires AllDigits(s) && AllDigits(t) && |s| == |t| && Number(s) == Number(t)
    ensures Upper(s) == Upper(t)
  {
    if s != "" {
      var f, g := s[..|s| - 1], t[..|t| - 1];
      DigitOfValue(s[|s| - 1]);
      DigitOfValue(t[|t| - 1]);
      LastDigit(Number(f), DigitValue(s[|s| - 1]), Number(g), DigitValue(t[|t| - 1]));
      hide DigitValue, Number, Digit, UpperChar;
      NumberInjective(f, g);
      assert Upper(s) == Upper(f) + [UpperChar(s[|s| - 1])];
      assert Upper(t) == Upper(g) + [UpperChar(t[|t| - 1])];
    }
  }

  lemma LastDigit(a: int, x: int, b: int, y: int)
    requires 0 <= x < 36 && 0 <= y < 36
    ensures 36 * a + x == 36 * b + y <==> a == b && x == y
  {
  }

  /** A five-character SQLSTATE fits an `int`, and its code determines it up to case. */
  lemma FiveCharacters(s: string, t: string)
    requires AllDigits(s) && AllDigits(t) && |s| == |t| == 5
    ensures 0 <= Parse(s) < 60_466_176
    ensures Parse(s) == Parse(t) <==> Upper(s) == Upper(t)
    ensures Parse(s) == 0 <==> forall i | 0 <= i < 5 :: s[i] == '0'
  {
    FiveIsSmall(s);
    FiveIsSmall(t);
    DigitsParse(s);
    DigitsParse(t);
    ZeroIff(s);
    hide Parse, Number, DigitValue;
    if Number(s) == Number(t) {
      NumberInjective(s, t);
    }
    if Upper(s) == Upper(t) {
      SameUpperSameNumber(s, t);
    }
  }

  /** Of five digits only "00000" has the value of success. */
  lemma FiveDigits(s: string)
    requires AllDigits(s) && |s| == 5
    ensures Parse(s) == Number(s)
    ensures Number(s) == 0 <==> s == "00000"
  {
    FiveIsSmall(s);
    DigitsParse(s);
    ZeroIff(s);
    hide Parse, Number, DigitValue;
  }

  /** The code in digits, and codes as the enumeration lists them. */
  lemma CodeOfDigits(s: string)
    requires AllDigits(s) && |s| == 5
    ensures Parse(s) == (((DigitValue(s[0]) * 36 + DigitValue(s[1])) * 36 + DigitValue(s[2])) * 36
                         + DigitValue(s[3])) * 36 + DigitValue(s[4])
    ensures s == "01000" ==> Parse(s) == 46656
    ensures s == "23505" ==> Parse(s) == 3505685
    ensures s == "42P01" ==> Parse(s) == 6844177
  {
    FiveDigits(s);
    DigitsOf();
    hide *;
    var s4, s3, s2, s1 := s[..4], s[..4][..3], s[..4][..3][..2], s[..4][..3][..2][..1];
    NumberLast(s);
    NumberLast(s4);
    NumberLast(s3);
    NumberLast(s2);
    NumberLast(s1);
    NumberOfNothing(s1[..0]);
  }

  lemma NumberOfNothing(s: string)
    requires s == ""
    ensures AllDigits(s) && Number(s) == 0
  {
  }

  lemma DigitsOf()
    ensures DigitValue('0') == 0 && DigitValue('1') == 1 && DigitValue('2') == 2 && DigitValue('3') == 3
    ensures DigitValue('4') == 4 && DigitValue('5') == 5 && DigitValue('P') == 25
  {
  }

  /** The SQLSTATE of success. */
  lemma ZerosParse()
    ensures Parse("00000") == 0
  {
    forall i | 0 <= i < |"00000"| ensures DigitValue("00000"[i]) >= 0 {
      assert "00000"[i] == '0';
    }
    hide *;
    FiveCharacters("00000", "00000");
  }

  lemma {:induction false} ZeroIff(s: string)
    requires AllDigits(s)
    ensures Number(s) == 0 <==> forall i | 0 <= i < |s| :: s[i] == '0'
  {
    if s != "" {
      ZeroIff(s[..|s| - 1]);
      assert DigitValue(s[|s| - 1]) == 0 <==> s[|s| - 1] == '0';
    }
  }

  lemma FiveIsSmall(s: string)
    requires AllDigits(s) && |s| == 5
    ensures Number(s) < 60_466_176
  {
    assert Number(s[..1]) < 36 by { assert s[..1][..0] == ""; }
    assert Number(s[..2]) < 1296 by { assert s[..2][..1] == s[..1]; }
    assert Number(s[..3]) < 46_656 by { assert s[..3][..2] == s[..2]; }
    assert Number(s[..4]) < 1_679_616 by { assert s[..4][..3] == s[..3]; }
  }

  lemma {:induction false} SameUpperSameNumber(s: string, t: string)
    requires AllDigits(s) && AllDigits(t) && |s| == |t| && Upper(s) == Upper(t)
    ensures Number(s) == Number(t)
  {
    if s != "" {
      var f, g, k := s[..|s| - 1], t[..|t| - 1], |s| - 1;
      forall i | 0 <= i < k ensures UpperChar(f[i]) == UpperChar(g[i]) {
        assert Upper(s)[i] == Upper(t)[i];
      }
      assert Upper(f) == Upper(g);
      SameUpperSameNumber(f, g);
      assert UpperChar(s[k]) == UpperChar(t[k]) by { assert Upper(s)[k] == Upper(t)[k]; }
      hide Upper;
    }
  }
}
