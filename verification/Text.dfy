/** Splitting and joining on a separator, stripping, and decimal numerals. */
module Text {
  import opened Sequences
  import opened Wrappers

  // ---------------------------------------------------------------- split and join

  function Split(s: string, c: char): (parts: seq<string>)
    ensures |parts| >= 1
  {
    if s == "" then [""]
    else
      var rest := Split(s[1..], c);
      if s[0] == c then [""] + rest else [[s[0]] + rest[0]] + rest[1..]
  }

  function Join(parts: seq<string>, c: char): string
    requires |parts| >= 1
  {
    if |parts| == 1 then parts[0] else parts[0] + [c] + Join(parts[1..], c)
  }

  lemma {:induction false} JoinSplit(s: string, c: char)
    ensures Join(Split(s, c), c) == s
  {
    if s != "" {
      JoinSplit(s[1..], c);
      var rest := Split(s[1..], c);
      if s[0] == c {
        assert Split(s, c)[1..] == rest;
      } else {
        assert Split(s, c)[1..] == rest[1..];
        assert s == [s[0]] + Join(rest, c);
      }
    }
  }

  lemma {:induction false} JoinAppend(a: seq<string>, b: seq<string>, c: char)
    requires |a| >= 1 && |b| >= 1
    ensures Join(a + b, c) == Join(a, c) + [c] + Join(b, c)
  {
    assert (a + b)[1..] == a[1..] + b;
    if |a| > 1 {
      JoinAppend(a[1..], b, c);
      assert Join(a + b, c) == a[0] + [c] + (Join(a[1..], c) + [c] + Join(b, c));
    } else {
      assert a[1..] + b == b;
    }
  }

  lemma {:induction false} SplitWithout(s: string, c: char)
    requires c !in s
    ensures Split(s, c) == [s]
  {
    if s != "" {
      SplitWithout(s[1..], c);
      assert s == [s[0]] + s[1..];
    }
  }

  /** Splitting distributes over each separator. */
  lemma {:induction false} SplitAppend(a: string, b: string, c: char)
    ensures Split(a + [c] + b, c) == Split(a, c) + Split(b, c)
  {
    var s := a + [c] + b;
    if a == "" {
      assert s[1..] == b;
    } else {
      assert s[1..] == a[1..] + [c] + b;
      SplitAppend(a[1..], b, c);
      Prepend(a[0], c, Split(a[1..], c), Split(b, c));
      assert s[0] == a[0];
    }
  }

  /** Adding one character in front only touches the first part. */
  lemma Prepend(x: char, c: char, rest: seq<string>, more: seq<string>)
    requires |rest| >= 1
    ensures [""] + (rest + more) == ([""] + rest) + more
    ensures [[x] + (rest + more)[0]] + (rest + more)[1..] == ([[x] + rest[0]] + rest[1..]) + more
  {
    assert (rest + more)[1..] == rest[1..] + more;
  }

  lemma {:induction false} SplitParts(s: string, c: char, part: string)
    requires part in Split(s, c)
    ensures c !in part && forall x | x in part :: x in s
  {
    if s != "" {
      var rest := Split(s[1..], c);
      if part in rest {
        SplitParts(s[1..], c, part);
      } else if s[0] != c {
        SplitParts(s[1..], c, rest[0]);
      }
    }
  }

  /** Joining parts that do not hold the separator and splitting gives the parts back. */
  lemma {:induction false} SplitJoin(parts: seq<string>, c: char)
    requires |parts| >= 1 && forall p | p in parts :: c !in p
    ensures Split(Join(parts, c), c) == parts
  {
    SplitWithout(parts[0], c);
    if |parts| > 1 {
      SplitJoin(parts[1..], c);
      SplitAppend(parts[0], Join(parts[1..], c), c);
    }
  }

  /** One more separator at the end opens one more, empty part. */
  lemma SplitEndSeparator(s: string, c: char)
    ensures Split(s + [c], c) == Split(s, c) + [""]
  {
    SplitAppend(s, "", c);
    assert s + [c] + "" == s + [c];
  }

  /** One more character at the end of the last part. */
  function Extended(parts: seq<string>, x: char): (r: seq<string>)
    requires |parts| >= 1
    ensures |r| == |parts|
  {
    parts[..|parts| - 1] + [parts[|parts| - 1] + [x]]
  }

  lemma ExtendedBehind(rest: seq<string>, x: char)
    requires |rest| >= 1
    ensures Extended([""] + rest, x) == [""] + Extended(rest, x)
  {
  }

  lemma ExtendedFirst(y: char, rest: seq<string>, x: char)
    requires |rest| >= 1
    ensures Extended([[y] + rest[0]] + rest[1..], x) == [[y] + Extended(rest, x)[0]] + Extended(rest, x)[1..]
  {
    if |rest| == 1 {
      assert [y] + (rest[0] + [x]) == ([y] + rest[0]) + [x];
    }
  }

  /** Any other character at the end goes to the last part. */
  lemma {:induction false} SplitEndCharacter(s: string, x: char, c: char)
    requires x != c
    ensures Split(s + [x], c) == Extended(Split(s, c), x)
  {
    if s == "" {
      assert s + [x] == [x] && [x][1..] == "";
      assert [x] + "" == "" + [x];
    } else {
      var rest := Split(s[1..], c);
      assert (s + [x])[1..] == s[1..] + [x];
      SplitEndCharacter(s[1..], x, c);
      if s[0] == c {
        ExtendedBehind(rest, x);
      } else {
        ExtendedFirst(s[0], rest, x);
      }
    }
  }

  // ---------------------------------------------------------------- decimal numerals

  const DIGITS := "0123456789"

  predicate IsDigit(c: char) {
    '0' <= c <= '9'
  }

  function DigitValue(c: char): (d: nat)
    requires IsDigit(c)
    ensures d < 10
  {
    c as int - '0' as int
  }

  predicate AllDigits(s: string) {
    forall k | 0 <= k < |s| :: IsDigit(s[k])
  }

  function Decimal(n: nat): (s: string)
    ensures |s| >= 1 && AllDigits(s)
  {
    if n < 10 then [DIGITS[n]] else Decimal(n / 10) + [DIGITS[n % 10]]
  }

  function DigitsValue(s: string): nat
    requires AllDigits(s)
  {
    if s == "" then 0 else 10 * DigitsValue(s[..|s| - 1]) + DigitValue(s[|s| - 1])
  }

  lemma DigitStandsFor(k: nat)
    requires k < 10
    ensures IsDigit(DIGITS[k]) && DigitValue(DIGITS[k]) == k
  {
  }

  /** Reading a rendered number gives it back, so rendering is injective. */
  lemma {:induction false} DecimalRoundTrip(n: nat)
    ensures DigitsValue(Decimal(n)) == n
  {
    if n < 10 {
      DigitStandsFor(n);
      ValueEnd("", DIGITS[n]);
      assert Decimal(n) == "" + [DIGITS[n]];
    } else {
      DecimalRoundTrip(n / 10);
      DigitStandsFor(n % 10);
      ValueEnd(Decimal(n / 10), DIGITS[n % 10]);
      assert Decimal(n) == Decimal(n / 10) + [DIGITS[n % 10]];
    }
  }

  /** The text before the last digit and one underscore in front of it, if there is one. */
  function BeforeLast(s: string): (r: string)
    requires |s| >= 2
    ensures |r| < |s|
  {
    if s[|s| - 2] == '_' then s[..|s| - 2] else s[..|s| - 1]
  }

  /** Digits with single underscores allowed between them; anything else is not a number. */
  function ReadDigits(s: string): Option<nat> {
    if s == "" || !IsDigit(s[|s| - 1]) then None
    else
      var last := DigitValue(s[|s| - 1]);
      if |s| == 1 then Some(last)
      else
        match ReadDigits(BeforeLast(s))
        case None => None
        case Some(value) => Some(10 * value + last)
  }

  /** A whole number with an optional sign. */
  function ParseInt(s: string): Option<int> {
    var signed := s != "" && (s[0] == '-' || s[0] == '+');
    var magnitude := ReadDigits(if signed then s[1..] else s);
    if magnitude.None? then None
    else
      var value: int := magnitude.value;
      Some(if signed && s[0] == '-' then -value else value)
  }

  /** A digit, or an underscore right after one. */
  predicate DigitContinues(s: string, k: nat)
    requires k < |s|
  {
    IsDigit(s[k]) || (s[k] == '_' && k > 0 && IsDigit(s[k - 1]))
  }

  /** Runs of digits with single underscores between them. */
  predicate IsNumeral(s: string) {
    s != "" && IsDigit(s[|s| - 1]) && forall k | 0 <= k < |s| :: DigitContinues(s, k)
  }

  /** The digits of a text, in order. */
  function DigitsOf(s: string): (r: string)
    ensures AllDigits(r)
  {
    OnlyDigits(s);
    Filter(IsDigit, s)
  }

  lemma OnlyDigits(s: string)
    ensures AllDigits(Filter(IsDigit, s))
  {
    var r := Filter(IsDigit, s);
    forall k | 0 <= k < |r|
      ensures IsDigit(r[k])
    {
      FilterMembers(IsDigit, s, r[k]);
    }
  }

  lemma NumeralStep(s: string)
    requires |s| >= 2 && IsDigit(s[|s| - 1])
    ensures IsNumeral(s) <==> IsNumeral(BeforeLast(s))
  {
    var n, rest := |s| - 1, BeforeLast(s);
    forall k | 0 <= k < |rest|
      ensures DigitContinues(rest, k) <==> DigitContinues(s, k)
    {
    }
    assert DigitContinues(s, n);
    if IsNumeral(s) {
      assert DigitContinues(s, n - 1);
    }
  }

  lemma DigitsEnd(s: string, x: char)
    ensures DigitsOf(s + [x]) == DigitsOf(s) + if IsDigit(x) then [x] else ""
  {
    FilterAppend(IsDigit, s, [x]);
    assert [x][1..] == "";
  }

  lemma DigitsAfterUnderscore(s: string, x: char)
    requires IsDigit(x)
    ensures DigitsOf(s + ['_'] + [x]) == DigitsOf(s) + [x]
  {
    DigitsEnd(s + ['_'], x);
    DigitsEnd(s, '_');
  }

  lemma DigitsStep(s: string, rest: string, last: char)
    requires IsDigit(last) && (s == rest + [last] || s == rest + ['_'] + [last])
    ensures DigitsOf(s) == DigitsOf(rest) + [last]
  {
    if s == rest + [last] {
      DigitsEnd(rest, last);
    } else {
      DigitsAfterUnderscore(rest, last);
    }
  }

  lemma ValueEnd(digits: string, last: char)
    requires AllDigits(digits) && IsDigit(last)
    ensures DigitsValue(digits + [last]) == 10 * DigitsValue(digits) + DigitValue(last)
  {
    assert (digits + [last])[..|digits|] == digits;
  }

  /** Which texts are read as digits. */
  lemma {:induction false} ReadDigitsIff(s: string)
    ensures ReadDigits(s).Some? <==> IsNumeral(s)
  {
    if |s| >= 2 && IsDigit(s[|s| - 1]) {
      ReadDigitsIff(BeforeLast(s));
      NumeralStep(s);
    } else if |s| == 1 && IsDigit(s[0]) {
      assert DigitContinues(s, 0);
    }
  }

  lemma ReadStep(s: string, rest: string, last: char)
    requires |s| >= 2 && last == s[|s| - 1] && rest == BeforeLast(s) && ReadDigits(s).Some?
    ensures IsDigit(last) && ReadDigits(rest).Some?
    ensures ReadDigits(s).value == 10 * ReadDigits(rest).value + DigitValue(last)
    ensures s == rest + [last] || s == rest + ['_'] + [last]
  {
  }

  /** And as what: underscores do not count. */
  lemma {:induction false} ReadDigitsValue(s: string)
    requires ReadDigits(s).Some?
    ensures ReadDigits(s).value == DigitsValue(DigitsOf(s))
  {
    if |s| == 1 {
      assert s[..0] == "" && DigitsOf(s) == s;
    } else {
      var rest, last := BeforeLast(s), s[|s| - 1];
      ReadStep(s, rest, last);
      ReadDigitsValue(rest);
      DigitsStep(s, rest, last);
      ValueEnd(DigitsOf(rest), last);
    }
  }

  lemma DigitsKept(s: string)
    requires AllDigits(s)
    ensures DigitsOf(s) == s
  {
    FilterKeeps(IsDigit, s);
  }

  /** A rendered number is read back. */
  lemma ReadDecimal(n: nat)
    ensures ReadDigits(Decimal(n)) == Some(n)
  {
    var s := Decimal(n);
    forall k | 0 <= k < |s|
      ensures DigitContinues(s, k)
    {
    }
    ReadDigitsIff(s);
    ReadDigitsValue(s);
    DigitsKept(s);
    DecimalRoundTrip(n);
  }

  lemma ParseDecimal(n: nat)
    ensures ParseInt(Decimal(n)) == Some(n)
  {
    ReadDecimal(n);
    assert IsDigit(Decimal(n)[0]);
  }

  /** The sign of a text that has one. */
  predicate Signed(s: string, sign: char) {
    s != "" && s[0] == sign && IsNumeral(s[1..])
  }

  lemma NumeralHasNoSign(s: string)
    requires IsNumeral(s)
    ensures IsDigit(s[0])
  {
    assert DigitContinues(s, 0);
  }

  /** A whole number is a numeral, or a sign and a numeral; a minus sign negates. */
  lemma ParseIntIff(s: string)
    ensures ParseInt(s) ==
      if IsNumeral(s) then Some(DigitsValue(DigitsOf(s)))
      else if Signed(s, '+') then Some(DigitsValue(DigitsOf(s[1..])))
      else if Signed(s, '-') then Some(-(DigitsValue(DigitsOf(s[1..])) as int))
      else None
  {
    ReadDigitsIff(s);
    if IsNumeral(s) {
      NumeralHasNoSign(s);
      ReadDigitsValue(s);
    } else if s != "" {
      ReadDigitsIff(s[1..]);
      if IsNumeral(s[1..]) {
        ReadDigitsValue(s[1..]);
      }
    }
  }

  // ---------------------------------------------------------------- white space

  /** The characters that Python strips. */
  predicate IsSpace(c: char) {
    var k := c as int;
    || 9 <= k <= 13 || 28 <= k <= 32 || k == 0x85 || k == 0xA0 || k == 0x1680 || 0x2000 <= k <= 0x200A
    || k == 0x2028 || k == 0x2029 || k == 0x202F || k == 0x205F || k == 0x3000
  }

  /** The characters at which Python ends a line. */
  predicate IsLineBreak(c: char) {
    var k := c as int;
    10 <= k <= 13 || 28 <= k <= 30 || k == 0x85 || k == 0x2028 || k == 0x2029
  }

  // ---------------------------------------------------------------- stripping

  function StripLeft(s: string, drop: char -> bool): (r: string)
    ensures |r| <= |s|
  {
    if s != "" && drop(s[0]) then StripLeft(s[1..], drop) else s
  }

  function StripRight(s: string, drop: char -> bool): (r: string)
    ensures |r| <= |s|
  {
    if s != "" && drop(s[|s| - 1]) then StripRight(s[..|s| - 1], drop) else s
  }

  function Strip(s: string, drop: char -> bool): string {
    StripRight(StripLeft(s, drop), drop)
  }

  /** A text that neither starts nor ends with a dropped character is unchanged. */
  lemma StripTight(s: string, drop: char -> bool)
    requires s == "" || (!drop(s[0]) && !drop(s[|s| - 1]))
    ensures Strip(s, drop) == s
  {
  }

  lemma {:induction false} StripLeftEnd(s: string, drop: char -> bool)
    ensures var r := StripLeft(s, drop);
      r == s[|s| - |r|..] && (r == "" || !drop(r[0]))
  {
    if s != "" && drop(s[0]) {
      StripLeftEnd(s[1..], drop);
    }
  }

  lemma {:induction false} StripRightEnd(s: string, drop: char -> bool)
    ensures var r := StripRight(s, drop);
      r == s[..|r|] && (r == "" || !drop(r[|r| - 1]))
  {
    if s != "" && drop(s[|s| - 1]) {
      StripRightEnd(s[..|s| - 1], drop);
    }
  }

  /** A stripped text is tight: stripping again changes nothing. */
  lemma StripIsTight(s: string, drop: char -> bool)
    ensures var r := Strip(s, drop);
      (r == "" || (!drop(r[0]) && !drop(r[|r| - 1]))) && forall x | x in r :: x in s
  {
    StripLeftEnd(s, drop);
    StripRightEnd(StripLeft(s, drop), drop);
  }

  lemma {:induction false} StripLeftEndCharacter(s: string, x: char, drop: char -> bool)
    requires drop(x)
    ensures StripLeft(s + [x], drop) == if StripLeft(s, drop) == "" then "" else StripLeft(s, drop) + [x]
  {
    if s == "" {
      assert (s + [x])[1..] == "";
    } else if drop(s[0]) {
      assert (s + [x])[1..] == s[1..] + [x];
      StripLeftEndCharacter(s[1..], x, drop);
    }
  }

  /** A dropped character at the end makes no difference. */
  lemma StripEndCharacter(s: string, x: char, drop: char -> bool)
    requires drop(x)
    ensures Strip(s + [x], drop) == Strip(s, drop)
  {
    StripLeftEndCharacter(s, x, drop);
    var left := StripLeft(s, drop);
    assert (left + [x])[..|left|] == left;
  }
}
