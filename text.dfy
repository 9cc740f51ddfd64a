/** JavaScript string operations the application relies on: `trim`, `split`/`join`
    on one separator character, `padStart(2, '0')`, decimal rendering of numbers,
    and `toLowerCase`. */
module Text {

  /** JavaScript's white space and line terminators: what `trim()` removes and
      what `\s` matches in a regular expression. */
  predicate IsSpace(c: char) {
    || c == ' ' || c == '\t' || c == '\n' || c == '\r'
    || c == '\U{000B}' || c == '\U{000C}' || c == '\U{00A0}' || c == '\U{1680}'
    || ('\U{2000}' <= c <= '\U{200A}')
    || c == '\U{2028}' || c == '\U{2029}' || c == '\U{202F}' || c == '\U{205F}'
    || c == '\U{3000}' || c == '\U{FEFF}'
  }

  predicate NoSpace(s: string) {
    forall i :: 0 <= i < |s| ==> !IsSpace(s[i])
  }

  /** A slice of text without white space has none either. */
  lemma NoSpaceSlice(s: string, from: nat, to: nat)
    requires NoSpace(s) && from <= to <= |s|
    ensures NoSpace(s[from..to])
  {
    forall j | 0 <= j < to - from
      ensures !IsSpace(s[from..to][j])
    {
      assert s[from..to][j] == s[from + j];
    }
  }

  predicate AllSpace(s: string) {
    forall i :: 0 <= i < |s| ==> IsSpace(s[i])
  }

  /** `s.trimStart()`: drops the leading white space, and only that. */
  function TrimStart(s: string): (r: string)
    ensures |r| <= |s| && r == s[|s| - |r|..]
    ensures AllSpace(s[..|s| - |r|])
    ensures r == [] || !IsSpace(r[0])
  {
    if s != [] && IsSpace(s[0]) then
      var r := TrimStart(s[1..]);
      assert s[..|s| - |r|] == [s[0]] + s[1..][..|s| - 1 - |r|];
      r
    else s
  }

  /** `s.trimEnd()`: drops the trailing white space, and only that. */
  function TrimEnd(s: string): (r: string)
    ensures |r| <= |s| && r == s[..|r|]
    ensures AllSpace(s[|r|..])
    ensures r == [] || !IsSpace(r[|r| - 1])
  {
    if s != [] && IsSpace(s[|s| - 1]) then
      var r := TrimEnd(s[..|s| - 1]);
      assert s[|r|..] == s[..|s| - 1][|r|..] + [s[|s| - 1]];
      r
    else s
  }

  /** `s.trim()`. */
  function Trim(s: string): string {
    TrimEnd(TrimStart(s))
  }

  /** `!s.trim()`: the string is empty or white space only. */
  lemma {:induction false} TrimEmptyIffAllSpace(s: string)
    ensures Trim(s) == [] <==> AllSpace(s)
  {
    var t := TrimStart(s);
    if Trim(s) == [] {
      assert s == s[..|s| - |t|] + t;
      assert AllSpace(t) by { assert t[0..] == t; }
    }
  }

  /** A string without white space is its own trim. */
  lemma TrimNoSpace(s: string)
    requires NoSpace(s)
    ensures Trim(s) == s
  {
    if s != [] {
      assert !IsSpace(s[0]);
      assert !IsSpace(s[|s| - 1]);
    }
  }

  /** Neither starts nor ends with white space. */
  predicate IsTrimmed(s: string) {
    s == [] || (!IsSpace(s[0]) && !IsSpace(s[|s| - 1]))
  }

  /** A string is its own trim exactly when it is trimmed. */
  lemma TrimmedIsFixed(s: string)
    ensures IsTrimmed(s) <==> Trim(s) == s
  {
    TrimIdempotent(s);
    if s != [] && !IsSpace(s[0]) {
      assert TrimStart(s) == s;
    }
  }

  /** A trimmed string neither starts nor ends with white space, and trimming
      it again changes nothing. */
  lemma TrimIdempotent(s: string)
    ensures IsTrimmed(Trim(s))
    ensures Trim(Trim(s)) == Trim(s)
  {
    var t := TrimStart(s);
    var u := TrimEnd(t);
    if u != [] {
      assert u[0] == t[0];
    }
  }

  /** Number of occurrences of `c` in `s`. */
  function Count(s: string, c: char): nat {
    if s == [] then 0 else (if s[0] == c then 1 else 0) + Count(s[1..], c)
  }

  lemma {:induction false} CountZero(s: string, c: char)
    ensures Count(s, c) == 0 <==> c !in s
  {
    if s != [] {
      CountZero(s[1..], c);
      assert s == [s[0]] + s[1..];
    }
  }

  lemma {:induction false} CountAppend(a: string, b: string, c: char)
    ensures Count(a + b, c) == Count(a, c) + Count(b, c)
  {
    if a == [] {
      assert a + b == b;
    } else {
      assert (a + b)[1..] == a[1..] + b;
      CountAppend(a[1..], b, c);
    }
  }

  /** Index of the first `c` in `s`, or `|s|` when there is none. */
  function IndexOf(s: string, c: char): (i: nat)
    ensures i <= |s|
    ensures c !in s[..i]
    ensures i < |s| ==> s[i] == c
  {
    if s == [] then 0
    else if s[0] == c then 0
    else 1 + IndexOf(s[1..], c)
  }

  /** `s.split(sep)` for a one-character separator. */
  function Split(s: string, sep: char): (r: seq<string>)
    ensures |r| >= 1
    ensures forall k :: 0 <= k < |r| ==> sep !in r[k]
    decreases |s|
  {
    var i := IndexOf(s, sep);
    if i == |s| then [s] else [s[..i]] + Split(s[i + 1..], sep)
  }

  /** `parts.join(sep)`. */
  function Join(parts: seq<string>, sep: string): string {
    if parts == [] then []
    else if |parts| == 1 then parts[0]
    else parts[0] + sep + Join(parts[1..], sep)
  }

  lemma JoinTwo(a: string, b: string, sep: string)
    ensures Join([a, b], sep) == a + sep + b
  {
    assert [a, b][1..] == [b];
  }

  /** Text with one separator splits into the parts on either side of it. */
  lemma SplitTwo(a: string, b: string, sep: char)
    requires sep !in a && sep !in b
    ensures Split(a + [sep] + b, sep) == [a, b]
  {
    SplitJoin([a, b], sep);
    JoinTwo(a, b, [sep]);
  }

  /** Joining the pieces of a split gives the string back. */
  lemma {:induction false} JoinSplit(s: string, sep: char)
    ensures Join(Split(s, sep), [sep]) == s
    decreases |s|
  {
    var i := IndexOf(s, sep);
    if i < |s| {
      var rest := s[i + 1..];
      var parts := Split(s, sep);
      assert parts == [s[..i]] + Split(rest, sep);
      assert parts[1..] == Split(rest, sep);
      JoinSplit(rest, sep);
      assert Join(parts, [sep]) == s[..i] + [sep] + rest;
      assert s == s[..i] + [sep] + rest;
    } else {
      assert Split(s, sep) == [s];
    }
  }

  /** Splitting a join of separator-free pieces gives the pieces back. */
  lemma {:induction false} SplitJoin(parts: seq<string>, sep: char)
    requires |parts| >= 1
    requires forall k :: 0 <= k < |parts| ==> sep !in parts[k]
    ensures Split(Join(parts, [sep]), sep) == parts
  {
    var p := parts[0];
    if |parts| == 1 {
      assert IndexOf(p, sep) == |p|;
    } else {
      var rest := Join(parts[1..], [sep]);
      var s := p + [sep] + rest;
      assert s[..|p|] == p;
      assert IndexOf(s, sep) == |p| by { IndexOfPrefix(p, [sep] + rest, sep); assert s == p + ([sep] + rest); }
      assert s[|p| + 1..] == rest;
      SplitJoin(parts[1..], sep);
    }
  }

  lemma {:induction false} IndexOfPrefix(a: string, b: string, c: char)
    requires c !in a
    requires b != [] && b[0] == c
    ensures IndexOf(a + b, c) == |a|
  {
    if a == [] {
      assert a + b == b;
    } else {
      assert (a + b)[1..] == a[1..] + b;
      IndexOfPrefix(a[1..], b, c);
    }
  }

  /** There is one more piece than there are separators. */
  lemma {:induction false} SplitCount(s: string, sep: char)
    ensures |Split(s, sep)| == Count(s, sep) + 1
    decreases |s|
  {
    var i := IndexOf(s, sep);
    CountZero(s[..i], sep);
    if i == |s| {
      assert s[..i] == s;
    } else {
      SplitCount(s[i + 1..], sep);
      assert s == s[..i] + ([sep] + s[i + 1..]);
      CountAppend(s[..i], [sep] + s[i + 1..], sep);
      CountAppend([sep], s[i + 1..], sep);
      assert ([sep] + s[i + 1..])[1..] == s[i + 1..];
    }
  }

  /** `s.padStart(2, '0')`. */
  function PadStart2(s: string): (r: string)
    ensures |r| == if |s| >= 2 then |s| else 2
  {
    if |s| >= 2 then s else seq(2 - |s|, _ => '0') + s
  }

  /** Padding adds only '0's in front. */
  lemma PadStart2Keeps(s: string, c: char)
    requires c != '0' && c !in s
    ensures c !in PadStart2(s)
  {
  }

  lemma PadStart2Twice(s: string)
    ensures PadStart2(PadStart2(s)) == PadStart2(s)
  {
  }

  /** `s.slice(0, n)`. */
  function Prefix(s: string, n: nat): (r: string)
    ensures |r| == if |s| <= n then |s| else n
    ensures r == s[..|r|]
  {
    if |s| <= n then s else s[..n]
  }

  predicate IsDigit(c: char) {
    '0' <= c <= '9'
  }

  predicate AllDigits(s: string) {
    forall i :: 0 <= i < |s| ==> IsDigit(s[i])
  }

  /** Digits are not white space. */
  lemma DigitsHaveNoSpace(s: string)
    requires AllDigits(s)
    ensures NoSpace(s)
  {
    forall i | 0 <= i < |s|
      ensures !IsSpace(s[i])
    {
      assert IsDigit(s[i]);
    }
  }

  function DigitChar(d: nat): (c: char)
    requires d < 10
    ensures IsDigit(c)
  {
    ['0', '1', '2', '3', '4', '5', '6', '7', '8', '9'][d]
  }

  function DigitValue(c: char): (d: nat)
    requires IsDigit(c)
    ensures d < 10 && DigitChar(d) == c
  {
    (c as int - '0' as int) as nat
  }

  /** `String(n)` for a non-negative integer: its decimal digits, no leading zero. */
  function NatToString(n: nat): (r: string)
    ensures |r| >= 1 && AllDigits(r)
    ensures n < 10 <==> |r| == 1
    ensures n < 100 <==> |r| <= 2
    ensures n >= 10 ==> r[0] != '0'
  {
    if n < 10 then [DigitChar(n)] else NatToString(n / 10) + [DigitChar(n % 10)]
  }

  /** The value of a string of decimal digits. */
  function ParseNat(s: string): nat
    requires AllDigits(s)
  {
    if s == [] then 0 else 10 * ParseNat(s[..|s| - 1]) + DigitValue(s[|s| - 1])
  }

  lemma ParseNatTwoDigits(s: string)
    requires |s| == 2 && AllDigits(s)
    ensures ParseNat(s) == 10 * DigitValue(s[0]) + DigitValue(s[1])
  {
    var first := s[..1];
    assert first[..0] == [] && first[0] == s[0];
    assert ParseNat(first) == DigitValue(s[0]);
    assert s[..|s| - 1] == first;
  }

  lemma {:induction false} ParseNatToString(n: nat)
    ensures ParseNat(NatToString(n)) == n
  {
    if n >= 10 {
      var s := NatToString(n);
      assert s[..|s| - 1] == NatToString(n / 10);
      ParseNatToString(n / 10);
    }
  }

  /** Leading zeros do not change the value. */
  lemma {:induction false} ParseNatLeadingZeros(z: string, s: string)
    requires forall i :: 0 <= i < |z| ==> z[i] == '0'
    requires AllDigits(s)
    ensures AllDigits(z + s) && ParseNat(z + s) == ParseNat(s)
    decreases |s|
  {
    if s == [] {
      assert z + s == z;
      ParseNatZeros(z);
    } else {
      assert (z + s)[..|z + s| - 1] == z + s[..|s| - 1];
      ParseNatLeadingZeros(z, s[..|s| - 1]);
    }
  }

  lemma {:induction false} ParseNatZeros(z: string)
    requires forall i :: 0 <= i < |z| ==> z[i] == '0'
    ensures AllDigits(z) && ParseNat(z) == 0
  {
    if z != [] {
      ParseNatZeros(z[..|z| - 1]);
    }
  }

  /** `String(n).padStart(2, '0')`: two digits for numbers below 100. */
  function Pad2(n: nat): (r: string)
    ensures AllDigits(r)
    ensures n < 100 <==> |r| == 2
  {
    PadStart2(NatToString(n))
  }

  /** A single digit is padded with one '0'. */
  lemma Pad2OneDigit(d: nat)
    requires d < 10
    ensures Pad2(d) == ['0', DigitChar(d)]
  {
    var zero: string := seq(1, _ => '0');
    assert zero == "0";
  }

  /** Numbers from 1000 to 9999 are written with four digits. */
  lemma NatToStringFourDigits(n: nat)
    requires 1000 <= n <= 9999
    ensures |NatToString(n)| == 4
  {
    var hundreds := n / 10 / 10;
    assert 10 <= hundreds < 100;
    assert |NatToString(hundreds)| == 2;
    assert |NatToString(n / 10)| == 3;
  }

  /** Reading a padded number back gives the number. */
  lemma Pad2Value(n: nat)
    ensures ParseNat(Pad2(n)) == n
  {
    var s := NatToString(n);
    ParseNatToString(n);
    if |s| < 2 {
      ParseNatLeadingZeros(seq(2 - |s|, _ => '0'), s);
    }
  }

  /** `HH:MM` text: two digits, a colon, two digits. */
  predicate IsClockText(s: string) {
    |s| == 5 && s[2] == ':' && AllDigits(s[..2]) && AllDigits(s[3..])
  }

  /** `HH:MM` text splits at its colon into the hours and the minutes. */
  lemma SplitClock(s: string)
    requires IsClockText(s)
    ensures Split(s, ':') == [s[..2], s[3..]]
  {
    assert IndexOf(s, ':') == 2 by {
      assert !IsDigit(':');
      assert s[..2][0] == s[0] && s[..2][1] == s[1];
    }
    var rest := s[3..];
    assert IndexOf(rest, ':') == |rest| by {
      assert ':' !in rest;
    }
  }

  /** The minutes since midnight that `HH:MM` text names. */
  function ClockMinutes(s: string): nat
    requires IsClockText(s)
  {
    ParseNat(s[..2]) * 60 + ParseNat(s[3..])
  }

  predicate IsUpper(c: char) {
    ('A' <= c <= 'Z') || ('\U{00C0}' <= c <= '\U{00DE}' && c != '\U{00D7}')
  }

  /** `toLowerCase()` on one character (ASCII and Latin-1 letters). */
  function LowerChar(c: char): (r: char)
    ensures !IsUpper(r)
    ensures !IsUpper(c) ==> r == c
    ensures IsSpace(r) <==> IsSpace(c)
    ensures (r == '@') <==> (c == '@')
    ensures (r == '.') <==> (c == '.')
  {
    if IsUpper(c) then (c as int + 32) as char else c
  }

  /** `s.toLowerCase()`. */
  function ToLower(s: string): (r: string)
    ensures |r| == |s|
    ensures forall i :: 0 <= i < |s| ==> r[i] == LowerChar(s[i])
  {
    seq(|s|, i requires 0 <= i < |s| => LowerChar(s[i]))
  }

  predicate IsLowerCase(s: string) {
    forall i :: 0 <= i < |s| ==> !IsUpper(s[i])
  }

  /** Lower-casing gives a lower-case string, and is idempotent. */
  lemma ToLowerIsLower(s: string)
    ensures IsLowerCase(ToLower(s))
    ensures ToLower(ToLower(s)) == ToLower(s)
  {
  }
}
