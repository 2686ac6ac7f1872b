/**
 * Character strings as the bot's Python code and its SQLite store see them:
 * ASCII digit strings, int() and str() on integers, str.split on one
 * character, and the BINARY collation SQLite uses to compare TEXT values.
 */
module Text {
  import opened Wrappers

  /** An ASCII decimal digit (str.isdigit and the regex \d also accept other Unicode digits; the model does not). */
  predicate IsDigit(c: char) {
    '0' <= c <= '9'
  }

  predicate AllDigits(s: string) {
    forall i :: 0 <= i < |s| ==> IsDigit(s[i])
  }

  /** str.isdigit() on an ASCII string: not empty, and every character a digit. */
  predicate IsDigits(s: string) {
    |s| > 0 && AllDigits(s)
  }

  function DigitValue(c: char): (d: nat)
    requires IsDigit(c)
    ensures d < 10
  {
    c as int - '0' as int
  }

  function DigitChar(d: nat): (c: char)
    requires d < 10
    ensures IsDigit(c) && DigitValue(c) == d
  {
    ('0' as int + d) as char
  }

  /** The value of a two-digit field. */
  function TwoDigits(tens: char, ones: char): (v: nat)
    requires IsDigit(tens) && IsDigit(ones)
    ensures v < 100
  {
    10 * DigitValue(tens) + DigitValue(ones)
  }

  /** The value int() gives a string of ASCII digits; leading zeros are allowed. */
  function DigitsValue(s: string): nat
    requires AllDigits(s)
  {
    if |s| == 0 then 0 else DigitsValue(s[..|s| - 1]) * 10 + DigitValue(s[|s| - 1])
  }

  /** str(n) for a natural number: its shortest decimal spelling. */
  function NatToString(n: nat): (s: string)
    ensures IsDigits(s)
    ensures DigitsValue(s) == n
    ensures s[0] == '0' <==> n == 0
  {
    if n < 10 then [DigitChar(n)]
    else
      var prefix := NatToString(n / 10);
      var s := prefix + [DigitChar(n % 10)];
      assert s[..|s| - 1] == prefix;
      s
  }

  /** str(i) for any integer: a minus sign before the digits of a negative number. */
  function IntToString(i: int): (s: string)
    ensures |s| > 0
  {
    if i < 0 then "-" + NatToString(-i) else NatToString(i)
  }

  /**
   * int(s): an optional sign followed by ASCII digits, or None where Python
   * raises ValueError. Surrounding whitespace, which int() also strips, is
   * not modelled.
   */
  function ParseInt(s: string): (r: Option<int>)
    ensures r.Some? <==> IsDigits(s) || (|s| > 1 && (s[0] == '-' || s[0] == '+') && IsDigits(s[1..]))
  {
    if |s| > 1 && (s[0] == '-' || s[0] == '+') && IsDigits(s[1..]) then
      var magnitude: int := DigitsValue(s[1..]);
      Some(if s[0] == '-' then -magnitude else magnitude)
    else if IsDigits(s) then Some(DigitsValue(s))
    else None
  }

  /** int(str(i)) == i: the integer spellings the bot writes into callback data read back as the same integer. */
  lemma ParseIntToString(i: int)
    ensures ParseInt(IntToString(i)) == Some(i)
  {
    if i < 0 {
      var s := IntToString(i);
      assert s[1..] == NatToString(-i);
    }
  }

  /** The position of the first occurrence of c in s, or |s| when there is none. */
  function Find(s: string, c: char): (k: nat)
    ensures k <= |s|
    ensures k < |s| ==> s[k] == c
    ensures forall i :: 0 <= i < k ==> s[i] != c
  {
    if |s| == 0 then 0
    else if s[0] == c then 0
    else 1 + Find(s[1..], c)
  }

  /** The inverse of Split: the parts with the separator between them. */
  function JoinParts(parts: seq<string>, sep: char): string
    requires |parts| >= 1
  {
    if |parts| == 1 then parts[0] else parts[0] + [sep] + JoinParts(parts[1..], sep)
  }

  /** s.split(sep) for a one-character separator: the pieces between separators, in order. */
  function Split(s: string, sep: char): (parts: seq<string>)
    ensures |parts| >= 1
    ensures forall i :: 0 <= i < |parts| ==> sep !in parts[i]
    decreases |s|
  {
    var k := Find(s, sep);
    if k == |s| then
      [s]
    else
      var rest := Split(s[k + 1..], sep);
      var parts := [s[..k]] + rest;
      assert parts[1..] == rest;
      parts
  }

  /** Joining the parts with the separator gives back the string. */
  lemma {:induction false} SplitJoins(s: string, sep: char)
    ensures JoinParts(Split(s, sep), sep) == s
    decreases |s|
  {
    var k := Find(s, sep);
    if k == |s| {
      assert s[..k] == s;
    } else {
      var head, tail := s[..k], s[k + 1..];
      var rest := Split(tail, sep);
      SplitJoins(tail, sep);
      var parts := Split(s, sep);
      assert parts == [head] + rest;
      assert parts[1..] == rest;
      assert JoinParts(parts, sep) == head + [sep] + JoinParts(rest, sep);
      assert s == head + [sep] + tail;
    }
  }

  /** Splitting a string without the separator yields the string itself. */
  lemma SplitNoSeparator(t: string, sep: char)
    requires sep !in t
    ensures Split(t, sep) == [t]
  {
    assert Find(t, sep) == |t|;
  }

  /** A separator after a separator-free head splits off exactly that head. */
  lemma SplitAfterHead(head: string, tail: string, sep: char)
    requires sep !in head
    ensures Split(head + [sep] + tail, sep) == [head] + Split(tail, sep)
  {
    var s := head + [sep] + tail;
    FindAfterHead(head, tail, sep);
    assert s[..|head|] == head;
    assert s[|head| + 1..] == tail;
  }

  lemma {:induction false} FindAfterHead(head: string, tail: string, sep: char)
    requires sep !in head
    ensures Find(head + [sep] + tail, sep) == |head|
  {
    if |head| > 0 {
      assert (head + [sep] + tail)[1..] == head[1..] + [sep] + tail;
      FindAfterHead(head[1..], tail, sep);
    }
  }

  lemma NoDigitIsSeparator(s: string, sep: char)
    requires AllDigits(s) && !IsDigit(sep)
    ensures sep !in s
  {
  }

  /**
   * a <= b between TEXT values under SQLite's BINARY collation: character by
   * character, a proper prefix before the longer string. For the strings in
   * this model code-point order and UTF-8 byte order agree.
   */
  predicate TextLe(a: string, b: string)
    decreases |a|
  {
    |a| == 0 || (|b| > 0 && (a[0] < b[0] || (a[0] == b[0] && TextLe(a[1..], b[1..]))))
  }

  lemma {:induction false} TextLeTotal(a: string, b: string)
    ensures TextLe(a, b) || TextLe(b, a)
    decreases |a|
  {
    if |a| > 0 && |b| > 0 && a[0] == b[0] {
      TextLeTotal(a[1..], b[1..]);
    }
  }

  lemma {:induction false} TextLeTransitive(a: string, b: string, c: string)
    requires TextLe(a, b) && TextLe(b, c)
    ensures TextLe(a, c)
    decreases |a|
  {
    if |a| > 0 && a[0] == b[0] && b[0] == c[0] {
      TextLeTransitive(a[1..], b[1..], c[1..]);
    }
  }

  lemma {:induction false} TextLeAntisymmetric(a: string, b: string)
    requires TextLe(a, b) && TextLe(b, a)
    ensures a == b
    decreases |a|
  {
    if |a| > 0 {
      TextLeAntisymmetric(a[1..], b[1..]);
      assert a == [a[0]] + a[1..];
      assert b == [b[0]] + b[1..];
    }
  }

  /** A proper prefix sorts strictly before the longer string ("18:00" before "18:00:00"). */
  lemma {:induction false} PrefixSortsFirst(a: string, extra: string)
    requires |extra| > 0
    ensures TextLe(a, a + extra) && !TextLe(a + extra, a)
    decreases |a|
  {
    if |a| > 0 {
      assert (a + extra)[1..] == a[1..] + extra;
      PrefixSortsFirst(a[1..], extra);
    }
  }

  function Pow10(k: nat): nat {
    if k == 0 then 1 else 10 * Pow10(k - 1)
  }

  /** A number below 10^k is spelled with at most k digits. */
  lemma {:induction false} NatToStringLength(n: nat, k: nat)
    requires 1 <= k && n < Pow10(k)
    ensures |NatToString(n)| <= k
  {
    if n >= 10 {
      assert k >= 2;
      NatToStringLength(n / 10, k - 1);
    }
  }

  /** Left-pads the decimal spelling of n with zeros to at least `width` characters (strftime's %Y, %m, %H, ...). */
  function Pad(n: nat, width: nat): (s: string)
    ensures AllDigits(s) && DigitsValue(s) == n
    ensures |s| == if |NatToString(n)| < width then width else |NatToString(n)|
  {
    var digits := NatToString(n);
    if |digits| < width then
      LeadingZeros(width - |digits|, digits);
      Zeros(width - |digits|) + digits
    else digits
  }

  /** A number below 100 padded to width 2 is its tens digit and its ones digit. */
  lemma TwoDigitPad(n: nat)
    requires n < 100
    ensures Pad(n, 2) == [DigitChar(n / 10), DigitChar(n % 10)]
  {
    if n >= 10 {
      assert NatToString(n) == NatToString(n / 10) + [DigitChar(n % 10)];
    }
  }

  /** Leading zeros do not change the value int() reads. */
  lemma {:induction false} LeadingZeros(k: nat, d: string)
    requires AllDigits(d)
    ensures AllDigits(Zeros(k) + d) && DigitsValue(Zeros(k) + d) == DigitsValue(d)
    decreases |d|
  {
    var s := Zeros(k) + d;
    if |d| == 0 {
      assert s == Zeros(k);
    } else {
      assert s[..|s| - 1] == Zeros(k) + d[..|d| - 1];
      LeadingZeros(k, d[..|d| - 1]);
    }
  }

  function Zeros(k: nat): (s: string)
    ensures |s| == k && AllDigits(s) && DigitsValue(s) == 0
    ensures forall i :: 0 <= i < k ==> s[i] == '0'
  {
    if k == 0 then "" else
      var s := Zeros(k - 1) + "0";
      assert s[..|s| - 1] == Zeros(k - 1);
      s
  }

  /** The texts one after the other. */
  function Concat(parts: seq<string>): string {
    if |parts| == 0 then "" else Concat(parts[..|parts| - 1]) + parts[|parts| - 1]
  }

  lemma ConcatStep(parts: seq<string>, part: string)
    ensures Concat(parts + [part]) == Concat(parts) + part
  {
    assert (parts + [part])[..|parts|] == parts;
  }

  lemma AppendAssociates(a: string, b: string, c: string)
    ensures (a + b) + c == a + (b + c)
  {
  }

  lemma {:induction false} ConcatAppend(a: seq<string>, b: seq<string>)
    ensures Concat(a + b) == Concat(a) + Concat(b)
    decreases |b|
  {
    if |b| > 0 {
      assert (a + b)[..|a + b| - 1] == a + b[..|b| - 1];
      ConcatAppend(a, b[..|b| - 1]);
      AppendAssociates(Concat(a), Concat(b[..|b| - 1]), b[|b| - 1]);
    } else {
      assert a + b == a;
    }
  }

  /** Concat on a first part and the rest. */
  lemma ConcatCons(part: string, rest: seq<string>)
    ensures Concat([part] + rest) == part + Concat(rest)
  {
    ConcatAppend([part], rest);
    assert [part][..0] == [];
  }

  /** sep.join(parts): the parts with sep between them, and "" for no parts. */
  function JoinWith(parts: seq<string>, sep: char): string {
    if |parts| == 0 then "" else JoinParts(parts, sep)
  }

  /** Splitting parts that were joined with a separator none of them contains gives the parts back. */
  lemma {:induction false} JoinSplits(parts: seq<string>, sep: char)
    requires |parts| >= 1
    requires forall i :: 0 <= i < |parts| ==> sep !in parts[i]
    ensures Split(JoinParts(parts, sep), sep) == parts
    decreases |parts|
  {
    if |parts| == 1 {
      SplitNoSeparator(parts[0], sep);
    } else {
      JoinSplits(parts[1..], sep);
      SplitAfterHead(parts[0], JoinParts(parts[1..], sep), sep);
      assert parts == [parts[0]] + parts[1..];
    }
  }

  /** An integer's spelling is only digits and perhaps a minus sign. */
  lemma IntSpellingAvoids(i: int, c: char)
    requires !IsDigit(c) && c != '-'
    ensures c !in IntToString(i)
  {
    if i < 0 {
      NoDigitIsSeparator(NatToString(-i), c);
      assert IntToString(i) == "-" + NatToString(-i);
    } else {
      NoDigitIsSeparator(NatToString(i), c);
    }
  }
}
