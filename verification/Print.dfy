/** Printing a number (print_num in lib/print.c). */
module Print {
  // ----- what is to be printed

  predicate Base(base: nat) {
    2 <= base <= 36
  }

  function DigitChar(d: nat, upcase: bool): char
    requires d < 36
  {
    if d <= 9 then '0' + d as char else if upcase then 'A' + (d - 10) as char else 'a' + (d - 10) as char
  }

  lemma DigitOk(d: nat, upcase: bool)
    requires d < 36
    ensures var c := DigitChar(d, upcase); DigitValue(c) == d && c != ' ' && c != '-' && (c == '0' <==> d == 0)
  {}

  /** The digits of u, most significant first. */
  function Digits(u: nat, base: nat, upcase: bool): (r: string)
    requires Base(base)
    decreases u
  {
    DivMod(u, base);
    Higher(u, base, upcase) + [DigitChar(u % base, upcase)]
  }

  /** All digits but the last; a number below the base has none. */
  function Higher(u: nat, base: nat, upcase: bool): string
    requires Base(base)
    decreases u, 0
  {
    DivMod(u, base);
    if u < base then [] else Digits(u / base, base, upcase)
  }

  lemma DivMod(u: nat, base: nat)
    requires base >= 2
    ensures u / base * base + u % base == u && u % base < base
    ensures u >= base ==> 0 < u / base < u
    ensures u < base ==> u / base == 0 && u % base == u
  {
    var q := u / base;
    assert u == base * q + u % base;
    Times(base, q);
  }

  lemma Times(base: nat, p: nat)
    requires base >= 2
    ensures base * p >= 2 * p && (p >= 1 ==> base * p >= base)
  {}

  function Repeat(c: char, n: nat): (r: string)
    ensures |r| == n && forall k :: 0 <= k < n ==> r[k] == c
  {
    seq(n, _ => c)
  }

  function Sign(neg: bool): string {
    if neg then "-" else ""
  }

  /** Blanks go to the right of a left-adjusted number, blanks go before the sign, zeros after it. */
  function Laid(neg: bool, digits: string, ladjust: bool, padc: char, n: nat): string {
    if ladjust then Sign(neg) + digits + Repeat(' ', n)
    else if padc == '0' then Sign(neg) + Repeat('0', n) + digits
    else Repeat(padc, n) + Sign(neg) + digits
  }

  /** The number in a field of at least the given width. */
  function Formatted(u: nat, base: nat, neg: bool, width: nat, ladjust: bool, padc: char, upcase: bool): string
    requires Base(base)
  {
    var digits := Digits(u, base, upcase);
    var k := |Sign(neg)| + |digits|;
    Laid(neg, digits, ladjust, padc, if width < k then 0 else width - k)
  }

  // ----- reading it back

  function DigitValue(c: char): nat {
    if '0' <= c <= '9' then (c - '0') as nat
    else if 'a' <= c <= 'z' then (c - 'a') as nat + 10
    else if 'A' <= c <= 'Z' then (c - 'A') as nat + 10
    else 0
  }

  /** The number spelt by s up to the first blank, after digits that make acc. */
  function ValueFrom(acc: nat, s: string, base: nat): nat
    decreases |s|
  {
    if s == [] || s[0] == ' ' then acc else ValueFrom(acc * base + DigitValue(s[0]), s[1..], base)
  }

  /** Blanks, then perhaps a sign, then digits. */
  function Parse(s: string, base: nat): (bool, nat)
    decreases |s|
  {
    if s == [] then (false, 0)
    else if s[0] == ' ' then Parse(s[1..], base)
    else if s[0] == '-' then (true, ValueFrom(0, s[1..], base))
    else (false, ValueFrom(0, s, base))
  }

  lemma {:induction false} ValueOfDigits(u: nat, base: nat, upcase: bool, rest: string)
    requires Base(base)
    ensures ValueFrom(0, Digits(u, base, upcase) + rest, base) == ValueFrom(u, rest, base)
    decreases u
  {
    var d, q := u % base, u / base;
    DivMod(u, base);
    var c := DigitChar(d, upcase);
    DigitOk(d, upcase);
    var more, high := [c] + rest, Higher(u, base, upcase);
    assert Digits(u, base, upcase) + rest == high + more;
    assert more[1..] == rest;
    if u < base {
      assert high + more == more;
    } else {
      ValueOfDigits(q, base, upcase, more);
    }
  }

  lemma {:induction false} ValueOfZeros(n: nat, s: string, base: nat)
    ensures ValueFrom(0, Repeat('0', n) + s, base) == ValueFrom(0, s, base)
    decreases n
  {
    var t := Repeat('0', n) + s;
    if n == 0 {
      assert t == s;
    } else {
      assert t[1..] == Repeat('0', n - 1) + s;
      ValueOfZeros(n - 1, s, base);
    }
  }

  lemma {:induction false} ParseBlanks(n: nat, s: string, base: nat)
    ensures Parse(Repeat(' ', n) + s, base) == Parse(s, base)
    decreases n
  {
    var t := Repeat(' ', n) + s;
    if n == 0 {
      assert t == s;
    } else {
      assert t[1..] == Repeat(' ', n - 1) + s;
      ParseBlanks(n - 1, s, base);
    }
  }

  /** A sign and digits, whatever zeros stand between them and blanks follow. */
  lemma ParseNumber(neg: bool, zeros: nat, u: nat, base: nat, upcase: bool, blanks: nat)
    requires Base(base)
    ensures Parse(Sign(neg) + Repeat('0', zeros) + Digits(u, base, upcase) + Repeat(' ', blanks), base) == (neg, u)
  {
    var digits := Digits(u, base, upcase) + Repeat(' ', blanks);
    var tail := Repeat('0', zeros) + digits;
    var s := Sign(neg) + Repeat('0', zeros) + Digits(u, base, upcase) + Repeat(' ', blanks);
    assert s == Sign(neg) + tail;
    ValueOfZeros(zeros, digits, base);
    ValueOfDigits(u, base, upcase, Repeat(' ', blanks));
    assert ValueFrom(0, tail, base) == u;
    if neg {
      assert s[1..] == tail;
    } else {
      FirstDigit(u, base, upcase);
      assert s == tail;
      assert tail[0] != ' ' && tail[0] != '-';
    }
  }

  /** No number starts with a superfluous zero. */
  lemma {:induction false} FirstDigit(u: nat, base: nat, upcase: bool)
    requires Base(base)
    ensures |Digits(u, base, upcase)| > 0
    ensures var c := Digits(u, base, upcase)[0]; c != ' ' && c != '-' && (c == '0' <==> u == 0)
    decreases u
  {
    DivMod(u, base);
    DigitOk(u % base, upcase);
    if u >= base { FirstDigit(u / base, base, upcase); }
  }

  /** Sign and value can be read off what is printed, in every base, case, width and alignment. */
  lemma RoundTrip(u: nat, base: nat, neg: bool, width: nat, ladjust: bool, padc: char, upcase: bool)
    requires Base(base) && (padc == ' ' || padc == '0')
    ensures Parse(Formatted(u, base, neg, width, ladjust, padc, upcase), base) == (neg, u)
  {
    var digits := Digits(u, base, upcase);
    var k := |Sign(neg)| + |digits|;
    var n := if width < k then 0 else width - k;
    if ladjust {
      ParseNumber(neg, 0, u, base, upcase, n);
      assert Sign(neg) + Repeat('0', 0) + digits + Repeat(' ', n) == Sign(neg) + digits + Repeat(' ', n);
    } else if padc == '0' {
      ParseNumber(neg, n, u, base, upcase, 0);
      assert Sign(neg) + Repeat('0', n) + digits + Repeat(' ', 0) == Sign(neg) + Repeat('0', n) + digits;
    } else {
      var s := Sign(neg) + digits;
      ParseNumber(neg, 0, u, base, upcase, 0);
      assert Sign(neg) + Repeat('0', 0) + digits + Repeat(' ', 0) == s;
      ParseBlanks(n, s, base);
      assert Repeat(' ', n) + Sign(neg) + digits == Repeat(' ', n) + s;
    }
  }

  lemma FormattedLength(u: nat, base: nat, neg: bool, width: nat, ladjust: bool, padc: char, upcase: bool)
    requires Base(base)
    ensures var n := |Sign(neg)| + |Digits(u, base, upcase)|;
      |Formatted(u, base, neg, width, ladjust, padc, upcase)| == if width < n then n else width
  {}

  /** Digits above 9 are letters of the case that was asked for. */
  predicate DigitCase(c: char, upcase: bool) {
    '0' <= c <= '9' || (if upcase then 'A' <= c <= 'Z' else 'a' <= c <= 'z')
  }

  lemma CharCase(d: nat, upcase: bool)
    requires d < 36
    ensures DigitCase(DigitChar(d, upcase), upcase)
  {}

  lemma {:induction false} DigitsCase(u: nat, base: nat, upcase: bool)
    requires Base(base)
    ensures forall k :: 0 <= k < |Digits(u, base, upcase)| ==> DigitCase(Digits(u, base, upcase)[k], upcase)
    decreases u
  {
    DivMod(u, base);
    var d, high, c := Digits(u, base, upcase), Higher(u, base, upcase), DigitChar(u % base, upcase);
    if u >= base {
      DigitsCase(u / base, base, upcase);
      assert high == Digits(u / base, base, upcase);
    }
    CharCase(u % base, upcase);
    forall k | 0 <= k < |d| ensures DigitCase(d[k], upcase) {
      assert d[k] == if k < |high| then high[k] else c;
      assert k < |high| ==> u >= base;
    }
  }

  predicate Padding(f: string, from: nat, to: nat, c: char) {
    from <= to <= |f| && forall k :: from <= k < to ==> f[k] == c
  }

  /** Where sign, digits and padding stand: a left-adjusted number comes first and only blanks follow it,
      whatever padc is; zeros stand between the sign and the digits; other padding comes before the sign. */
  lemma FormattedLayout(u: nat, base: nat, neg: bool, width: nat, ladjust: bool, padc: char, upcase: bool)
    requires Base(base)
    ensures var f, d := Formatted(u, base, neg, width, ladjust, padc, upcase), Digits(u, base, upcase);
      var sign := if neg then 1 else 0;
      var free := |f| - sign - |d|;
      && free >= 0
      && (ladjust ==> (neg ==> f[0] == '-') && f[sign..sign + |d|] == d && Padding(f, sign + |d|, |f|, ' '))
      && (!ladjust && padc == '0' ==> (neg ==> f[0] == '-') && f[sign + free..] == d && Padding(f, sign, sign + free, '0'))
      && (!ladjust && padc != '0' ==> (neg ==> f[free] == '-') && f[sign + free..] == d && Padding(f, 0, free, padc))
  {
    FormattedLength(u, base, neg, width, ladjust, padc, upcase);
  }

  // ----- the buffer

  function Power(base: nat, n: nat): nat {
    if n == 0 then 1 else base * Power(base, n - 1)
  }

  /** n digits are enough for a number below base to the n, and only then. */
  lemma {:induction false} DigitsFit(u: nat, base: nat, upcase: bool, n: nat)
    requires Base(base) && n >= 1
    ensures |Digits(u, base, upcase)| <= n <==> u < Power(base, n)
    decreases n
  {
    assert Power(base, n) == base * Power(base, n - 1);
    DivMod(u, base);
    if u >= base { FirstDigit(u / base, base, upcase); }
    if u >= base && n > 1 {
      DigitsFit(u / base, base, upcase, n - 1);
      DivLess(u, base, Power(base, n - 1));
    } else if u < base {
      PowerPositive(base, n - 1);
      Times(base, Power(base, n - 1));
    }
  }

  lemma DivLess(u: nat, base: nat, p: nat)
    requires base > 0
    ensures u / base < p <==> u < base * p
  {
    var q, r := u / base, u % base;
    assert u == base * q + r;
    if q < p { assert base * (q + 1) <= base * p; } else { assert base * p <= base * q; }
  }

  lemma {:induction false} PowerPositive(base: nat, n: nat)
    requires base >= 2
    ensures Power(base, n) >= 1
    decreases n
  {
    if n > 0 {
      PowerPositive(base, n - 1);
      Times(base, Power(base, n - 1));
    }
  }

  lemma {:induction false} PowerSum(base: nat, a: nat, b: nat)
    ensures Power(base, a + b) == Power(base, a) * Power(base, b)
    decreases a
  {
    if a > 0 {
      PowerSum(base, a - 1, b);
      var x, y := Power(base, a - 1), Power(base, b);
      assert base * (x * y) == (base * x) * y;
    }
  }

  lemma {:induction false} PowerMonotone(base: nat, n: nat)
    requires base >= 2
    ensures Power(2, n) <= Power(base, n)
    decreases n
  {
    if n > 0 {
      PowerMonotone(base, n - 1);
      assert 2 * Power(2, n - 1) <= base * Power(base, n - 1);
    }
  }

  /** The 70 bytes beyond the width are enough for the digits and sign of any 32-bit number. */
  lemma BufferFits(u: nat, base: nat, upcase: bool)
    requires Base(base) && u < 0x1_0000_0000
    ensures |Digits(u, base, upcase)| <= 32
  {
    PowerSum(2, 2, 2);
    PowerSum(2, 4, 4);
    PowerSum(2, 8, 8);
    PowerSum(2, 16, 16);
    assert Power(2, 32) == 0x1_0000_0000;
    PowerMonotone(base, 32);
    DigitsFit(u, base, upcase, 32);
  }

  function Reversed(s: string): (r: string)
    ensures |r| == |s| && forall k :: 0 <= k < |s| ==> r[k] == s[|s| - 1 - k]
  {
    seq(|s|, k requires 0 <= k < |s| => s[|s| - 1 - k])
  }

  // ----- print_num

  method PutDigit(d: nat, upcase: bool) returns (c: char)
    requires d < 36
    ensures c == DigitChar(d, upcase)
  {
    if d <= 9 {
      c := '0' + d as char;
    } else if upcase {
      c := 'A' + (d - 10) as char;
    } else {
      c := 'a' + (d - 10) as char;
    }
  }

  lemma LastFirst(u: nat, base: nat, upcase: bool)
    requires Base(base)
    ensures Reversed(Digits(u, base, upcase)) == [DigitChar(u % base, upcase)] + Reversed(Higher(u, base, upcase))
    ensures u / base == 0 <==> u < base
  {
    DivMod(u, base);
  }

  /** The do loop: the digits backwards. */
  method PutDigits(buf: array<char>, u: nat, base: nat, upcase: bool) returns (p: nat)
    requires Base(base) && |Digits(u, base, upcase)| <= buf.Length
    modifies buf
    ensures p <= buf.Length && buf[..p] == Reversed(Digits(u, base, upcase))
  {
    ghost var all := Reversed(Digits(u, base, upcase));
    p := 0;
    var v: nat, more := u, true;
    ghost var left := all;
    while more
      invariant p <= buf.Length && |all| <= buf.Length
      invariant left == if more then Reversed(Digits(v, base, upcase)) else []
      invariant buf[..p] + left == all
      decreases more, v
    {
      ghost var was, rest := buf[..p], Reversed(Higher(v, base, upcase));
      LastFirst(v, base, upcase);
      var c := PutDigit(v % base, upcase);
      Room(was, c, rest, all);
      PutChar(buf, p, c);
      p := p + 1;
      DivMod(v, base);
      v := v / base;
      more := v != 0;
      left := rest;
    }
  }

  lemma Room(was: string, c: char, rest: string, all: string)
    requires was + ([c] + rest) == all
    ensures |was| < |all| && (was + [c]) + rest == all
  {}

  method PutChar(buf: array<char>, p: nat, c: char)
    requires p < buf.Length
    modifies buf
    ensures buf[..p + 1] == old(buf[..p]) + [c]
  {
    buf[p] := c;
  }

  method Fill(buf: array<char>, from: nat, to: int, c: char)
    requires to <= buf.Length
    modifies buf
    ensures forall k :: 0 <= k < buf.Length ==> buf[k] == if from <= k < to then c else old(buf[k])
  {
    var i := from;
    while i < to
      invariant from <= i && forall k :: 0 <= k < buf.Length ==> buf[k] == if from <= k < i && k < to then c else old(buf[k])
    {
      buf[i] := c;
      i := i + 1;
    }
  }

  /** The loop that swaps from both ends, up to and including `last`. */
  method ReverseInPlace(buf: array<char>, last: nat)
    requires last < buf.Length
    modifies buf
    ensures buf[..last + 1] == Reversed(old(buf[..last + 1])) && buf[last + 1..] == old(buf[last + 1..])
  {
    var begin, end: int := 0, last;
    while end > begin
      invariant 0 <= begin <= end + 1 && begin + end == last
      invariant forall k :: 0 <= k < buf.Length ==>
        buf[k] == if k < begin || end < k <= last then old(buf[last - k]) else old(buf[k])
    {
      buf[begin], buf[end] := buf[end], buf[begin];
      begin, end := begin + 1, end - 1;
    }
  }

  /** Digits and sign, backwards. */
  method PutNumber(buf: array<char>, u: nat, base: nat, neg: bool, upcase: bool) returns (p: nat)
    requires Base(base) && |Digits(u, base, upcase)| < buf.Length
    modifies buf
    ensures p <= buf.Length && buf[..p] == Reversed(Sign(neg) + Digits(u, base, upcase))
  {
    p := PutDigits(buf, u, base, upcase);
    if neg {
      buf[p] := '-';
      p := p + 1;
    }
  }

  /** The buffer before it is turned round. */
  function Padded(neg: bool, digits: string, ladjust: bool, pad: char, n: nat): (r: string)
    ensures |r| == |Sign(neg)| + |digits| + n
  {
    if neg && !ladjust && pad == '0' then Reversed(Sign(neg) + Repeat('0', n) + digits)
    else Reversed(Sign(neg) + digits) + Repeat(pad, n)
  }

  /** The padding: zeros go between the digits and the sign, which is written again after them. */
  method PutPadding(buf: array<char>, actual: nat, len: nat, neg: bool, ladjust: bool, pad: char, ghost digits: string)
    requires |digits| >= 1 && actual <= len <= buf.Length && buf[..actual] == Reversed(Sign(neg) + digits)
    modifies buf
    ensures buf[..len] == Padded(neg, digits, ladjust, pad, len - actual)
  {
    ghost var was := buf[..actual];
    if neg && !ladjust && pad == '0' {
      Fill(buf, actual - 1, len - 1, pad);
      buf[len - 1] := '-';
      forall k | 0 <= k < len ensures buf[k] == Reversed(Sign(neg) + Repeat('0', len - actual) + digits)[k] {
        if k < actual - 1 { assert buf[k] == was[k]; }
      }
    } else {
      Fill(buf, actual, len, pad);
    }
  }

  /** The end of print_num: only the number itself is turned round when it is left-adjusted. */
  method TurnRound(buf: array<char>, actual: nat, len: nat, ladjust: bool)
    requires 1 <= actual <= len <= buf.Length
    modifies buf
    ensures buf[..len] == Turned(old(buf[..len]), actual, ladjust)
  {
    ghost var was := buf[..];
    var end := if ladjust then actual - 1 else len - 1;
    ReverseInPlace(buf, end);
    TurnedParts(was, buf[..], actual, len, ladjust);
  }

  lemma TurnedParts(was: string, now: string, actual: nat, len: nat, ladjust: bool)
    requires |was| == |now| && 1 <= actual <= len <= |was|
    requires var n := if ladjust then actual else len; now[..n] == Reversed(was[..n]) && now[n..] == was[n..]
    ensures now[..len] == Turned(was[..len], actual, ladjust)
  {
    if ladjust {
      assert was[..len][..actual] == was[..actual] && was[..len][actual..] == was[actual..][..len - actual];
      assert now[..len] == now[..actual] + now[actual..][..len - actual];
    }
  }

  function Turned(text: string, actual: nat, ladjust: bool): string
    requires actual <= |text|
  {
    if ladjust then Reversed(text[..actual]) + text[actual..] else Reversed(text)
  }

  lemma ReversedTwice(s: string)
    ensures Reversed(Reversed(s)) == s
  {}

  lemma ReversedPad(s: string, c: char, n: nat)
    ensures Reversed(Reversed(s) + Repeat(c, n)) == Repeat(c, n) + s
  {}

  /** The padded buffer, turned round, is the text that was to be printed. */
  lemma TurnedText(neg: bool, digits: string, ladjust: bool, padc: char, n: nat)
    ensures var pad := if ladjust then ' ' else padc;
      Turned(Padded(neg, digits, ladjust, pad, n), |Sign(neg)| + |digits|, ladjust) == Laid(neg, digits, ladjust, padc, n)
  {
    var pad, sign := if ladjust then ' ' else padc, Sign(neg);
    if ladjust {
      var text := Padded(neg, digits, ladjust, pad, n);
      assert text[..|sign + digits|] == Reversed(sign + digits) && text[|sign + digits|..] == Repeat(pad, n);
      ReversedTwice(sign + digits);
    } else if neg && padc == '0' {
      ReversedTwice(sign + Repeat('0', n) + digits);
    } else {
      ReversedPad(sign + digits, pad, n);
      assert Repeat(pad, n) + (sign + digits) == Repeat(pad, n) + sign + digits;
      assert !neg ==> sign + Repeat(pad, n) + digits == Repeat(pad, n) + sign + digits;
    }
  }

  /** From the digits and sign in the buffer to the string. */
  method FinishNumber(buf: array<char>, actual: nat, length: nat, neg: bool, ladjust: bool, padc: char, ghost digits: string)
    returns (s: string)
    requires 1 <= |digits| && actual == |Sign(neg)| + |digits| && actual <= buf.Length && length <= buf.Length
    requires buf[..actual] == Reversed(Sign(neg) + digits)
    modifies buf
    ensures s == Laid(neg, digits, ladjust, padc, if length < actual then 0 else length - actual)
  {
    var len := if length < actual then actual else length;
    var pad := if ladjust then ' ' else padc;
    PutPadding(buf, actual, len, neg, ladjust, pad, digits);
    TurnRound(buf, actual, len, ladjust);
    TurnedText(neg, digits, ladjust, padc, len - actual);
    s := buf[..len];
  }

  /** Prints u: the string handed to the output callback, from a buffer of length + 70 bytes. */
  method PrintNum(u: nat, base: nat, neg: bool, length: nat, ladjust: bool, padc: char, upcase: bool) returns (s: string)
    requires Base(base) && u < 0x1_0000_0000
    ensures s == Formatted(u, base, neg, length, ladjust, padc, upcase)
  {
    BufferFits(u, base, upcase);
    FirstDigit(u, base, upcase);
    var buf := new char[length + 70];
    var actual := PutNumber(buf, u, base, neg, upcase);
    s := FinishNumber(buf, actual, length, neg, ladjust, padc, Digits(u, base, upcase));
  }
}
