/** Object keys printed from a counter: a prefix and a zero-padded decimal number. */
module Keys {
  import opened Lex
  import Arith

  function Digit(d: nat): (c: char)
    requires d < 10
    ensures '0' <= c <= '9' && DigitValue(c) == d
  {
    ('0' as int + d) as char
  }

  function DigitValue(c: char): (d: nat) {
    if '0' <= c <= '9' then c as int - '0' as int else 0
  }

  function Pow10(e: nat): (p: nat)
    ensures p > 0
  {
    if e == 0 then 1 else 10 * Pow10(e - 1)
  }

  predicate AllDigits(s: string) {
    forall i :: 0 <= i < |s| ==> '0' <= s[i] <= '9'
  }

  function Decimal(n: nat): (s: string)
    ensures s != [] && AllDigits(s)
  {
    if n < 10 then [Digit(n)] else Decimal(n / 10) + [Digit(n % 10)]
  }

  /** strconv.AppendInt in base 10. */
  function Itoa(n: int): string {
    if n < 0 then "-" + Decimal(-n) else Decimal(n)
  }

  function Zeros(k: int): (s: string)
    ensures |s| == if k < 0 then 0 else k
    ensures forall i :: 0 <= i < |s| ==> s[i] == '0'
  {
    if k <= 0 then [] else seq(k, i => '0')
  }

  function Padded(prefix: string, n: int, width: int): string {
    prefix + (Zeros(width - |Itoa(n)|) + Itoa(n))
  }

  /** AppendKeyPadded: the buffer passed in is emptied and reused. */
  method AppendKeyPadded(dst: string, prefix: string, n: int, width: int) returns (s: string)
    ensures s == Padded(prefix, n, width)
  {
    var buf := dst[..0] + prefix;
    var scratch := Itoa(n);
    var i := |scratch|;
    while i < width
      invariant |scratch| <= i && (i <= width || i == |scratch|)
      invariant buf == prefix + Zeros(i - |scratch|)
    {
      buf := buf + ['0'];
      i := i + 1;
    }
    buf := buf + scratch;
    s := buf;
  }

  // ----- reading a key back -----

  function Value(s: string): nat {
    if s == [] then 0 else DigitValue(s[0]) * Pow10(|s| - 1) + Value(s[1..])
  }

  /** The number a padded decimal stands for; the sign of a negative one comes after the padding. */
  function Parse(s: string): int {
    if s != [] && s[0] == '0' then Parse(s[1..])
    else if s != [] && s[0] == '-' then 0 - Value(s[1..])
    else Value(s)
  }

  lemma TenTimes(d: nat, p: nat, v: nat, x: nat)
    ensures d * (10 * p) + (10 * v + x) == 10 * (d * p + v) + x
  {
  }

  lemma {:induction false} ValueSnoc(s: string, c: char)
    ensures Value(s + [c]) == 10 * Value(s) + DigitValue(c)
  {
    var t := s + [c];
    if s == [] {
      assert t == [c] && t[1..] == [];
      assert Value(t) == DigitValue(c) * Pow10(0) + Value([]);
    } else {
      assert t[1..] == s[1..] + [c] && t[0] == s[0];
      ValueSnoc(s[1..], c);
      assert Value(t) == DigitValue(s[0]) * Pow10(|s|) + Value(s[1..] + [c]);
      assert Value(s) == DigitValue(s[0]) * Pow10(|s| - 1) + Value(s[1..]);
      assert Pow10(|s|) == 10 * Pow10(|s| - 1);
      hide Value, Pow10, DigitValue;
      TenTimes(DigitValue(s[0]), Pow10(|s| - 1), Value(s[1..]), DigitValue(c));
    }
  }

  lemma {:induction false} ValueOfDecimal(n: nat)
    ensures Value(Decimal(n)) == n
  {
    if n < 10 {
      ValueSnoc([], Digit(n));
      assert [] + [Digit(n)] == Decimal(n);
    } else {
      ValueOfDecimal(n / 10);
      ValueSnoc(Decimal(n / 10), Digit(n % 10));
    }
  }

  lemma {:induction false} ParseDigits(s: string)
    requires AllDigits(s)
    ensures Parse(s) == Value(s)
  {
    if s != [] && s[0] == '0' {
      ParseDigits(s[1..]);
    }
  }

  lemma {:induction false} ParseSkipsZeros(z: string, s: string)
    requires forall i :: 0 <= i < |z| ==> z[i] == '0'
    ensures Parse(z + s) == Parse(s)
  {
    if z == [] {
      assert z + s == s;
    } else {
      assert (z + s)[1..] == z[1..] + s;
      ParseSkipsZeros(z[1..], s);
    }
  }

  /** Stripping the prefix and parsing the rest gives the number back: for every number, prefix and width. */
  lemma PaddedRoundTrip(prefix: string, n: int, width: int)
    ensures prefix <= Padded(prefix, n, width)
    ensures Parse(Padded(prefix, n, width)[|prefix|..]) == n
  {
    var text := Itoa(n);
    assert Padded(prefix, n, width)[|prefix|..] == Zeros(width - |text|) + text;
    ParseSkipsZeros(Zeros(width - |text|), text);
    if n < 0 {
      assert text[1..] == Decimal(-n);
      ValueOfDecimal(-n);
    } else {
      ParseDigits(text);
      ValueOfDecimal(n);
    }
  }

  /** So distinct numbers have distinct keys, at every width, wide numbers included. */
  lemma PaddedInjective(prefix: string, n: int, m: int, width: int)
    requires Padded(prefix, n, width) == Padded(prefix, m, width)
    ensures n == m
  {
    PaddedRoundTrip(prefix, n, width);
    PaddedRoundTrip(prefix, m, width);
  }

  // ----- length and order -----

  lemma TimesMonotone(a: nat, b: nat, p: nat)
    requires a <= b
    ensures a * p <= b * p
    ensures a > 0 ==> a * p == (a - 1) * p + p
  {
  }

  lemma {:induction false} ValueBound(s: string)
    ensures Value(s) < Pow10(|s|)
  {
    if s != [] {
      ValueBound(s[1..]);
      var p := Pow10(|s| - 1);
      TimesMonotone(DigitValue(s[0]), 9, p);
    }
  }

  lemma {:induction false} Pow10Monotone(i: nat, j: nat)
    requires i <= j
    ensures Pow10(i) <= Pow10(j)
    decreases j - i
  {
    if i < j {
      Pow10Monotone(i + 1, j);
    }
  }

  /** n has at most w digits exactly when n < 10^w (w >= 1). */
  lemma {:induction false} DecimalLength(n: nat, w: nat)
    requires w >= 1
    ensures |Decimal(n)| <= w <==> n < Pow10(w)
  {
    if n < 10 {
      Pow10Monotone(1, w);
    } else if w == 1 {
      assert Pow10(1) == 10;
    } else {
      DecimalLength(n / 10, w - 1);
    }
  }

  /** The key is as long as the prefix plus the wider of the requested width and the number itself. */
  lemma PaddedLength(prefix: string, n: int, width: int)
    ensures |Padded(prefix, n, width)| == |prefix| + (if width > |Itoa(n)| then width else |Itoa(n)|)
  {
  }

  /** Digit strings of one length compare as the numbers they stand for. */
  lemma {:induction false} SameLengthOrder(s: string, t: string)
    requires |s| == |t| && AllDigits(s) && AllDigits(t)
    ensures Less(s, t) <==> Value(s) < Value(t)
  {
    if s != [] {
      SameLengthOrder(s[1..], t[1..]);
      ValueBound(s[1..]);
      ValueBound(t[1..]);
      var p := Pow10(|s| - 1);
      if s[0] < t[0] {
        TimesMonotone(DigitValue(s[0]) + 1, DigitValue(t[0]), p);
      } else if t[0] < s[0] {
        TimesMonotone(DigitValue(t[0]) + 1, DigitValue(s[0]), p);
      }
    }
  }

  /** Below 10^width the byte order of the keys is the numeric order, so a listing is in counter order. */
  lemma PaddedOrder(prefix: string, n: nat, m: nat, width: nat)
    requires n < Pow10(width) && m < Pow10(width)
    ensures Less(Padded(prefix, n, width), Padded(prefix, m, width)) <==> n < m
  {
    if width == 0 {
      LessIrreflexive(Padded(prefix, n, width));
    } else {
      DecimalLength(n, width);
      DecimalLength(m, width);
      var s := Zeros(width - |Itoa(n)|) + Itoa(n);
      var t := Zeros(width - |Itoa(m)|) + Itoa(m);
      LessSamePrefix(prefix, s, t);
      SameLengthOrder(s, t);
      PaddedRoundTrip(prefix, n, width);
      PaddedRoundTrip(prefix, m, width);
      ParseDigits(s);
      ParseDigits(t);
      assert Padded(prefix, n, width)[|prefix|..] == s && Padded(prefix, m, width)[|prefix|..] == t;
    }
  }

  lemma {:induction false} DecimalOfPow10(w: nat)
    ensures Decimal(Pow10(w))[0] == '1'
    ensures Decimal(Pow10(w) - 1)[0] == if w == 0 then '0' else '9'
  {
    if w > 0 {
      DecimalOfPow10(w - 1);
      if w > 1 {
        Pow10Monotone(1, w - 1);
        assert Pow10(w) / 10 == Pow10(w - 1);
        assert (Pow10(w) - 1) / 10 == Pow10(w - 1) - 1;
      } else {
        assert Pow10(1) == 10;
        assert Decimal(10) == Decimal(1) + [Digit(0)];
      }
    }
  }

  /** The bound is sharp: the first number too wide for its field sorts before the one it follows. */
  lemma PaddedOrderBreaksAtWidth(prefix: string, width: nat)
    requires width >= 1
    ensures Less(Padded(prefix, Pow10(width), width), Padded(prefix, Pow10(width) - 1, width))
  {
    var n := Pow10(width);
    DecimalLength(n, width);
    WidestFits(width);
    DecimalOfPow10(width);
    var s, t := Decimal(n), Decimal(n - 1);
    assert Zeros(width - |s|) + s == s && Zeros(width - |t|) + t == t;
    assert Itoa(n) == s && Itoa(n - 1) == t;
    LessSamePrefix(prefix, s, t);
  }

  lemma WidestFits(width: nat)
    requires width >= 1
    ensures |Decimal(Pow10(width) - 1)| == width
  {
    DecimalLength(Pow10(width) - 1, width);
    if width > 1 {
      DecimalLength(Pow10(width) - 1, width - 1);
      assert Pow10(width) == 10 * Pow10(width - 1);
    }
  }

  // ----- the text of a key -----

  /** The digit of n that stands for the multiples of 10^i. */
  function DigitAt(n: nat, i: nat): char {
    "0123456789"[n / Pow10(i) % 10]
  }

  /** s writes n in decimal, with zeros in front up to the width and none beyond it. */
  ghost predicate IsDecimal(s: string, n: nat, width: int) {
    && |s| >= 1 && |s| >= width && n < Pow10(|s|)
    && (forall i :: 0 <= i < |s| ==> s[|s| - 1 - i] == DigitAt(n, i))
    && (|s| > 1 && |s| > width ==> s[0] != '0')
  }

  lemma TenthThenDivide(n: nat, p: nat)
    requires p > 0
    ensures n / 10 / p == n / (10 * p)
  {
    var q, r := n / 10 / p, n / 10 % p;
    assert n == q * (10 * p) + (10 * r + n % 10);
    Arith.DivUnique(n, 10 * p, q, 10 * r + n % 10);
  }

  lemma {:induction false} DecimalDigits(n: nat, i: nat)
    requires i < |Decimal(n)|
    ensures Decimal(n)[|Decimal(n)| - 1 - i] == DigitAt(n, i)
  {
    if n >= 10 && i > 0 {
      DecimalDigits(n / 10, i - 1);
      TenthThenDivide(n, Pow10(i - 1));
    } else {
      assert Pow10(0) == 1;
    }
  }

  lemma {:induction false} DecimalHead(n: nat)
    ensures Decimal(n)[0] == '0' <==> n == 0
  {
    if n >= 10 {
      DecimalHead(n / 10);
    }
  }

  /** The key of a number is the prefix and the number in decimal, padded to the width. */
  lemma PaddedText(prefix: string, n: nat, width: int) returns (text: string)
    ensures Padded(prefix, n, width) == prefix + text && IsDecimal(text, n, width)
  {
    var d := Decimal(n);
    text := Zeros(width - |d|) + d;
    DecimalLength(n, |d|);
    DecimalHead(n);
    forall i | 0 <= i < |text| ensures text[|text| - 1 - i] == DigitAt(n, i) {
      if i < |d| {
        DecimalDigits(n, i);
      } else {
        Pow10Monotone(|d|, i);
        Arith.DivUnique(n, Pow10(i), 0, n);
      }
    }
    Pow10Monotone(|d|, |text|);
  }

  /** That text is the only one: number and width determine it. */
  lemma DecimalUnique(s: string, t: string, n: nat, width: int)
    requires IsDecimal(s, n, width) && IsDecimal(t, n, width)
    ensures s == t
  {
    NotLonger(s, t, n, width);
    NotLonger(t, s, n, width);
    forall j | 0 <= j < |s| ensures s[j] == t[j] {
      assert s[|s| - 1 - (|s| - 1 - j)] == DigitAt(n, |s| - 1 - j) == t[|t| - 1 - (|s| - 1 - j)];
    }
  }

  lemma NotLonger(s: string, t: string, n: nat, width: int)
    requires IsDecimal(s, n, width) && IsDecimal(t, n, width)
    ensures |t| <= |s|
  {
    if |t| > |s| {
      var top := |t| - 1;
      assert t[0] == t[|t| - 1 - top] == DigitAt(n, top);
      Pow10Monotone(|s|, top);
      Arith.DivUnique(n, Pow10(top), 0, n);
    }
  }

  lemma DecimalText(n: nat)
    ensures IsDecimal(Decimal(n), n, 0)
  {
    DecimalLength(n, |Decimal(n)|);
    DecimalHead(n);
    forall i | 0 <= i < |Decimal(n)| ensures Decimal(n)[|Decimal(n)| - 1 - i] == DigitAt(n, i) {
      DecimalDigits(n, i);
    }
  }

  /** A negative number has its sign after the padding. */
  lemma NegativeText(prefix: string, n: int, width: int) returns (digits: string)
    requires n < 0
    ensures Padded(prefix, n, width) == prefix + (Zeros(width - 1 - |digits|) + ("-" + digits)) && IsDecimal(digits, -n, 0)
  {
    hide IsDecimal;
    digits := Decimal(-n);
    DecimalText(-n);
    assert Itoa(n) == "-" + digits;
  }
}
