/**
 * Printing and reading numbers: 64-bit division with 32-bit instructions (labcodes/lab8/libs/x86.h), the
 * number printer (printfmt.c) and strtol (string.c).
 *
 * The main results say exactly when strtol reads back what was printed: the number must fit into the 32-bit
 * word that strtol computes in, although 64 bits are printed, and padding must neither come between a sign and
 * the digits nor be made of signs.
 */
module Numbers {
  import opened Quotients

  const WORD := 0x1_0000_0000

  // ----- Division

  /** The divide instruction: it traps unless the quotient fits into a word. */
  method Divl(upper: nat, low: nat, base: nat) returns (q: nat, mod: nat)
    requires base > 0 && upper < base && low < WORD
    ensures q == (upper * WORD + low) / base && mod == (upper * WORD + low) % base
    ensures q < WORD && mod < base
  {
    var x := upper * WORD + low;
    AtLeast(x, WORD, base);
    Split(x, base);
    q, mod := x / base, x % base;
  }

  lemma TwoSteps(high: nat, low: nat, base: nat, q: nat, mod: nat)
    requires base > 0 && mod < base && high % base * WORD + low == q * base + mod
    ensures (high * WORD + low) / base == high / base * WORD + q && (high * WORD + low) % base == mod
  {
    Split(high, base);
    var h := high / base;
    assert high * WORD + low == h * base * WORD + (q * base + mod);
    assert (h * WORD + q) * base == h * base * WORD + q * base;
    Divided(h * WORD + q, mod, base);
  }

  /** Dividing a number of two words by one word; n becomes the quotient. */
  method DoDiv(n: nat, base: nat) returns (quotient: nat, mod: nat)
    requires n < WORD * WORD && 0 < base < WORD
    ensures quotient == n / base && mod == n % base
  {
    var low, high := n % WORD, n / WORD;
    var upper := high;
    Split(high, base);
    if high != 0 {
      upper := high % base;
      high := high / base;
    }
    ghost var h := n / WORD;
    assert upper == h % base && high == h / base by {
      if h == 0 {
        Divided(0, 0, base);
      }
    }
    low, mod := Divl(upper, low, base);
    Split(upper * WORD + n % WORD, base);
    TwoSteps(h, n % WORD, base, low, mod);
    quotient := high * WORD + low;
  }

  // ----- Printing

  function Digit(d: nat): char
    requires d < 16
  {
    "0123456789abcdef"[d]
  }

  lemma Smaller(num: nat, base: nat)
    requires base >= 2
    ensures num / base >= 0 && 0 <= num % base < base && num == num / base * base + num % base
    ensures num >= 1 ==> num / base < num
  {
    Split(num, base);
    if num / base >= 1 {
      GrowsBy(num / base, base);
      ProductAtLeast(num / base, base - 1);
      assert num / base * base == num / base * (base - 1) + num / base;
    }
  }

  function Digits(num: nat, base: nat): (r: string)
    requires 2 <= base <= 16
    ensures r != ""
    decreases num
  {
    if num < base then [Digit(num)]
    else
      Smaller(num, base);
      Digits(num / base, base) + [Digit(num % base)]
  }

  /** Only digits and small letters are printed, and no leading zero. */
  lemma {:induction false} DigitsPrinted(num: nat, base: nat)
    requires 2 <= base <= 16
    ensures forall k :: 0 <= k < |Digits(num, base)| ==>
      var c := Digits(num, base)[k]; '0' <= c <= '9' || (base > 10 && 'a' <= c <= 'f')
    ensures |Digits(num, base)| > 1 ==> Digits(num, base)[0] != '0'
    decreases num
  {
    Smaller(num, base);
    if num >= base {
      DigitsPrinted(num / base, base);
      if |Digits(num / base, base)| == 1 {
        assert num / base < base && num / base >= 1;
      }
    }
  }

  function Repeat(c: char, n: int): (r: string)
    ensures |r| == if n > 0 then n else 0
    ensures forall i :: 0 <= i < |r| ==> r[i] == c
  {
    if n <= 0 then "" else Repeat(c, n - 1) + [c]
  }

  /** The digits, padded on the left to the width. */
  function Printed(num: nat, base: nat, width: int, padc: char): string
    requires 2 <= base <= 16
  {
    Repeat(padc, width - |Digits(num, base)|) + Digits(num, base)
  }

  method PrintNum(num: nat, base: nat, width: int, padc: char, output: string) returns (output': string)
    requires 2 <= base <= 16 && num < WORD * WORD
    ensures output' == output + Printed(num, base, width, padc)
    decreases num
  {
    var result, mod := DoDiv(num, base);
    Smaller(num, base);
    PrintedBy(num, base, width, padc);
    if num >= base {
      output' := PrintNum(result, base, width - 1, padc, output);
    } else {
      output' := Pad(width, padc, output);
    }
    output' := output' + [Digit(mod)];
  }

  lemma PrintedBy(num: nat, base: nat, width: int, padc: char)
    requires 2 <= base <= 16
    ensures 0 <= num % base < base && num / base >= 0
    ensures num >= base ==>
              Printed(num, base, width, padc) == Printed(num / base, base, width - 1, padc) + [Digit(num % base)]
    ensures num < base ==> Printed(num, base, width, padc) == Repeat(padc, width - 1) + [Digit(num % base)]
  {
    Smaller(num, base);
    if num < base {
      Divided(0, num, base);
    }
  }

  method Pad(width: int, padc: char, output: string) returns (output': string)
    ensures output' == output + Repeat(padc, width - 1)
  {
    var w := width - 1;
    output' := output;
    while w > 0
      invariant output' + Repeat(padc, w) == output + Repeat(padc, width - 1)
    {
      RepeatFirst(padc, w);
      output' := output' + [padc];
      w := w - 1;
    }
  }

  lemma {:induction false} RepeatFirst(c: char, n: int)
    requires n > 0
    ensures Repeat(c, n) == [c] + Repeat(c, n - 1)
  {
    if n > 1 {
      RepeatFirst(c, n - 1);
    }
  }

  // ----- Reading

  const HALF := 0x8000_0000

  predicate FitsLong(x: int) {
    -HALF <= x < HALF
  }

  /** What a signed word of 32 bits holds of a number. */
  function Wrap(x: int): (r: int)
    ensures FitsLong(r)
  {
    (x + HALF) % WORD - HALF
  }

  /** A word holds the number that fits and differs by whole words. */
  lemma WrapIs(x: int, k: int, y: int)
    requires x == y + k * WORD && FitsLong(y)
    ensures Wrap(x) == y
  {
    assert x + HALF == k * WORD + (y + HALF);
    Divided(k, y + HALF, WORD);
  }

  lemma Wrapped(x: int) returns (k: int)
    ensures x == Wrap(x) + k * WORD
    ensures FitsLong(x) ==> Wrap(x) == x
  {
    Split(x + HALF, WORD);
    k := (x + HALF) / WORD;
    if FitsLong(x) {
      WrapIs(x, 0, x);
    }
  }

  /** A digit added to what the word holds gives what it holds of the longer number. */
  lemma WrapDigit(x: int, base: int, dig: int)
    ensures Wrap(Wrap(x) * base + dig) == Wrap(x * base + dig)
  {
    var k := Wrapped(x);
    var z := Wrap(x) * base + dig;
    var j := Wrapped(z);
    Distribute(Wrap(x), k * WORD, base);
    assert k * WORD * base == k * base * WORD;
    Distribute(j, k * base, WORD);
    WrapIs(x * base + dig, j + k * base, Wrap(z));
  }

  lemma WrapMinus(x: int)
    ensures Wrap(-Wrap(x)) == Wrap(-x)
  {
    var k := Wrapped(x);
    var j := Wrapped(-Wrap(x));
    WrapIs(-x, j - k, Wrap(-Wrap(x)));
  }

  function SkipBlanks(s: string): string {
    if s != "" && (s[0] == ' ' || s[0] == '\t') then SkipBlanks(s[1..]) else s
  }

  /** The value of a digit or letter; 36 for every other character. */
  function DigitValue(c: char): nat {
    if '0' <= c <= '9' then c as nat - '0' as nat
    else if 'a' <= c <= 'z' then c as nat - 'a' as nat + 10
    else if 'A' <= c <= 'Z' then c as nat - 'A' as nat + 10
    else 36
  }

  /** Reading digits into a word as long as there are any; the second part is what follows them. */
  function ReadDigits(s: string, base: nat, val: int): (int, string) {
    if s != "" && DigitValue(s[0]) < 36 && DigitValue(s[0]) < base
    then ReadDigits(s[1..], base, Wrap(val * base + DigitValue(s[0])))
    else (val, s)
  }

  function SignAfter(s: string): (bool, string) {
    if s != "" && (s[0] == '+' || s[0] == '-') then (s[0] == '-', s[1..]) else (false, s)
  }

  function BaseAfter(s: string, base: nat): (nat, string) {
    if (base == 0 || base == 16) && |s| >= 2 && s[0] == '0' && s[1] == 'x' then (16, s[2..])
    else if base == 0 && s != "" && s[0] == '0' then (8, s[1..])
    else if base == 0 then (10, s)
    else (base, s)
  }

  /** The number at the start of s, and what follows it. */
  function Strtol(s: string, base: nat): (int, string) {
    var (neg, u) := SignAfter(SkipBlanks(s));
    var (b, t) := BaseAfter(u, base);
    var (val, rest) := ReadDigits(t, b, 0);
    (if neg then Wrap(-val) else val, rest)
  }

  /** The loop over the digits. */
  method Scan(s: string, start: nat, base: nat) returns (val: int, p: nat)
    requires start <= |s|
    ensures p <= |s| && (val, s[p..]) == ReadDigits(s[start..], base, 0)
  {
    val, p := 0, start;
    while true
      invariant start <= p <= |s| && ReadDigits(s[p..], base, val) == ReadDigits(s[start..], base, 0)
      decreases |s| - p
    {
      var dig;
      if p < |s| && '0' <= s[p] <= '9' {
        dig := s[p] as int - '0' as int;
      } else if p < |s| && 'a' <= s[p] <= 'z' {
        dig := s[p] as int - 'a' as int + 10;
      } else if p < |s| && 'A' <= s[p] <= 'Z' {
        dig := s[p] as int - 'A' as int + 10;
      } else {
        break;
      }
      if dig >= base {
        break;
      }
      assert s[p..][1..] == s[p + 1..];
      p, val := p + 1, Wrap(val * base + dig);
    }
  }

  /** Skipping blanks and a sign. */
  method SkipSign(s: string) returns (p: nat, neg: bool)
    ensures p <= |s| && (neg, s[p..]) == SignAfter(SkipBlanks(s))
  {
    p, neg := 0, false;
    while p < |s| && (s[p] == ' ' || s[p] == '\t')
      invariant p <= |s| && SkipBlanks(s[p..]) == SkipBlanks(s)
    {
      assert s[p..][1..] == s[p + 1..];
      p := p + 1;
    }
    if p < |s| && s[p] == '+' {
      p := p + 1;
    } else if p < |s| && s[p] == '-' {
      p, neg := p + 1, true;
    }
  }

  method StrtolAt(s: string, base: nat) returns (val: int, endptr: nat)
    ensures endptr <= |s| && (val, s[endptr..]) == Strtol(s, base)
  {
    var p, neg := SkipSign(s);
    ghost var u := s[p..];
    var b := base;
    if (base == 0 || base == 16) && p + 1 < |s| && s[p] == '0' && s[p + 1] == 'x' {
      p, b := p + 2, 16;
    } else if base == 0 && p < |s| && s[p] == '0' {
      p, b := p + 1, 8;
    } else if base == 0 {
      b := 10;
    }
    assert (b, s[p..]) == BaseAfter(u, base);
    val, endptr := Scan(s, p, b);
    if neg {
      val := Wrap(-val);
    }
  }

  // ----- Reading what was printed

  predicate AllDigits(s: string, base: nat) {
    forall i :: 0 <= i < |s| ==> DigitValue(s[i]) < 36 && DigitValue(s[i]) < base
  }

  lemma {:induction false} ReadJoin(a: string, b: string, base: nat, val: int)
    requires AllDigits(a, base)
    ensures ReadDigits(a + b, base, val) == ReadDigits(b, base, ReadDigits(a, base, val).0)
    ensures ReadDigits(a, base, val).1 == ""
  {
    if a == "" {
      assert a + b == b;
    } else {
      assert (a + b)[1..] == a[1..] + b;
      ReadJoin(a[1..], b, base, Wrap(val * base + DigitValue(a[0])));
    }
  }

  lemma DigitValues(d: nat)
    requires d < 16
    ensures DigitValue(Digit(d)) == d
    ensures Digit(d) != 'x' && Digit(d) != ' ' && Digit(d) != '\t' && Digit(d) != '-' && Digit(d) != '+'
  {
  }

  lemma {:induction false} DigitsPlain(num: nat, base: nat)
    requires 2 <= base <= 16
    ensures AllDigits(Digits(num, base), base)
    ensures forall i :: 0 <= i < |Digits(num, base)| ==> Plain(Digits(num, base)[i])
    decreases num
  {
    Smaller(num, base);
    DigitValues(num % base);
    if num < base {
      DigitValues(num);
    } else {
      DigitsPlain(num / base, base);
    }
  }

  /** One more digit, read into a word that holds a number. */
  lemma DigitRead(num: nat, high: nat, d: nat, base: nat)
    requires d < base <= 16 && num == high * base + d
    ensures ReadDigits([Digit(d)], base, Wrap(high)) == (Wrap(num), "")
  {
    DigitValues(d);
    assert [Digit(d)][1..] == "";
    WrapDigit(high, base, d);
  }

  /** The digits of a number read back as what a word holds of the number. */
  lemma {:induction false} DigitsRead(num: nat, base: nat)
    requires 2 <= base <= 16
    ensures ReadDigits(Digits(num, base), base, 0) == (Wrap(num), "")
    decreases num
  {
    Smaller(num, base);
    if num < base {
      DigitRead(num, 0, num, base);
    } else {
      var high, d := num / base, num % base;
      DigitsRead(high, base);
      DigitsPlain(high, base);
      ReadJoin(Digits(high, base), [Digit(d)], base, 0);
      DigitRead(num, high, d, base);
    }
  }

  /** A character that is neither blank nor a sign nor the x of a prefix. */
  predicate Plain(c: char) {
    c != ' ' && c != '\t' && c != '-' && c != '+' && c != 'x'
  }

  lemma {:induction false} ZerosRead(n: int, base: nat)
    requires base >= 2
    ensures AllDigits(Repeat('0', n), base) && ReadDigits(Repeat('0', n), base, 0) == (0, "")
  {
    if n > 0 {
      ZerosRead(n - 1, base);
      ReadJoin(Repeat('0', n - 1), "0", base, 0);
      assert "0"[1..] == "" && DigitValue('0') == 0;
    }
  }

  lemma {:induction false} BlanksSkipped(n: int, s: string)
    ensures SkipBlanks(Repeat(' ', n) + s) == SkipBlanks(s)
  {
    if n > 0 {
      RepeatFirst(' ', n);
      var all := Repeat(' ', n) + s;
      assert all[0] == ' ' && all[1..] == Repeat(' ', n - 1) + s;
      BlanksSkipped(n - 1, s);
    } else {
      assert Repeat(' ', n) + s == s;
    }
  }

  /** What the signed conversion prints in decimal: a sign, then the padded digits. */
  function PrintedSigned(v: int, width: int, padc: char): string {
    if v < 0 then "-" + Printed(-v, DECIMAL, width, padc) else Printed(v, DECIMAL, width, padc)
  }

  const DECIMAL: nat := 10

  function Abs(v: int): nat {
    if v < 0 then -v else v
  }

  predicate IsPadding(padc: char) {
    padc == ' ' || padc == '0' || padc == '-'
  }

  predicate Padded(num: nat, base: nat, width: int)
    requires 2 <= base <= 16
  {
    width > |Digits(num, base)|
  }

  /** Where neither blanks, a sign nor a prefix come first, reading starts with the digits. */
  lemma PlainStart(s: string, base: nat)
    requires 2 <= base && s != "" && Plain(s[0]) && (|s| >= 2 ==> s[1] != 'x')
    ensures Strtol(s, base) == ReadDigits(s, base, 0)
    ensures Strtol("-" + s, base) == (Wrap(-ReadDigits(s, base, 0).0), ReadDigits(s, base, 0).1)
  {
    assert SkipBlanks(s) == s && BaseAfter(s, base) == (base, s);
    var t := "-" + s;
    assert t[0] == '-' && t[1..] == s && SkipBlanks(t) == t;
  }

  /** Behind a sign, a blank or another sign ends the number at once. */
  lemma SignThenNone(s: string, base: nat)
    requires 2 <= base && s != "" && (s[0] == ' ' || s[0] == '-')
    ensures Strtol("-" + s, base).0 == 0
  {
    var t := "-" + s;
    assert t[0] == '-' && t[1..] == s && SkipBlanks(t) == t;
    assert BaseAfter(s, base) == (base, s) && DigitValue(s[0]) == 36;
  }

  /** Digits, perhaps with zeros before them, are read whole, with or without a sign. */
  lemma ZeroPadded(num: nat, base: nat, n: int)
    requires 2 <= base <= 16
    ensures var s := Repeat('0', n) + Digits(num, base);
      Strtol(s, base) == (Wrap(num), "") && Strtol("-" + s, base) == (Wrap(0 - num), "")
  {
    var zeros, digits := Repeat('0', n), Digits(num, base);
    DigitsRead(num, base);
    DigitsPlain(num, base);
    ZerosRead(n, base);
    ReadJoin(zeros, digits, base, 0);
    forall i | 0 <= i < |zeros + digits| ensures Plain((zeros + digits)[i]) {
      assert Plain('0') && (zeros + digits)[i] == if i < |zeros| then zeros[i] else digits[i - |zeros|];
    }
    PlainStart(zeros + digits, base);
    WrapMinus(num);
  }

  /** Blanks before the digits do not matter if there is no sign before them. */
  lemma BlankPadded(num: nat, base: nat, n: int)
    requires 2 <= base <= 16
    ensures Strtol(Repeat(' ', n) + Digits(num, base), base) == (Wrap(num), "")
  {
    var digits := Digits(num, base);
    BlanksSkipped(n, digits);
    Unpadded(num, base);
    DigitsPlain(num, base);
    assert Plain(digits[0]);
    assert SkipBlanks(digits) == digits;
  }

  /** Padding with signs: one is read as a sign, and more than one as no number. */
  lemma SignPadded(num: nat, base: nat, n: int)
    requires 2 <= base <= 16 && n > 0
    ensures Strtol(Repeat('-', n) + Digits(num, base), base).0 == if n == 1 then Wrap(0 - num) else 0
  {
    var digits, rest := Digits(num, base), Repeat('-', n - 1);
    RepeatFirst('-', n);
    assert Repeat('-', n) + digits == "-" + (rest + digits);
    if n == 1 {
      Unpadded(num, base);
      assert rest + digits == digits;
    } else {
      SignThenNone(rest + digits, base);
    }
  }

  lemma Unpadded(num: nat, base: nat)
    requires 2 <= base <= 16
    ensures Strtol(Digits(num, base), base) == (Wrap(num), "")
    ensures Strtol("-" + Digits(num, base), base) == (Wrap(0 - num), "")
  {
    var none := 0;
    ZeroPadded(num, base, none);
    assert Repeat('0', none) + Digits(num, base) == Digits(num, base);
  }

  /** Only 0 and the least number are their own opposites in a word, and the least number is not positive. */
  lemma NotOpposite(num: int)
    requires num > 0
    ensures Wrap(0 - num) != num
  {
    var k := Wrapped(0 - num);
    assert Wrap(0 - num) == num ==> 0 < 2 * num < WORD && 2 * num == -k * WORD;
    GrowsBy(-k, WORD);
  }

  /** What strtol makes of padded digits without a sign of their own. */
  lemma PaddedRead(num: nat, base: nat, width: int, padc: char)
    requires 2 <= base <= 16 && IsPadding(padc)
    ensures var t := Strtol(Printed(num, base, width, padc), base);
      if padc != '-' || !Padded(num, base, width) then t == (Wrap(num), "") else t.0 in {0, Wrap(0 - num)}
  {
    var digits, n := Digits(num, base), width - |Digits(num, base)|;
    if n <= 0 {
      Unpadded(num, base);
      assert Printed(num, base, width, padc) == digits;
    } else if padc == ' ' {
      BlankPadded(num, base, n);
    } else if padc == '0' {
      ZeroPadded(num, base, n);
    } else {
      SignPadded(num, base, n);
    }
  }

  /** What strtol makes of padded digits behind a sign. */
  lemma SignedRead(num: nat, base: nat, width: int, padc: char)
    requires 2 <= base <= 16 && IsPadding(padc)
    ensures var t := Strtol("-" + Printed(num, base, width, padc), base);
      if padc == '0' || !Padded(num, base, width) then t == (Wrap(0 - num), "") else t.0 == 0
  {
    var digits, n := Digits(num, base), width - |Digits(num, base)|;
    var body := Printed(num, base, width, padc);
    if n <= 0 {
      Unpadded(num, base);
      assert body == digits;
    } else if padc == '0' {
      ZeroPadded(num, base, n);
    } else {
      SignThenNone(body, base);
    }
  }

  /** strtol reads back what the unsigned conversions printed exactly in these cases. */
  lemma ReadsBackUnsigned(num: nat, base: nat, width: int, padc: char)
    requires 2 <= base <= 16 && IsPadding(padc)
    ensures Strtol(Printed(num, base, width, padc), base).0 == num
        <==> FitsLong(num) && (padc != '-' || !Padded(num, base, width) || num == 0)
  {
    PaddedRead(num, base, width, padc);
    var k := Wrapped(num);
    if num > 0 {
      NotOpposite(num);
    }
  }

  /** strtol reads back what the signed conversion printed exactly in these cases. */
  lemma ReadsBack(v: int, width: int, padc: char)
    requires IsPadding(padc)
    ensures Strtol(PrintedSigned(v, width, padc), DECIMAL).0 == v
        <==> FitsLong(v) && (v == 0 || padc == '0' || (padc == ' ' && v > 0) || !Padded(Abs(v), DECIMAL, width))
  {
    var k := Wrapped(v);
    if v < 0 {
      SignedRead(-v, DECIMAL, width, padc);
    } else {
      ReadsBackUnsigned(v, DECIMAL, width, padc);
    }
  }

  /** The word that is read is the one printed, modulo 2^32, so 2^32 printed without padding reads as 0. */
  lemma WideReadsAsZero()
    ensures Strtol(PrintedSigned(WORD, 0, ' '), DECIMAL) == (0, "")
  {
    PaddedRead(WORD, DECIMAL, 0, ' ');
    WrapIs(WORD, 1, 0);
  }

  // ----- What is read, form by form

  /** The string does not go on with a letter or digit. */
  predicate Ends(tail: string) {
    tail == "" || !('0' <= tail[0] <= '9' || 'a' <= tail[0] <= 'z' || 'A' <= tail[0] <= 'Z')
  }

  lemma {:induction false} SpaceSkipped(blanks: string, s: string)
    requires forall k :: 0 <= k < |blanks| ==> blanks[k] == ' ' || blanks[k] == '\t'
    requires s == "" || (s[0] != ' ' && s[0] != '\t')
    ensures SkipBlanks(blanks + s) == s
  {
    if blanks == "" {
      assert blanks + s == s;
    } else {
      assert (blanks + s)[1..] == blanks[1..] + s;
      SpaceSkipped(blanks[1..], s);
    }
  }

  /** Blanks and tabs, and then a sign, in front of a string that begins with neither. */
  lemma SignRead(blanks: string, sign: string, s: string)
    requires forall k :: 0 <= k < |blanks| ==> blanks[k] == ' ' || blanks[k] == '\t'
    requires sign == "" || sign == "+" || sign == "-"
    requires s != "" && Plain(s[0])
    ensures SignAfter(SkipBlanks(blanks + sign + s)) == (sign == "-", s)
  {
    assert blanks + sign + s == blanks + (sign + s);
    SpaceSkipped(blanks, sign + s);
    if sign != "" {
      assert (sign + s)[1..] == s;
    } else {
      assert sign + s == s;
    }
  }

  lemma DigitsThen(num: nat, base: nat, tail: string)
    requires 2 <= base <= 16 && Ends(tail)
    ensures ReadDigits(Digits(num, base) + tail, base, 0) == (Wrap(num), tail)
  {
    DigitsPlain(num, base);
    DigitsRead(num, base);
    ReadJoin(Digits(num, base), tail, base, 0);
  }

  /** How a number may be written for the base asked for: its prefix and the base of its digits. */
  predicate Written(prefix: string, digits: nat, base: nat, num: nat) {
    2 <= digits <= 16
    && ((prefix == "" && base == digits)
        || (prefix == "0x" && digits == 16 && (base == 0 || base == 16))
        || (prefix == "0" && digits == 8 && base == 0)
        || (prefix == "" && digits == 10 && base == 0 && num > 0))
  }

  lemma PrefixRead(prefix: string, digits: nat, base: nat, num: nat, tail: string)
    requires Written(prefix, digits, base, num) && Ends(tail)
    ensures var s := prefix + (Digits(num, digits) + tail);
      s != "" && Plain(s[0]) && BaseAfter(s, base) == (digits, Digits(num, digits) + tail)
  {
    var t := Digits(num, digits) + tail;
    DigitsPlain(num, digits);
    DigitsPrinted(num, digits);
    assert Plain(t[0]) && (|t| > 1 ==> t[1] != 'x');
    if num > 0 {
      FirstDigit(num, digits);
    }
    if prefix == "" {
      assert prefix + t == t;
    } else {
      assert (prefix + t)[|prefix|..] == t;
    }
  }

  lemma {:induction false} FirstDigit(num: nat, base: nat)
    requires 2 <= base <= 16 && num > 0
    ensures Digits(num, base)[0] != '0'
    decreases num
  {
    Smaller(num, base);
    if num >= base {
      assert num / base > 0;
      FirstDigit(num / base, base);
    }
  }

  /** Blanks and tabs, a sign, a prefix and digits are read as the number that they spell, and reading stops behind
      them. */
  lemma FormRead(blanks: string, sign: string, prefix: string, digits: nat, base: nat, num: nat, tail: string)
    requires forall k :: 0 <= k < |blanks| ==> blanks[k] == ' ' || blanks[k] == '\t'
    requires sign == "" || sign == "+" || sign == "-"
    requires Written(prefix, digits, base, num) && Ends(tail)
    ensures Strtol(blanks + sign + (prefix + (Digits(num, digits) + tail)), base)
         == (Wrap(num * (if sign == "-" then -1 else 1)), tail)
  {
    PrefixRead(prefix, digits, base, num, tail);
    SignRead(blanks, sign, prefix + (Digits(num, digits) + tail));
    DigitsThen(num, digits, tail);
    WrapMinus(num);
  }

  /** Of the two hexadecimal prefixes only the one with the small letter is read; behind the capital one nothing is. */
  lemma HexPrefix(x: char, num: nat, base: nat)
    requires (x == 'x' || x == 'X') && (base == 0 || base == 16)
    ensures Strtol("0" + [x] + Digits(num, 16), base)
         == if x == 'x' then (Wrap(num), "") else (0, "X" + Digits(num, 16))
  {
    var d := Digits(num, 16);
    if x == 'x' {
      FormRead("", "", "0x", 16, base, num, "");
      assert "" + "" + ("0x" + (d + "")) == "0" + [x] + d;
    } else {
      var s := "0" + [x] + d;
      assert s[0] == '0' && s[1] == 'X' && s[1..] == "X" + d;
      assert DigitValue('0') == 0 && DigitValue('X') == 33 && Wrap(0) == 0;
      assert SignAfter(SkipBlanks(s)) == (false, s);
      assert ReadDigits(s[1..], 8, 0) == (0, s[1..]) && ReadDigits(s[1..], 16, 0) == (0, s[1..]);
      assert ReadDigits(s, 16, 0) == ReadDigits(s[1..], 16, 0);
    }
  }

  /** The prefix is read without digits behind it, too. */
  lemma BarePrefix(base: int, tail: string)
    requires (base == 0 || base == 16) && Ends(tail)
    ensures Strtol("0x" + tail, base) == (0, tail)
  {
    var s := "0x" + tail;
    assert s[0] == '0' && s[1] == 'x' && s[2..] == tail;
    assert SignAfter(SkipBlanks(s)) == (false, s);
  }

  /** Digits and then letters stand for the numbers from 0 on, in order. */
  lemma DigitsInOrder(c: char, d: char)
    requires ('0' <= c <= '9' || 'a' <= c <= 'z') && ('0' <= d <= '9' || 'a' <= d <= 'z')
    ensures DigitValue('0') == 0 && DigitValue('z') == 35 && (c < d <==> DigitValue(c) < DigitValue(d))
  {
  }

  /** The letters of a string as capitals. */
  function Capitals(s: string): (r: string)
    ensures |r| == |s|
  {
    if s == [] then []
    else [if 'a' <= s[0] <= 'z' then (s[0] as int - 'a' as int + 'A' as int) as char else s[0]] + Capitals(s[1..])
  }

  /** Capitals are read as small letters are, up to the same place. */
  lemma {:induction false} CapitalsRead(s: string, base: nat, val: int)
    ensures var (n, rest) := ReadDigits(s, base, val); ReadDigits(Capitals(s), base, val) == (n, Capitals(rest))
    decreases |s|
  {
    if s != "" {
      var c := Capitals(s);
      assert c[1..] == Capitals(s[1..]) && DigitValue(c[0]) == DigitValue(s[0]);
      CapitalsRead(s[1..], base, Wrap(val * base + DigitValue(s[0])));
    }
  }
}
