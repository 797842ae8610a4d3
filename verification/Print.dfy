/** Number formatting: print_num in lib/print.c. */
module Print {
  import opened Bits
  import opened Mmu

  function DigitChar(d: nat, upcase: bool): (c: char)
    requires d < 16
  {
    if d <= 9 then '0' + (d as char)
    else if upcase then 'A' + ((d - 10) as char)
    else 'a' + ((d - 10) as char)
  }

  /** u / base, which is smaller than u unless u is zero. */
  function Quot(u: nat, base: nat): (q: nat)
    requires base >= 2
    ensures q <= u / 2
  {
    Halves(u, base);
    u / base
  }

  /** u % base */
  function Rem(u: nat, base: nat): (r: nat)
    requires base >= 2
    ensures r < base
  {
    u % base
  }

  lemma Halves(u: nat, base: nat)
    requires base >= 2
    ensures 0 <= u / base <= u / 2
  {
    var q := u / base;
    assert u == q * base + u % base;
    assert q >= 0 ==> q * 2 <= q * base;
  }

  /** The digits of `u`, most significant first; at least one. */
  function Digits(u: nat, base: nat, upcase: bool): (s: string)
    requires 2 <= base <= 16
    ensures |s| >= 1
    decreases u
  {
    if u < base then [DigitChar(u, upcase)]
    else Digits(Quot(u, base), base, upcase) + [DigitChar(Rem(u, base), upcase)]
  }

  function Repeat(c: char, n: int): (s: string)
    ensures |s| == if n <= 0 then 0 else n
  {
    if n <= 0 then "" else Repeat(c, n - 1) + [c]
  }

  lemma {:induction false} RepeatAt(c: char, n: int, i: nat)
    requires i < n
    ensures Repeat(c, n)[i] == c
  {
    if i < n - 1 { RepeatAt(c, n - 1, i); }
  }

  lemma {:induction false} RepeatFront(c: char, n: int)
    requires n > 0
    ensures Repeat(c, n) == [c] + Repeat(c, n - 1)
  {
    if n > 1 { RepeatFront(c, n - 1); }
  }

  /**
   * What print_num promises: width is filled on the left with the padding character, or on the
   * right with spaces; a minus sign comes before zero padding.
   */
  function Format(u: nat, base: nat, neg: bool, length: int, ladjust: bool, padc: char, upcase: bool): (s: string)
    requires 2 <= base <= 16
  {
    var d := Digits(u, base, upcase);
    var signed := (if neg then "-" else "") + d;
    if ladjust then signed + Repeat(' ', length - |signed|)
    else if neg && padc == '0' then "-" + Repeat('0', length - |signed|) + d
    else Repeat(padc, length - |signed|) + signed
  }

  function Reverse(s: string): (r: string)
    ensures |r| == |s|
  {
    if s == "" then "" else Reverse(s[1..]) + [s[0]]
  }

  lemma {:induction false} ReverseAt(s: string, i: nat)
    requires i < |s|
    ensures Reverse(s)[i] == s[|s| - 1 - i]
  {
    if i < |s| - 1 { ReverseAt(s[1..], i); }
  }

  lemma {:induction false} ReverseConcat(a: string, b: string)
    ensures Reverse(a + b) == Reverse(b) + Reverse(a)
  {
    if a == "" {
      assert a + b == b;
    } else {
      assert (a + b)[1..] == a[1..] + b;
      ReverseConcat(a[1..], b);
    }
  }

  lemma ReverseSnoc(s: string, c: char)
    ensures Reverse(s + [c]) == [c] + Reverse(s)
  {
    ReverseConcat(s, [c]);
    assert [c][1..] == "";
    assert Reverse([c]) == [c];
  }

  lemma {:induction false} RepeatReverse(c: char, n: int)
    ensures Reverse(Repeat(c, n)) == Repeat(c, n)
  {
    if n > 0 {
      ReverseSnoc(Repeat(c, n - 1), c);
      RepeatReverse(c, n - 1);
      RepeatFront(c, n);
    }
  }

  /** Swapping from both ends turns the first `n` characters around. */
  method ReversePrefix(buf: array<char>, n: nat)
    requires n <= buf.Length
    modifies buf
    ensures buf[..n] == Reverse(old(buf[..n])) && buf[n..] == old(buf[n..])
  {
    var begin, end: int := 0, n - 1;
    while end > begin
      invariant 0 <= begin <= end + 2 && end < buf.Length && begin == n - 1 - end
      invariant forall j :: 0 <= j < buf.Length ==>
                  buf[j] == if j < begin || end < j < n then old(buf[n - 1 - j]) else old(buf[j])
    {
      var tmp := buf[begin];
      buf[begin] := buf[end];
      buf[end] := tmp;
      begin := begin + 1;
      end := end - 1;
    }
    ghost var was := old(buf[..n]);
    forall j | 0 <= j < n ensures buf[..n][j] == Reverse(was)[j] { ReverseAt(was, j); }
  }

  /** One turn of the digit loop, with room for `k` more binary digits. */
  method PutDigit(buf: array<char>, p: nat, u: nat, base: nat, upcase: bool, ghost all: string, ghost k: nat)
    requires 2 <= base <= 16 && p < buf.Length && k >= 1 && u < Pow2(k)
    requires all == Digits(u, base, upcase) + Reverse(buf[..p])
    modifies buf
    ensures Quot(u, base) < Pow2(k - 1) && (Quot(u, base) > 0 ==> Quot(u, base) < u && k > 1)
    ensures all == (if Quot(u, base) == 0 then Reverse(buf[..p + 1]) else Digits(Quot(u, base), base, upcase) + Reverse(buf[..p + 1]))
  {
    hide Digits, Reverse, Pow2, DigitChar;
    DigitAppended(buf[..p], all, u, base, upcase, k);
    Put(buf, p, DigitChar(Rem(u, base), upcase));
  }

  /** The digit loop: least significant digit first, at most 64 of them. */
  method PutDigits(buf: array<char>, u0: nat, base: nat, upcase: bool) returns (p: nat)
    requires 2 <= base <= 16 && u0 < WORD_LIMIT && buf.Length >= 64
    modifies buf
    ensures p <= 64 && Reverse(buf[..p]) == Digits(u0, base, upcase)
  {
    hide Digits, Reverse, Pow2, DigitChar;
    p := 0;
    var u: nat := u0;
    ghost var all := Digits(u0, base, upcase);
    WordPow();
    ReverseNothing(buf[..0]);
    while true
      invariant p < 64 && u < Pow2(64 - p) && all == Digits(u, base, upcase) + Reverse(buf[..p])
      decreases u
    {
      PutDigit(buf, p, u, base, upcase, all, 64 - p);
      p := p + 1;
      if Quot(u, base) == 0 {
        break;
      }
      u := Quot(u, base);
    }
  }

  /** Appending the next digit: done if nothing is left of the number, else the invariant again. */
  lemma DigitAppended(was: string, all: string, u: nat, base: nat, upcase: bool, k: nat)
    requires 2 <= base <= 16 && k >= 1 && u < Pow2(k) && all == Digits(u, base, upcase) + Reverse(was)
    ensures Rem(u, base) < 16 && Quot(u, base) < Pow2(k - 1) && (Quot(u, base) > 0 ==> Quot(u, base) < u && k > 1)
    ensures var r := Reverse(was + [DigitChar(Rem(u, base), upcase)]);
            all == if Quot(u, base) == 0 then r else Digits(Quot(u, base), base, upcase) + r
  {
    hide Digits, Reverse, Pow2, DigitChar;
    DigitStep(u, base, upcase, k);
    var c := DigitChar(Rem(u, base), upcase);
    ReverseSnoc(was, c);
    assert all == (if Quot(u, base) == 0 then "" else Digits(Quot(u, base), base, upcase)) + ([c] + Reverse(was));
  }

  lemma ReverseNothing(s: string)
    ensures s == "" ==> Reverse(s) == "" && forall t: string :: t + Reverse(s) == t
  {
  }

  lemma DivFacts(u: nat, base: nat)
    requires base >= 2
    ensures Quot(u, base) == 0 <==> u < base
    ensures Quot(u, base) <= u / 2 && Rem(u, base) < base
  {
    var q := Quot(u, base);
    assert u == q * base + Rem(u, base);
    if q >= 1 { assert q * base >= base; }
    assert q * 2 <= q * base;
  }

  lemma DigitStep(u: nat, base: nat, upcase: bool, k: nat)
    requires 2 <= base <= 16 && k >= 1 && u < Pow2(k)
    ensures Quot(u, base) < Pow2(k - 1) && Rem(u, base) < 16 && (Quot(u, base) > 0 ==> Quot(u, base) < u && k > 1)
    ensures Digits(u, base, upcase) ==
              (if Quot(u, base) == 0 then "" else Digits(Quot(u, base), base, upcase)) + [DigitChar(Rem(u, base), upcase)]
  {
    DivFacts(u, base);
    if u < base { assert Rem(u, base) == u; }
  }

  /** The padding loops. */
  method Pad(buf: array<char>, start: nat, end: nat, padc: char)
    requires start <= end <= buf.Length
    modifies buf
    ensures buf[..end] == old(buf[..start]) + Repeat(padc, end - start)
  {
    var i := start;
    while i < end
      invariant start <= i <= end
      invariant buf[..start] == old(buf[..start])
      invariant forall j :: start <= j < i ==> buf[j] == padc
    {
      buf[i] := padc;
      i := i + 1;
    }
    forall j | 0 <= j < end - start ensures buf[start..end][j] == Repeat(padc, end - start)[j] {
      RepeatAt(padc, end - start, j);
    }
    assert buf[start..end] == Repeat(padc, end - start);
    assert buf[..end] == buf[..start] + buf[start..end];
  }

  /** Storing one character after a prefix. */
  method Put(buf: array<char>, p: nat, c: char)
    requires p < buf.Length
    modifies buf
    ensures buf[..p + 1] == old(buf[..p]) + [c]
    ensures buf[..p] == old(buf[..p])
  {
    buf[p] := c;
  }

  /** The buffer before reversal: digits least significant first, sign, padding. */
  ghost function Layout(neg: bool, zeros: bool, padc: char, length0: nat, digits: string): string {
    var signed := Signed(neg, digits);
    if zeros then digits + Repeat('0', length0 - |signed|) + ['-'] else signed + Repeat(padc, length0 - |signed|)
  }

  function Signed(neg: bool, digits: string): string { if neg then digits + ['-'] else digits }

  /** Sign and padding behind the digits, as print_num lays them out. */
  method LayOut(buf: array<char>, p0: nat, neg: bool, length0: nat, ladjust: bool, padc0: char)
      returns (actualLength: nat, length: nat)
    requires p0 + 1 <= buf.Length && length0 <= buf.Length
    modifies buf
    ensures actualLength == |Signed(neg, old(buf[..p0]))| <= length <= buf.Length
    ensures buf[..length] ==
              Layout(neg, neg && !ladjust && padc0 == '0', if ladjust then ' ' else padc0, length0, old(buf[..p0]))
  {
    hide Repeat;
    var p, padc := p0, padc0;
    length := length0;
    if neg {
      Put(buf, p, '-');
      p := p + 1;
    }
    actualLength := p;
    if length < actualLength {
      length := actualLength;
    }
    if ladjust {
      padc := ' ';
    }
    if neg && !ladjust && padc == '0' {
      Pad(buf, actualLength - 1, length - 1, padc);
      Put(buf, length - 1, '-');
    } else {
      Pad(buf, actualLength, length, padc);
    }
    NoPad(if neg && !ladjust && padc == '0' then '0' else padc, length0 - actualLength);
  }

  lemma NoPad(c: char, n: int)
    ensures n <= 0 ==> Repeat(c, n) == Repeat(c, 0)
  {
  }

  /** Turning the first `k` of `n` characters around. */
  method Turn(buf: array<char>, k: nat, n: nat)
    requires k <= n <= buf.Length
    modifies buf
    ensures buf[..n] == Reverse(old(buf[..n])[..k]) + old(buf[..n])[k..]
  {
    hide Reverse;
    ghost var was := buf[..n];
    assert was[..k] == buf[..k];
    assert was[k..] == buf[k..][..n - k];
    ReversePrefix(buf, k);
    assert buf[..n] == buf[..k] + buf[k..][..n - k];
  }

  /** print_num; every store is inside the buffer of length + 70 characters. */
  method PrintNum(u: nat, base: nat, neg: bool, length0: nat, ladjust: bool, padc: char, upcase: bool)
      returns (out: string)
    requires u < WORD_LIMIT && 2 <= base <= 16
    ensures out == Format(u, base, neg, length0, ladjust, padc, upcase)
    ensures RightCase(padc, upcase) ==> forall i :: 0 <= i < |out| ==> RightCase(out[i], upcase)
    ensures out != "" && if ladjust then IsDigit(out[0]) || (neg && out[0] == '-') else IsDigit(out[|out| - 1])
  {
    hide Digits, Reverse, Repeat, Layout, Format, RightCase, IsDigit;
    FormatEnds(u, base, neg, length0, ladjust, padc, upcase);
    if RightCase(padc, upcase) { FormatCase(u, base, neg, length0, ladjust, padc, upcase); }
    var buf := new char[length0 + 70];
    var p := PutDigits(buf, u, base, upcase);
    ghost var digits := buf[..p];
    var actualLength, length := LayOut(buf, p, neg, length0, ladjust, padc);
    ghost var laid := buf[..length];
    if ladjust {
      Turn(buf, actualLength, length);
      LaidLeft(u, base, neg, length0, padc, upcase, digits, laid);
    } else {
      ReversePrefix(buf, length);
      LaidRight(u, base, neg, length0, padc, upcase, digits, laid);
    }
    out := buf[..length];
  }

  /** Left-adjusted, only the number itself is reversed. */
  lemma LaidLeft(u: nat, base: nat, neg: bool, length0: nat, padc: char, upcase: bool, digits: string, laid: string)
    requires 2 <= base <= 16 && Reverse(digits) == Digits(u, base, upcase) && laid == Layout(neg, false, ' ', length0, digits)
    ensures var k := |Signed(neg, digits)|;
            k <= |laid| && Reverse(laid[..k]) + laid[k..] == Format(u, base, neg, length0, true, padc, upcase)
  {
    hide Digits, Reverse, Repeat;
    var signed := Signed(neg, digits);
    if neg { ReverseSnoc(digits, '-'); }
    assert laid[..|signed|] == signed && laid[|signed|..] == Repeat(' ', length0 - |signed|);
  }

  /** Otherwise everything is. */
  lemma LaidRight(u: nat, base: nat, neg: bool, length0: nat, padc: char, upcase: bool, digits: string, laid: string)
    requires 2 <= base <= 16 && Reverse(digits) == Digits(u, base, upcase)
    requires laid == Layout(neg, neg && padc == '0', padc, length0, digits)
    ensures Reverse(laid) == Format(u, base, neg, length0, false, padc, upcase)
  {
    hide Digits, Reverse, Repeat;
    var signed := Signed(neg, digits);
    var n := length0 - |signed|;
    if neg { ReverseSnoc(digits, '-'); }
    if neg && padc == '0' {
      ZeroPadded(digits, n);
    } else {
      ReverseConcat(signed, Repeat(padc, n));
      RepeatReverse(padc, n);
    }
  }

  lemma ZeroPadded(digits: string, n: int)
    ensures Reverse(digits + Repeat('0', n) + ['-']) == "-" + Repeat('0', n) + Reverse(digits)
  {
    ReverseSnoc(digits + Repeat('0', n), '-');
    ReverseConcat(digits, Repeat('0', n));
    RepeatReverse('0', n);
  }

  // ----- reading the number back -----------------------------------------------------------

  predicate IsDigit(c: char) { '0' <= c <= '9' || 'A' <= c <= 'F' || 'a' <= c <= 'f' }

  function DigitValue(c: char): nat
    requires IsDigit(c)
  {
    if '0' <= c <= '9' then (c - '0') as nat
    else if 'A' <= c <= 'F' then (c - 'A') as nat + 10
    else (c - 'a') as nat + 10
  }

  predicate AllDigits(s: string) { forall i :: 0 <= i < |s| ==> IsDigit(s[i]) }

  /** The value of a digit string. */
  function Value(s: string, base: nat): nat
    requires AllDigits(s)
  {
    if s == "" then 0 else Value(s[..|s| - 1], base) * base + DigitValue(s[|s| - 1])
  }

  /** The longest prefix of digits. */
  function Leading(s: string): (k: nat)
    ensures k <= |s| && AllDigits(s[..k]) && (k < |s| ==> !IsDigit(s[k]))
  {
    if s == "" || !IsDigit(s[0]) then 0
    else
      var k := Leading(s[1..]);
      assert forall i :: 0 <= i < k ==> s[1..][..k][i] == s[i + 1];
      1 + k
  }

  function SkipSpaces(s: string): string {
    if s != "" && s[0] == ' ' then SkipSpaces(s[1..]) else s
  }

  /** A reader as for any number: blanks, an optional minus sign, digits; zeros in front do not matter. */
  function Read(s: string, base: nat): int {
    var t := SkipSpaces(s);
    if t != "" && t[0] == '-' then -(Value(t[1..][..Leading(t[1..])], base) as int)
    else Value(t[..Leading(t)], base)
  }

  lemma DigitRoundTrip(d: nat, upcase: bool)
    requires d < 16
    ensures IsDigit(DigitChar(d, upcase)) && DigitValue(DigitChar(d, upcase)) == d
  {
  }

  lemma ValueSnoc(s: string, c: char, base: nat)
    requires AllDigits(s) && IsDigit(c)
    ensures AllDigits(s + [c]) && Value(s + [c], base) == Value(s, base) * base + DigitValue(c)
  {
    assert (s + [c])[..|s|] == s;
  }

  /** Reading the digits gives the number back. */
  lemma {:induction false} DigitsValue(u: nat, base: nat, upcase: bool)
    requires 2 <= base <= 16
    ensures AllDigits(Digits(u, base, upcase)) && Value(Digits(u, base, upcase), base) == u
    decreases u
  {
    hide DigitChar, IsDigit, DigitValue, AllDigits, Value;
    DivFacts(u, base);
    var r := Rem(u, base);
    DigitRoundTrip(r, upcase);
    var front := if u < base then "" else Digits(Quot(u, base), base, upcase);
    if u < base {
      NoDigits(base);
      assert r == u;
    } else {
      DigitsValue(Quot(u, base), base, upcase);
    }
    ValueSnoc(front, DigitChar(r, upcase), base);
    assert Digits(u, base, upcase) == front + [DigitChar(r, upcase)];
    assert u == Quot(u, base) * base + r;
  }

  lemma NoDigits(base: nat)
    ensures AllDigits("") && Value("", base) == 0
  {
  }

  lemma {:induction false} ZerosValue(n: int, d: string, base: nat)
    requires AllDigits(d)
    ensures AllDigits(Repeat('0', n) + d) && Value(Repeat('0', n) + d, base) == Value(d, base)
    decreases |d|, n
  {
    var s := Repeat('0', n) + d;
    if d != "" {
      ZerosValue(n, d[..|d| - 1], base);
      ValueSnoc(Repeat('0', n) + d[..|d| - 1], d[|d| - 1], base);
      assert s == Repeat('0', n) + d[..|d| - 1] + [d[|d| - 1]];
    } else if n > 0 {
      ZerosValue(n - 1, d, base);
      ValueSnoc(Repeat('0', n - 1) + d, '0', base);
      assert s == Repeat('0', n - 1) + d + ['0'];
    }
  }

  lemma {:induction false} LeadingDigits(d: string, rest: string)
    requires AllDigits(d) && (rest != "" ==> !IsDigit(rest[0]))
    ensures Leading(d + rest) == |d|
  {
    if d != "" {
      assert (d + rest)[1..] == d[1..] + rest;
      LeadingDigits(d[1..], rest);
    } else {
      assert d + rest == rest;
    }
  }

  lemma {:induction false} SkipRepeat(n: int, t: string)
    requires t != "" && t[0] != ' '
    ensures SkipSpaces(Repeat(' ', n) + t) == t
  {
    if n > 0 {
      RepeatFront(' ', n);
      assert (Repeat(' ', n) + t)[1..] == Repeat(' ', n - 1) + t;
      SkipRepeat(n - 1, t);
    } else {
      assert Repeat(' ', n) + t == t;
    }
  }

  /** Reading digits up to the end or a blank. */
  lemma ReadPlain(d: string, tail: string, base: nat)
    requires AllDigits(d) && d != "" && (tail != "" ==> tail[0] == ' ')
    ensures Read(d + tail, base) == Value(d, base)
  {
    hide Value;
    LeadingDigits(d, tail);
    assert (d + tail)[..|d|] == d;
    assert IsDigit(d[0]);
  }

  /** The same behind a minus sign. */
  lemma ReadMinus(d: string, tail: string, base: nat)
    requires AllDigits(d) && d != "" && (tail != "" ==> tail[0] == ' ')
    ensures Read("-" + d + tail, base) == -(Value(d, base) as int)
  {
    hide Value;
    LeadingDigits(d, tail);
    assert (d + tail)[..|d|] == d;
    assert ("-" + d + tail)[1..] == d + tail;
  }

  lemma ReadSigned(neg: bool, d: string, tail: string, base: nat)
    requires AllDigits(d) && d != "" && (tail != "" ==> tail[0] == ' ')
    ensures Read((if neg then "-" else "") + d + tail, base) == if neg then -(Value(d, base) as int) else Value(d, base)
  {
    hide Value, Read, AllDigits;
    if neg {
      ReadMinus(d, tail, base);
    } else {
      ReadPlain(d, tail, base);
      assert "" + d + tail == d + tail;
    }
  }

  /** The width: as asked, or as wide as the number if that is wider. */
  lemma Width(u: nat, base: nat, neg: bool, length: nat, ladjust: bool, padc: char, upcase: bool)
    requires 2 <= base <= 16
    ensures var k := |Digits(u, base, upcase)| + (if neg then 1 else 0);
            |Format(u, base, neg, length, ladjust, padc, upcase)| == if length <= k then k else length
  {
    hide Digits, Repeat;
  }

  /** What print_num writes reads back as the number, for every width, adjustment and padding with blanks or zeros. */
  lemma ReadsBack(u: nat, base: nat, neg: bool, length: nat, ladjust: bool, padc: char, upcase: bool)
    requires 2 <= base <= 16 && (padc == ' ' || padc == '0')
    ensures Read(Format(u, base, neg, length, ladjust, padc, upcase), base) == if neg then -(u as int) else u
  {
    hide Digits, Read, Value, Repeat, AllDigits;
    var d := Digits(u, base, upcase);
    var sign := if neg then "-" else "";
    var n := length - |sign + d|;
    DigitsValue(u, base, upcase);
    if ladjust {
      if n > 0 { RepeatFront(' ', n); }
      ReadSigned(neg, d, Repeat(' ', n), base);
    } else if padc == '0' {
      ZerosValue(n, d, base);
      ReadSigned(neg, Repeat('0', n) + d, "", base);
      assert sign + (Repeat('0', n) + d) + "" == sign + Repeat('0', n) + d;
      assert !neg ==> sign + Repeat('0', n) + d == Repeat('0', n) + (sign + d);
    } else {
      FirstDigit(d);
      SkipBlanks(n, sign + d, base);
      ReadSigned(neg, d, "", base);
      assert sign + d + "" == sign + d;
    }
  }

  lemma FirstDigit(d: string)
    requires AllDigits(d) && d != ""
    ensures d[0] != ' '
  {
    assert IsDigit(d[0]);
  }

  lemma SkipBlanks(n: int, t: string, base: nat)
    requires t != "" && t[0] != ' '
    ensures Read(Repeat(' ', n) + t, base) == Read(t, base)
  {
    SkipRepeat(n, t);
    SkipRepeat(0, t);
  }

  // ----- the digits are determined ---------------------------------------------------------

  /** No lower-case digit in upper-case output, and no upper-case digit in lower-case output. */
  predicate RightCase(c: char, upcase: bool) { if upcase then !('a' <= c <= 'f') else !('A' <= c <= 'F') }

  predicate CaseKept(s: string, upcase: bool) { forall i :: 0 <= i < |s| ==> RightCase(s[i], upcase) }

  /** How the number has to be written: digits of the base in the case asked for, and no zero in front. */
  predicate Proper(d: string, base: nat, upcase: bool) {
    && AllDigits(d) && d != ""
    && (forall i :: 0 <= i < |d| ==> DigitValue(d[i]) < base)
    && CaseKept(d, upcase)
    && (|d| > 1 ==> d[0] != '0')
  }

  lemma DigitCharInverse(c: char, upcase: bool)
    requires IsDigit(c) && RightCase(c, upcase)
    ensures DigitValue(c) < 16 && DigitChar(DigitValue(c), upcase) == c
  {
  }

  lemma DigitCharCase(d: nat, upcase: bool)
    requires d < 16
    ensures IsDigit(DigitChar(d, upcase)) && RightCase(DigitChar(d, upcase), upcase)
    ensures DigitChar(d, upcase) == '0' <==> d == 0
  {
  }

  lemma {:induction false} DigitsProper(u: nat, base: nat, upcase: bool)
    requires 2 <= base <= 16
    ensures Proper(Digits(u, base, upcase), base, upcase)
    ensures Digits(u, base, upcase)[0] == '0' <==> u == 0
    decreases u
  {
    hide DigitChar, DigitValue, IsDigit, RightCase;
    DivFacts(u, base);
    var r := Rem(u, base);
    DigitRoundTrip(r, upcase);
    DigitCharCase(r, upcase);
    if u < base {
      DigitCharCase(u, upcase);
      DigitRoundTrip(u, upcase);
    } else {
      DigitsProper(Quot(u, base), base, upcase);
    }
  }

  lemma ProperFront(d: string, base: nat, upcase: bool)
    requires Proper(d, base, upcase) && |d| > 1
    ensures Proper(d[..|d| - 1], base, upcase) && d[..|d| - 1][0] != '0'
  {
  }

  lemma {:induction false} ProperPositive(d: string, base: nat, upcase: bool)
    requires Proper(d, base, upcase) && d[0] != '0' && base >= 2
    ensures Value(d, base) >= 1
  {
    var front, last := d[..|d| - 1], d[|d| - 1];
    if |d| == 1 {
      assert front == "";
      assert Value(front, base) == 0;
    } else {
      ProperFront(d, base, upcase);
      hide Proper;
      ProperPositive(front, base, upcase);
      Scaled(Value(front, base), base);
    }
  }

  lemma Scaled(x: int, base: nat)
    ensures x >= 1 ==> x * base >= base
    ensures x <= -1 ==> x * base + base <= 0
  {
  }

  lemma QuotientOf(q: nat, base: nat, r: nat)
    requires base >= 2 && r < base
    ensures Quot(q * base + r, base) == q && Rem(q * base + r, base) == r
  {
    var u := q * base + r;
    var d := Quot(u, base) - q;
    assert u == Quot(u, base) * base + Rem(u, base);
    assert Quot(u, base) * base == q * base + d * base;
    Scaled(d, base);
  }

  /** The output of the digit loop is the only proper way to write the number. */
  lemma {:induction false} DigitsUnique(d: string, u: nat, base: nat, upcase: bool)
    requires 2 <= base <= 16
    ensures Proper(d, base, upcase) && Value(d, base) == u <==> d == Digits(u, base, upcase)
    decreases |d|
  {
    DigitsProper(u, base, upcase);
    DigitsValue(u, base, upcase);
    if Proper(d, base, upcase) && Value(d, base) == u {
      ProperIsDigits(d, u, base, upcase);
    }
  }

  lemma {:induction false} ProperIsDigits(d: string, u: nat, base: nat, upcase: bool)
    requires 2 <= base <= 16 && Proper(d, base, upcase) && Value(d, base) == u
    ensures d == Digits(u, base, upcase)
    decreases |d|
  {
    hide RightCase, IsDigit, DigitValue, DigitChar;
    var front, last := d[..|d| - 1], d[|d| - 1];
    var q, r := Value(front, base), DigitValue(last);
    QuotientOf(q, base, r);
    DivFacts(u, base);
    DigitCharInverse(last, upcase);
    assert d == front + [last];
    if |d| == 1 {
      assert front == "";
    } else {
      ProperFront(d, base, upcase);
      ProperPositive(front, base, upcase);
      ProperIsDigits(front, q, base, upcase);
    }
  }

  lemma {:induction false} RepeatCase(c: char, n: int, upcase: bool)
    requires RightCase(c, upcase)
    ensures CaseKept(Repeat(c, n), upcase)
  {
    if n > 0 { RepeatCase(c, n - 1, upcase); }
  }

  /** Left-adjusted, the number comes first; otherwise it comes last. */
  lemma FormatEnds(u: nat, base: nat, neg: bool, length: int, ladjust: bool, padc: char, upcase: bool)
    requires 2 <= base <= 16
    ensures var s := Format(u, base, neg, length, ladjust, padc, upcase);
            s != "" && if ladjust then IsDigit(s[0]) || (neg && s[0] == '-') else IsDigit(s[|s| - 1])
  {
    hide Digits, Repeat, IsDigit;
    DigitsProper(u, base, upcase);
  }

  /** The case asked for is kept in the whole output. */
  lemma FormatCase(u: nat, base: nat, neg: bool, length: int, ladjust: bool, padc: char, upcase: bool)
    requires 2 <= base <= 16 && RightCase(padc, upcase)
    ensures CaseKept(Format(u, base, neg, length, ladjust, padc, upcase), upcase)
  {
    hide Digits, Repeat;
    DigitsProper(u, base, upcase);
    var n := length - |Digits(u, base, upcase)| - (if neg then 1 else 0);
    RepeatCase(padc, n, upcase);
    RepeatCase(' ', n, upcase);
    RepeatCase('0', n, upcase);
  }
}
