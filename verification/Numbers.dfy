/** Printing and parsing of 64-bit numbers in bases 2 to 36. */
module Numbers {

  /** ULONG_MAX */
  const MAX: nat := 0xffff_ffff_ffff_ffff

  const MODULUS: nat := 0x1_0000_0000_0000_0000

  // ---- characters ----

  predicate IsSpace(c: char) { c == ' ' || '\t' <= c <= '\r' }

  predicate IsDigit(c: char) { '0' <= c <= '9' }

  predicate IsAlnum(c: char) { IsDigit(c) || 'a' <= c <= 'z' || 'A' <= c <= 'Z' }

  function ToUpper(c: char): char
  {
    if 'a' <= c <= 'z' then c - 'a' + 'A' else c
  }

  /** A character as a signed byte. */
  function Byte(c: char): (b: int)
    ensures -128 <= b < 128
  {
    (c as int + 128) % 256 - 128
  }

  /** The digit `strtoul` makes of a character, whatever it is. */
  function DigitOf(c: char): (d: int)
    ensures -256 < d < 256
  {
    var u := ToUpper(c);
    if IsDigit(u) then u as int - '0' as int else Byte(u) - 'A' as int + 10
  }

  function CharOf(d: nat): (c: char)
    requires d < 36
    ensures IsAlnum(c) && DigitOf(c) == d
  {
    if d < 10 then '0' + d as char else 'a' + (d - 10) as char
  }

  // ---- what a digit string is worth, and the digits of a number ----

  ghost predicate Digital(s: string) { forall i :: 0 <= i < |s| ==> IsAlnum(s[i]) }

  /** No character counts less than nothing. */
  ghost predicate Counts(s: string) { forall i :: 0 <= i < |s| ==> DigitOf(s[i]) >= 0 }

  function Value(s: string, base: nat): int
  {
    if s == [] then 0 else Value(s[..|s| - 1], base) * base + DigitOf(s[|s| - 1])
  }

  function Higher(v: nat, base: nat): nat
    requires base >= 2
  {
    v / base
  }

  function Lowest(v: nat, base: nat): (d: nat)
    requires base >= 2
    ensures d < base
  {
    v % base
  }

  lemma Split(v: nat, base: nat)
    requires base >= 2
    ensures v == Higher(v, base) * base + Lowest(v, base)
    ensures v >= base ==> 1 <= Higher(v, base) < v
    ensures v < base ==> Higher(v, base) == 0 && Lowest(v, base) == v
  {
    assert v == v / base * base + v % base;
    Product(v / base, base);
  }

  lemma Product(q: nat, base: nat)
    requires base >= 2
    ensures q == 0 ==> q * base == 0
    ensures q >= 1 ==> q * base >= base && q * base > q
  {
    if q >= 1 {
      assert (q - 1) * base >= 0 && (base - 1) * q > 0;
    }
  }

  function Digits(v: nat, base: nat): (s: string)
    requires 2 <= base <= 36
    ensures s != []
    decreases v
  {
    if v < base then [CharOf(v)] else Digits(Higher(v, base), base) + [CharOf(Lowest(v, base))]
  }

  lemma ValueSnoc(s: string, c: char, base: nat)
    ensures Value(s + [c], base) == Value(s, base) * base + DigitOf(c)
  {
    assert (s + [c])[..|s|] == s;
  }

  /** The digits of a number are worth that number, */
  lemma {:induction false} ValueOfDigits(v: nat, base: nat)
    requires 2 <= base <= 36
    ensures Value(Digits(v, base), base) == v
    decreases v
  {
    Split(v, base);
    if v < base {
      assert [] + [CharOf(v)] == [CharOf(v)];
      ValueSnoc([], CharOf(v), base);
    } else {
      ValueOfDigits(Higher(v, base), base);
      ValueSnoc(Digits(Higher(v, base), base), CharOf(Lowest(v, base)), base);
    }
  }

  /** are all below the base, and do not begin with a zero. */
  lemma {:induction false} DigitsFit(v: nat, base: nat)
    requires 2 <= base <= 36
    ensures v > 0 ==> DigitOf(Digits(v, base)[0]) > 0
    ensures Digital(Digits(v, base))
    ensures forall i :: 0 <= i < |Digits(v, base)| ==> DigitOf(Digits(v, base)[i]) < base
    decreases v
  {
    Split(v, base);
    if v >= base { DigitsFit(Higher(v, base), base); }
  }

  lemma Scaled(v: int, base: nat)
    requires v >= 0 && base >= 1
    ensures v * base >= v
  {
  }

  lemma {:induction false} ValueGrows(s: string, base: nat, k: nat)
    requires Counts(s) && base >= 1 && k <= |s|
    ensures 0 <= Value(s[..k], base) <= Value(s, base)
    decreases |s|
  {
    if s == [] {
    } else {
      var t := s[..|s| - 1];
      ValueGrows(t, base, if k < |s| then k else 0);
      Scaled(Value(t, base), base);
      if k < |s| { assert t[..k] == s[..k]; } else { assert s[..k] == s; }
    }
  }

  lemma DigitNonNegative(c: char)
    requires IsAlnum(c)
    ensures 0 <= DigitOf(c) < 36
  {
  }

  lemma DigitalCounts(s: string, base: nat)
    requires Digital(s) && base >= 1
    ensures Counts(s) && Value(s, base) >= 0
  {
    forall i | 0 <= i < |s| ensures DigitOf(s[i]) >= 0 { DigitNonNegative(s[i]); }
    ValueGrows(s, base, 0);
  }

  // ---- the parser ----

  /** The character at `i`, the terminator behind the last. */
  function At(s: string, i: nat): char
  {
    if i < |s| then s[i] else '\0'
  }

  function SkipSpace(s: string, i: nat): (j: nat)
    requires i <= |s|
    ensures i <= j <= |s|
    decreases |s| - i
  {
    if i < |s| && IsSpace(s[i]) then SkipSpace(s, i + 1) else i
  }

  /** Base and first digit, once the sign is behind. */
  function Prefix(s: string, i: nat, base: nat): (p: (nat, nat))
    requires i <= |s|
    ensures i <= p.1 <= |s|
  {
    if base == 0 then
      if At(s, i) != '0' then (10, i)
      else if At(s, i + 1) == 'x' || At(s, i + 1) == 'X' then (16, i + 2) else (8, i + 1)
    else if base == 8 && At(s, i) == '0' then (8, i + 1)
    else if base == 16 && At(s, i) == '0' && At(s, i + 1) == 'x' then (16, i + 2)
    else (base, i)
  }

  function Clamp(v: int): nat
    requires v >= 0
  {
    if v <= MAX then v else MAX
  }

  function Negated(negate: bool, v: nat): nat
    requires v <= MAX
  {
    if negate then (MODULUS - v) % MODULUS else v
  }

  function AfterSign(s: string): (i: nat)
    ensures i <= |s|
  {
    var i := SkipSpace(s, 0);
    if At(s, i) == '-' || At(s, i) == '+' then i + 1 else i
  }

  /** The digits, and the base they are read in. */
  function Rest(s: string, base: nat): string { s[Prefix(s, AfterSign(s), base).1..] }

  function BaseOf(s: string, base: nat): nat { Prefix(s, AfterSign(s), base).0 }

  /** The text is more than a word can hold: a sum of digits beyond the largest
      word, or a character worth less than nothing that is not the last or does
      not take the sum below zero. */
  ghost predicate Overflows(t: string, base: nat)
  {
    if Counts(t) then Value(t, base) > MAX else !Counts(t[..|t| - 1]) || Value(t, base) >= 0
  }

  /** What any text behind sign and prefix is read as. */
  ghost function Read(t: string, base: nat): (v: nat)
    ensures v <= MAX
  {
    if Overflows(t, base) then MAX else Value(t, base) % MODULUS
  }

  /** What a text stands for. */
  ghost function Parsed(s: string, base: nat): (v: nat)
  {
    Negated(At(s, SkipSpace(s, 0)) == '-', Read(Rest(s, base), BaseOf(s, base)))
  }

  lemma ReadDigital(t: string, base: nat)
    requires Digital(t) && base >= 1
    ensures Value(t, base) >= 0 && Read(t, base) == Clamp(Value(t, base))
  {
    DigitalCounts(t, base);
    if Value(t, base) <= MAX { Within(Value(t, base)); }
  }

  lemma Quotient(a: nat, b: nat)
    requires b >= 1
    ensures a / b * b <= a < (a / b + 1) * b
  {
  }

  lemma Ordered(b: nat, i: nat, j: nat)
    requires i <= j
    ensures i * b <= j * b
  {
  }

  lemma OverQuotient(ret: nat, a: nat, b: nat)
    requires b >= 1
    ensures ret > a / b <==> ret * b > a
  {
    Quotient(a, b);
    if ret > a / b { Ordered(b, a / b + 1, ret); } else { Ordered(b, ret, a / b); }
  }

  lemma Within(x: int)
    requires 0 <= x <= MAX
    ensures x % MODULUS == x
  {
  }

  lemma Below(x: int)
    requires 0 <= x + MODULUS < MODULUS
    ensures x % MODULUS == MODULUS + x
  {
  }

  lemma Above(x: int)
    requires MAX < x < 2 * MODULUS
    ensures x % MODULUS == x - MODULUS
  {
  }

  /** The guard `ret > (ULONG_MAX - digit) / base` fires exactly on overflow, or
      when a negative digit does not take the sum below zero. */
  lemma GuardExact(ret: nat, digit: int, base: nat)
    requires -256 < digit < 256 && base >= 1
    ensures ret > (MAX - digit) % MODULUS / base <==>
            if digit >= 0 then ret * base + digit > MAX else ret * base + digit >= 0
  {
    if digit >= 0 { Within(MAX - digit); } else { Above(MAX - digit); }
    OverQuotient(ret, (MAX - digit) % MODULUS, base);
  }

  /** One turn of the digit loop at character `c`; arithmetic in 64 bits. */
  function Turn(ret: nat, c: char, base: nat): (int, bool)
    requires base >= 1
  {
    if ret > (MAX - DigitOf(c)) % MODULUS / base then (MAX, false)
    else ((ret * base + DigitOf(c)) % MODULUS, true)
  }

  /** What `Turn` should give for the text `t` with its last character. */
  ghost predicate TurnReads(turn: (int, bool), t: string, base: nat)
  {
    turn == if Overflows(t, base) then (MAX, false) else (Value(t, base) % MODULUS, true)
  }

  lemma TurnAdds(t: string, c: char, base: nat, ret: nat)
    requires base >= 1 && Counts(t) && ret == Value(t, base) <= MAX
    ensures TurnReads(Turn(ret, c, base), t + [c], base)
  {
    assert (t + [c])[..|t|] == t;
    assert Counts(t + [c]) <==> DigitOf(c) >= 0 by { assert (t + [c])[|t|] == c; }
    ValueSnoc(t, c, base);
    GuardExact(ret, DigitOf(c), base);
  }

  /** Behind a sum below zero, which has wrapped, every character overflows. */
  lemma TurnSaturates(t: string, c: char, base: nat, ret: nat)
    requires base >= 2 && !Counts(t) && ret >= MAX - 256
    ensures TurnReads(Turn(ret, c, base), t + [c], base)
  {
    assert (t + [c])[..|t|] == t;
    assert !Counts(t + [c]) by {
      var i :| 0 <= i < |t| && DigitOf(t[i]) < 0;
      assert (t + [c])[i] == t[i];
    }
    var a := (MAX - DigitOf(c)) % MODULUS;
    Ordered(ret, 2, base);
    OverQuotient(ret, a, base);
  }

  /** The value of a text that does not overflow though it holds a negative digit. */
  lemma BarelyBelow(t: string, base: nat)
    requires base >= 1 && !Counts(t) && !Overflows(t, base)
    ensures -256 < Value(t, base) < 0 && Value(t[..|t| - 1], base) < 256
  {
    var u := t[..|t| - 1];
    ValueGrows(u, base, 0);
    Scaled(Value(u, base), base);
  }

  /** The loop either adds a character or has overflowed, */
  lemma TurnStep(t: string, k: nat, ret: nat, base: nat)
    requires k < |t| && base >= 2 && !Overflows(t[..k], base) && ret == Read(t[..k], base)
    ensures TurnReads(Turn(ret, t[k], base), t[..k + 1], base)
  {
    assert t[..k] + [t[k]] == t[..k + 1];
    if Counts(t[..k]) {
      ValueGrows(t[..k], base, 0);
      Within(Value(t[..k], base));
      TurnAdds(t[..k], t[k], base, ret);
    } else {
      BarelyBelow(t[..k], base);
      Below(Value(t[..k], base));
      TurnSaturates(t[..k], t[k], base, ret);
    }
  }

  /** and then for good. */
  lemma OverflowStays(t: string, k: nat, base: nat)
    requires base >= 1 && k <= |t| && Overflows(t[..k], base)
    ensures Overflows(t, base)
  {
    if Counts(t) {
      ValueGrows(t, base, k);
    } else if !Overflows(t, base) {
      BarelyBelow(t, base);
      var u := t[..|t| - 1];
      assert k < |t| by { assert t[..|t|] == t; }
      assert t[..k] == u[..k];
      ValueGrows(u, base, k);
    }
  }

  /** Where reading stops: behind a text that fits, before the first character
      that makes it overflow; at the beginning of all when nothing was read. */
  ghost predicate StopsAt(s: string, start: nat, base: nat, end: nat)
    requires start <= |s|
  {
    var t := s[start..];
    if !Overflows(t, base) then end == if t == [] then 0 else |s|
    else start < end < |s| && !Overflows(s[start..end], base) && Overflows(s[start..end + 1], base)
  }

  /** `strtoul` of a text without a terminator inside, for every text: the loop
      does not stop at characters that are no digits. */
  method StrToUl(s: string, base: nat) returns (ret: nat, end: nat)
    requires '\0' !in s && (base == 0 || 2 <= base <= 36)
    ensures ret == Parsed(s, base)
    ensures StopsAt(s, Prefix(s, AfterSign(s), base).1, BaseOf(s, base), end)
  {
    var i := 0;
    while IsSpace(At(s, i))
      invariant i <= |s| && SkipSpace(s, i) == SkipSpace(s, 0)
      decreases |s| - i
    {
      i := i + 1;
    }
    var negate := false;
    if At(s, i) == '-' || At(s, i) == '+' {
      negate := At(s, i) == '-';
      i := i + 1;
    }
    assert i == AfterSign(s);
    var b := base;
    if b == 0 {
      b := 10;
      if At(s, i) == '0' {
        b := 8;
        i := i + 1;
        if At(s, i) == 'x' || At(s, i) == 'X' {
          b := 16;
          i := i + 1;
        }
      }
    } else {
      if b == 8 && At(s, i) == '0' { i := i + 1; }
      if b == 16 && At(s, i) == '0' && At(s, i + 1) == 'x' { i := i + 2; }
    }
    assert (b, i) == Prefix(s, AfterSign(s), base);
    ret, end := ReadDigits(s, i, b);
    if negate { ret := (MODULUS - ret) % MODULUS; }
  }

  /** The digit loop of `strtoul`. */
  method ReadDigits(s: string, start: nat, base: nat) returns (ret: nat, end: nat)
    requires start <= |s| && base >= 2 && '\0' !in s
    ensures ret == Read(s[start..], base)
    ensures StopsAt(s, start, base, end)
  {
    hide Value, DigitOf, Overflows;
    ghost var text := s[start..];
    ret := 0;
    var i, consumed := start, false;
    NothingRead(base);
    assert s[start..start] == [];
    while At(s, i) != '\0'
      invariant start <= i <= |s| && (consumed <==> i > start)
      invariant !Overflows(s[start..i], base) && ret == Read(s[start..i], base)
      decreases |s| - i
    {
      var digit := DigitOf(s[i]);
      TurnAt(s, start, i, ret, base);
      if ret > (MAX - digit) % MODULUS / base {
        ret := MAX;
        break;
      }
      ret := (ret * base + digit) % MODULUS;
      consumed := true;
      i := i + 1;
    }
    assert i == |s| ==> s[start..i] == text;
    end := if consumed then i else 0;
  }

  lemma NothingRead(base: nat)
    ensures !Overflows([], base) && Read([], base) == 0
  {
  }

  lemma TurnAt(s: string, start: nat, i: nat, ret: nat, base: nat)
    requires start <= i < |s| && base >= 2
    requires !Overflows(s[start..i], base) && ret == Read(s[start..i], base)
    ensures TurnReads(Turn(ret, s[i], base), s[start..i + 1], base)
    ensures i == start ==> Turn(ret, s[i], base).1
    ensures Overflows(s[start..i + 1], base) ==> Overflows(s[start..], base)
  {
    var t, k := s[start..], i - start;
    assert t[..k] == s[start..i] && t[..k + 1] == s[start..i + 1] && t[k] == s[i];
    TurnStep(t, k, ret, base);
    if Overflows(t[..k + 1], base) { OverflowStays(t, k + 1, base); }
    if i == start { assert s[start..i] == []; }
  }

  // ---- the printer ----

  function Reversed(s: string): (r: string)
    ensures |r| == |s|
  {
    if s == [] then [] else Reversed(s[1..]) + [s[0]]
  }

  lemma {:induction false} ReversedAt(s: string, k: nat)
    requires k < |s|
    ensures Reversed(s)[k] == s[|s| - 1 - k]
  {
    if k < |s| - 1 { ReversedAt(s[1..], k); }
  }

  /** The digits still to come, then what was written, backwards. */
  ghost function Unwritten(v: nat, base: nat): string
    requires 2 <= base <= 36
  {
    if v == 0 then [] else Digits(v, base)
  }

  lemma {:induction false} ReversedSnoc(s: string, c: char)
    ensures Reversed(s + [c]) == [c] + Reversed(s)
  {
    if s != [] {
      ReversedSnoc(s[1..], c);
      assert (s + [c])[1..] == s[1..] + [c];
    }
  }

  lemma LowestDigit(v: nat, base: nat)
    requires 2 <= base <= 36
    ensures Digits(v, base) == Unwritten(Higher(v, base), base) + [CharOf(Lowest(v, base))]
  {
    Split(v, base);
  }

  /** One more digit written: the lowest one of what was left. */
  lemma DigitWritten(v: nat, base: nat, written: string, all: string)
    requires 2 <= base <= 36
    requires all == (if written == [] then Digits(v, base) else Unwritten(v, base)) + Reversed(written)
    requires written == [] || v > 0
    ensures all == Unwritten(Higher(v, base), base) + Reversed(written + [CharOf(Lowest(v, base))])
  {
    LowestDigit(v, base);
    ReversedSnoc(written, CharOf(Lowest(v, base)));
  }

  /** The digit loop of `ulltoa`: the digits from `from`, the lowest first. */
  method WriteDigits(value: nat, a: array<char>, from: nat, base: nat) returns (p: nat)
    requires 2 <= base <= 36 && from + |Digits(value, base)| < a.Length
    modifies a
    ensures p == from + |Digits(value, base)|
    ensures Reversed(a[from..p]) == Digits(value, base)
    ensures a[..from] == old(a[..from]) && a[p..] == old(a[p..])
  {
    ghost var all := Digits(value, base);
    var v: nat := value;
    p := from;
    while p == from || v != 0
      invariant from <= p <= from + |all|
      invariant all == (if p == from then Digits(v, base) else Unwritten(v, base)) + Reversed(a[from..p])
      invariant forall k :: 0 <= k < a.Length && !(from <= k < p) ==> a[k] == old(a[k])
      decreases from + |all| - p
    {
      ghost var written := a[from..p];
      DigitWritten(v, base, written, all);
      Split(v, base);
      a[p] := CharOf(Lowest(v, base));
      assert a[from..p + 1] == written + [CharOf(Lowest(v, base))];
      v := Higher(v, base);
      p := p + 1;
    }
  }

  /** Of the cells from `from` to `last` those outside [i, j] have changed places. */
  ghost predicate HalfReversed(s: string, was: string, from: nat, last: int, i: int, j: int)
  {
    && |s| == |was| && from <= last + 1 <= |s| && from <= i <= j + 1 && j <= last
    && (forall k :: from <= k < i || j < k <= last ==> s[k] == was[from + last - k])
    && (forall k :: 0 <= k < |s| && !(from <= k < i || j < k <= last) ==> s[k] == was[k])
  }

  lemma PairSwapped(s: string, was: string, from: nat, last: int, i: int, j: int)
    requires from <= i < j <= last < |s| && i - from == last - j && HalfReversed(s, was, from, last, i, j)
    ensures HalfReversed(s[i := s[j]][j := s[i]], was, from, last, i + 1, j - 1)
  {
  }

  lemma AllReversed(s: string, was: string, from: nat, last: int, i: int, j: int)
    requires from <= i && j <= last && i - from == last - j && i >= j && HalfReversed(s, was, from, last, i, j)
    ensures s[from..last + 1] == Reversed(was[from..last + 1])
    ensures s[..from] == was[..from] && s[last + 1..] == was[last + 1..]
  {
    var now, before := s[from..last + 1], was[from..last + 1];
    forall k | 0 <= k < |now| ensures now[k] == Reversed(before)[k]
    {
      ReversedAt(before, k);
      assert now[k] == s[from + k] && before[|now| - 1 - k] == was[last - k];
    }
    assert forall k :: 0 <= k < from ==> s[k] == was[k];
    assert forall k :: last < k < |s| ==> s[k] == was[k];
  }

  /** The reversal in `ulltoa`, from both ends towards the middle. */
  method ReverseInPlace(a: array<char>, from: nat, last: int)
    requires from <= last + 1 <= a.Length
    modifies a
    ensures a[from..last + 1] == Reversed(old(a[from..last + 1]))
    ensures a[..from] == old(a[..from]) && a[last + 1..] == old(a[last + 1..])
  {
    ghost var was := a[..];
    var i, j := from, last;
    while i < j
      invariant from <= i && j <= last && i - from == last - j
      invariant HalfReversed(a[..], was, from, last, i, j)
    {
      ghost var s := a[..];
      PairSwapped(s, was, from, last, i, j);
      a[i], a[j] := a[j], a[i];
      assert a[..] == s[i := s[j]][j := s[i]];
      i := i + 1;
      j := j - 1;
    }
    AllReversed(a[..], was, from, last, i, j);
    assert a[..][from..last + 1] == a[from..last + 1] && was[from..last + 1] == old(a[from..last + 1]);
  }

  /** `ulltoa` into a buffer, from `from` on. */
  method UllToA(value: nat, a: array<char>, from: nat, base: nat)
    requires 2 <= base <= 36 && from + |Digits(value, base)| < a.Length
    modifies a
    ensures a[from..from + |Digits(value, base)|] == Digits(value, base)
    ensures a[from + |Digits(value, base)|] == '\0'
    ensures a[..from] == old(a[..from])
    ensures a[from + |Digits(value, base)| + 1..] == old(a[from + |Digits(value, base)| + 1..])
  {
    var p := WriteDigits(value, a, from, base);
    ghost var before := a[..];
    a[p] := '\0';
    assert a[from..p] == before[from..p] && a[..from] == before[..from];
    ghost var tail := a[p..];
    assert tail[1..] == before[p..][1..];
    ReverseInPlace(a, from, p - 1);
    assert a[p..] == tail && a[p] == tail[0] && a[p + 1..] == tail[1..];
  }

  /** The text of a signed number. */
  function Signed(value: int, base: nat): string
    requires 2 <= base <= 36
  {
    if value < 0 then ['-'] + Digits(-value, base) else Digits(value, base)
  }

  /** `lltoa`; the most negative number, whose negation overflows, is taken to
      wrap to itself and to be printed as its magnitude. */
  method LlToA(value: int, a: array<char>, base: nat)
    requires -0x8000_0000_0000_0000 <= value < 0x8000_0000_0000_0000
    requires 2 <= base <= 36 && |Signed(value, base)| < a.Length
    modifies a
    ensures a[..|Signed(value, base)|] == Signed(value, base) && a[|Signed(value, base)|] == '\0'
    ensures a[|Signed(value, base)| + 1..] == old(a[|Signed(value, base)| + 1..])
  {
    var p, magnitude := 0, value;
    if value < 0 {
      a[p] := '-';
      p := p + 1;
      magnitude := -value;
    }
    ghost var end := p + |Digits(magnitude, base)|;
    assert end == |Signed(value, base)| && a[end + 1..] == old(a[end + 1..]);
    UllToA(magnitude, a, p, base);
    assert a[..end] == a[..p] + a[p..end];
  }

  // ---- the round trip ----

  /** Parsing the digits of a number gives the number back. */
  lemma ParsedDigits(v: nat, base: nat)
    requires 2 <= base <= 36 && v <= MAX
    ensures '\0' !in Digits(v, base)
    ensures Digital(Rest(Digits(v, base), base)) && Parsed(Digits(v, base), base) == v
  {
    var s := Digits(v, base);
    DigitsFit(v, base);
    ValueOfDigits(v, base);
    assert IsAlnum(s[0]) && SkipSpace(s, 0) == 0 && AfterSign(s) == 0;
    RestOfDigits(s, 0, v, base);
    ParsedParts(s, base, v);
  }

  /** No prefix is taken for one, except that base 8 skips the zero of 0. */
  lemma RestOfDigits(s: string, i: nat, v: nat, base: nat)
    requires 2 <= base <= 36 && i <= |s| && s[i..] == Digits(v, base) && AfterSign(s) == i
    ensures BaseOf(s, base) == base && Digital(Rest(s, base)) && Value(Rest(s, base), base) == v
  {
    var d := s[i..];
    DigitsFit(v, base);
    ValueOfDigits(v, base);
    assert s[i] == d[0] && (|d| > 1 ==> At(s, i + 1) == d[1]);
    if base == 8 && s[i] == '0' {
      assert v == 0;
      assert Rest(s, base) == [];
    } else if base == 16 {
      assert |d| > 1 ==> DigitOf(d[1]) < 16;
      assert Rest(s, base) == d;
    } else {
      assert Rest(s, base) == d;
    }
  }

  lemma BehindSign(d: string)
    ensures (['-'] + d)[1..] == d && SkipSpace(['-'] + d, 0) == 0 && AfterSign(['-'] + d) == 1
  {
  }

  lemma NegativeWraps(value: int)
    requires -0x8000_0000_0000_0000 <= value < 0
    ensures Negated(true, Clamp(-value)) == value % MODULUS
  {
  }

  /** A text by its parts. */
  lemma ParsedParts(s: string, base: nat, v: nat)
    requires BaseOf(s, base) >= 1 && Digital(Rest(s, base)) && Value(Rest(s, base), BaseOf(s, base)) == v
    ensures Parsed(s, base) == Negated(At(s, SkipSpace(s, 0)) == '-', Clamp(v))
  {
    ReadDigital(Rest(s, base), BaseOf(s, base));
  }

  lemma ParsedNegative(v: nat, base: nat)
    requires 2 <= base <= 36
    ensures '\0' !in ['-'] + Digits(v, base) && Digital(Rest(['-'] + Digits(v, base), base))
    ensures Parsed(['-'] + Digits(v, base), base) == Negated(true, Clamp(v))
  {
    var s := ['-'] + Digits(v, base);
    DigitsFit(v, base);
    BehindSign(Digits(v, base));
    RestOfDigits(s, 1, v, base);
    ParsedParts(s, base, v);
  }

  /** And so it does for signed numbers, in 64-bit arithmetic. */
  lemma ParsedSigned(value: int, base: nat)
    requires 2 <= base <= 36 && -0x8000_0000_0000_0000 <= value < 0x8000_0000_0000_0000
    ensures '\0' !in Signed(value, base)
    ensures Digital(Rest(Signed(value, base), base)) && Parsed(Signed(value, base), base) == value % MODULUS
  {
    if value >= 0 {
      ParsedDigits(value, base);
      Within(value);
    } else {
      ParsedNegative(-value, base);
      NegativeWraps(value);
    }
  }

  lemma ScaledApart(v: int, w: int, base: nat)
    requires v > w >= 0 && base >= 1
    ensures v * base > w * base >= 0
  {
    Ordered(base, w + 1, v);
  }

  /** A greater number stays greater with the same digits behind it. */
  lemma {:induction false} ValueOrdered(p: string, q: string, d: string, base: nat)
    requires Value(p, base) > Value(q, base) >= 0 && base >= 1 && Counts(d)
    ensures Value(p + d, base) > Value(q + d, base) >= 0
  {
    if d == [] {
      assert p + d == p && q + d == q;
    } else {
      var front, last := d[..|d| - 1], d[|d| - 1];
      ValueOrdered(p, q, front, base);
      assert p + d == (p + front) + [last] && q + d == (q + front) + [last];
      ValueSnoc(p + front, last, base);
      ValueSnoc(q + front, last, base);
      ScaledApart(Value(p + front, base), Value(q + front, base), base);
    }
  }

  lemma TwoDigits(a: char, b: char, base: nat)
    ensures Value([a, b], base) == DigitOf(a) * base + DigitOf(b)
  {
    ValueSnoc([], a, base);
    ValueSnoc([a], b, base);
    assert [] + [a] == [a] && [a] + [b] == [a, b];
  }

  /** Blanks, and a sign or none. */
  ghost predicate IsLead(w: string)
  {
    exists k :: 0 <= k <= |w| <= k + 1 && AllSpace(w[..k]) && (k < |w| ==> w[k] == '-' || w[k] == '+')
  }

  ghost predicate AllSpace(s: string) { forall i :: 0 <= i < |s| ==> IsSpace(s[i]) }

  lemma {:induction false} SpaceSkipped(s: string, i: nat, k: nat)
    requires i <= k <= |s| && AllSpace(s[..k]) && (k < |s| ==> !IsSpace(s[k]))
    ensures SkipSpace(s, i) == k
    decreases k - i
  {
    if i < k {
      assert s[i] == s[..k][i];
      SpaceSkipped(s, i + 1, k);
    }
  }

  /** Where the number begins behind blanks and sign. */
  lemma Led(w: string, t: string) returns (k: nat)
    requires IsLead(w) && t != [] && IsAlnum(t[0])
    ensures k <= |w| && SkipSpace(w + t, 0) == k && AfterSign(w + t) == |w| && (w + t)[|w|..] == t
    ensures At(w + t, k) == if k < |w| then w[k] else t[0]
    ensures forall u: string :: u != [] && IsAlnum(u[0]) ==> SkipSpace(w + u, 0) == k
  {
    k :| 0 <= k <= |w| <= k + 1 && AllSpace(w[..k]) && (k < |w| ==> w[k] == '-' || w[k] == '+');
    forall u: string | u != [] && IsAlnum(u[0]) ensures SkipSpace(w + u, 0) == k
    {
      assert (w + u)[..k] == w[..k];
      assert (w + u)[k] == if k < |w| then w[k] else u[0];
      SpaceSkipped(w + u, 0, k);
    }
  }

  /** In base 16 only the lower-case prefix is skipped: the misplaced bracket in
      the test makes `X` a digit worth 33. */
  lemma PrefixSkipped(s: string, i: nat, t: string, x: char)
    requires i <= |s| && AfterSign(s) == i && s[i..] == ['0', x] + t && (x == 'x' || x == 'X')
    ensures Rest(s, 16) == (if x == 'x' then t else ['0', x] + t) && BaseOf(s, 16) == 16
  {
    var u := s[i..];
    assert u[0] == s[i] && u[1] == s[i + 1] && u[2..] == t && s[i + 2..] == u[2..];
  }

  lemma UpperWorth(t: string)
    requires Counts(t)
    ensures Counts(['0', 'X'] + t) && Value(['0', 'X'] + t, 16) > Value(t, 16) >= 0
    ensures Value(['0', 'X'] + t, 16) >= 33
  {
    TwoDigits('0', 'X', 16);
    ValueOrdered(['0', 'X'], [], t, 16);
    assert [] + t == t;
    var s := ['0', 'X'] + t;
    assert s[..2] == ['0', 'X'];
    forall i | 0 <= i < |s| ensures DigitOf(s[i]) >= 0
    {
      if i >= 2 { assert s[i] == t[i - 2]; }
    }
    ValueGrows(s, 16, 2);
  }

  /** Any text is read as more with the upper-case prefix taken for digits. */
  lemma UpperRead(t: string)
    ensures Read(['0', 'X'] + t, 16) == Read(t, 16) <==> Read(t, 16) == MAX
  {
    var s := ['0', 'X'] + t;
    if Counts(t) {
      UpperWorth(t);
      if Value(t, 16) <= MAX { Within(Value(t, 16)); }
      if Value(s, 16) <= MAX { Within(Value(s, 16)); }
    } else {
      UpperOverflows(t);
    }
  }

  lemma UpperOverflows(t: string)
    requires !Counts(t)
    ensures Overflows(['0', 'X'] + t, 16)
  {
    var s, front, last := ['0', 'X'] + t, t[..|t| - 1], t[|t| - 1];
    assert s[..|s| - 1] == ['0', 'X'] + front && s[|s| - 1] == last;
    var i :| 0 <= i < |t| && DigitOf(t[i]) < 0;
    assert s[i + 2] == t[i];
    if Counts(front) {
      UpperWorth(front);
      ValueSnoc(['0', 'X'] + front, last, 16);
      assert s == (['0', 'X'] + front) + [last];
    } else {
      var j :| 0 <= j < |front| && DigitOf(front[j]) < 0;
      assert (['0', 'X'] + front)[j + 2] == front[j];
    }
  }

  // ---- blanks, sign and base ----

  predicate EndsWithMinus(w: string) { w != [] && w[|w| - 1] == '-' }

  /** Blanks and a sign in front do what they say. */
  lemma BehindLead(w: string, v: nat, base: nat)
    requires IsLead(w) && 2 <= base <= 36 && v <= MAX
    ensures Parsed(w + Digits(v, base), base) == Negated(EndsWithMinus(w), v)
  {
    hide Value, Digits, Prefix, Negated, DigitOf;
    var d := Digits(v, base);
    var s := w + d;
    DigitsFit(v, base);
    var k := Led(w, d);
    RestOfDigits(s, |w|, v, base);
    ParsedParts(s, base, v);
    SignAt(w, k, d);
  }

  /** The character behind the blanks is a minus exactly when the sign is one. */
  lemma SignAt(w: string, k: nat, t: string)
    requires IsLead(w) && t != [] && IsAlnum(t[0]) && k == SkipSpace(w + t, 0) && k <= |w| && AfterSign(w + t) == |w|
    ensures At(w + t, k) == '-' <==> EndsWithMinus(w)
  {
    var s := w + t;
    if k < |w| {
      assert s[k] == w[k];
      assert k + 1 == |w|;
    } else {
      assert s[k] == t[0];
      var j :| 0 <= j <= |w| <= j + 1 && AllSpace(w[..j]) && (j < |w| ==> w[j] == '-' || w[j] == '+');
      if j < |w| {
        assert s[..j] == w[..j] && s[j] == w[j];
        SpaceSkipped(s, 0, j);
      } else if w != [] {
        assert IsSpace(w[..j][|w| - 1]);
      }
    }
  }

  /** With base 0 the prefix tells the base: none for 10, a zero for 8, a zero
      and an x of either case for 16. */
  lemma AutoBase(w: string, v: nat)
    requires IsLead(w) && v <= MAX
    ensures Parsed(w + Digits(v, 10), 0) == Negated(EndsWithMinus(w), v)
    ensures Parsed(w + (['0'] + Digits(v, 8)), 0) == Negated(EndsWithMinus(w), v)
    ensures forall x :: x == 'x' || x == 'X' ==>
      Parsed(w + (['0', x] + Digits(v, 16)), 0) == Negated(EndsWithMinus(w), v)
  {
    hide Value, Digits, Negated, DigitOf, AfterSign, Parsed;
    AutoDecimal(w, v);
    AutoPrefix(w, ['0'], v, 8);
    forall x | x == 'x' || x == 'X' ensures Parsed(w + (['0', x] + Digits(v, 16)), 0) == Negated(EndsWithMinus(w), v)
    {
      AutoPrefix(w, ['0', x], v, 16);
    }
  }

  lemma AutoDecimal(w: string, v: nat)
    requires IsLead(w) && v <= MAX
    ensures Parsed(w + Digits(v, 10), 0) == Negated(EndsWithMinus(w), v)
  {
    hide Value, Digits, Negated, DigitOf;
    var d := Digits(v, 10);
    var s := w + d;
    DigitsFit(v, 10);
    ValueOfDigits(v, 10);
    var k := Led(w, d);
    assert s[|w|] == d[0] && (|d| > 1 ==> s[|w| + 1] == d[1] && DigitOf(d[1]) < 10);
    if d[0] == '0' {
      ZeroAlone(v, 10);
      assert Rest(s, 0) == [];
    } else {
      assert Rest(s, 0) == d;
    }
    ParsedParts(s, 0, v);
    SignAt(w, k, d);
  }

  /** The prefix of a base, and digits behind it. */
  lemma AutoPrefix(w: string, p: string, v: nat, base: nat)
    requires IsLead(w) && v <= MAX
    requires (p == ['0'] && base == 8) || (|p| == 2 && p[0] == '0' && (p[1] == 'x' || p[1] == 'X') && base == 16)
    ensures Parsed(w + (p + Digits(v, base)), 0) == Negated(EndsWithMinus(w), v)
  {
    hide Value, Digits, Negated, DigitOf;
    var d := Digits(v, base);
    var s := w + (p + d);
    DigitsFit(v, base);
    ValueOfDigits(v, base);
    var k := Led(w, p + d);
    var i := |w|;
    var u := p + d;
    assert s[i..] == u && u[|p|..] == d;
    assert s[i] == u[0] && s[i + 1] == u[1] && s[i + |p|..] == s[i..][|p|..];
    if base == 8 { NoPrefixLetter(d, 8); }
    assert Rest(s, 0) == d && BaseOf(s, 0) == base;
    ParsedParts(s, 0, v);
    SignAt(w, k, p + d);
  }

  lemma NoPrefixLetter(d: string, base: nat)
    requires base <= 33 && d != [] && DigitOf(d[0]) < base
    ensures d[0] != 'x' && d[0] != 'X'
  {
  }

  /** A leading zero is the number zero. */
  lemma ZeroAlone(v: nat, base: nat)
    requires 2 <= base <= 36 && Digits(v, base)[0] == '0'
    ensures v == 0 && Value([], 8) == 0 && |Digits(v, base)| == 1
  {
    DigitsFit(v, base);
  }

  /** The blanks: space, tab, line feed, vertical tab, form feed, carriage return. */
  lemma Blanks(c: char)
    ensures IsSpace(c) <==> c as int in {32, 9, 10, 11, 12, 13}
  {
  }

  /** Capital letters are digits, too. */
  lemma CapitalDigit(d: nat)
    requires 10 <= d < 36
    ensures DigitOf('A' + (d - 10) as char) == d == DigitOf('a' + (d - 10) as char)
  {
  }

  lemma NegatedApart(negate: bool, v: nat, w: nat)
    requires v <= MAX && w <= MAX
    ensures Negated(negate, v) == Negated(negate, w) <==> v == w
  {
  }

  /** So the two spellings are read as the same number, whatever blanks and sign
      stand in front, exactly when the text behind saturates by itself. */
  lemma UpperCasePrefix(w: string, t: string)
    requires IsLead(w)
    ensures Parsed(w + (['0', 'x'] + t), 16) == Parsed(w + (['0', 'X'] + t), 16) <==> Read(t, 16) == MAX
  {
    var low, up := ['0', 'x'] + t, ['0', 'X'] + t;
    var k := Led(w, low);
    var k' := Led(w, up);
    PrefixSkipped(w + low, |w|, t, 'x');
    PrefixSkipped(w + up, |w|, t, 'X');
    UpperRead(t);
    NegatedApart(At(w + low, k) == '-', Read(t, 16), Read(up, 16));
  }

  /** For digits behind the prefix: when they reach the largest word. */
  lemma UpperCaseDigits(w: string, d: string)
    requires IsLead(w) && Digital(d)
    ensures Parsed(w + (['0', 'x'] + d), 16) == Parsed(w + (['0', 'X'] + d), 16) <==> Value(d, 16) >= MAX
  {
    UpperCasePrefix(w, d);
    ReadDigital(d, 16);
  }

  lemma UpperCaseDigit(d: char)
    requires IsAlnum(d)
    ensures Parsed(['0', 'X', d], 16) == 33 * 16 + DigitOf(d)
  {
    hide Value, Read, Rest, BaseOf, Digital, DigitOf;
    var s := ['0', 'X', d];
    assert s == ['0', 'X'] + [d];
    ThreeDigits(d);
    assert SkipSpace(s, 0) == 0 && At(s, 0) == '0' && s[0..] == ['0', 'X'] + [d];
    PrefixSkipped(s, 0, [d], 'X');
    ReadDigital(s, 16);
  }

  lemma ThreeDigits(d: char)
    requires IsAlnum(d)
    ensures Digital(['0', 'X'] + [d]) && 528 <= Value(['0', 'X'] + [d], 16) == 33 * 16 + DigitOf(d) <= MAX
  {
    TwoDigits('0', 'X', 16);
    ValueSnoc(['0', 'X'], d, 16);
    DigitNonNegative(d);
  }

  lemma DigitMore(d: string, c: char, base: nat)
    requires Digital(d) && base >= 2 && DigitOf(c) >= base
    ensures Value(d + [c], base) > Value(d, base) >= 0
  {
    DigitalCounts(d, base);
    ValueSnoc(d, c, base);
    Scaled(Value(d, base), base);
  }

  /** Nor does the loop stop at a character that is no digit of the base: whatever
      follows it, the number before it is read only when it saturates anyway. */
  lemma TrailingText(d: string, c: char, r: string, base: nat)
    requires Digital(d) && base >= 2 && (DigitOf(c) < 0 || DigitOf(c) >= base)
    ensures Value(d, base) >= 0
    ensures Read(d + [c] + r, base) == Clamp(Value(d, base)) <==> Value(d, base) >= MAX
  {
    hide Value, DigitOf, Digital;
    var u, t := d + [c], d + [c] + r;
    DigitalCounts(d, base);
    assert t[..|u|] == u && t[|d|] == c && t[..|d|] == d;
    if Overflows(t, base) {
    } else if Counts(t) {
      DigitMore(d, c, base);
      ValueGrows(t, base, |u|);
      Within(Value(t, base));
    } else {
      var front := t[..|t| - 1];
      assert front[..|d|] == d;
      BarelyBelow(t, base);
      ValueGrows(front, base, |d|);
      Below(Value(t, base));
    }
  }

  lemma TrailingCharacter(d: string, c: char, base: nat)
    requires Digital(d) && base >= 2 && (DigitOf(c) < 0 || DigitOf(c) >= base)
    ensures Value(d, base) >= 0
    ensures Read(d + [c], base) == Clamp(Value(d, base)) <==> Value(d, base) >= MAX
  {
    TrailingText(d, c, [], base);
    assert d + [c] + [] == d + [c];
  }
}
