/** The order of names a batch of inputs is added in: numbers in a name count by their value. */
module NaturalOrder {
  import opened Orders
  import opened Schema

  // ── Parts of a name ─────────────────────────────────────────────────

  datatype Part = Number(value: nat) | Letters(text: string)

  predicate IsDigit(c: char) {
    '0' <= c <= '9'
  }

  function Digit(c: char): nat
    requires IsDigit(c)
  {
    c as int - '0' as int
  }

  predicate AllDigits(text: string, digits: bool) {
    forall i | 0 <= i < |text| :: IsDigit(text[i]) == digits
  }

  /** How many characters at the start of a text are digits, or are none. */
  function Run(text: string, digits: bool): (n: nat)
    ensures n <= |text| && AllDigits(text[..n], digits)
    ensures n < |text| ==> IsDigit(text[n]) != digits
  {
    if text == [] || IsDigit(text[0]) != digits then 0
    else
      var rest := Run(text[1..], digits);
      assert text[..rest + 1] == [text[0]] + text[1..][..rest];
      rest + 1
  }

  function ValueOf(digits: string): nat
    requires AllDigits(digits, true)
  {
    if digits == [] then 0
    else
      var n := |digits| - 1;
      assert IsDigit(digits[n]);
      10 * ValueOf(digits[..n]) + Digit(digits[n])
  }

  function PartsOf(text: string): seq<Part> {
    if text == [] then []
    else
      var digits := IsDigit(text[0]);
      var n := Run(text, digits);
      assert n > 0;
      [if digits then Number(ValueOf(text[..n])) else Letters(text[..n])] + PartsOf(text[n..])
  }

  // ── The value of a number ───────────────────────────────────────────

  function Pow10(n: nat): (p: nat)
    ensures p > 0
  {
    if n == 0 then 1 else 10 * Pow10(n - 1)
  }

  lemma DigitTimes(digit: nat, place: nat)
    ensures digit * (10 * place) == 10 * (digit * place)
    ensures digit < 10 ==> digit * place <= 9 * place
    ensures digit > 0 ==> digit * place >= place
  {
  }

  /** The first digit counts for the places after it. */
  lemma {:induction false} FirstDigit(digits: string)
    requires digits != [] && AllDigits(digits, true)
    ensures IsDigit(digits[0])
    ensures ValueOf(digits) == Digit(digits[0]) * Pow10(|digits| - 1) + ValueOf(digits[1..])
  {
    assert IsDigit(digits[0]);
    var n := |digits| - 1;
    if n > 0 {
      var shorter := digits[..n];
      FirstDigit(shorter);
      assert digits[1..][..n - 1] == shorter[1..];
      DigitTimes(Digit(shorter[0]), Pow10(n - 1));
    }
  }

  lemma {:induction false} ValueIsBounded(digits: string)
    requires AllDigits(digits, true)
    ensures ValueOf(digits) < Pow10(|digits|)
  {
    if digits != [] {
      FirstDigit(digits);
      ValueIsBounded(digits[1..]);
      hide ValueOf;
      DigitTimes(Digit(digits[0]), Pow10(|digits| - 1));
    }
  }

  lemma {:induction false} SameLengthByText(m: string, n: string)
    requires AllDigits(m, true) && AllDigits(n, true) && |m| == |n|
    ensures ValueOf(m) < ValueOf(n) <==> Precedes(m, n)
  {
    if m != [] {
      FirstDigit(m);
      FirstDigit(n);
      SameLengthByText(m[1..], n[1..]);
      ValueIsBounded(m[1..]);
      ValueIsBounded(n[1..]);
      LeadDecides(Digit(m[0]), Digit(n[0]), Pow10(|m| - 1), ValueOf(m[1..]), ValueOf(n[1..]));
    }
  }

  lemma LeadDecides(a: nat, b: nat, place: nat, x: nat, y: nat)
    requires x < place && y < place
    ensures a < b ==> a * place + x < b * place + y
    ensures b < a ==> b * place + y < a * place + x
  {
    if a < b {
      assert (a + 1) * place <= b * place;
    }
    if b < a {
      assert (b + 1) * place <= a * place;
    }
  }

  /** Numbers compare as they are written: of two without leading zeros the longer is greater,
      and of two of one length the alphabetically later. */
  lemma ValuesAreAsWritten(m: string, n: string)
    requires m != [] && AllDigits(m, true) && m[0] != '0' && n != [] && AllDigits(n, true) && n[0] != '0'
    ensures ValueOf(m) < ValueOf(n) <==> |m| < |n| || (|m| == |n| && Precedes(m, n))
  {
    if |m| == |n| {
      SameLengthByText(m, n);
    } else if |m| < |n| {
      LongerIsGreater(m, n);
    } else {
      LongerIsGreater(n, m);
    }
  }

  lemma LongerIsGreater(m: string, n: string)
    requires AllDigits(m, true) && AllDigits(n, true) && |m| < |n| && n[0] != '0'
    ensures ValueOf(m) < ValueOf(n)
  {
    ValueIsBounded(m);
    FirstDigit(n);
    PowerGrows(|m|, |n| - 1);
    hide ValueOf, Pow10;
    DigitTimes(Digit(n[0]), Pow10(|n| - 1));
  }

  lemma {:induction false} PowerGrows(a: nat, b: nat)
    requires a <= b
    ensures Pow10(a) <= Pow10(b)
  {
    if a < b {
      PowerGrows(a, b - 1);
    }
  }

  /** A leading zero does not count. */
  lemma ZeroInFront(digits: string)
    requires AllDigits(digits, true)
    ensures AllDigits(['0'] + digits, true) && ValueOf(['0'] + digits) == ValueOf(digits)
  {
    FirstDigit(['0'] + digits);
    assert (['0'] + digits)[1..] == digits;
  }

  // ── The order ───────────────────────────────────────────────────────

  /** Numbers come first, by their value; other parts in alphabetical order. */
  predicate PartBefore(a: Part, b: Part) {
    match (a, b)
    case (Number(m), Number(n)) => m < n
    case (Number(_), Letters(_)) => true
    case (Letters(_), Number(_)) => false
    case (Letters(s), Letters(t)) => Precedes(s, t)
  }

  predicate PartsBefore(a: seq<Part>, b: seq<Part>) {
    if b == [] then false
    else if a == [] then true
    else if a[0] != b[0] then PartBefore(a[0], b[0])
    else PartsBefore(a[1..], b[1..])
  }

  predicate NaturallyBefore(a: string, b: string) {
    PartsBefore(PartsOf(Lower(a)), PartsOf(Lower(b)))
  }

  lemma PartsAreOrdered(a: Part, b: Part)
    ensures !(PartBefore(a, b) && PartBefore(b, a))
    ensures a != b ==> PartBefore(a, b) || PartBefore(b, a)
  {
    if a.Letters? && b.Letters? {
      PrecedesIsTotal(a.text, b.text);
    }
  }

  lemma PartBetween(a: Part, b: Part, c: Part)
    requires PartBefore(a, b)
    ensures PartBefore(a, c) || PartBefore(c, b)
  {
    PartsAreOrdered(a, c);
    PartsAreOrdered(c, b);
    if a.Letters? && b.Letters? && c.Letters? {
      PrecedesIsTotal(a.text, c.text);
      PrecedesIsTotal(c.text, b.text);
      PrecedesIsTotal(a.text, b.text);
      if Precedes(b.text, c.text) && Precedes(c.text, a.text) {
        PrecedesIsTransitive(b.text, c.text, a.text);
      }
    }
  }

  lemma {:induction false} OneWay(a: seq<Part>, b: seq<Part>)
    requires PartsBefore(a, b)
    ensures !PartsBefore(b, a)
  {
    if a != [] && b != [] {
      PartsAreOrdered(a[0], b[0]);
      if a[0] == b[0] {
        OneWay(a[1..], b[1..]);
      }
    }
  }

  lemma {:induction false} Between(a: seq<Part>, b: seq<Part>, c: seq<Part>)
    requires PartsBefore(a, b)
    ensures PartsBefore(a, c) || PartsBefore(c, b)
  {
    if a != [] && c != [] {
      PartsAreOrdered(a[0], c[0]);
      PartsAreOrdered(c[0], b[0]);
      PartsAreOrdered(a[0], b[0]);
      if a[0] == b[0] == c[0] {
        Between(a[1..], b[1..], c[1..]);
      } else if a[0] != b[0] {
        PartBetween(a[0], b[0], c[0]);
      }
    }
  }

  /** Names can be sorted by the order: it is the order of a key. */
  lemma NaturalIsWeakOrder()
    ensures IsWeakOrder(NaturallyBefore)
  {
    hide PartsBefore, PartsOf, Lower;
    forall a, b | NaturallyBefore(a, b)
      ensures !NaturallyBefore(b, a)
    {
      OneWay(PartsOf(Lower(a)), PartsOf(Lower(b)));
    }
    forall a, b, c | NaturallyBefore(a, b)
      ensures NaturallyBefore(a, c) || NaturallyBefore(c, b)
    {
      Between(PartsOf(Lower(a)), PartsOf(Lower(b)), PartsOf(Lower(c)));
    }
  }

  // ── Numbers by their value ──────────────────────────────────────────

  /** Whether a text can follow, or come before, a number without being part of it. */
  predicate ParsFrom(text: string) {
    text == [] || !IsDigit(text[0])
  }

  predicate ParsTo(text: string) {
    text == [] || !IsDigit(text[|text| - 1])
  }

  lemma {:induction false} RunIs(text: string, digits: bool, n: nat)
    requires n <= |text| && AllDigits(text[..n], digits) && (n < |text| ==> IsDigit(text[n]) != digits)
    ensures Run(text, digits) == n
  {
    if n > 0 {
      assert IsDigit(text[..n][0]) == digits;
      assert text[1..][..n - 1] == text[..n][1..];
      RunIs(text[1..], digits, n - 1);
    }
  }

  lemma NumberFirst(number: string, rest: string)
    requires number != [] && AllDigits(number, true) && ParsFrom(rest)
    ensures PartsOf(number + rest) == [Number(ValueOf(number))] + PartsOf(rest)
  {
    var text := number + rest;
    assert text[..|number|] == number && text[|number|..] == rest;
    assert IsDigit(number[0]);
    RunIs(text, true, |number|);
  }

  lemma SameRun(before: string, after: string)
    requires before != [] && ParsTo(before) && after != [] && IsDigit(after[0])
    ensures var digits := IsDigit(before[0]);
            && Run(before + after, digits) == Run(before, digits)
            && ParsTo(before[Run(before, digits)..])
  {
    var digits := IsDigit(before[0]);
    var n := Run(before, digits);
    assert (before + after)[..n] == before[..n];
    if n == |before| {
      assert before[..n][n - 1] == before[n - 1];
    }
    RunIs(before + after, digits, n);
  }

  /** A text that ends before a number has its parts before those from the number on. */
  lemma {:induction false} PartsOfBoth(before: string, after: string)
    requires ParsTo(before) && after != [] && IsDigit(after[0])
    ensures PartsOf(before + after) == PartsOf(before) + PartsOf(after)
    decreases |before|
  {
    if before == [] {
      NothingBefore(before, after);
    } else {
      hide PartsOf, ParsTo, Run, IsDigit;
      var n := Run(before, IsDigit(before[0]));
      SomeRun(before);
      SameRun(before, after);
      PartsOfBoth(before[n..], after);
      FirstPart(before, after, n);
      Joined(PartsOf(before)[..1], PartsOf(before[n..]), PartsOf(after));
    }
  }

  lemma NothingBefore(before: string, after: string)
    requires before == []
    ensures PartsOf(before + after) == PartsOf(before) + PartsOf(after)
  {
    assert before + after == after;
  }

  lemma Joined(a: seq<Part>, b: seq<Part>, c: seq<Part>)
    ensures a + (b + c) == (a + b) + c
  {
  }

  lemma SomeRun(text: string)
    requires text != []
    ensures 0 < Run(text, IsDigit(text[0])) <= |text|
  {
  }

  lemma FirstPart(before: string, after: string, n: nat)
    requires before != [] && n == Run(before, IsDigit(before[0])) == Run(before + after, IsDigit(before[0]))
    ensures PartsOf(before) != [] && PartsOf(before) == PartsOf(before)[..1] + PartsOf(before[n..])
    ensures PartsOf(before + after) == PartsOf(before)[..1] + PartsOf(before[n..] + after)
  {
    assert (before + after)[..n] == before[..n];
    assert (before + after)[n..] == before[n..] + after;
  }

  lemma PartsAround(before: string, number: string, rest: string)
    requires number != [] && AllDigits(number, true) && ParsTo(before) && ParsFrom(rest)
    ensures PartsOf(before + number + rest) == PartsOf(before) + ([Number(ValueOf(number))] + PartsOf(rest))
  {
    assert before + number + rest == before + (number + rest);
    assert IsDigit(number[0]);
    hide PartsOf, ValueOf;
    NumberFirst(number, rest);
    PartsOfBoth(before, number + rest);
  }

  lemma {:induction false} SameStart(start: seq<Part>, a: seq<Part>, b: seq<Part>)
    ensures PartsBefore(start + a, start + b) <==> PartsBefore(a, b)
  {
    if start == [] {
      assert start + a == a && start + b == b;
    } else {
      assert (start + a)[1..] == start[1..] + a && (start + b)[1..] == start[1..] + b;
      SameStart(start[1..], a, b);
    }
  }

  lemma LowerAround(before: string, number: string, rest: string)
    requires AllDigits(number, true)
    ensures Lower(before + number + rest) == Lower(before) + number + Lower(rest)
    ensures ParsTo(before) ==> ParsTo(Lower(before))
    ensures ParsFrom(rest) ==> ParsFrom(Lower(rest))
  {
  }

  /** Of two names alike up to a number, the one with the lower number comes first, however the
      numbers are written and whatever follows. */
  lemma NumbersByValue(before: string, m: string, n: string, restM: string, restN: string)
    requires m != [] && AllDigits(m, true) && n != [] && AllDigits(n, true)
    requires ParsTo(before) && ParsFrom(restM) && ParsFrom(restN)
    requires ValueOf(m) < ValueOf(n)
    ensures NaturallyBefore(before + m + restM, before + n + restN)
  {
    LowerAround(before, m, restM);
    LowerAround(before, n, restN);
    PartsAround(Lower(before), m, Lower(restM));
    PartsAround(Lower(before), n, Lower(restN));
    var start := PartsOf(Lower(before));
    var a, b := [Number(ValueOf(m))] + PartsOf(Lower(restM)), [Number(ValueOf(n))] + PartsOf(Lower(restN));
    hide PartsOf, ValueOf, Lower;
    SameStart(start, a, b);
  }

  /** A name that starts with a number comes before one that does not. */
  lemma NumbersComeFirst(a: string, b: string)
    requires a != [] && IsDigit(a[0]) && b != [] && !IsDigit(b[0])
    ensures NaturallyBefore(a, b) && !NaturallyBefore(b, a)
  {
    var x, y := Lower(a), Lower(b);
    assert IsDigit(x[0]) && !IsDigit(y[0]);
    assert PartsOf(x)[0].Number? && PartsOf(y)[0].Letters?;
  }

  /** Names without numbers are in alphabetical order, small and capital letters alike. */
  lemma WithoutNumbers(a: string, b: string)
    requires AllDigits(a, false) && AllDigits(b, false)
    ensures NaturallyBefore(a, b) <==> Precedes(Lower(a), Lower(b))
  {
    OnePart(Lower(a));
    OnePart(Lower(b));
    var x, y := Lower(a), Lower(b);
    PrecedesIsTotal(x, y);
    assert x != [] && y != [] ==>
        PartsBefore([Letters(x)], [Letters(y)]) == (x != y && PartBefore(Letters(x), Letters(y)));
  }

  lemma OnePart(text: string)
    requires AllDigits(text, false)
    ensures PartsOf(text) == if text == [] then [] else [Letters(text)]
  {
    if text != [] {
      assert !IsDigit(text[0]);
      RunIs(text, false, |text|);
      assert text[..|text|] == text && text[|text|..] == [];
    }
  }
}
