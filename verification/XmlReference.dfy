/** Character references for numbers of any size: what is left of a number in the 32-bit factors of
    Project/Public/tinyxml2/tinyxml2.cpp, and when a reference still stands for the number it denotes. */
module XmlReference {
  import opened Division
  import opened XmlText

  function Power(base: nat, n: nat): nat {
    if n == 0 then 1 else Times(Power(base, n - 1), base)
  }

  /** The sum of the digits' terms, each cut to 32 bits; the last digit stands at `place`. */
  function WrappedSum(ds: string, base: nat, place: nat): nat
    requires Digits(ds, base)
  {
    if ds == "" then 0
    else
      Times(Power(base, place), Digit(ds[|ds| - 1], base)) % TWO_32 + WrappedSum(ds[..|ds| - 1], base, place + 1)
  }

  lemma WrappedLast(s: string, a: nat, q: nat, base: nat, place: nat)
    requires a <= q < |s| && Digits(s[a + 1..q + 1], base)
    ensures q == a ==> WrappedSum(s[a + 1..q + 1], base, place) == 0
    ensures q > a ==> Digits(s[a + 1..q], base) && Digit(s[q], base) >= 0
    ensures q > a ==>
      WrappedSum(s[a + 1..q + 1], base, place) ==
        Times(Power(base, place), Digit(s[q], base)) % TWO_32 + WrappedSum(s[a + 1..q], base, place + 1)
  {
    hide Times, Power, Digit;
    var ds := s[a + 1..q + 1];
    if q > a {
      assert ds[..|ds| - 1] == s[a + 1..q] && ds[|ds| - 1] == s[q];
      assert s[q] in ds;
    }
  }

  function Low64(x: nat): nat { x % TWO_64 }

  lemma AddLow(u: nat, t: nat, w: nat)
    ensures Low64(Low64(u + t) + w) == Low64(u + (t + w))
  {
  }

  /** One round of the loop: the digit's term is added, and the factor goes up one place. */
  lemma BackwardOnce(s: string, a: nat, q: nat, mark: char, base: nat, place: nat, ucs: nat)
    requires a < q < |s| && s[a] == mark && Digit(mark, base) < 0 && Digit(s[q], base) >= 0
    ensures Backward(s, q, mark, base, Power(base, place) % TWO_32, ucs) ==
      Backward(s, q - 1, mark, base, Power(base, place + 1) % TWO_32,
        Low64(ucs + Times(Power(base, place), Digit(s[q], base)) % TWO_32))
  {
    hide Digit, Times, Backward, Power;
    BackwardStep(s, q, mark, base, Power(base, place) % TWO_32, ucs, a);
    TimesMod(Power(base, place), Digit(s[q], base));
    TimesMod(Power(base, place), base);
    NextPower(base, place);
  }

  /** The backward loop computes this sum. */
  lemma {:induction false} BackwardIsWrapped(s: string, a: nat, q: nat, mark: char, base: nat, place: nat, ucs: nat)
    requires a <= q < |s| && s[a] == mark && Digits(s[a + 1..q + 1], base) && Digit(mark, base) < 0 && ucs < TWO_64
    ensures Backward(s, q, mark, base, Power(base, place) % TWO_32, ucs) ==
      Low64(ucs + WrappedSum(s[a + 1..q + 1], base, place))
    decreases q
  {
    hide WrappedSum, Digit, Times, Backward, Digits, Power, Low64;
    WrappedLast(s, a, q, base, place);
    if q == a {
      BackwardStep(s, q, mark, base, Power(base, place) % TWO_32, ucs, a);
      Small(ucs);
    } else {
      var term := Times(Power(base, place), Digit(s[q], base)) % TWO_32;
      BackwardOnce(s, a, q, mark, base, place, ucs);
      AddLow(ucs, term, WrappedSum(s[a + 1..q], base, place + 1));
      Small(ucs + term);
      BackwardIsWrapped(s, a, q - 1, mark, base, place + 1, Low64(ucs + term));
    }
  }

  lemma Small(x: nat)
    ensures Low64(x) < TWO_64 && (x < TWO_64 ==> Low64(x) == x)
  {
  }

  lemma NextPower(base: nat, n: nat)
    ensures Power(base, n + 1) == Times(Power(base, n), base)
  {
  }

  // ---------------------------------------------------------------------------------------------------------
  // Hexadecimal: the last eight digits count

  lemma PowersMeet(place: nat)
    requires place <= 8
    ensures Power(16, place) > 0 && Power(16, 8 - place) > 0
    ensures Power(16, place) * Power(16, 8 - place) == TWO_32
  {
    assert Power(16, 4) == 0x1_0000;
    if place < 4 {
      assert Power(16, 3) == 0x1000 && Power(16, 2) == 0x100 && Power(16, 1) == 16 && Power(16, 0) == 1;
    }
    assert Power(16, 8) == TWO_32 && Power(16, 7) == 0x1000_0000 && Power(16, 6) == 0x100_0000 &&
      Power(16, 5) == 0x10_0000;
  }

  /** From a place on whose power has nothing left in 32 bits, no digit counts. */
  lemma {:induction false} Vanishes(ds: string, base: nat, place: nat)
    requires Digits(ds, base) && Power(base, place) % TWO_32 == 0
    ensures WrappedSum(ds, base, place) == 0
  {
    hide Power, Digit, Times;
    if ds != "" {
      var d := Digit(ds[|ds| - 1], base);
      TimesMod(Power(base, place), d);
      TimesMod(Power(base, place), base);
      NextPower(base, place);
      Vanishes(ds[..|ds| - 1], base, place + 1);
    }
  }

  function Rest(v: nat, m: nat): nat
    requires m > 0
  {
    v % m
  }

  lemma RestOfDigits(front: nat, d: nat, r: nat)
    requires r > 0 && d < 16
    ensures Rest(front * 16 + d, r * 16) == Rest(front, r) * 16 + d
  {
    var q, f := front / r, front % r;
    assert front == q * r + f;
    Regroup(q, r, 16);
    assert front * 16 + d == q * (r * 16) + (f * 16 + d);
    QuotientIs(front * 16 + d, r * 16, q, f * 16 + d);
  }

  lemma {:induction false} TermFits(p: nat, all: nat, d: nat)
    requires p > 0 && d < all
    ensures Times(p, d) < p * all
    decreases all
  {
    assert p * all == p * (all - 1) + p;
    if d < all - 1 {
      TermFits(p, all - 1, d);
    }
  }

  /** One more hexadecimal digit at a place below the eighth. */
  lemma HexDigit(p: nat, r: nat, all: nat, front: nat, d: nat)
    requires p > 0 && r > 0 && all == r * 16 && p * all == TWO_32 && d < 16
    ensures Times(p, d) % TWO_32 + Times(Times(p, 16), Rest(front, r)) == Times(p, Rest(front * 16 + d, all))
  {
    hide Times, Rest;
    TermFits(p, all, d);
    RestOfDigits(front, d, r);
    Spread(p, Rest(front, r), d);
  }

  lemma Spread(p: nat, f: nat, d: nat)
    ensures Times(p, d) + Times(Times(p, 16), f) == Times(p, f * 16 + d)
  {
    Regroup(p, 16, f);
    assert p * (f * 16 + d) == p * (f * 16) + p * d;
  }

  /** The hexadecimal sum is what is left of the number in 32 bits. */
  lemma {:induction false} HexIsModulo(ds: string, place: nat)
    requires Digits(ds, 16) && place <= 8
    ensures Power(16, 8 - place) > 0
    ensures WrappedSum(ds, 16, place) == Times(Power(16, place), Rest(Value(ds, 16), Power(16, 8 - place)))
  {
    hide Power, Digit, Digits, WrappedSum, Value, Times, Rest;
    PowersMeet(place);
    if ds == "" {
      NoDigits(place);
    } else if place == 8 {
      BeyondEight(ds);
    } else {
      LastHexDigit(ds, place);
      HexIsModulo(ds[..|ds| - 1], place + 1);
      HexStep(ds, place);
    }
  }

  lemma NoDigits(place: nat)
    requires place <= 8 && Power(16, 8 - place) > 0
    ensures WrappedSum("", 16, place) == Times(Power(16, place), Rest(Value("", 16), Power(16, 8 - place)))
  {
    hide Power;
  }

  lemma BeyondEight(ds: string)
    requires Digits(ds, 16) && Power(16, 0) > 0
    ensures WrappedSum(ds, 16, 8) == Times(Power(16, 8), Rest(Value(ds, 16), Power(16, 0)))
  {
    hide Power, WrappedSum, Value, Digits;
    PowerZero(16);
    PowersMeet(0);
    Vanishes(ds, 16, 8);
  }

  lemma HexStep(ds: string, place: nat)
    requires Digits(ds, 16) && ds != "" && place < 8
    requires var front := ds[..|ds| - 1];
      && Digits(front, 16) && Power(16, 7 - place) > 0
      && WrappedSum(front, 16, place + 1) == Times(Power(16, place + 1), Rest(Value(front, 16), Power(16, 7 - place)))
    ensures Power(16, 8 - place) > 0
    ensures WrappedSum(ds, 16, place) == Times(Power(16, place), Rest(Value(ds, 16), Power(16, 8 - place)))
  {
    hide Power, Digit, WrappedSum, Value, Times, Rest, Digits;
    var front, d := ds[..|ds| - 1], Digit(ds[|ds| - 1], 16);
    LastHexDigit(ds, place);
    PowersMeet(place);
    NextPower(16, place);
    SixteenFold(7 - place);
    HexDigit(Power(16, place), Power(16, 7 - place), Power(16, 8 - place), Value(front, 16), d);
  }

  lemma LastHexDigit(ds: string, place: nat)
    requires Digits(ds, 16) && ds != ""
    ensures var front, d := ds[..|ds| - 1], Digit(ds[|ds| - 1], 16);
      && Digits(front, 16) && 0 <= d < 16
      && WrappedSum(ds, 16, place) == Times(Power(16, place), d) % TWO_32 + WrappedSum(front, 16, place + 1)
      && Value(ds, 16) == Value(front, 16) * 16 + d
  {
    hide Power, Times;
  }

  lemma SixteenFold(n: nat)
    ensures Power(16, n + 1) == Power(16, n) * 16
  {
    hide Power;
    NextPower(16, n);
  }

  // ---------------------------------------------------------------------------------------------------------
  // Decimal

  lemma PowerOfTen()
    ensures Power(10, 32) % TWO_32 == 0
  {
    TenThousand();
    hide Power;
    PowerSum(10, 4, 4);
    PowerSum(10, 8, 8);
    PowerSum(10, 16, 16);
  }

  lemma TenThousand()
    ensures Power(10, 4) == 1_0000
  {
  }

  lemma {:induction false} PowerSum(base: nat, a: nat, b: nat)
    ensures Power(base, a + b) == Power(base, a) * Power(base, b)
  {
    if b > 0 {
      PowerSum(base, a, b - 1);
      Regroup(Power(base, a), Power(base, b - 1), base);
    }
  }

  lemma Regroup(a: nat, b: nat, c: nat)
    ensures a * b * c == a * (b * c)
  {
  }

  /** There are 32 terms at most that are not zero, so the 64-bit sum does not wrap. */
  lemma {:induction false} DecimalSumFits(ds: string, place: nat)
    requires Digits(ds, 10) && place <= 32
    ensures WrappedSum(ds, 10, place) <= (32 - place) * TWO_32
  {
    hide Power, Digit, Times;
    if place == 32 {
      PowerOfTen();
      Vanishes(ds, 10, place);
    } else if ds != "" {
      DecimalSumFits(ds[..|ds| - 1], place + 1);
    }
  }

  // ---------------------------------------------------------------------------------------------------------
  // References

  function Base(hex: bool): nat { if hex then 16 else 10 }

  function First(hex: bool): nat { if hex then 3 else 2 }

  /** What the digits come to: in hexadecimal the number modulo 2^32, in decimal the sum of terms cut to 32 bits. */
  function Wrapped(ds: string, hex: bool): nat
    requires Digits(ds, Base(hex))
  {
    if hex then Value(ds, 16) % TWO_32 else WrappedSum(ds, 10, 0)
  }

  /** The text begins with a reference made of digits, which ends at `q`. */
  predicate IsReference(s: string, hex: bool, q: nat) {
    && First(hex) < q < |s| && s[1] == '#' && (hex <==> s[2] == 'x') && s[q] == ';'
    && Digits(s[First(hex)..q], Base(hex))
  }

  /** What a reference decodes to, whatever its number. */
  lemma ReferenceIsWrapped(s: string, hex: bool, q: nat)
    requires IsReference(s, hex, q)
    ensures GetCharacterRef(s) == Ref(Utf8(Wrapped(s[First(hex)..q], hex)), q + 1)
  {
    hide Backward, Utf8, Value, WrappedSum, Power;
    var first, base := First(hex), Base(hex);
    var ds := s[first..q];
    forall k | first <= k < q ensures s[k] != ';' && s[k] != '\0' {
      assert s[k] in ds;
    }
    SemicolonAfterDigits(s, first, q);
    BackwardIsWrapped(s, first - 1, q - 1, s[first - 1], base, 0, 0);
    PowerZero(base);
    if hex {
      HexIsModulo(ds, 0);
      PowersMeet(0);
    } else {
      DecimalSumFits(ds, 0);
    }
  }

  lemma PowerZero(base: nat)
    ensures Power(base, 0) == 1
  {
  }

  /** A reference decodes to the UTF-8 form of the number it denotes if and only if the number fits into 32 bits, or
      it and what it comes to both denote no character. */
  lemma ReferenceIsUtf8Iff(s: string, hex: bool, q: nat)
    requires IsReference(s, hex, q)
    ensures var ds := s[First(hex)..q];
      GetCharacterRef(s) == Ref(Utf8(Value(ds, Base(hex))), q + 1) <==>
      Value(ds, Base(hex)) < TWO_32 || Wrapped(ds, hex) >= 0x20_0000
  {
    hide GetCharacterRef, Value, WrappedSum;
    ReferenceIsWrapped(s, hex, q);
    if Value(s[First(hex)..q], Base(hex)) < TWO_32 {
      ReferenceIsUtf8(s, hex, q);
    }
  }
}
