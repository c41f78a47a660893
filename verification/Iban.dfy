/** `validateAzIban` (ISO 13616-1), with the MOD 97-10 check of ISO/IEC 7064. */
module Iban {
  import opened DecimalDigits

  datatype Reason = Accepted | Empty | Format | Checksum

  datatype Validation = Validation(isValid: bool, normalized: string, reason: Reason)

  predicate IsLetter(c: char) { 'A' <= c <= 'Z' }

  /** `AZ` and 26 letters or digits. */
  predicate WellFormed(s: string) {
    |s| == 28 && s[0] == 'A' && s[1] == 'Z' && forall i | 2 <= i < 28 :: IsLetter(s[i]) || IsDigit(s[i])
  }

  predicate Alphanumeric(s: string) { forall c | c in s :: IsLetter(c) || IsDigit(c) }

  function Rearranged(s: string): (r: string)
    requires |s| >= 4
    ensures |r| == |s|
  {
    s[4..] + s[..4]
  }

  /** The number a character stands for: a digit for itself, A to Z for 10 to 35. */
  function CharValue(c: char): (n: nat)
    requires IsLetter(c) || IsDigit(c)
    ensures IsDigit(c) ==> n <= 9
    ensures IsLetter(c) ==> 10 <= n <= 35
  {
    if IsDigit(c) then DigitValue(c) else c as int - 55
  }

  /** Its decimal digits. */
  function Digits(c: char): (ds: seq<nat>)
    requires IsLetter(c) || IsDigit(c)
    ensures |ds| == if IsDigit(c) then 1 else 2
  {
    if IsDigit(c) then [CharValue(c)] else [CharValue(c) / 10, CharValue(c) % 10]
  }

  function Expanded(s: string): seq<nat>
    requires Alphanumeric(s)
  {
    if s == "" then [] else Expanded(s[..|s| - 1]) + Digits(s[|s| - 1])
  }

  /** The number written with these digits. */
  function Value(ds: seq<nat>): nat {
    if ds == [] then 0 else 10 * Value(ds[..|ds| - 1]) + ds[|ds| - 1]
  }

  function NumberOf(s: string): nat
    requires Alphanumeric(s)
  {
    Value(Expanded(s))
  }

  function Width(c: char): (w: nat)
    requires IsLetter(c) || IsDigit(c)
    ensures w == 10 || w == 100
  {
    if IsDigit(c) then 10 else 100
  }

  lemma ValueOfDigits(ds: seq<nat>, c: char)
    requires IsLetter(c) || IsDigit(c)
    ensures Value(ds + Digits(c)) == Value(ds) * Width(c) + CharValue(c)
  {
    var more := Digits(c);
    if IsDigit(c) {
      assert (ds + more)[..|ds|] == ds;
    } else {
      assert (ds + more)[..|ds| + 1] == ds + [more[0]];
      assert (ds + [more[0]])[..|ds|] == ds;
    }
  }

  lemma NumberStep(s: string, c: char)
    requires Alphanumeric(s) && (IsLetter(c) || IsDigit(c))
    ensures Alphanumeric(s + [c])
    ensures NumberOf(s + [c]) == NumberOf(s) * Width(c) + CharValue(c)
  {
    assert (s + [c])[..|s|] == s;
    ValueOfDigits(Expanded(s), c);
  }

  // ----- the streamed remainder -----

  lemma DigitStep(v: nat, d: nat)
    ensures ((v % 97) * 10 + d) % 97 == (10 * v + d) % 97
  {}

  lemma ValueStep(ds: seq<nat>, d: nat)
    ensures Value(ds + [d]) == 10 * Value(ds) + d
  {}

  lemma ExpandedStep(s: string, i: nat)
    requires Alphanumeric(s) && i < |s|
    ensures Alphanumeric(s[..i]) && Alphanumeric(s[..i + 1]) && (IsLetter(s[i]) || IsDigit(s[i]))
    ensures Expanded(s[..i + 1]) == Expanded(s[..i]) + Digits(s[i])
  {
    assert s[i] in s;
    assert s[..i + 1][..i] == s[..i];
  }

  function Mod97(n: nat): nat { n % 97 }

  lemma StreamStep(before: seq<nat>, digits: seq<nat>, j: nat, remainder: nat)
    requires j < |digits| && remainder == Mod97(Value(before + digits[..j]))
    ensures (remainder * 10 + digits[j]) % 97 == Mod97(Value(before + digits[..j + 1]))
  {
    assert before + digits[..j + 1] == (before + digits[..j]) + [digits[j]];
    ValueStep(before + digits[..j], digits[j]);
    DigitStep(Value(before + digits[..j]), digits[j]);
  }

  /** The remainder kept digit by digit is that of the whole expanded number. */
  method Remainder(rearranged: string) returns (remainder: nat)
    requires Alphanumeric(rearranged)
    ensures remainder == Mod97(NumberOf(rearranged))
  {
    remainder := 0;
    assert rearranged[..0] == "" && Mod97(0) == 0;
    assert rearranged[..|rearranged|] == rearranged;
    for i := 0 to |rearranged|
      invariant Alphanumeric(rearranged[..i])
      invariant remainder == Mod97(Value(Expanded(rearranged[..i])))
    {
      hide Value, Expanded, Digits, Alphanumeric, Mod97;
      ExpandedStep(rearranged, i);
      var digits := Digits(rearranged[i]);
      ghost var before := Expanded(rearranged[..i]);
      assert before + digits[..0] == before;
      for j := 0 to |digits|
        invariant remainder == Mod97(Value(before + digits[..j]))
      {
        StreamStep(before, digits, j, remainder);
        remainder := (remainder * 10 + digits[j]) % 97;
      }
      assert digits[..|digits|] == digits;
    }
  }

  predicate IsValid(s: string) {
    WellFormed(s) && Alphanumeric(Rearranged(s)) && NumberOf(Rearranged(s)) % 97 == 1
  }

  lemma WellFormedIsAlphanumeric(s: string)
    requires WellFormed(s)
    ensures Alphanumeric(Rearranged(s))
  {}

  /** `normalized` is the input without whitespace and in upper case. */
  method ValidateAzIban(normalized: string) returns (r: Validation)
    ensures r.normalized == normalized
    ensures r.isValid <==> IsValid(normalized)
    ensures r.reason.Empty? || r.reason.Format? <==>
              !(|normalized| == 28 && normalized[0] == 'A' && normalized[1] == 'Z'
                && forall i | 2 <= i < 28 :: 'A' <= normalized[i] <= 'Z' || '0' <= normalized[i] <= '9')
    ensures r.reason == if normalized == "" then Empty
                        else if !WellFormed(normalized) then Format
                        else if IsValid(normalized) then Accepted else Checksum
  {
    if normalized == "" {
      return Validation(false, normalized, Empty);
    }
    if !WellFormed(normalized) {
      return Validation(false, normalized, Format);
    }
    WellFormedIsAlphanumeric(normalized);
    var remainder := Remainder(Rearranged(normalized));
    r := Validation(remainder == 1, normalized, if remainder == 1 then Accepted else Checksum);
  }

  // ----- what the check detects -----

  /** The weight of what stands before `s`. */
  function Weight(s: string): (w: nat)
    requires Alphanumeric(s)
    ensures w > 0
  {
    if s == "" then 1 else Weight(s[..|s| - 1]) * Width(s[|s| - 1])
  }

  lemma WeightStep(s: string, c: char)
    requires Alphanumeric(s) && (IsLetter(c) || IsDigit(c))
    ensures Alphanumeric(s + [c]) && Weight(s + [c]) == Weight(s) * Width(c)
  {}

  lemma Assemble(whole: int, part: int, x: int, w: int, n: int, k: int, v: int, wk: int, nk: int)
    requires part == x * w + n && whole == part * k + v && wk == w * k && nk == n * k + v
    ensures whole == x * wk + nk
  {}

  lemma AlphanumericParts(a: string, b: string)
    requires Alphanumeric(a) && Alphanumeric(b)
    ensures Alphanumeric(a + b)
    ensures b != "" ==> Alphanumeric(b[..|b| - 1]) && (IsLetter(b[|b| - 1]) || IsDigit(b[|b| - 1]))
  {}

  lemma ConcatLast(a: string, front: string, c: char)
    ensures a + (front + [c]) == (a + front) + [c]
  {}

  lemma NumberOfConcatWithNothing(a: string)
    requires Alphanumeric(a)
    ensures a + "" == a && NumberOf(a) == NumberOf(a) * Weight("") + NumberOf("")
  {}

  lemma LastCharacter(b: string)
    requires b != ""
    ensures b == b[..|b| - 1] + [b[|b| - 1]]
  {}

  lemma {:induction false} NumberOfConcat(a: string, b: string)
    requires Alphanumeric(a) && Alphanumeric(b)
    ensures Alphanumeric(a + b)
    ensures NumberOf(a + b) == NumberOf(a) * Weight(b) + NumberOf(b)
    decreases |b|
  {
    hide *;
    AlphanumericParts(a, b);
    if b == "" {
      NumberOfConcatWithNothing(a);
    } else {
      var c, front := b[|b| - 1], b[..|b| - 1];
      NumberOfConcat(a, front);
      ConcatLast(a, front, c);
      NumberStep(a + front, c);
      NumberStep(front, c);
      WeightStep(front, c);
      LastCharacter(b);
      Assemble(NumberOf(a + b), NumberOf(a + front), NumberOf(a), Weight(front), NumberOf(front),
               Width(c), CharValue(c), Weight(b), NumberOf(b));
    }
  }

  /** 97 does not divide a power of ten, nor any product of one with what it does not divide. */
  lemma {:induction false} WeightKeepsNonzero(d: int, s: string)
    requires Alphanumeric(s) && d % 97 != 0
    ensures (d * Weight(s)) % 97 != 0
    decreases |s|
  {
    if s != "" {
      var front, c := s[..|s| - 1], s[|s| - 1];
      WeightKeepsNonzero(d, front);
      var x := d * Weight(front);
      assert d * Weight(s) == x * Width(c) by {
        assert d * (Weight(front) * Width(c)) == (d * Weight(front)) * Width(c);
      }
      TenKeepsNonzero(x);
      if Width(c) == 100 {
        TenKeepsNonzero(x * 10);
      }
    }
  }

  lemma TenKeepsNonzero(x: int)
    requires x % 97 != 0
    ensures (x * 10) % 97 != 0
  {}

  lemma SameRemainder(x: nat, y: nat)
    requires x % 97 == y % 97
    ensures (y - x) % 97 == 0
  {}

  predicate SameClass(c: char, d: char) {
    (IsDigit(c) && IsDigit(d)) || (IsLetter(c) && IsLetter(d))
  }

  /** Two numbers that differ by a weighted amount not divisible by 97 leave different remainders. */
  lemma WeightedDifference(x: nat, y: nat, a: int, b: int, n: nat, post: string)
    requires Alphanumeric(post) && (b - a) % 97 != 0
    requires x == a * Weight(post) + n && y == b * Weight(post) + n
    ensures x % 97 != y % 97
  {
    Distribute(b, a, Weight(post));
    WeightKeepsNonzero(b - a, post);
    if x % 97 == y % 97 {
      SameRemainder(x, y);
    }
  }

  /** Replacing one character by another of its class changes the remainder. */
  lemma ReplacementChangesRemainder(pre: string, c: char, d: char, post: string)
    requires Alphanumeric(pre) && Alphanumeric(post) && SameClass(c, d) && c != d
    ensures Alphanumeric(pre + [c] + post) && Alphanumeric(pre + [d] + post)
    ensures NumberOf(pre + [c] + post) % 97 != NumberOf(pre + [d] + post) % 97
  {
    hide NumberOf, Weight;
    NumberStep(pre, c);
    NumberStep(pre, d);
    NumberOfConcat(pre + [c], post);
    NumberOfConcat(pre + [d], post);
    SmallIsNonzero(CharValue(d) - CharValue(c));
    WeightedDifference(
      NumberOf(pre + [c] + post), NumberOf(pre + [d] + post),
      NumberOf(pre + [c]), NumberOf(pre + [d]), NumberOf(post), post);
  }

  lemma Distribute(a: int, b: int, w: int)
    ensures a * w - b * w == (a - b) * w
  {}

  lemma SmallIsNonzero(d: int)
    requires -97 < d < 97 && d != 0
    ensures d % 97 != 0
  {}

  /** Swapping two unequal neighbours of one class changes the remainder. */
  lemma SwapChangesRemainder(pre: string, c: char, d: char, post: string)
    requires Alphanumeric(pre) && Alphanumeric(post) && SameClass(c, d) && c != d
    ensures Alphanumeric(pre + [c, d] + post) && Alphanumeric(pre + [d, c] + post)
    ensures NumberOf(pre + [c, d] + post) % 97 != NumberOf(pre + [d, c] + post) % 97
  {
    hide NumberOf, Weight;
    PairNumber(pre, c, d);
    PairNumber(pre, d, c);
    NumberOfConcat(pre + [c, d], post);
    NumberOfConcat(pre + [d, c], post);
    SwapDifference(CharValue(c), CharValue(d), Width(c));
    WeightedDifference(
      NumberOf(pre + [c, d] + post), NumberOf(pre + [d, c] + post),
      NumberOf(pre + [c, d]), NumberOf(pre + [d, c]), NumberOf(post), post);
  }

  lemma SwapDifference(x: nat, y: nat, w: nat)
    requires x != y && ((w == 10 && x <= 9 && y <= 9) || (w == 100 && 10 <= x <= 35 && 10 <= y <= 35))
    ensures (y * w + x - (x * w + y)) % 97 != 0
  {}

  lemma PairNumber(pre: string, c: char, d: char)
    requires Alphanumeric(pre) && SameClass(c, d)
    ensures Alphanumeric(pre + [c, d])
    ensures NumberOf(pre + [c, d])
            == NumberOf(pre) * Width(c) * Width(c) + CharValue(c) * Width(c) + CharValue(d)
  {
    hide NumberOf, CharValue;
    NumberStep(pre, c);
    NumberStep(pre + [c], d);
    assert pre + [c, d] == (pre + [c]) + [d];
    assert Width(d) == Width(c);
    PairArithmetic(NumberOf(pre), CharValue(c), CharValue(d), Width(c));
  }

  lemma PairArithmetic(n: nat, x: nat, y: nat, w: nat)
    ensures (n * w + x) * w + y == n * w * w + x * w + y
  {}

  // ----- what a character stands for -----

  lemma NumberWith(pre: string, c: char, post: string)
    requires Alphanumeric(pre) && Alphanumeric(post) && (IsLetter(c) || IsDigit(c))
    ensures Alphanumeric(pre + [c] + post)
    ensures NumberOf(pre + [c] + post)
            == (NumberOf(pre) * Width(c) + CharValue(c)) * Weight(post) + NumberOf(post)
  {
    hide NumberOf, Weight;
    NumberStep(pre, c);
    NumberOfConcat(pre + [c], post);
  }

  /** The next letter or the next digit stands for one more, wherever it is. */
  lemma NextCharacterStandsForOneMore(pre: string, c: char, d: char, post: string)
    requires Alphanumeric(pre) && Alphanumeric(post) && SameClass(c, d) && d as int == c as int + 1
    ensures Alphanumeric(pre + [c] + post) && Alphanumeric(pre + [d] + post)
    ensures NumberOf(pre + [d] + post) == NumberOf(pre + [c] + post) + Weight(post)
  {
    hide NumberOf, Weight;
    NumberWith(pre, c, post);
    NumberWith(pre, d, post);
    OneMore(NumberOf(pre) * Width(c), CharValue(c), Weight(post));
  }

  lemma OneMore(x: nat, v: nat, w: nat)
    ensures (x + (v + 1)) * w == (x + v) * w + w
  {}

  lemma ZeroAndA()
    ensures NumberOf("0") == 0 && NumberOf("A") == 10
  {
    assert NumberOf("") == 0;
    NumberStep("", '0');
    NumberStep("", 'A');
    assert "" + ['0'] == "0" && "" + ['A'] == "A";
  }

  /** Digits stand for the number they write. */
  lemma FourDigits(a: char, b: char, c: char, d: char)
    requires IsDigit(a) && IsDigit(b) && IsDigit(c) && IsDigit(d)
    ensures Alphanumeric([a, b, c, d]) && Weight([a, b, c, d]) == 10_000
    ensures NumberOf([a, b, c, d])
            == 1000 * (a as int - '0' as int) + 100 * (b as int - '0' as int) + 10 * (c as int - '0' as int)
               + (d as int - '0' as int)
  {
    var x, y, z := [a], [a, b], [a, b, c];
    assert NumberOf("") == 0 && Weight("") == 1;
    assert "" + [a] == x && x + [b] == y && y + [c] == z && z + [d] == [a, b, c, d];
    hide NumberOf, Weight;
    NumberStep("", a);
    NumberStep(x, b);
    NumberStep(y, c);
    NumberStep(z, d);
    WeightStep("", a);
    WeightStep(x, b);
    WeightStep(y, c);
    WeightStep(z, d);
  }

  // ----- the same, for IBANs -----

  /** Where position `i` of an IBAN stands after the rearrangement. */
  function Moved(i: nat): nat { if i < 4 then i + 24 else i - 4 }

  lemma RearrangedUpdate(s: string, i: nat, c: char)
    requires |s| == 28 && i < 28
    ensures Rearranged(s)[Moved(i)] == s[i]
    ensures Rearranged(s[i := c]) == Rearranged(s)[Moved(i) := c]
  {}

  lemma PartsAreAlphanumeric(s: string, i: nat, j: nat)
    requires Alphanumeric(s) && i <= j <= |s|
    ensures Alphanumeric(s[..i]) && Alphanumeric(s[j..])
  {}

  /** A valid IBAN turns invalid when one character after `AZ` is replaced by another of its class. */
  lemma OneWrongCharacterIsDetected(s: string, c: char, i: nat)
    requires IsValid(s) && 2 <= i < 28 && c != s[i] && SameClass(s[i], c)
    ensures !IsValid(s[i := c])
  {
    hide NumberOf, Rearranged, Alphanumeric;
    var r, j := Rearranged(s), Moved(i);
    RearrangedUpdate(s, i, c);
    PartsAreAlphanumeric(r, j, j + 1);
    assert r == r[..j] + [s[i]] + r[j + 1..];
    assert r[j := c] == r[..j] + [c] + r[j + 1..];
    ReplacementChangesRemainder(r[..j], s[i], c, r[j + 1..]);
  }

  /** A valid IBAN turns invalid when two unequal neighbours of one class within the last 24 characters,
      or the two check characters, are swapped. */
  lemma SwappedNeighboursAreDetected(s: string, i: nat)
    requires IsValid(s) && (4 <= i < 27 || i == 2)
    requires s[i] != s[i + 1] && SameClass(s[i], s[i + 1])
    ensures !IsValid(s[i := s[i + 1]][i + 1 := s[i]])
  {
    hide NumberOf, Rearranged, Alphanumeric;
    var r, j, c, d := Rearranged(s), Moved(i), s[i], s[i + 1];
    RearrangedUpdate(s, i, d);
    RearrangedUpdate(s, i + 1, c);
    RearrangedUpdate(s[i := d], i + 1, c);
    PartsAreAlphanumeric(r, j, j + 2);
    assert r == r[..j] + [c, d] + r[j + 2..];
    assert r[j := d][j + 1 := c] == r[..j] + [d, c] + r[j + 2..];
    SwapChangesRemainder(r[..j], c, d, r[j + 2..]);
  }

  function WithCheck(tail: string, n: nat): string
    requires n <= 99
  {
    "AZ" + [DigitChar(n / 10), DigitChar(n % 10)] + tail
  }

  /** The check digits for a tail. */
  function CheckFor(tail: string): (n: nat)
    requires Alphanumeric(tail)
    ensures 2 <= n <= 98
  {
    98 - (100 * NumberOf(tail + "AZ")) % 97
  }

  /** Each tail of 24 characters has exactly one valid pair of check digits from 02 to 98. */
  lemma ExactlyOneCheckPair(tail: string, n: nat)
    requires |tail| == 24 && Alphanumeric(tail) && 2 <= n <= 98
    ensures IsValid(WithCheck(tail, n)) <==> n == CheckFor(tail)
  {
    var s := WithCheck(tail, n);
    var x, y := DigitChar(n / 10), DigitChar(n % 10);
    assert WellFormed(s) by {
      forall i | 4 <= i < 28
        ensures IsLetter(s[i]) || IsDigit(s[i])
      {
        assert s[i] == tail[i - 4] && tail[i - 4] in tail;
      }
    }
    assert Rearranged(s) == (tail + "AZ") + [x, y];
    PairNumber(tail + "AZ", x, y);
    var v := NumberOf(tail + "AZ");
    assert NumberOf(Rearranged(s)) == 100 * v + n;
    WellFormedIsAlphanumeric(s);
    CheckArithmetic(100 * v, n);
  }

  lemma CheckArithmetic(v: nat, n: nat)
    requires 2 <= n <= 98
    ensures (v + n) % 97 == 1 <==> n == 98 - v % 97
  {}

  // ----- an account number of the standard's form -----

  const EXAMPLE := "AZ21NABZ00000000137010001944"

  lemma ExampleBank()
    ensures Alphanumeric("NABZ") && NumberOf("NABZ") == 23_101_135
  {
    assert NumberOf("") == 0;
    assert "" + ['N'] == "N" && "N" + ['A'] == "NA" && "NA" + ['B'] == "NAB" && "NAB" + ['Z'] == "NABZ";
    hide NumberOf;
    NumberStep("", 'N');
    NumberStep("N", 'A');
    NumberStep("NA", 'B');
    NumberStep("NAB", 'Z');
  }

  lemma ExampleCountry()
    ensures Alphanumeric("AZ21") && NumberOf("AZ21") == 103_521 && Weight("AZ21") == 1_000_000
  {
    assert NumberOf("") == 0 && Weight("") == 1;
    assert "" + ['A'] == "A" && "A" + ['Z'] == "AZ" && "AZ" + ['2'] == "AZ2" && "AZ2" + ['1'] == "AZ21";
    hide NumberOf, Weight;
    NumberStep("", 'A');
    NumberStep("A", 'Z');
    NumberStep("AZ", '2');
    NumberStep("AZ2", '1');
    WeightStep("", 'A');
    WeightStep("A", 'Z');
    WeightStep("AZ", '2');
    WeightStep("AZ2", '1');
  }

  /** Four more digits. */
  lemma FourMore(s: string, n: nat, a: char, b: char, c: char, d: char, t: string)
    requires t == s + [a, b, c, d]
    requires Alphanumeric(s) && NumberOf(s) == n && IsDigit(a) && IsDigit(b) && IsDigit(c) && IsDigit(d)
    ensures Alphanumeric(t)
    ensures NumberOf(t) == 10_000 * n + NumberOf([a, b, c, d])
  {
    FourDigits(a, b, c, d);
    hide NumberOf, Weight;
    NumberOfConcat(s, [a, b, c, d]);
  }

  lemma ExampleNumber()
    ensures Alphanumeric("NABZ00000000137010001944AZ21")
    ensures NumberOf("NABZ00000000137010001944AZ21") == 2310113500000000137010001944103521
  {
    hide NumberOf, Weight;
    ExampleBank();
    ExampleCountry();
    FourDigits('0', '0', '0', '0');
    FourDigits('1', '3', '7', '0');
    FourDigits('1', '0', '0', '0');
    FourDigits('1', '9', '4', '4');
    FourMore("NABZ", 23_101_135, '0', '0', '0', '0', "NABZ0000");
    FourMore("NABZ0000", 231_011_350_000, '0', '0', '0', '0', "NABZ00000000");
    FourMore("NABZ00000000", 2_310_113_500_000_000, '1', '3', '7', '0', "NABZ000000001370");
    FourMore("NABZ000000001370", 23_101_135_000_000_001_370, '1', '0', '0', '0', "NABZ0000000013701000");
    FourMore("NABZ0000000013701000", 231_011_350_000_000_013_701_000, '1', '9', '4', '4', "NABZ00000000137010001944");
    NumberOfConcat("NABZ00000000137010001944", "AZ21");
    assert "NABZ00000000137010001944" + "AZ21" == "NABZ00000000137010001944AZ21";
  }

  /** A published example is accepted. */
  lemma ExampleIsValid()
    ensures IsValid(EXAMPLE)
  {
    ExampleNumber();
    hide NumberOf;
    assert Rearranged(EXAMPLE) == "NABZ00000000137010001944AZ21";
  }
}
