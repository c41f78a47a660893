/** `amountToWords`: the text of an amount, and a reader that takes only well put text. */
module AmountText {
  import opened Outcomes
  import opened Splitting
  import opened AmountWords
  import opened WordGrammar

  /** The letters number words start with, in both cases. */
  predicate IsLower(c: char) { 'a' <= c <= 'z' || 'а' <= c <= 'я' || c == 'ü' || c == 'ə' }

  function Upper(c: char): char {
    if 'a' <= c <= 'z' || 'а' <= c <= 'я' then (c as int - 32) as char
    else if c == 'ü' then 'Ü' else if c == 'ə' then 'Ə' else c
  }

  function Lower(c: char): char {
    if 'A' <= c <= 'Z' || 'А' <= c <= 'Я' then (c as int + 32) as char
    else if c == 'Ü' then 'ü' else if c == 'Ə' then 'ə' else c
  }

  function CapFirst(s: string): string {
    if s == "" then s else [Upper(s[0])] + s[1..]
  }

  function UncapFirst(s: string): string {
    if s == "" then s else [Lower(s[0])] + s[1..]
  }

  lemma CapIsUndone(s: string)
    requires s != "" && IsLower(s[0])
    ensures UncapFirst(CapFirst(s)) == s
    ensures CapFirst(s) != "" && !IsLower(CapFirst(s)[0])
  {}

  /** `amountToWords`, for an amount in hundredths. */
  function Text(lang: Lang, cents: nat): string { CapFirst(Join(Words(lang, cents), ' ')) }

  /** What the text says, if its words are well put: the integer part and the hundredths. */
  function ReadText(lang: Lang, text: string): Option<seq<nat>> {
    if text == "" || IsLower(text[0]) then None
    else
      var end := Walk(lang, START, Split(UncapFirst(text), ' '));
      if end.fits && end.count == 0 then Some(end.r.parts) else None
  }

  predicate Plain(w: string) { w != "" && IsLower(w[0]) && Free(w, ' ') }

  lemma AzKnownIsPlain(w: string)
    requires AzMeaning(w) != Unknown
    ensures Plain(w)
  {}

  lemma RuShortKnownIsPlain(w: string)
    requires RuMeaning(w) != Unknown && |w| <= 7
    ensures Plain(w)
  {}

  lemma RuLongKnownIsPlain(w: string)
    requires RuMeaning(w) != Unknown && |w| > 7
    ensures Plain(w)
  {}

  lemma {:induction false} ReadingOkMeansKnown(lang: Lang, r: Reading, words: seq<string>)
    requires Read(lang, r, words).ok
    ensures r.ok && forall w | w in words :: MeaningOf(lang, w) != Unknown
    decreases |words|
  {
    if words != [] {
      ReadingOkMeansKnown(lang, Take(r, MeaningOf(lang, words[0])), words[1..]);
      assert words == [words[0]] + words[1..];
    }
  }

  lemma WordsArePlain(lang: Lang, cents: nat)
    ensures forall w | w in Words(lang, cents) :: Plain(w)
  {
    hide AzMeaning, RuMeaning, Words, Plain;
    var whole := WordsRead(lang, cents);
    ReadingOkMeansKnown(lang, Reading([], 0, 0, true), Words(lang, cents));
    forall w | w in Words(lang, cents)
      ensures Plain(w)
    {
      if lang == Az {
        AzKnownIsPlain(w);
      } else if |w| <= 7 {
        RuShortKnownIsPlain(w);
      } else {
        RuLongKnownIsPlain(w);
      }
    }
  }

  lemma JoinStarts(parts: seq<string>, sep: char)
    requires parts != [] && parts[0] != ""
    ensures Join(parts, sep) != "" && Join(parts, sep)[0] == parts[0][0]
  {}

  lemma TextSplitsIntoWords(lang: Lang, cents: nat)
    ensures var text := Text(lang, cents);
            text != "" && !IsLower(text[0]) && Split(UncapFirst(text), ' ') == Words(lang, cents)
  {
    hide Words, Split, Join;
    var words := Words(lang, cents);
    WordsArePlain(lang, cents);
    WordsAreThere(lang, cents);
    assert words[0] in words;
    JoinStarts(words, ' ');
    CapIsUndone(Join(words, ' '));
    SplitOfJoin(words, ' ');
  }

  /** The text says the amount, in well put words: it reads back as its integer part and its hundredths, exactly
      below 10^12, where the scale words run out. */
  lemma TextReadsBackExactlyBelowTenToTheTwelve(lang: Lang, cents: nat)
    ensures ReadText(lang, Text(lang, cents)) == Some([cents / 100, cents % 100])
            <==> cents / 100 < 1_000_000_000_000
  {
    hide Words, Split, Text, UncapFirst, IsLower, Walk, Read;
    TextSplitsIntoWords(lang, cents);
    if cents / 100 < 1_000_000_000_000 {
      WordsFit(lang, cents);
    } else {
      WalkReads(lang, START, Words(lang, cents));
      var whole := WordsRead(lang, cents);
      assert [whole, cents % 100][0] == whole && [cents / 100, cents % 100][0] == cents / 100;
    }
  }

  lemma WordsAreThere(lang: Lang, cents: nat)
    ensures Words(lang, cents) != []
  {}

  /** So distinct amounts print distinct text. */
  lemma DistinctAmountsPrintDistinctly(lang: Lang, x: nat, y: nat)
    requires x / 100 < 1_000_000_000_000 && y / 100 < 1_000_000_000_000
    requires Text(lang, x) == Text(lang, y)
    ensures x == y
  {
    hide Text, ReadText;
    TextReadsBackExactlyBelowTenToTheTwelve(lang, x);
    TextReadsBackExactlyBelowTenToTheTwelve(lang, y);
    assert [x / 100, x % 100][0] == [y / 100, y % 100][0];
    assert [x / 100, x % 100][1] == [y / 100, y % 100][1];
  }

  /** `amountToWords`: the four parts with single spaces between them. */
  method AmountToWords(cents: nat, lang: Lang) returns (text: string)
    ensures text == Text(lang, cents)
    ensures ReadText(lang, text) == Some([cents / 100, cents % 100]) <==> cents / 100 < 1_000_000_000_000
  {
    hide IntWords, RuPlural, Join, ReadText;
    var whole, frac := cents / 100, cents % 100;
    var intW, fracW: string;
    var manat, kopek := "manat", "qəpik";
    if lang == Az {
      intW := AzIntToWords(whole);
      fracW := AzIntToWords(frac);
    } else {
      intW := RuIntToWords(whole);
      fracW := RuIntToWords(frac);
      manat := RuPlural(whole, RU_MANAT);
      kopek := RuPlural(frac, RU_KOPEK);
    }
    IntWordsAreThere(lang, whole);
    IntWordsAreThere(lang, frac);
    FourParts(IntWords(lang, whole), manat, IntWords(lang, frac), kopek);
    text := CapFirst(intW + " " + manat + " " + fracW + " " + kopek);
    TextReadsBackExactlyBelowTenToTheTwelve(lang, cents);
  }

  lemma FourParts(a: seq<string>, b: string, c: seq<string>, d: string)
    requires a != [] && c != []
    ensures Join(a + [b] + c + [d], ' ') == Join(a, ' ') + " " + b + " " + Join(c, ' ') + " " + d
  {
    JoinConcat(a + [b] + c, [d], ' ');
    JoinConcat(a + [b], c, ' ');
    JoinConcat(a, [b], ' ');
  }
}
