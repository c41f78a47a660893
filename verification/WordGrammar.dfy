/** What makes a run of number words well put: numerals in falling order, the bare words for 100 and 1000 in
    Azerbaijani, and in Russian the agreement of scales and currencies with the last numeral and the gender of
    1 and 2. The printed words of every amount below 10^12 are. */
module WordGrammar {
  import opened AmountWords

  datatype Gender = Either | Masculine | Feminine

  datatype Form = One | Few | Many

  /** Only the Russian words for 1 and 2 have a gender. */
  function GenderOf(w: string): Gender {
    if w == "один" || w == "два" then Masculine else if w == "одна" || w == "две" then Feminine else Either
  }

  /** The form of a Russian scale or currency word. */
  function FormOf(w: string): Form {
    if w in {"тысяча", "миллион", "миллиард", "манат", "копейка"} then One
    else if w in {"тысячи", "миллиона", "миллиарда", "маната", "копейки"} then Few
    else Many
  }

  /** The form that goes with a numeral: singular after 1, few after 2 to 4, many after all others. */
  function Agreeing(last: nat): Form {
    if last == 1 then One else if 2 <= last <= 4 then Few else Many
  }

  /** Which part of the amount a currency word closes. */
  function PartOf(w: string): nat {
    if w in {"manat", "манат", "маната", "манатов"} then 0 else 1
  }

  /** What has been read, the last numeral of the group and its gender, the last scale and the number of words in
      the part, and whether all words fitted. */
  datatype Place = Place(r: Reading, last: nat, gender: Gender, scale: nat, count: nat, fits: bool)

  /** Hundreds, tens and ones in falling order; a teen takes the place of both; zero stands alone. */
  predicate NumeralFits(lang: Lang, p: Place, n: nat) {
    && (n == 0 ==> p.count == 0)
    && (p.count == 0 || p.r.total + p.r.group > 0)
    && (n >= 100 ==> p.last == 0)
    && (10 <= n < 100 ==> p.last == 0 || p.last >= 100)
    && (0 < n < 10 ==> p.last == 0 || p.last >= if lang == Az then 10 else 20)
  }

  /** Scales fall, and multiply something; in Azerbaijani 1000 is the bare word. */
  predicate ScaleFits(lang: Lang, p: Place, w: string, n: nat) {
    && (p.scale == 0 || n < p.scale)
    && (if lang == Az && n == 1_000 then p.r.group != 1 else p.r.group > 0)
    && (lang == Ru ==> FormOf(w) == Agreeing(p.last) && p.gender != if n == 1_000 then Masculine else Feminine)
  }

  predicate Fits(lang: Lang, p: Place, w: string) {
    match MeaningOf(lang, w)
    case Adds(n) => NumeralFits(lang, p, n)
    case Hundred => (p.count == 0 || p.r.total + p.r.group > 0) && (p.r.group == 0 || 2 <= p.r.group <= 9)
    case Scale(n) => ScaleFits(lang, p, w, n)
    case EndsPart =>
      && p.count > 0 && |p.r.parts| == PartOf(w)
      && (lang == Ru ==> FormOf(w) == Agreeing(p.last) && p.gender != Feminine)
    case Unknown => false
  }

  function Step(lang: Lang, p: Place, w: string): Place {
    var m := MeaningOf(lang, w);
    Place(
      Take(p.r, m),
      match m case Adds(n) => n case Hundred => 100 case _ => 0,
      if m.Adds? then GenderOf(w) else Either,
      match m case Scale(n) => n case EndsPart => 0 case _ => p.scale,
      if m.EndsPart? then 0 else p.count + 1,
      p.fits && Fits(lang, p, w))
  }

  function Walk(lang: Lang, p: Place, words: seq<string>): Place
    decreases |words|
  {
    if words == [] then p else Walk(lang, Step(lang, p, words[0]), words[1..])
  }

  const START := Place(Reading([], 0, 0, true), 0, Either, 0, 0, true)

  lemma {:induction false} WalkConcat(lang: Lang, p: Place, a: seq<string>, b: seq<string>)
    ensures Walk(lang, p, a + b) == Walk(lang, Walk(lang, p, a), b)
    decreases |a|
  {
    hide Step;
    if a == [] {
      assert a + b == b;
    } else {
      assert (a + b)[1..] == a[1..] + b;
      WalkConcat(lang, Step(lang, p, a[0]), a[1..], b);
    }
  }

  lemma WalkOne(lang: Lang, p: Place, w: string)
    ensures Walk(lang, p, [w]) == Step(lang, p, w)
  {
    hide Step;
    assert [w][1..] == [];
  }

  lemma WalkMaybe(lang: Lang, p: Place, there: bool, w: string)
    ensures Walk(lang, p, Maybe(there, w)) == if there then Step(lang, p, w) else p
  {
    hide Step;
    if there {
      WalkOne(lang, p, w);
    }
  }

  /** The walk reads what the reader reads. */
  lemma {:induction false} WalkReads(lang: Lang, p: Place, words: seq<string>)
    ensures Walk(lang, p, words).r == Read(lang, p.r, words)
    decreases |words|
  {
    hide Fits, GenderOf;
    if words != [] {
      WalkReads(lang, Step(lang, p, words[0]), words[1..]);
    }
  }

  lemma NumeralStep(lang: Lang, p: Place, w: string, n: nat)
    requires p.fits && MeaningOf(lang, w) == Adds(n) && NumeralFits(lang, p, n)
    ensures Step(lang, p, w) == Place(p.r.(group := p.r.group + n), n, GenderOf(w), p.scale, p.count + 1, true)
  {
    hide GenderOf, NumeralFits, MeaningOf;
  }

  // ----- genders and forms of the words -----

  lemma RuOnesHaveGender(o: nat, feminine: bool)
    requires 1 <= o <= 9
    ensures GenderOf(RuOnes(o, feminine)) == if o > 2 then Either else if feminine then Feminine else Masculine
  {}

  lemma RuTeensHaveNoGender(o: nat)
    requires o <= 9
    ensures GenderOf(RuTeens(o)) == Either
  {}

  lemma RuTensHaveNoGender(t: nat)
    requires 2 <= t <= 9
    ensures GenderOf(RuTens(t)) == Either
  {}

  lemma RuHundredsHaveNoGender(h: nat)
    requires 1 <= h <= 9
    ensures GenderOf(RuHundreds(h)) == Either
  {}

  lemma AzWordsHaveNoGender(w: string)
    requires AzMeaning(w).Adds?
    ensures GenderOf(w) == Either
  {}

  function Pick(forms: Forms, form: Form): string {
    match form case One => forms.one case Few => forms.few case Many => forms.many
  }

  /** The form that a number calls for, by its last one and two digits. */
  function Chosen(n: nat): Form {
    if 11 <= n % 100 <= 19 then Many
    else if n % 10 == 1 then One
    else if 2 <= n % 10 <= 4 then Few
    else Many
  }

  lemma PluralIsChosen(n: nat, forms: Forms)
    ensures RuPlural(n, forms) == Pick(forms, Chosen(n))
  {
    LastDigit(n);
  }

  lemma LastDigit(n: nat)
    ensures n % 100 % 10 == n % 10
  {
    var q, r := n / 100, n % 100;
    LastOne(10 * q + r / 10, r % 10);
  }

  lemma ScalesHaveForms(i: nat, form: Form)
    requires 1 <= i <= 3
    ensures FormOf(Pick(RuScale(i), form)) == form
  {}

  lemma CurrenciesHaveForms(form: Form)
    ensures FormOf(Pick(RU_MANAT, form)) == form == FormOf(Pick(RU_KOPEK, form))
    ensures PartOf(Pick(RU_MANAT, form)) == 0 == PartOf("manat")
    ensures PartOf(Pick(RU_KOPEK, form)) == 1 == PartOf("qəpik")
  {}

  // ----- groups -----

  /** Where a group can start. */
  predicate Fresh(p: Place) {
    p.fits && p.r.group == 0 && p.last == 0 && p.gender == Either && (p.count == 0 <==> p.r.total == 0)
  }

  lemma AzHundredsFit(p: Place, h: nat)
    requires Fresh(p) && h <= 9
    ensures var q := Walk(Az, p, AzHundreds(h));
            && q.fits && q.gender == Either && q.r == p.r.(group := 100 * h) && q.scale == p.scale
            && q.last == (if h == 0 then 0 else 100)
            && (if h == 0 then q == p else q.count > 0)
  {
    HundredMeans();
    hide AzMeaning, AzOnes, GenderOf;
    if h == 1 {
      WalkOne(Az, p, "yüz");
    } else if h > 1 {
      assert [AzOnes(h), "yüz"] == [AzOnes(h)] + ["yüz"];
      WalkConcat(Az, p, [AzOnes(h)], ["yüz"]);
      WalkOne(Az, p, AzOnes(h));
      AzOnesMean(h);
      AzWordsHaveNoGender(AzOnes(h));
      NumeralStep(Az, p, AzOnes(h), h);
      WalkOne(Az, Walk(Az, p, [AzOnes(h)]), "yüz");
    }
  }

  lemma AzDigitsFit(p: Place, h: nat, t: nat, o: nat)
    requires Fresh(p) && h <= 9 && t <= 9 && o <= 9
    ensures var q :=
              Walk(Az, p, AzHundreds(h) + Maybe(t != 0, AzTensOrNone(t)) + Maybe(o != 0, AzOnesOrNone(o)));
            && q.fits && q.gender == Either && q.r == p.r.(group := 100 * h + 10 * t + o) && q.scale == p.scale
            && (h + t + o > 0 ==> q.count > 0)
  {
    hide AzMeaning, AzOnes, AzTens, AzHundreds, Maybe, Walk, Step, GenderOf;
    var tens, ones := Maybe(t != 0, AzTensOrNone(t)), Maybe(o != 0, AzOnesOrNone(o));
    WalkConcat(Az, p, AzHundreds(h) + tens, ones);
    WalkConcat(Az, p, AzHundreds(h), tens);
    AzHundredsFit(p, h);
    var q := Walk(Az, p, AzHundreds(h));
    WalkMaybe(Az, q, t != 0, AzTensOrNone(t));
    if t > 0 {
      AzTensMean(t);
      AzWordsHaveNoGender(AzTens(t));
      NumeralStep(Az, q, AzTens(t), 10 * t);
    }
    var q2 := Walk(Az, q, tens);
    WalkMaybe(Az, q2, o != 0, AzOnesOrNone(o));
    if o > 0 {
      AzOnesMean(o);
      AzWordsHaveNoGender(AzOnes(o));
      NumeralStep(Az, q2, AzOnes(o), o);
    }
  }

  lemma AzTriadFits(p: Place, n: nat)
    requires Fresh(p) && 0 < n < 1000
    ensures var q := Walk(Az, p, AzTriad(n));
            q.fits && q.gender == Either && q.count > 0 && q.r == p.r.(group := n) && q.scale == p.scale
  {
    hide AzHundreds, AzTriad, AzTensOrNone, AzOnesOrNone, Maybe, Walk, Fresh;
    var h, t, o := AzDigitsOf(n);
    AzDigitsFit(p, h, t, o);
  }

  lemma RuTensFit(p: Place, t: nat)
    requires p.fits && t <= 9 && t != 1 && (p.last == 0 || p.last >= 100) && (p.count == 0 || p.r.total + p.r.group > 0)
    requires p.gender == Either
    ensures var q := Walk(Ru, p, if t == 0 then [] else [RuTens(t)]);
            && q.fits && q.r == p.r.(group := p.r.group + 10 * t) && q.gender == Either && q.scale == p.scale
            && q.last == (if t > 0 then 10 * t else p.last)
            && (if t > 0 then q.count > 0 else q == p)
  {
    hide RuMeaning, RuTens, Step, GenderOf;
    if t > 0 {
      WalkOne(Ru, p, RuTens(t));
      RuTensMean(t);
      RuTensHaveNoGender(t);
      NumeralStep(Ru, p, RuTens(t), 10 * t);
    }
  }

  lemma RuOnesFit(p: Place, o: nat, feminine: bool)
    requires p.fits && o <= 9 && (p.last == 0 || p.last >= 20)
    requires p.gender == Either && (p.count == 0 || p.r.total + p.r.group > 0)
    ensures var q := Walk(Ru, p, if o == 0 then [] else [RuOnes(o, feminine)]);
            && q.fits && q.r == p.r.(group := p.r.group + o) && q.scale == p.scale
            && (q.gender == Either || q.gender == if feminine then Feminine else Masculine)
            && q.last == (if o > 0 then o else p.last)
            && (if o > 0 then q.count > 0 else q == p)
  {
    hide RuMeaning, RuOnes, Step, GenderOf;
    if o > 0 {
      WalkOne(Ru, p, RuOnes(o, feminine));
      RuOnesMean(o, feminine);
      RuOnesHaveGender(o, feminine);
      NumeralStep(Ru, p, RuOnes(o, feminine), o);
    }
  }

  /** The last numeral of a group, and its gender. */
  lemma RuPairFits(p: Place, t: nat, o: nat, feminine: bool)
    requires p.fits && t <= 9 && o <= 9 && (p.last == 0 || p.last >= 100) && (p.count == 0 || p.r.total + p.r.group > 0)
    requires p.gender == Either
    ensures var q := Walk(Ru, p, RuPair(t, o, feminine));
            && q.fits && q.r == p.r.(group := p.r.group + 10 * t + o) && q.scale == p.scale
            && (q.gender == Either || q.gender == if feminine then Feminine else Masculine)
            && q.last == (if t == 1 then 10 + o else if o > 0 then o else if t > 0 then 10 * t else p.last)
            && (if t + o > 0 then q.count > 0 else q == p)
  {
    hide RuMeaning, RuOnes, RuTens, RuTeens, Step, GenderOf, Walk;
    if t == 1 {
      WalkOne(Ru, p, RuTeens(o));
      RuTeensMean(o);
      RuTeensHaveNoGender(o);
      NumeralStep(Ru, p, RuTeens(o), 10 + o);
    } else {
      var tens, ones := if t == 0 then [] else [RuTens(t)], if o == 0 then [] else [RuOnes(o, feminine)];
      WalkConcat(Ru, p, tens, ones);
      RuTensFit(p, t);
      RuOnesFit(Walk(Ru, p, tens), o, feminine);
    }
  }

  lemma RuDigitsFit(p: Place, h: nat, t: nat, o: nat, feminine: bool)
    requires Fresh(p) && h <= 9 && t <= 9 && o <= 9
    ensures var q := Walk(Ru, p, Maybe(h != 0, RuHundredsOrNone(h)) + RuPair(t, o, feminine));
            && q.fits && q.r == p.r.(group := 100 * h + 10 * t + o) && q.scale == p.scale
            && (q.gender == Either || q.gender == if feminine then Feminine else Masculine)
            && Agreeing(q.last) == Chosen(100 * h + 10 * t + o)
            && (h + t + o > 0 ==> q.count > 0)
  {
    hide RuMeaning, RuHundreds, RuPair, Walk, Maybe, Step, GenderOf, Agreeing, Chosen;
    WalkConcat(Ru, p, Maybe(h != 0, RuHundredsOrNone(h)), RuPair(t, o, feminine));
    WalkMaybe(Ru, p, h != 0, RuHundredsOrNone(h));
    if h > 0 {
      RuHundredsMean(h);
      RuHundredsHaveNoGender(h);
      NumeralStep(Ru, p, RuHundreds(h), 100 * h);
    }
    var q := Walk(Ru, p, Maybe(h != 0, RuHundredsOrNone(h)));
    RuPairFits(q, t, o, feminine);
    LastAgrees(h, t, o);
  }

  lemma LastAgrees(h: nat, t: nat, o: nat)
    requires h <= 9 && t <= 9 && o <= 9
    ensures var last := if t == 1 then 10 + o else if o > 0 then o else if t > 0 then 10 * t else 100 * h;
            Agreeing(last) == Chosen(100 * h + 10 * t + o)
  {
    LastTwo(h, 10 * t + o);
    LastOne(10 * h + t, o);
  }

  lemma RuTriadFits(p: Place, n: nat, feminine: bool)
    requires Fresh(p) && 0 < n < 1000
    ensures var q := Walk(Ru, p, RuTriad(n, feminine));
            && q.fits && q.r == p.r.(group := n) && q.count > 0 && q.scale == p.scale
            && (q.gender == Either || q.gender == if feminine then Feminine else Masculine)
            && Agreeing(q.last) == Chosen(n)
  {
    hide RuTriad, RuHundredsOrNone, RuPair, Maybe, Walk, Agreeing, Chosen, Fresh;
    var h, t, o := RuDigitsOf(n, feminine);
    RuDigitsFit(p, h, t, o, feminine);
  }

  lemma ScaleStep(lang: Lang, p: Place, w: string, n: nat)
    requires p.fits && MeaningOf(lang, w) == Scale(n) && ScaleFits(lang, p, w, n)
    ensures var q := Step(lang, p, w);
            && q.fits && q.last == 0 && q.gender == Either && q.count > 0 && q.scale == n
            && q.r == p.r.(total := p.r.total + n * AtLeastOne(p.r.group), group := 0)
  {
    hide ScaleFits, MeaningOf, GenderOf;
  }

  /** Only larger scales have been used. */
  predicate Above(p: Place, i: nat) { p.scale == 0 || p.scale > ScaleValue(i) }

  /** What a group is worth at its position. */
  function Scaled(tri: nat, i: nat): nat { ScaleValue(i) * tri }

  lemma AzGroupFits(p: Place, tri: nat, i: nat)
    requires Fresh(p) && 0 < tri < 1000 && i <= 3 && Above(p, i)
    ensures var q := Walk(Az, p, Group(Az, tri, i));
            && q.fits && q.gender == Either && q.count > 0
            && (i > 0 ==> q.last == 0 && q.scale == ScaleValue(i) && q.r == p.r.(total := p.r.total + Scaled(tri, i)))
            && (i == 0 ==> q.r == p.r.(group := tri))
  {
    hide AzMeaning, AzTriad, Walk, Step;
    if i > 0 {
      AzScalesMean(i);
    }
    if i == 1 && tri == 1 {
      AzScalesMean(1);
      WalkOne(Az, p, "min");
      ScaleStep(Az, p, "min", 1_000);
    } else {
      AzTriadFits(p, tri);
      var q := Walk(Az, p, AzTriad(tri));
      if i > 0 {
        WalkConcat(Az, p, AzTriad(tri), [AzScale(i)]);
        WalkOne(Az, q, AzScale(i));
        ScaleStep(Az, q, AzScale(i), ScaleValue(i));
      } else {
        assert AzTriad(tri) + [] == AzTriad(tri);
      }
    }
  }

  lemma RuGroupFits(p: Place, tri: nat, i: nat)
    requires Fresh(p) && 0 < tri < 1000 && i <= 3 && Above(p, i)
    ensures var q := Walk(Ru, p, Group(Ru, tri, i));
            && q.fits && q.count > 0 && q.gender != Feminine
            && (i > 0 ==>
                  && q.last == 0 && q.gender == Either && q.scale == ScaleValue(i)
                  && q.r == p.r.(total := p.r.total + Scaled(tri, i)))
            && (i == 0 ==> Agreeing(q.last) == Chosen(tri) && q.r == p.r.(group := tri))
  {
    hide RuMeaning, RuTriad, RuPlural, Walk, Step, FormOf, Chosen, Agreeing;
    RuTriadFits(p, tri, i == 1);
    var q := Walk(Ru, p, RuTriad(tri, i == 1));
    if i > 0 {
      var word := RuPlural(tri, RuScale(i));
      PluralIsChosen(tri, RuScale(i));
      ScalesHaveForms(i, Chosen(tri));
      RuScalesMean(i, tri);
      WalkConcat(Ru, p, RuTriad(tri, i == 1), [word]);
      WalkOne(Ru, q, word);
      ScaleStep(Ru, q, word, ScaleValue(i));
    } else {
      assert RuTriad(tri, false) + [] == RuTriad(tri, false);
    }
  }

  /** A group that is followed by others leaves a place where they can start. */
  lemma GroupFits(lang: Lang, p: Place, tri: nat, i: nat)
    requires Fresh(p) && tri < 1000 && 1 <= i <= 3 && Above(p, i)
    ensures var q := Walk(lang, p, Group(lang, tri, i));
            && Fresh(q) && Above(q, i - 1)
            && q.r == p.r.(total := p.r.total + Scaled(tri, i))
            && (tri > 0 ==> q.count > 0)
  {
    assert ScaleValue(i - 1) < ScaleValue(i) && ScaleValue(i) > 0;
    hide Walk, Group, ScaleValue;
    if tri == 0 {
      NoGroup(lang, p, i);
    } else if lang == Az {
      AzGroupFits(p, tri, i);
    } else {
      RuGroupFits(p, tri, i);
    }
  }

  lemma NoGroup(lang: Lang, p: Place, i: nat)
    ensures Group(lang, 0, i) == [] && Walk(lang, p, []) == p && Scaled(0, i) == 0
  {}

  lemma {:induction false} GroupsFit(lang: Lang, p: Place, units: seq<nat>, i: nat)
    requires Fresh(p) && p.scale == 0 && p.r.total == 0 && 1 <= i <= |units| <= 4 && forall u | u in units :: u < 1000
    ensures var q := Walk(lang, p, GroupsFrom(lang, units, i));
            && Fresh(q) && Above(q, i - 1)
            && q.r == p.r.(total := ScaleValue(i) * Combined(units[i..]))
    decreases |units| - i
  {
    if i < |units| {
      hide Group, GroupsFrom, Combined, ScaleValue, Walk, Above, Fresh;
      GroupsStep(lang, units, i);
      GroupsFit(lang, p, units, i + 1);
      WalkConcat(lang, p, GroupsFrom(lang, units, i + 1), Group(lang, units[i], i));
      GroupFits(lang, Walk(lang, p, GroupsFrom(lang, units, i + 1)), units[i], i);
      CombinedStep(units, i);
    } else {
      hide Walk, Combined;
      NoGroups(lang, p, units);
    }
  }

  lemma NoGroups(lang: Lang, p: Place, units: seq<nat>)
    requires forall u | u in units :: u < 1000
    ensures GroupsFrom(lang, units, |units|) == [] && Walk(lang, p, []) == p && Combined(units[|units|..]) == 0
  {}

  /** Where the words of a part end: a currency word for `n` fits next. */
  predicate Closable(lang: Lang, q: Place, n: nat) {
    q.fits && q.count > 0 && q.gender != Feminine && (lang == Ru ==> Agreeing(q.last) == Chosen(n))
  }

  lemma ZeroFits(lang: Lang, p: Place)
    requires Fresh(p) && p.r.total == 0 && p.count == 0
    ensures var q := Walk(lang, p, IntWords(lang, 0));
            Closable(lang, q, 0) && q.r.parts == p.r.parts && q.r.total + q.r.group == 0
  {
    WalkOne(lang, p, if lang == Az then "sıfır" else "ноль");
  }

  lemma LowestGroupFits(lang: Lang, p: Place, tri: nat)
    requires Fresh(p) && tri < 1000 && (tri == 0 ==> p.r.total > 0) && Above(p, 0)
    requires p.count == 0 ==> tri > 0
    ensures var q := Walk(lang, p, Group(lang, tri, 0));
            Closable(lang, q, tri) && q.r == p.r.(group := tri)
  {
    hide Above;
    if tri > 0 {
      if lang == Az {
        AzGroupFits(p, tri, 0);
      } else {
        RuGroupFits(p, tri, 0);
      }
      hide Walk, Group;
    }
  }

  /** The words of an integer below 10^12 fit one another, and leave a place for its currency word. */
  lemma IntWordsFit(lang: Lang, p: Place, n: nat)
    requires Fresh(p) && p.scale == 0 && p.r.total == 0 && p.count == 0 && n < 1_000_000_000_000
    ensures var q := Walk(lang, p, IntWords(lang, n));
            Closable(lang, q, n) && q.r.parts == p.r.parts && q.r.total + q.r.group == n
  {
    if n == 0 {
      ZeroFits(lang, p);
    } else {
      hide Group, Walk, Fresh, Closable, Above;
      var units := Triads(n);
      TriadsMakeUpTheNumber(n);
      FourTriads(n);
      LowestTriad(n);
      assert units[0] in units;
      GroupsFit(lang, p, units, 1);
      WalkConcat(lang, p, GroupsFrom(lang, units, 1), Group(lang, units[0], 0));
      FreshCount(Walk(lang, p, GroupsFrom(lang, units, 1)));
      LowestGroupFits(lang, Walk(lang, p, GroupsFrom(lang, units, 1)), units[0]);
      SameEnding(lang, Walk(lang, p, IntWords(lang, n)), units[0], n);
    }
  }

  lemma LowestTriad(n: nat)
    ensures Triads(n)[0] == n % 1000 && Combined(Triads(n)) == Triads(n)[0] + 1000 * Combined(Triads(n)[1..])
  {}

  lemma FreshCount(p: Place)
    requires Fresh(p)
    ensures p.count == 0 <==> p.r.total == 0
  {}

  lemma SameEnding(lang: Lang, q: Place, tri: nat, n: nat)
    requires Closable(lang, q, tri) && tri == n % 1000
    ensures Closable(lang, q, n)
  {
    SameLastDigits(n / 1000, tri);
    hide Agreeing;
  }

  lemma LastTwo(k: nat, r: nat)
    requires r < 100
    ensures (100 * k + r) % 100 == r
  {}

  lemma LastOne(k: nat, r: nat)
    requires r < 10
    ensures (10 * k + r) % 10 == r
  {}

  lemma SameLastDigits(q: nat, tri: nat)
    ensures (1000 * q + tri) % 100 == tri % 100 && (1000 * q + tri) % 10 == tri % 10
  {
    LastTwo(10 * q + tri / 100, tri % 100);
    LastOne(100 * q + tri / 10, tri % 10);
  }

  lemma CurrencyStep(lang: Lang, q: Place, w: string, n: nat, part: nat)
    requires Closable(lang, q, n) && |q.r.parts| == part <= 1
    requires w == if lang == Az then (if part == 0 then "manat" else "qəpik")
                  else RuPlural(n, if part == 0 then RU_MANAT else RU_KOPEK)
    ensures Walk(lang, q, [w])
            == Place(Reading(q.r.parts + [q.r.total + q.r.group], 0, 0, q.r.ok), 0, Either, 0, 0, true)
  {
    WalkOne(lang, q, w);
    EndsMean(n);
    PluralIsChosen(n, RU_MANAT);
    PluralIsChosen(n, RU_KOPEK);
    CurrenciesHaveForms(Chosen(n));
    hide FormOf, PartOf, RuPlural, AzMeaning, RuMeaning, Pick, Chosen, Agreeing;
  }

  /** The words of an amount below 10^12 fit one another, and read as its integer part and its hundredths. */
  lemma WordsFit(lang: Lang, cents: nat)
    requires cents / 100 < 1_000_000_000_000
    ensures var q := Walk(lang, START, Words(lang, cents));
            q.fits && q.count == 0 && q.r.parts == [cents / 100, cents % 100]
  {
    hide IntWords, RuPlural, Walk, Closable;
    var whole, frac := cents / 100, cents % 100;
    var manat := if lang == Az then "manat" else RuPlural(whole, RU_MANAT);
    var kopek := if lang == Az then "qəpik" else RuPlural(frac, RU_KOPEK);
    var first, second := IntWords(lang, whole), IntWords(lang, frac);
    WalkConcat(lang, START, first + [manat] + second, [kopek]);
    WalkConcat(lang, START, first + [manat], second);
    WalkConcat(lang, START, first, [manat]);
    IntWordsFit(lang, START, whole);
    CurrencyStep(lang, Walk(lang, START, first), manat, whole, 0);
    assert [] + [whole] == [whole] && [whole] + [frac] == [whole, frac];
    var middle := Walk(lang, START, first + [manat]);
    IntWordsFit(lang, middle, frac);
    CurrencyStep(lang, Walk(lang, middle, second), kopek, frac, 1);
  }
}
