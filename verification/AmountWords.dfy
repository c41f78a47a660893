/** `amountToWords` in Azerbaijani and Russian, and a reader that gets the number back from the text. */
module AmountWords {
  import opened Splitting

  datatype Lang = Az | Ru

  // ----- three digits at a time -----

  /** The groups of three digits, lowest first. */
  function Triads(n: nat): (units: seq<nat>)
    ensures units != []
    ensures forall u | u in units :: u < 1000
  {
    if n < 1000 then [n] else [n % 1000] + Triads(n / 1000)
  }

  /** The number its groups make up. */
  function Combined(units: seq<nat>): nat {
    if units == [] then 0 else units[0] + 1000 * Combined(units[1..])
  }

  lemma {:induction false} TriadsMakeUpTheNumber(n: nat)
    ensures Combined(Triads(n)) == n
  {
    if n >= 1000 {
      TriadsMakeUpTheNumber(n / 1000);
      assert Triads(n)[1..] == Triads(n / 1000);
    }
  }

  lemma {:induction false} TriadCount(n: nat, bound: nat, k: nat)
    requires n < bound && bound == Power(k) && k > 0
    ensures |Triads(n)| <= k
    decreases k
  {
    if n >= 1000 {
      assert k > 1;
      TriadCount(n / 1000, Power(k - 1), k - 1);
    }
  }

  /** 1000 to the power `k`. */
  function Power(k: nat): nat {
    if k == 0 then 1 else 1000 * Power(k - 1)
  }

  /** `triads`: the loop divides until nothing is left. */
  method TriadsOf(num: nat) returns (out: seq<nat>)
    ensures out == Triads(num)
  {
    var n := num;
    out := [];
    if n == 0 {
      return [0];
    }
    while n > 0
      invariant if n > 0 then out + Triads(n) == Triads(num) else out == Triads(num)
    {
      if n < 1000 {
        assert n / 1000 == 0 && n % 1000 == n;
      } else {
        assert out + ([n % 1000] + Triads(n / 1000)) == (out + [n % 1000]) + Triads(n / 1000);
      }
      out := out + [n % 1000];
      n := n / 1000;
    }
  }

  // ----- the word lists -----

  function AzOnes(o: nat): string
    requires 1 <= o <= 9
  {
    match o
    case 1 => "bir" case 2 => "iki" case 3 => "üç" case 4 => "dörd" case 5 => "beş"
    case 6 => "altı" case 7 => "yeddi" case 8 => "səkkiz" case _ => "doqquz"
  }

  function AzTens(t: nat): string
    requires 1 <= t <= 9
  {
    match t
    case 1 => "on" case 2 => "iyirmi" case 3 => "otuz" case 4 => "qırx" case 5 => "əlli"
    case 6 => "altmış" case 7 => "yetmiş" case 8 => "səksən" case _ => "doxsan"
  }

  /** No word for the lowest group, and none beyond the list. */
  function AzScale(i: nat): string {
    match i case 1 => "min" case 2 => "milyon" case 3 => "milyard" case _ => ""
  }

  function RuOnes(o: nat, feminine: bool): string
    requires 1 <= o <= 9
  {
    match o
    case 1 => if feminine then "одна" else "один"
    case 2 => if feminine then "две" else "два"
    case 3 => "три" case 4 => "четыре" case 5 => "пять" case 6 => "шесть" case 7 => "семь"
    case 8 => "восемь" case _ => "девять"
  }

  function RuTeens(o: nat): string
    requires o <= 9
  {
    match o
    case 0 => "десять" case 1 => "одиннадцать" case 2 => "двенадцать" case 3 => "тринадцать"
    case 4 => "четырнадцать" case 5 => "пятнадцать" case 6 => "шестнадцать" case 7 => "семнадцать"
    case 8 => "восемнадцать" case _ => "девятнадцать"
  }

  function RuTens(t: nat): string
    requires 2 <= t <= 9
  {
    match t
    case 2 => "двадцать" case 3 => "тридцать" case 4 => "сорок" case 5 => "пятьдесят"
    case 6 => "шестьдесят" case 7 => "семьдесят" case 8 => "восемьдесят" case _ => "девяносто"
  }

  function RuHundreds(h: nat): string
    requires 1 <= h <= 9
  {
    match h
    case 1 => "сто" case 2 => "двести" case 3 => "триста" case 4 => "четыреста" case 5 => "пятьсот"
    case 6 => "шестьсот" case 7 => "семьсот" case 8 => "восемьсот" case _ => "девятьсот"
  }

  datatype Forms = Forms(one: string, few: string, many: string)

  function RuPlural(n: nat, forms: Forms): string {
    var x := n % 100;
    var y := x % 10;
    if 11 <= x <= 19 then forms.many
    else if y == 1 then forms.one
    else if 2 <= y <= 4 then forms.few
    else forms.many
  }

  /** The last scale serves for everything beyond it. */
  function RuScale(i: nat): Forms
    requires i >= 1
  {
    match i
    case 1 => Forms("тысяча", "тысячи", "тысяч")
    case 2 => Forms("миллион", "миллиона", "миллионов")
    case _ => Forms("миллиард", "миллиарда", "миллиардов")
  }

  const RU_MANAT := Forms("манат", "маната", "манатов")
  const RU_KOPEK := Forms("копейка", "копейки", "копеек")

  // ----- the words of a number -----

  function AzHundreds(h: nat): seq<string>
    requires h <= 9
  {
    if h == 0 then [] else if h == 1 then ["yüz"] else [AzOnes(h), "yüz"]
  }

  function AzTriad(n: nat): seq<string>
    requires n < 1000
  {
    var h, t, o := n / 100, n % 100 / 10, n % 10;
    AzHundreds(h) + (if t == 0 then [] else [AzTens(t)]) + (if o == 0 then [] else [AzOnes(o)])
  }

  /** The last two digits. */
  function RuPair(t: nat, o: nat, feminine: bool): seq<string>
    requires t <= 9 && o <= 9
  {
    if t == 1 then [RuTeens(o)]
    else (if t == 0 then [] else [RuTens(t)]) + (if o == 0 then [] else [RuOnes(o, feminine)])
  }

  function RuTriad(n: nat, feminine: bool): seq<string>
    requires n < 1000
  {
    var h, t, o := n / 100, n % 100 / 10, n % 10;
    (if h == 0 then [] else [RuHundreds(h)]) + RuPair(t, o, feminine)
  }

  /** The words of one group at position `i`. */
  function Group(lang: Lang, tri: nat, i: nat): seq<string>
    requires tri < 1000
  {
    if tri == 0 then []
    else
      match lang
      case Az =>
        if i == 1 && tri == 1 then ["min"]
        else AzTriad(tri) + (if AzScale(i) == "" then [] else [AzScale(i)])
      case Ru => RuTriad(tri, i == 1) + (if i == 0 then [] else [RuPlural(tri, RuScale(i))])
  }

  /** The words of the groups from position `i` up, highest first. */
  function GroupsFrom(lang: Lang, units: seq<nat>, i: nat): seq<string>
    requires i <= |units| && forall u | u in units :: u < 1000
    decreases |units| - i
  {
    if i == |units| then []
    else
      assert units[i] in units;
      GroupsFrom(lang, units, i + 1) + Group(lang, units[i], i)
  }

  function IntWords(lang: Lang, n: nat): seq<string> {
    if n == 0 then [if lang == Az then "sıfır" else "ноль"]
    else GroupsFrom(lang, Triads(n), 0)
  }

  /** All words of an amount in hundredths, before the first letter is raised. */
  function Words(lang: Lang, cents: nat): seq<string> {
    var whole, frac := cents / 100, cents % 100;
    IntWords(lang, whole)
    + [if lang == Az then "manat" else RuPlural(whole, RU_MANAT)]
    + IntWords(lang, frac)
    + [if lang == Az then "qəpik" else RuPlural(frac, RU_KOPEK)]
  }

  // ----- reading them back -----

  datatype Meaning = Adds(n: nat) | Hundred | Scale(n: nat) | EndsPart | Unknown

  /** Words are looked up among those of their length. */
  function AzMeaning(w: string): Meaning {
    match |w|
    case 2 =>
      if w == "üç" then Adds(3) else if w == "on" then Adds(10) else Unknown
    case 3 =>
      if w == "bir" then Adds(1) else if w == "iki" then Adds(2) else if w == "beş" then Adds(5)
      else if w == "yüz" then Hundred else if w == "min" then Scale(1_000) else Unknown
    case 4 =>
      if w == "dörd" then Adds(4) else if w == "altı" then Adds(6) else if w == "otuz" then Adds(30)
      else if w == "qırx" then Adds(40) else if w == "əlli" then Adds(50) else Unknown
    case 5 =>
      if w == "sıfır" then Adds(0) else if w == "yeddi" then Adds(7)
      else if w == "manat" || w == "qəpik" then EndsPart else Unknown
    case 6 =>
      if w == "səkkiz" then Adds(8) else if w == "doqquz" then Adds(9) else if w == "iyirmi" then Adds(20)
      else if w == "altmış" then Adds(60) else if w == "yetmiş" then Adds(70)
      else if w == "səksən" then Adds(80) else if w == "doxsan" then Adds(90)
      else if w == "milyon" then Scale(1_000_000) else Unknown
    case 7 =>
      if w == "milyard" then Scale(1_000_000_000) else Unknown
    case _ => Unknown
  }

  function RuMeaning(w: string): Meaning {
    match |w|
    case 3 =>
      if w == "два" || w == "две" then Adds(2) else if w == "три" then Adds(3)
      else if w == "сто" then Adds(100) else Unknown
    case 4 =>
      if w == "ноль" then Adds(0) else if w == "один" || w == "одна" then Adds(1)
      else if w == "пять" then Adds(5) else if w == "семь" then Adds(7) else Unknown
    case 5 =>
      if w == "шесть" then Adds(6) else if w == "сорок" then Adds(40) else if w == "тысяч" then Scale(1_000)
      else if w == "манат" then EndsPart else Unknown
    case 6 =>
      if w == "четыре" then Adds(4) else if w == "восемь" then Adds(8) else if w == "девять" then Adds(9)
      else if w == "десять" then Adds(10) else if w == "двести" then Adds(200)
      else if w == "триста" then Adds(300) else if w == "тысяча" || w == "тысячи" then Scale(1_000)
      else if w == "маната" || w == "копеек" then EndsPart else Unknown
    case 7 =>
      if w == "пятьсот" then Adds(500) else if w == "семьсот" then Adds(700)
      else if w == "миллион" then Scale(1_000_000)
      else if w == "манатов" || w == "копейка" || w == "копейки" then EndsPart else Unknown
    case 8 =>
      if w == "двадцать" then Adds(20) else if w == "тридцать" then Adds(30)
      else if w == "шестьсот" then Adds(600) else if w == "миллиона" then Scale(1_000_000)
      else if w == "миллиард" then Scale(1_000_000_000) else Unknown
    case 9 =>
      if w == "пятьдесят" then Adds(50) else if w == "семьдесят" then Adds(70)
      else if w == "девяносто" then Adds(90) else if w == "четыреста" then Adds(400)
      else if w == "восемьсот" then Adds(800) else if w == "девятьсот" then Adds(900)
      else if w == "миллионов" then Scale(1_000_000) else if w == "миллиарда" then Scale(1_000_000_000)
      else Unknown
    case 10 =>
      if w == "двенадцать" then Adds(12) else if w == "тринадцать" then Adds(13)
      else if w == "пятнадцать" then Adds(15) else if w == "семнадцать" then Adds(17)
      else if w == "шестьдесят" then Adds(60) else if w == "миллиардов" then Scale(1_000_000_000) else Unknown
    case 11 =>
      if w == "одиннадцать" then Adds(11) else if w == "шестнадцать" then Adds(16)
      else if w == "восемьдесят" then Adds(80) else Unknown
    case 12 =>
      if w == "четырнадцать" then Adds(14) else if w == "восемнадцать" then Adds(18)
      else if w == "девятнадцать" then Adds(19) else Unknown
    case _ => Unknown
  }

  function MeaningOf(lang: Lang, w: string): Meaning {
    if lang == Az then AzMeaning(w) else RuMeaning(w)
  }

  /** Finished parts, the finished groups of the current part, the group being read, and whether all
      words were known. */
  datatype Reading = Reading(parts: seq<nat>, total: nat, group: nat, ok: bool)

  function AtLeastOne(n: nat): nat { if n == 0 then 1 else n }

  function Take(r: Reading, m: Meaning): Reading {
    match m
    case Adds(n) => r.(group := r.group + n)
    case Hundred => r.(group := 100 * AtLeastOne(r.group))
    case Scale(n) => r.(total := r.total + n * AtLeastOne(r.group), group := 0)
    case EndsPart => Reading(r.parts + [r.total + r.group], 0, 0, r.ok)
    case Unknown => r.(ok := false)
  }

  function Read(lang: Lang, r: Reading, words: seq<string>): Reading
    decreases |words|
  {
    if words == [] then r else Read(lang, Take(r, MeaningOf(lang, words[0])), words[1..])
  }

  lemma {:induction false} ReadConcat(lang: Lang, r: Reading, a: seq<string>, b: seq<string>)
    ensures Read(lang, r, a + b) == Read(lang, Read(lang, r, a), b)
    decreases |a|
  {
    if a == [] {
      assert a + b == b;
    } else {
      assert (a + b)[1..] == a[1..] + b;
      ReadConcat(lang, Take(r, MeaningOf(lang, a[0])), a[1..], b);
    }
  }

  lemma ReadOne(lang: Lang, r: Reading, w: string)
    ensures Read(lang, r, [w]) == Take(r, MeaningOf(lang, w))
  {}

  lemma AzOnesMean(o: nat)
    requires 1 <= o <= 9
    ensures AzMeaning(AzOnes(o)) == Adds(o)
  {}

  lemma AzTensMean(t: nat)
    requires 1 <= t <= 9
    ensures AzMeaning(AzTens(t)) == Adds(10 * t)
  {}

  lemma RuOnesMean(o: nat, feminine: bool)
    requires 1 <= o <= 9
    ensures RuMeaning(RuOnes(o, feminine)) == Adds(o)
  {}

  lemma RuTeensMean(o: nat)
    requires o <= 9
    ensures RuMeaning(RuTeens(o)) == Adds(10 + o)
  {}

  lemma RuTensMean(t: nat)
    requires 2 <= t <= 9
    ensures RuMeaning(RuTens(t)) == Adds(10 * t)
  {}

  lemma RuHundredsMean(h: nat)
    requires 1 <= h <= 9
    ensures RuMeaning(RuHundreds(h)) == Adds(100 * h)
  {}

  function ScaleValue(i: nat): nat {
    match i case 0 => 1 case 1 => 1_000 case 2 => 1_000_000 case _ => 1_000_000_000
  }

  lemma AzScalesMean(i: nat)
    requires 1 <= i <= 3
    ensures AzScale(i) != "" && AzMeaning(AzScale(i)) == Scale(ScaleValue(i))
  {}

  lemma PluralIsOneOfTheForms(n: nat, forms: Forms)
    ensures RuPlural(n, forms) in {forms.one, forms.few, forms.many}
  {}

  lemma ThousandsMean()
    ensures RuMeaning("тысяча") == RuMeaning("тысячи") == RuMeaning("тысяч") == Scale(1_000)
  {}

  lemma MillionsMean()
    ensures RuMeaning("миллион") == RuMeaning("миллиона") == RuMeaning("миллионов") == Scale(1_000_000)
  {}

  lemma BillionsMean()
    ensures RuMeaning("миллиард") == RuMeaning("миллиарда") == RuMeaning("миллиардов") == Scale(1_000_000_000)
  {}

  lemma RuScalesMean(i: nat, tri: nat)
    requires 1 <= i <= 3
    ensures RuMeaning(RuPlural(tri, RuScale(i))) == Scale(ScaleValue(i))
  {
    hide RuPlural, RuMeaning;
    PluralIsOneOfTheForms(tri, RuScale(i));
    ThousandsMean();
    MillionsMean();
    BillionsMean();
  }

  lemma EndsMean(n: nat)
    ensures AzMeaning("manat") == EndsPart == AzMeaning("qəpik")
    ensures RuMeaning(RuPlural(n, RU_MANAT)) == EndsPart == RuMeaning(RuPlural(n, RU_KOPEK))
  {
    hide RuPlural;
    PluralIsOneOfTheForms(n, RU_MANAT);
    PluralIsOneOfTheForms(n, RU_KOPEK);
  }

  /** A word that is there, or not. */
  function Maybe(there: bool, w: string): seq<string> { if there then [w] else [] }

  lemma ReadMaybe(lang: Lang, r: Reading, there: bool, w: string)
    ensures Read(lang, r, Maybe(there, w)) == if there then Take(r, MeaningOf(lang, w)) else r
  {}

  /** Three runs of words, one after the other. */
  lemma ReadThree(lang: Lang, r: Reading, a: seq<string>, b: seq<string>, c: seq<string>)
    ensures Read(lang, r, a + b + c) == Read(lang, Read(lang, Read(lang, r, a), b), c)
  {
    ReadConcat(lang, r, a + b, c);
    ReadConcat(lang, r, a, b);
  }

  lemma DigitsOfTriad(n: nat)
    requires n < 1000
    ensures n / 100 <= 9 && n % 100 / 10 <= 9 && n % 10 <= 9
    ensures 100 * (n / 100) + 10 * (n % 100 / 10) + n % 10 == n
    ensures 10 * (n % 100 / 10) + n % 10 == n % 100
  {}

  /** A word list is only looked into where there is a word. */
  function AzTensOrNone(t: nat): string
    requires t <= 9
  {
    if t == 0 then "" else AzTens(t)
  }

  function AzOnesOrNone(o: nat): string
    requires o <= 9
  {
    if o == 0 then "" else AzOnes(o)
  }

  function RuHundredsOrNone(h: nat): string
    requires h <= 9
  {
    if h == 0 then "" else RuHundreds(h)
  }

  lemma AzDigitsRead(r: Reading, h: nat, t: nat, o: nat)
    requires h <= 9 && t <= 9 && o <= 9
    ensures Read(Az, r, AzHundreds(h) + Maybe(t != 0, AzTensOrNone(t)) + Maybe(o != 0, AzOnesOrNone(o)))
            == r.(group := HundredsOn(r.group, h) + 10 * t + o)
  {
    hide AzMeaning, AzOnes, AzTens, AzHundreds, Maybe, Read, HundredsOn;
    var hundreds := HundredsOn(r.group, h);
    ReadThree(Az, r, AzHundreds(h), Maybe(t != 0, AzTensOrNone(t)), Maybe(o != 0, AzOnesOrNone(o)));
    AzHundredsRead(r, h);
    ReadMaybe(Az, r.(group := hundreds), t != 0, AzTensOrNone(t));
    if t > 0 {
      AzTensMean(t);
    }
    ReadMaybe(Az, r.(group := hundreds + 10 * t), o != 0, AzOnesOrNone(o));
    if o > 0 {
      AzOnesMean(o);
    }
  }

  lemma AzDigitsOf(n: nat) returns (h: nat, t: nat, o: nat)
    requires n < 1000
    ensures h <= 9 && t <= 9 && o <= 9 && n == 100 * h + 10 * t + o
    ensures AzTriad(n) == AzHundreds(h) + Maybe(t != 0, AzTensOrNone(t)) + Maybe(o != 0, AzOnesOrNone(o))
    ensures h == n / 100 && 10 * t + o == n % 100
  {
    DigitsOfTriad(n);
    hide AzHundreds, AzTens, AzOnes;
    h, t, o := n / 100, n % 100 / 10, n % 10;
  }

  lemma RuDigitsOf(n: nat, feminine: bool) returns (h: nat, t: nat, o: nat)
    requires n < 1000
    ensures h <= 9 && t <= 9 && o <= 9 && n == 100 * h + 10 * t + o
    ensures RuTriad(n, feminine) == Maybe(h != 0, RuHundredsOrNone(h)) + RuPair(t, o, feminine)
  {
    DigitsOfTriad(n);
    hide RuHundreds, RuPair;
    h, t, o := n / 100, n % 100 / 10, n % 10;
  }

  /** A group goes on from what the groups before it left open, which is nothing below 10^12. */
  lemma AzTriadReads(r: Reading, n: nat)
    requires n < 1000
    ensures Read(Az, r, AzTriad(n)) == r.(group := HundredsOn(r.group, n / 100) + n % 100)
    ensures r.group == 0 ==> HundredsOn(r.group, n / 100) + n % 100 == n
  {
    DigitsOfTriad(n);
    var h, t, o := AzDigitsOf(n);
    hide AzHundreds, AzTriad, AzTensOrNone, AzOnesOrNone, Maybe, Read;
    AzDigitsRead(r, h, t, o);
  }

  function HundredsOn(group: nat, h: nat): nat {
    if h == 0 then group else if h == 1 then 100 * AtLeastOne(group) else 100 * (group + h)
  }

  lemma AzHundredsRead(r: Reading, h: nat)
    requires h <= 9
    ensures Read(Az, r, AzHundreds(h)) == r.(group := HundredsOn(r.group, h))
  {
    HundredMeans();
    hide AzMeaning, AzOnes;
    if h == 1 {
      ReadOne(Az, r, "yüz");
    } else if h > 1 {
      assert [AzOnes(h), "yüz"] == [AzOnes(h)] + ["yüz"];
      ReadConcat(Az, r, [AzOnes(h)], ["yüz"]);
      ReadOne(Az, r, AzOnes(h));
      AzOnesMean(h);
      ReadOne(Az, r.(group := r.group + h), "yüz");
    }
  }

  lemma HundredMeans()
    ensures AzMeaning("yüz") == Hundred
  {}

  lemma RuPairReads(r: Reading, t: nat, o: nat, feminine: bool)
    requires t <= 9 && o <= 9
    ensures Read(Ru, r, RuPair(t, o, feminine)) == r.(group := r.group + 10 * t + o)
  {
    hide RuMeaning, RuOnes, RuTens, RuTeens;
    if t == 1 {
      ReadOne(Ru, r, RuTeens(o));
      RuTeensMean(o);
    } else {
      ReadConcat(Ru, r, if t == 0 then [] else [RuTens(t)], if o == 0 then [] else [RuOnes(o, feminine)]);
      if t > 0 {
        ReadOne(Ru, r, RuTens(t));
        RuTensMean(t);
      }
      if o > 0 {
        ReadOne(Ru, r.(group := r.group + 10 * t), RuOnes(o, feminine));
        RuOnesMean(o, feminine);
      }
    }
  }

  lemma RuDigitsRead(r: Reading, h: nat, t: nat, o: nat, feminine: bool)
    requires h <= 9 && t <= 9 && o <= 9
    ensures Read(Ru, r, Maybe(h != 0, RuHundredsOrNone(h)) + RuPair(t, o, feminine))
            == r.(group := r.group + (100 * h + 10 * t + o))
  {
    hide RuMeaning, RuHundreds, RuPair, Read, Maybe;
    ReadConcat(Ru, r, Maybe(h != 0, RuHundredsOrNone(h)), RuPair(t, o, feminine));
    ReadMaybe(Ru, r, h != 0, RuHundredsOrNone(h));
    if h > 0 {
      RuHundredsMean(h);
    }
    RuPairReads(r.(group := r.group + 100 * h), t, o, feminine);
  }

  lemma RuTriadReads(r: Reading, n: nat, feminine: bool)
    requires n < 1000
    ensures Read(Ru, r, RuTriad(n, feminine)) == r.(group := r.group + n)
  {
    var h, t, o := RuDigitsOf(n, feminine);
    hide RuTriad, RuHundredsOrNone, RuPair, Maybe, Read;
    RuDigitsRead(r, h, t, o, feminine);
  }

  /** The scale words of every group are known; those beyond the lists repeat the last one, or are missing. */
  lemma ScaleWordMeans(lang: Lang, i: nat, tri: nat)
    requires i > 0
    ensures lang == Az && i <= 3 ==> AzScale(i) != "" && AzMeaning(AzScale(i)) == Scale(ScaleValue(i))
    ensures lang == Az && i > 3 ==> AzScale(i) == ""
    ensures lang == Ru ==> RuMeaning(RuPlural(tri, RuScale(i))) == Scale(ScaleValue(i))
  {
    hide AzMeaning, RuMeaning, RuPlural;
    if i <= 3 {
      AzScalesMean(i);
      RuScalesMean(i, tri);
    } else {
      RuScalesMean(3, tri);
    }
  }

  /** What is open after the words of a group in hundreds, tens and ones. */
  function Open(lang: Lang, r: Reading, tri: nat): nat {
    if lang == Az then HundredsOn(r.group, tri / 100) + tri % 100 else r.group + tri
  }

  /** What a group adds on top of what is still open, whatever its position. */
  function Added(lang: Lang, r: Reading, tri: nat, i: nat): Reading {
    var group := Open(lang, r, tri);
    if tri == 0 then r
    else if lang == Az && i == 1 && tri == 1 then r.(total := r.total + 1_000 * AtLeastOne(r.group), group := 0)
    else if i == 0 || (lang == Az && i > 3) then r.(group := group)
    else r.(total := r.total + ScaleValue(i) * AtLeastOne(group), group := 0)
  }

  lemma AnyGroupReads(lang: Lang, r: Reading, tri: nat, i: nat)
    requires tri < 1000
    ensures Read(lang, r, Group(lang, tri, i)) == Added(lang, r, tri, i)
  {
    hide AzMeaning, RuMeaning, AzTriad, RuTriad, RuPlural, HundredsOn;
    if i > 0 {
      ScaleWordMeans(lang, i, tri);
    }
    if tri > 0 {
      match lang
      case Az =>
        if i == 1 && tri == 1 {
          ReadOne(Az, r, "min");
          AzScalesMean(1);
        } else {
          AzTriadReads(r, tri);
          if 0 < i <= 3 {
            ReadConcat(Az, r, AzTriad(tri), [AzScale(i)]);
            ReadOne(Az, Read(Az, r, AzTriad(tri)), AzScale(i));
          } else {
            assert AzTriad(tri) + [] == AzTriad(tri);
          }
        }
      case Ru =>
        RuTriadReads(r, tri, i == 1);
        if i > 0 {
          ReadConcat(Ru, r, RuTriad(tri, i == 1), [RuPlural(tri, RuScale(i))]);
          ReadOne(Ru, Read(Ru, r, RuTriad(tri, i == 1)), RuPlural(tri, RuScale(i)));
        } else {
          assert RuTriad(tri, false) + [] == RuTriad(tri, false);
        }
    }
  }

  /** Below 10^12 a group reads as its value times its scale; only the lowest stays open. */
  lemma GroupReads(lang: Lang, r: Reading, tri: nat, i: nat)
    requires tri < 1000 && i <= 3 && r.group == 0
    ensures Read(lang, r, Group(lang, tri, i))
            == if i == 0 then r.(group := tri) else r.(total := r.total + ScaleValue(i) * tri)
  {
    hide Read, Group, Added, ScaleValue;
    AnyGroupReads(lang, r, tri, i);
    AddedOnNothing(lang, r, tri, i);
  }

  lemma AddedOnNothing(lang: Lang, r: Reading, tri: nat, i: nat)
    requires tri < 1000 && i <= 3 && r.group == 0
    ensures Added(lang, r, tri, i)
            == if i == 0 then r.(group := tri) else r.(total := r.total + ScaleValue(i) * tri)
  {
    assert ScaleValue(1) == 1_000;
    OpenOnNothing(lang, r, tri);
    hide Open, ScaleValue;
    var scale := ScaleValue(i);
    assert tri == 0 ==> scale * tri == 0;
    assert tri > 0 ==> AtLeastOne(tri) == tri;
    assert tri == 1 ==> scale * tri == scale;
  }

  lemma OpenOnNothing(lang: Lang, r: Reading, tri: nat)
    requires tri < 1000 && r.group == 0
    ensures Open(lang, r, tri) == tri
  {}

  lemma GroupsStep(lang: Lang, units: seq<nat>, i: nat)
    requires i < |units| && forall u | u in units :: u < 1000
    ensures units[i] < 1000
    ensures GroupsFrom(lang, units, i) == GroupsFrom(lang, units, i + 1) + Group(lang, units[i], i)
  {
    assert units[i] in units;
  }

  lemma CombinedStep(units: seq<nat>, i: nat)
    requires i < |units| <= 4
    ensures ScaleValue(i) * Combined(units[i..])
            == ScaleValue(i + 1) * Combined(units[i + 1..]) + ScaleValue(i) * units[i]
  {}

  lemma {:induction false} GroupsRead(lang: Lang, parts: seq<nat>, units: seq<nat>, i: nat)
    requires 1 <= i <= |units| <= 4 && forall u | u in units :: u < 1000
    ensures Read(lang, Reading(parts, 0, 0, true), GroupsFrom(lang, units, i))
            == Reading(parts, ScaleValue(i) * Combined(units[i..]), 0, true)
    decreases |units| - i
  {
    if i < |units| {
      hide Group, GroupsFrom, Combined, ScaleValue, Read;
      GroupsStep(lang, units, i);
      GroupsRead(lang, parts, units, i + 1);
      ReadConcat(
        lang, Reading(parts, 0, 0, true), GroupsFrom(lang, units, i + 1), Group(lang, units[i], i));
      GroupReads(
        lang, Reading(parts, ScaleValue(i + 1) * Combined(units[i + 1..]), 0, true), units[i], i);
      CombinedStep(units, i);
    } else {
      assert units[i..] == [];
    }
  }

  /** The words of an integer below 10^12 read as that integer. */
  lemma IntWordsRead(lang: Lang, parts: seq<nat>, n: nat)
    requires n < 1_000_000_000_000
    ensures var r := Read(lang, Reading(parts, 0, 0, true), IntWords(lang, n));
            r.parts == parts && r.total + r.group == n && r.ok
  {
    if n == 0 {
      ReadOne(lang, Reading(parts, 0, 0, true), if lang == Az then "sıfır" else "ноль");
    } else {
      hide Group;
      var units := Triads(n);
      TriadsMakeUpTheNumber(n);
      FourTriads(n);
      assert units[0] in units;
      GroupsRead(lang, parts, units, 1);
      ReadConcat(lang, Reading(parts, 0, 0, true), GroupsFrom(lang, units, 1), Group(lang, units[0], 0));
      GroupReads(lang, Reading(parts, 1_000 * Combined(units[1..]), 0, true), units[0], 0);
    }
  }

  lemma FourTriads(n: nat)
    requires n < 1_000_000_000_000
    ensures |Triads(n)| <= 4
  {
    assert Power(4) == 1000 * Power(3) == 1_000_000_000_000;
    TriadCount(n, Power(4), 4);
  }

  // ----- from 10^12 on -----

  lemma ScaleOfGroup(i: nat)
    ensures ScaleValue(i) <= Power(i)
    ensures i == 1 ==> Power(i) == 1_000
    ensures i > 3 ==> ScaleValue(i) < Power(i)
  {}

  /** What has been read when the groups from position `i` up have, counting what is open at that position. */
  function Worth(r: Reading, i: nat): nat { r.total + Power(i) * r.group }

  lemma TimesMonotone(a: nat, b: nat, x: nat, y: nat)
    requires a <= b && x <= y
    ensures a * x <= b * y
    ensures a < b && x > 0 ==> a * x < b * y
  {}

  lemma OpenIsBounded(lang: Lang, r: Reading, tri: nat)
    requires tri < 1000
    ensures Open(lang, r, tri) <= 100 * r.group + tri
    ensures tri > 0 ==> Open(lang, r, tri) > 0
  {}

  lemma AddedIsWorth(lang: Lang, r: Reading, tri: nat, i: nat)
    requires tri < 1000
    ensures var after := Added(lang, r, tri, i);
            && after.parts == r.parts && after.ok == r.ok
            && Worth(after, i) <= r.total + Power(i) * (100 * r.group + tri)
            && (i > 3 && tri > 0 ==>
                  Worth(after, i) < r.total + Power(i) * (100 * r.group + tri) || after.group > 0)
  {
    var group := 100 * r.group + tri;
    OpenIsBounded(lang, r, tri);
    ScaleOfGroup(i);
    hide Power, ScaleValue, Open;
    if tri == 0 {
      TimesMonotone(Power(i), Power(i), r.group, group);
    } else if lang == Az && i == 1 && tri == 1 {
      TimesMonotone(1_000, Power(1), AtLeastOne(r.group), group);
    } else {
      TimesMonotone(Power(i), Power(i), Open(lang, r, tri), group);
      TimesMonotone(ScaleValue(i), Power(i), Open(lang, r, tri), group);
    }
  }

  /** A group is never worth more than its place value, and less than it where something was left open
      before it or where it has no scale of its own. */
  lemma GroupIsWorth(lang: Lang, r: Reading, tri: nat, i: nat)
    requires tri < 1000
    ensures var after := Added(lang, r, tri, i);
            && after.parts == r.parts && after.ok == r.ok
            && Worth(after, i) <= Worth(r, i + 1) + Power(i) * tri
            && (r.group > 0 ==> Worth(after, i) < Worth(r, i + 1) + Power(i) * tri)
            && (i > 3 && tri > 0 ==> Worth(after, i) < Worth(r, i + 1) + Power(i) * tri || after.group > 0)
  {
    AddedIsWorth(lang, r, tri, i);
    PowerIsPositive(i);
    assert Power(i + 1) == 1000 * Power(i);
    hide Added, Power;
    Expand(Power(i), r.group, tri);
    TimesMonotone(Power(i), Power(i), 100 * r.group + tri, 1000 * r.group + tri);
    if r.group > 0 {
      TimesStrict(Power(i), 100 * r.group + tri, 1000 * r.group + tri);
    }
  }

  lemma Expand(w: nat, g: nat, tri: nat)
    ensures w * (1000 * g + tri) == (1000 * w) * g + w * tri
  {}

  lemma TimesStrict(w: nat, x: nat, y: nat)
    requires w > 0 && x < y
    ensures w * x < w * y
  {}

  lemma {:induction false} PowerIsPositive(i: nat)
    ensures Power(i) > 0
  {
    if i > 0 {
      PowerIsPositive(i - 1);
    }
  }

  /** The groups from position `i` up read as known words, and never as more than they make up; where there
      are more than four groups, they read as less from the second one on. */
  lemma {:induction false} GroupsAreWorth(lang: Lang, parts: seq<nat>, units: seq<nat>, i: nat)
    requires i <= |units| && forall u | u in units :: u < 1000
    ensures var r := Read(lang, Reading(parts, 0, 0, true), GroupsFrom(lang, units, i));
            var value := Power(i) * Combined(units[i..]);
            && r.parts == parts && r.ok
            && Worth(r, i) <= value
            && (|units| > 4 && units[|units| - 1] > 0 && i < |units| ==>
                  Worth(r, i) < value || (r.group > 0 && i == |units| - 1))
    decreases |units| - i
  {
    hide Group, GroupsFrom, Read, Power, Worth, Added;
    if i < |units| {
      GroupsAreWorth(lang, parts, units, i + 1);
      GroupsStep(lang, units, i);
      var above, start := GroupsFrom(lang, units, i + 1), Reading(parts, 0, 0, true);
      ReadConcat(lang, start, above, Group(lang, units[i], i));
      var r := Read(lang, start, above);
      AnyGroupReads(lang, r, units[i], i);
      GroupIsWorth(lang, r, units[i], i);
      PlaceValue(units, i);
    } else {
      TopGroups(lang, units);
      NothingIsWorth(lang, parts, units);
    }
  }

  lemma NothingIsWorth(lang: Lang, parts: seq<nat>, units: seq<nat>)
    ensures Read(lang, Reading(parts, 0, 0, true), []) == Reading(parts, 0, 0, true)
    ensures Worth(Reading(parts, 0, 0, true), |units|) == 0 == Power(|units|) * Combined(units[|units|..])
  {}

  lemma PlaceValue(units: seq<nat>, i: nat)
    requires i < |units|
    ensures Power(i) * Combined(units[i..]) == Power(i + 1) * Combined(units[i + 1..]) + Power(i) * units[i]
  {}

  lemma {:induction false} ManyTriads(n: nat, k: nat)
    requires n >= Power(k)
    ensures |Triads(n)| > k
    decreases k
  {
    if k > 0 {
      PowerIsPositive(k - 1);
      ManyTriads(n / 1000, k - 1);
    }
  }

  lemma ManyGroupsReadAsLess(lang: Lang, parts: seq<nat>, units: seq<nat>)
    requires |units| > 4 && units[|units| - 1] > 0 && forall u | u in units :: u < 1000
    ensures var r := Read(lang, Reading(parts, 0, 0, true), GroupsFrom(lang, units, 0));
            r.parts == parts && r.ok && r.total + r.group < Combined(units)
  {
    assert Power(0) == 1 && units[0..] == units;
    hide Read, GroupsFrom, Combined, Power;
    GroupsAreWorth(lang, parts, units, 0);
  }

  /** The words of any integer are known; from 10^12 on they read as less than the integer. */
  lemma LargeIntWordsReadAsLess(lang: Lang, parts: seq<nat>, n: nat)
    ensures var r := Read(lang, Reading(parts, 0, 0, true), IntWords(lang, n));
            r.parts == parts && r.ok && (n >= 1_000_000_000_000 ==> r.total + r.group < n)
  {
    if n < 1_000_000_000_000 {
      IntWordsRead(lang, parts, n);
    } else {
      assert Power(4) == 1000 * Power(3) == 1_000_000_000_000;
      hide GroupsFrom, Read, Combined, Triads, Power;
      ManyTriads(n, 4);
      TopTriadIsPositive(n);
      TriadsMakeUpTheNumber(n);
      ManyGroupsReadAsLess(lang, parts, Triads(n));
    }
  }

  // ----- amounts -----

  /** The words of an amount read as an integer part and its hundredths. The integer part is the amount's
      exactly below 10^12. */
  lemma WordsRead(lang: Lang, cents: nat) returns (whole: nat)
    ensures Read(lang, Reading([], 0, 0, true), Words(lang, cents)) == Reading([whole, cents % 100], 0, 0, true)
    ensures whole == cents / 100 <==> cents / 100 < 1_000_000_000_000
  {
    hide IntWords, AzMeaning, RuMeaning, RuPlural, Read;
    var frac := cents % 100;
    var manat := if lang == Az then "manat" else RuPlural(cents / 100, RU_MANAT);
    var kopek := if lang == Az then "qəpik" else RuPlural(frac, RU_KOPEK);
    var start := Reading([], 0, 0, true);
    var first, second := IntWords(lang, cents / 100), IntWords(lang, frac);
    ReadConcat(lang, start, first + [manat] + second, [kopek]);
    ReadThree(lang, start, first, [manat], second);
    LargeIntWordsReadAsLess(lang, [], cents / 100);
    if cents / 100 < 1_000_000_000_000 {
      IntWordsRead(lang, [], cents / 100);
    }
    EndsMean(cents / 100);
    EndsMean(frac);
    var afterInt := Read(lang, start, first);
    whole := afterInt.total + afterInt.group;
    ReadOne(lang, afterInt, manat);
    assert [] + [whole] == [whole];
    IntWordsRead(lang, [whole], frac);
    ReadOne(lang, Read(lang, Reading([whole], 0, 0, true), second), kopek);
    assert [whole] + [frac] == [whole, frac];
  }

  /** From 10^12 on the scales run out: 10^12 prints as 1 in Azerbaijani and as 10^9 in Russian. */
  lemma ScalesRunOutAtTenToTheTwelve()
    ensures IntWords(Az, 1_000_000_000_000) == IntWords(Az, 1)
    ensures IntWords(Ru, 1_000_000_000_000) == IntWords(Ru, 1_000_000_000)
  {
    var big, milliard := [0, 0, 0, 0, 1], [0, 0, 0, 1];
    assert Triads(1) == [1];
    assert Triads(1_000) == [0] + Triads(1);
    assert Triads(1_000_000) == [0] + Triads(1_000);
    assert Triads(1_000_000_000) == [0] + Triads(1_000_000) == milliard;
    assert Triads(1_000_000_000_000) == [0] + Triads(1_000_000_000) == big;
    forall lang
      ensures IntWords(lang, 1_000_000_000_000) == Group(lang, 1, 4)
      ensures IntWords(lang, 1_000_000_000) == Group(lang, 1, 3)
      ensures IntWords(lang, 1) == Group(lang, 1, 0)
    {
      OnlyTopGroup(lang, big, 4, 0);
      OnlyTopGroup(lang, milliard, 3, 0);
      OnlyTopGroup(lang, [1], 0, 0);
    }
  }

  lemma {:induction false} OnlyTopGroup(lang: Lang, units: seq<nat>, top: nat, i: nat)
    requires |units| == top + 1 && units[top] == 1 && i <= top
    requires forall k | 0 <= k < top :: units[k] == 0
    requires forall u | u in units :: u < 1000
    ensures GroupsFrom(lang, units, i) == Group(lang, 1, top)
    decreases top - i
  {
    hide GroupsFrom;
    GroupsStep(lang, units, i);
    if i < top {
      OnlyTopGroup(lang, units, top, i + 1);
      assert GroupsFrom(lang, units, i + 1) + [] == GroupsFrom(lang, units, i + 1);
    } else {
      TopGroups(lang, units);
      assert [] + Group(lang, 1, top) == Group(lang, 1, top);
    }
  }

  // ----- the printers, statement by statement -----

  /** Pushing a joined group is joining the words. */
  lemma JoinPart(parts: seq<string>, words: seq<string>, more: seq<string>)
    requires Join(parts, ' ') == Join(words, ' ') && (parts == [] <==> words == []) && more != []
    ensures Join(parts + [Join(more, ' ')], ' ') == Join(words + more, ' ')
  {
    if parts == [] {
      assert parts + [Join(more, ' ')] == [Join(more, ' ')] && words + more == more;
    } else {
      JoinConcat(parts, [Join(more, ' ')], ' ');
      JoinConcat(words, more, ' ');
    }
  }

  method AzTriadToWords(n: nat) returns (text: string)
    requires n < 1000
    ensures text == Join(AzTriad(n), ' ')
  {
    hide AzOnes, AzTens;
    var h, t, o := n / 100, n % 100 / 10, n % 10;
    var parts: seq<string> := [];
    ghost var words: seq<string> := [];
    if h > 0 {
      ghost var more := if h == 1 then ["yüz"] else [AzOnes(h), "yüz"];
      assert h > 1 ==> more[1..] == ["yüz"] && AzOnes(h) + " yüz" == AzOnes(h) + [' '] + "yüz";
      JoinPart(parts, words, more);
      parts := parts + [if h == 1 then "yüz" else AzOnes(h) + " yüz"];
      words := words + more;
    }
    if t > 0 {
      JoinPart(parts, words, [AzTens(t)]);
      parts := parts + [AzTens(t)];
      words := words + [AzTens(t)];
    }
    if o > 0 {
      JoinPart(parts, words, [AzOnes(o)]);
      parts := parts + [AzOnes(o)];
      words := words + [AzOnes(o)];
    }
    assert words == AzTriad(n);
    text := Join(parts, ' ');
  }

  method RuTriadToWords(n: nat, feminine: bool) returns (text: string)
    requires n < 1000
    ensures text == Join(RuTriad(n, feminine), ' ')
  {
    hide RuOnes, RuTens, RuTeens, RuHundreds;
    var h, t, o := n / 100, n % 100 / 10, n % 10;
    var parts: seq<string> := [];
    if h > 0 {
      parts := parts + [RuHundreds(h)];
    }
    if t == 1 {
      parts := parts + [RuTeens(o)];
    } else {
      if t > 0 {
        parts := parts + [RuTens(t)];
      }
      if o > 0 {
        parts := parts + [RuOnes(o, feminine)];
      }
    }
    assert parts == RuTriad(n, feminine);
    text := Join(parts, ' ');
  }

  lemma TriadsHaveWords(n: nat, feminine: bool)
    requires 0 < n < 1000
    ensures AzTriad(n) != [] && RuTriad(n, feminine) != []
  {}

  lemma SingleJoins(w: string)
    ensures Join([w], ' ') == w
  {}

  /** What a group pushes: its triad as one part, and its scale word if it has one. */
  lemma GroupPushed(parts: seq<string>, words: seq<string>, triad: seq<string>, scale: string)
    requires Join(parts, ' ') == Join(words, ' ') && (parts == [] <==> words == []) && triad != []
    ensures Join(parts + [Join(triad, ' ')], ' ') == Join(words + triad, ' ')
    ensures Join(parts + [Join(triad, ' ')] + [scale], ' ') == Join(words + (triad + [scale]), ' ')
  {
    hide Join;
    JoinPart(parts, words, triad);
    SingleJoins(scale);
    JoinPart(parts + [Join(triad, ' ')], words + triad, [scale]);
    assert words + triad + [scale] == words + (triad + [scale]);
  }

  /** The loop goes from the highest group down; `trim` has nothing to remove from words without spaces. */
  method AzIntToWords(n: nat) returns (text: string)
    ensures text == Join(IntWords(Az, n), ' ')
  {
    if n == 0 {
      SingleJoins("sıfır");
      return "sıfır";
    }
    hide AzTriad, AzScale, Join, GroupsFrom;
    var units := TriadsOf(n);
    var parts: seq<string> := [];
    var i := |units|;
    TopGroups(Az, units);
    while i > 0
      invariant 0 <= i <= |units|
      invariant Join(parts, ' ') == Join(GroupsFrom(Az, units, i), ' ')
      invariant parts == [] <==> GroupsFrom(Az, units, i) == []
    {
      i := i - 1;
      var tri := units[i];
      ghost var words := GroupsFrom(Az, units, i + 1);
      GroupsStep(Az, units, i);
      if tri == 0 {
        assert words + [] == words;
        continue;
      }
      var triWords := AzTriadToWords(tri);
      if i == 1 && tri == 1 {
        SingleJoins("min");
        JoinPart(parts, words, ["min"]);
        parts := parts + ["min"];
        continue;
      }
      TriadsHaveWords(tri, false);
      GroupPushed(parts, words, AzTriad(tri), AzScale(i));
      parts := parts + [triWords];
      var sc := AzScale(i);
      if sc != "" {
        parts := parts + [sc];
      } else {
        assert AzTriad(tri) + [] == AzTriad(tri);
      }
    }
    text := Join(parts, ' ');
  }

  lemma TopGroups(lang: Lang, units: seq<nat>)
    requires forall u | u in units :: u < 1000
    ensures GroupsFrom(lang, units, |units|) == []
  {}

  method RuIntToWords(n: nat) returns (text: string)
    ensures text == Join(IntWords(Ru, n), ' ')
  {
    if n == 0 {
      SingleJoins("ноль");
      return "ноль";
    }
    hide RuTriad, RuPlural, RuScale, Join, GroupsFrom;
    var units := TriadsOf(n);
    var parts: seq<string> := [];
    var i := |units|;
    TopGroups(Ru, units);
    while i > 0
      invariant 0 <= i <= |units|
      invariant Join(parts, ' ') == Join(GroupsFrom(Ru, units, i), ' ')
      invariant parts == [] <==> GroupsFrom(Ru, units, i) == []
    {
      i := i - 1;
      var tri := units[i];
      ghost var words := GroupsFrom(Ru, units, i + 1);
      GroupsStep(Ru, units, i);
      if tri == 0 {
        assert words + [] == words;
        continue;
      }
      var triWords := RuTriadToWords(tri, i == 1);
      TriadsHaveWords(tri, i == 1);
      parts := parts + [triWords];
      if i > 0 {
        GroupPushed(parts[..|parts| - 1], words, RuTriad(tri, i == 1), RuPlural(tri, RuScale(i)));
        parts := parts + [RuPlural(tri, RuScale(i))];
      } else {
        GroupPushed(parts[..|parts| - 1], words, RuTriad(tri, false), "");
        assert RuTriad(tri, false) + [] == RuTriad(tri, false);
      }
    }
    text := Join(parts, ' ');
  }

  lemma {:induction false} IntWordsAreThere(lang: Lang, n: nat)
    ensures IntWords(lang, n) != []
  {
    if n > 0 {
      hide Group;
      var units := Triads(n);
      TopTriadIsPositive(n);
      var top := |units| - 1;
      assert units[top] in units;
      GroupHasWords(lang, units[top], top);
      LowerGroupsKeepWords(lang, units, top, 0);
    }
  }

  lemma GroupHasWords(lang: Lang, tri: nat, i: nat)
    requires 0 < tri < 1000
    ensures Group(lang, tri, i) != []
  {}

  lemma {:induction false} TopTriadIsPositive(n: nat)
    requires n > 0
    ensures Triads(n)[|Triads(n)| - 1] > 0
  {
    if n >= 1000 {
      TopTriadIsPositive(n / 1000);
    }
  }

  lemma {:induction false} LowerGroupsKeepWords(lang: Lang, units: seq<nat>, top: nat, i: nat)
    requires i <= top < |units| && forall u | u in units :: u < 1000
    requires units[top] < 1000 && Group(lang, units[top], top) != []
    ensures GroupsFrom(lang, units, i) != []
    decreases top - i
  {
    hide GroupsFrom, Group;
    GroupsStep(lang, units, i);
    if i < top {
      LowerGroupsKeepWords(lang, units, top, i + 1);
    }
  }
}
