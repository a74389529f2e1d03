/** The guest-count label shown in the booking form's guest selector and on
    the instructions screen: the number, a space, and a word whose form
    follows the Slovak or English plural rule. Both screens use the same
    words and the same rule. */
module GuestLabel {
  import opened Base
  import opened Numerals

  /** The three words of the guest tables: singular, the 2..4 plural and
      the general plural. English uses "Guests" for both plurals. */
  function Singular(lang: Language): string {
    match lang
    case Sk => "hosť"
    case En => "Guest"
  }

  function FewPlural(lang: Language): string {
    match lang
    case Sk => "hostia"
    case En => "Guests"
  }

  function ManyPlural(lang: Language): string {
    match lang
    case Sk => "hostí"
    case En => "Guests"
  }

  /** `getGuestLabel(num)` on a number. */
  function Label(n: JsNumber, lang: Language): string {
    if lang == Sk then
      if n == Num(1) then "1 " + Singular(lang)
      else if n.Num? && 2 <= n.value <= 4 then NumberToString(n) + " " + FewPlural(lang)
      else NumberToString(n) + " " + ManyPlural(lang)
    else
      if n == Num(1) then "1 " + Singular(lang) else NumberToString(n) + " " + FewPlural(lang)
  }

  /** The word Slovak grammar takes after a count: one guest, two to four
      guests, and every other count (zero, negatives, five or more, NaN). */
  function SlovakWord(n: JsNumber): string {
    match n
    case Num(k) => if k == 1 then "hosť" else if 2 <= k <= 4 then "hostia" else "hostí"
    case NaN => "hostí"
  }

  /** The word English takes after a count. */
  function EnglishWord(n: JsNumber): string {
    if n == Num(1) then "Guest" else "Guests"
  }

  /** Every label is the number in decimal, one space, then the word that
      the language's plural rule selects. */
  lemma LabelShape(n: JsNumber, lang: Language)
    ensures Label(n, lang) == NumberToString(n) + " " +
      (if lang == Sk then SlovakWord(n) else EnglishWord(n))
  {
  }

  /** The Slovak cases one by one. */
  lemma SlovakLabels(n: JsNumber)
    ensures n == Num(1) ==> Label(n, Sk) == "1 hosť"
    ensures n.Num? && 2 <= n.value <= 4 ==> Label(n, Sk) == NumberToString(n) + " hostia"
    ensures !(n.Num? && 1 <= n.value <= 4) ==> Label(n, Sk) == NumberToString(n) + " hostí"
  {
  }

  /** The English cases. */
  lemma EnglishLabels(n: JsNumber)
    ensures n == Num(1) ==> Label(n, En) == "1 Guest"
    ensures n != Num(1) ==> Label(n, En) == NumberToString(n) + " Guests"
  {
  }

  /** The label starts with the count it was given, so it can be read back:
      the text before the first space parses to the count. */
  lemma LabelReadsBack(k: int, lang: Language)
    ensures var s := Label(Num(k), lang);
      |s| > |IntToString(k)| && s[..|IntToString(k)|] == IntToString(k) &&
      s[|IntToString(k)|] == ' ' && ParseInt(s[..|IntToString(k)|]) == Num(k)
  {
    LabelShape(Num(k), lang);
    ParseIntRoundTrip(k);
  }
}
