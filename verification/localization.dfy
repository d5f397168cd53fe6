/**
 * The culture/language lookup table: three supported languages, each a
 * culture name paired with its numeric LanguageCode, and two lookups that
 * fall back to English for anything they do not recognise.
 */
module Localization {

  /** The language codes; `None` (0) is declared but never produced by a lookup. */
  datatype LanguageCode = None | Azerbaijan | English | Russian {
    function Value(): (n: int)
      ensures 0 <= n <= 3
      ensures n == 0 <==> this == None
    {
      match this
      case None => 0
      case Azerbaijan => 1
      case English => 2
      case Russian => 3
    }
  }

  /** An immutable pair of culture name and language code value. */
  datatype LanguageOperation = LanguageOperation(culture: string, value: int)

  function AzerbaijanLanguage(): LanguageOperation
  {
    LanguageOperation("az-AZ", LanguageCode.Azerbaijan.Value())
  }

  function EnglishLanguage(): LanguageOperation
  {
    LanguageOperation("en-US", LanguageCode.English.Value())
  }

  function RussianLanguage(): LanguageOperation
  {
    LanguageOperation("ru-RU", LanguageCode.Russian.Value())
  }

  /** The three values a lookup can return. */
  predicate Supported(l: LanguageOperation)
  {
    l == AzerbaijanLanguage() || l == EnglishLanguage() || l == RussianLanguage()
  }

  predicate KnownCulture(c: string)
  {
    c == "az-AZ" || c == "en-US" || c == "ru-RU"
  }

  /** `Find(string)`: the language of a culture name, English when the name is not one of the three. */
  function FindByCulture(culture: string): (r: LanguageOperation)
    ensures Supported(r)
    ensures r.culture == culture <==> KnownCulture(culture)
    ensures !KnownCulture(culture) ==> r == EnglishLanguage()
  {
    if culture == AzerbaijanLanguage().culture then AzerbaijanLanguage()
    else if culture == EnglishLanguage().culture then EnglishLanguage()
    else if culture == RussianLanguage().culture then RussianLanguage()
    else EnglishLanguage()
  }

  /** `Find(int)`: the language of a code value, English for any other value, `None` included. */
  function FindById(languageId: int): (r: LanguageOperation)
    ensures Supported(r)
    ensures r.value == languageId <==> 1 <= languageId <= 3
    ensures !(1 <= languageId <= 3) ==> r == EnglishLanguage()
  {
    if languageId == LanguageCode.Azerbaijan.Value() then AzerbaijanLanguage()
    else if languageId == LanguageCode.English.Value() then EnglishLanguage()
    else if languageId == LanguageCode.Russian.Value() then RussianLanguage()
    else EnglishLanguage()
  }

  /** Every supported language carries a code value in 1..3, never `None`, and the three are told apart by it. */
  lemma SupportedValues(l: LanguageOperation)
    requires Supported(l)
    ensures 1 <= l.value <= 3 && l.value != LanguageCode.None.Value()
    ensures KnownCulture(l.culture)
  {
  }

  /** The three culture names map to their own languages. */
  lemma FindKnownCultures()
    ensures FindByCulture("az-AZ") == AzerbaijanLanguage() && AzerbaijanLanguage().value == 1
    ensures FindByCulture("en-US") == EnglishLanguage() && EnglishLanguage().value == 2
    ensures FindByCulture("ru-RU") == RussianLanguage() && RussianLanguage().value == 3
  {
  }

  /** Looking up by the code of a culture's language gives the same language back. */
  lemma CultureThenIdRoundTrip(culture: string)
    ensures FindById(FindByCulture(culture).value) == FindByCulture(culture)
  {
  }

  /** Looking up by the culture of a code's language gives the same language back. */
  lemma IdThenCultureRoundTrip(languageId: int)
    ensures FindByCulture(FindById(languageId).culture) == FindById(languageId)
  {
  }
}
