/** Locale resolution of the internationalisation module: the locale kept in the
    `lang` cookie is used when it is one of the supported languages, and the
    application falls back to English otherwise. The cookie read itself is a
    browser side effect; here its outcome is the parameter `cookieLang`. */
module Locales {
  import opened Wrappers

  /** The languages the application ships messages for, in the order the source lists them. */
  const AvailableLanguages: seq<string> := ["en", "ru"]

  /** The `Locale` union type of the source: English or Russian. */
  predicate IsLocale(s: string) {
    s == "en" || s == "ru"
  }

  /** A supported locale identifier. */
  type Locale = s: string | IsLocale(s) witness "en"

  /** The locale used when the cookie does not name a supported one. */
  const DefaultLocale: Locale := "en"

  /** The type guard: a cookie value is usable as a locale when it is present and
      is one of the available languages (compared exactly, so case matters). */
  function IsAvailableLanguage(lang: Option<string>): (b: bool)
    ensures b <==> lang.Some? && IsLocale(lang.value)
  {
    lang.Some? && lang.value in AvailableLanguages
  }

  /** The locale the application starts with, given what the `lang` cookie holds. */
  function DetectDefaultLocale(cookieLang: Option<string>): (l: Locale)
    ensures IsAvailableLanguage(cookieLang) ==> l == cookieLang.value
    ensures !IsAvailableLanguage(cookieLang) ==> l == DefaultLocale
    ensures cookieLang.Some? && cookieLang.value == l ==> IsAvailableLanguage(cookieLang)
  {
    if IsAvailableLanguage(cookieLang) then cookieLang.value else DefaultLocale
  }

  /** Every supported locale is accepted by the guard, and nothing else is:
      a missing cookie, an empty value and a differently cased code are refused. */
  lemma GuardAcceptsExactlyTheAllowList(s: string)
    ensures IsAvailableLanguage(Some(s)) <==> s == "en" || s == "ru"
    ensures IsAvailableLanguage(Some(s)) <==> s in AvailableLanguages
    ensures !IsAvailableLanguage(None)
    ensures !IsAvailableLanguage(Some(""))
    ensures !IsAvailableLanguage(Some("EN")) && !IsAvailableLanguage(Some("ru-RU"))
  {
  }

  /** A stored supported locale comes back unchanged. */
  lemma DetectIsIdentityOnAllowList(l: Locale)
    ensures DetectDefaultLocale(Some(l)) == l
  {
  }

  /** Storing the detected locale and detecting again gives the same locale. */
  lemma DetectIsIdempotent(cookieLang: Option<string>)
    ensures DetectDefaultLocale(Some(DetectDefaultLocale(cookieLang))) == DetectDefaultLocale(cookieLang)
  {
    DetectIsIdentityOnAllowList(DetectDefaultLocale(cookieLang));
  }
}
