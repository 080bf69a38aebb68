# Locale detection and Slavic pluralisation, verified

This project models the internationalisation module of a small Vue client
application (`src/modules/vue-i18n.ts`). That module makes two decisions:

- **Locale resolution.** The `lang` cookie holds the user's preferred language. When the
  cookie is present and names a supported language (`en` or `ru`), that language is used
  unchanged. Otherwise the application falls back to `en`.
- **Slavic plural rule.** This rule is registered for Russian. It maps a quantity and the
  number of message variants to the index of the variant to display:
  - 0 for zero;
  - 1 for the singular form (1, 21, 31, ... but not 11);
  - 2 for the "few" form (2-4, 22-24, ... but not 12-14);
  - 3 for every other quantity, or 2 when the message has fewer than four variants.

Modules:

- `Wrappers` (`wrappers.dfy`): `Option`, standing for an absent cookie.
- `Locales` (`locale.dfy`): the `Locale` type, the type guard and `DetectDefaultLocale`.
  The cookie read becomes the parameter `cookieLang`.
- `DecimalNotation` (`decimal.dfy`): an independent definition of a number's decimal numeral.
  It has round-trip lemmas (`ValueOfDigits`, `DigitsOfValue`) and ties the last and tens
  digits to `% 10` and `% 100` (`LastDigitIsRemainder`, `TensDigitIsRemainder`, `LastTwoDigits`).
  The plural rule's comments describe its cases by how the number is written, and this
  module lets the model check the rule's arithmetic against that description.
- `SlavicPlural` (`plural.dfy`): the rule, with one lemma per case and range, periodicity
  and independence properties.

Where the code and its comments disagree, the model follows the code:

- **Zero.** The comment at `src/modules/vue-i18n.ts:16` says zero is treated like 5, 6, 7
  (the "many" form). The code at line 18 returns index 0, a variant of its own.
  `SlavicLanguagesRule` returns 0, and its contract states that 0 is returned exactly for
  zero.
- **Valid index.** The code does not check the quantity against the number of variants.
  It returns a valid index only when there are at least three variants: with two variants,
  quantity 5 gives index 2. The contract states the guarantee under that condition.

## Model

| member | source | states |
|---|---|---|
| `SlavicPlural.SlavicLanguagesRule` | src/modules/vue-i18n.ts:11-36 | The index is at most 3. It is 0 exactly when the quantity is 0. It is 3 only with at least four variants. With at least three variants it is a valid index. |
| `SlavicPlural.RuleMatchesNumeral` | src/modules/vue-i18n.ts:21-35 | The `% 10` / `% 100` arithmetic selects the same variant as reading the numeral's last and tens digits. |
| `SlavicPlural.ZeroSelectsFirstVariant` | src/modules/vue-i18n.ts:17-19 | Zero selects variant 0 for every number of variants. |
| `SlavicPlural.SingularForm` | src/modules/vue-i18n.ts:24-27 | A positive quantity selects variant 1 if and only if its numeral ends in 1 but not in 11. Equivalently, `n % 10 == 1 && n % 100 != 11`. |
| `SlavicPlural.FewForm` | src/modules/vue-i18n.ts:29-32 | With at least four variants, a positive quantity selects variant 2 if and only if it ends in 2-4 but not in 12-14. |
| `SlavicPlural.FewFormAnyLength` | src/modules/vue-i18n.ts:29-32 | A positive quantity ending in 2-4 but not in 12-14 selects variant 2 whatever the number of variants. |
| `SlavicPlural.ManyForm` | src/modules/vue-i18n.ts:34-35 | With at least four variants, variant 3 is selected if and only if the quantity is positive, not singular and not "few". |
| `SlavicPlural.CollapsedFewAndMany` | src/modules/vue-i18n.ts:34-35 | With fewer than four variants, variant 2 is selected if and only if the quantity is positive and not singular. |
| `SlavicPlural.ShiftByHundred` | src/modules/vue-i18n.ts:21-35 | For a positive quantity, adding 100 keeps the last two digits and so the selected variant. |
| `SlavicPlural.PeriodicInHundreds` | src/modules/vue-i18n.ts:21-35 | For a positive quantity, adding any multiple of 100 does not change the selected variant. |
| `SlavicPlural.IgnoresOriginalRule` | src/modules/vue-i18n.ts:11-15 | The third argument, the library's own rule, never affects the result. |
| `SlavicPlural.DocumentedExamples` | src/modules/vue-i18n.ts:16-35 | Worked cases: 0→0; 1, 21, 101→1; 11, 111 are not 1; 2, 22, 34→2; 5→2 with 3 variants and 3 with 4; 12, 20→3 with 4 variants. |
| `Locales.IsAvailableLanguage` | src/modules/vue-i18n.ts:38-40 | True if and only if the value is present and is one of the `Locale` strings. |
| `Locales.GuardAcceptsExactlyTheAllowList` | src/modules/vue-i18n.ts:38-40 | A present string is accepted if and only if it is `en` or `ru`, i.e. on the allow-list. An absent value, the empty string, `EN` and `ru-RU` are refused. |
| `Locales.DetectDefaultLocale` | src/modules/vue-i18n.ts:42-49 | An accepted cookie value is returned unchanged, and anything else yields `en`. A result equal to the cookie value means the guard accepted it. |
| `Locales.DetectIsIdentityOnAllowList` | src/modules/vue-i18n.ts:44-46 | Every supported locale stored in the cookie is the detected locale. |
| `Locales.DetectIsIdempotent` | src/modules/vue-i18n.ts:42-49 | Storing the detected locale and detecting again gives the same locale. |

## Left out

- The cookie read (`cookies.get('lang')` and the `Cookies` instance, src/modules/vue-i18n.ts:4,7,43) is browser I/O. Its outcome is the parameter `cookieLang`. The cookie library's decoding of stored values is not modelled.
- The `createI18n` configuration (src/modules/vue-i18n.ts:51-57) is library configuration. It covers the `messages` import and the registration of the rule under `ru`. The library's own rule for English is not part of this model.
- SlavicLanguagesRule: the quantity is a `nat` and the variant count an `int`. Negative, fractional, NaN and infinite JavaScript numbers are not modelled. Their `%` semantics differ from Dafny's.
- `src/main.ts`, `src/modules/vue-router.ts` and `src/modules/vee-validate.ts` only start the application and configure external libraries. They contain no logic of their own.
