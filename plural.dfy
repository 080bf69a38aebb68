/** The pluralisation rule registered for Russian (and usable for other Slavic
    languages). Given a quantity and the number of message variants written for
    a message, it picks the variant: 0 for zero, 1 for the singular form
    (1, 21, 31, ... but not 11), 2 for the "few" form (2-4, 22-24, ... but not
    12-14), and 3 for the remaining "many" form — or 2 again when the message
    has fewer than four variants, so that "few" and "many" share one. */
module SlavicPlural {
  import opened Wrappers
  import opened DecimalNotation

  /** The shape of a pluralisation rule: quantity and number of variants to variant index. */
  type PluralizationRule = (nat, int) -> nat

  /** The rule itself. The third argument, the library's original rule, is accepted and ignored. */
  function SlavicLanguagesRule(choice: nat, choicesLength: int, orgRule: Option<PluralizationRule>): (r: nat)
    ensures r <= 3
    ensures r == 0 <==> choice == 0
    ensures r == 3 ==> choicesLength >= 4
    ensures choicesLength >= 3 ==> r < choicesLength
  {
    if choice == 0 then 0
    else
      var lastDigit := choice % 10;
      var lastTwoDigits := choice % 100;
      if lastDigit == 1 && lastTwoDigits != 11 then 1
      else if 2 <= lastDigit <= 4 && (lastTwoDigits < 12 || lastTwoDigits > 14) then 2
      else if choicesLength < 4 then 2 else 3
  }

  /** The numeral of `n` ends in 1 and not in 11. */
  predicate SingularNumeral(n: nat) {
    LastDigit(n) == 1 && TensDigit(n) != 1
  }

  /** The numeral of `n` ends in 2, 3 or 4 and not in 12, 13 or 14. */
  predicate FewNumeral(n: nat) {
    2 <= LastDigit(n) <= 4 && TensDigit(n) != 1
  }

  /** The rule restated on how the quantity is written: zero, then the last two digits. */
  function CategoryByNumeral(n: nat, variants: int): nat {
    if n == 0 then 0
    else if SingularNumeral(n) then 1
    else if FewNumeral(n) then 2
    else if variants < 4 then 2 else 3
  }

  /** The arithmetic of the rule agrees with reading the quantity's numeral. */
  lemma RuleMatchesNumeral(n: nat, k: int, orgRule: Option<PluralizationRule>)
    ensures SlavicLanguagesRule(n, k, orgRule) == CategoryByNumeral(n, k)
  {
    LastDigitIsRemainder(n);
    LastTwoDigits(n);
  }

  /** Zero selects variant 0 whatever the number of variants. */
  lemma ZeroSelectsFirstVariant(k: int, orgRule: Option<PluralizationRule>)
    ensures SlavicLanguagesRule(0, k, orgRule) == 0
  {
  }

  /** A positive quantity selects the singular variant exactly when its numeral ends in 1 but not in 11. */
  lemma SingularForm(n: nat, k: int, orgRule: Option<PluralizationRule>)
    requires n > 0
    ensures SlavicLanguagesRule(n, k, orgRule) == 1 <==> SingularNumeral(n)
    ensures SlavicLanguagesRule(n, k, orgRule) == 1 <==> n % 10 == 1 && n % 100 != 11
  {
    RuleMatchesNumeral(n, k, orgRule);
  }

  /** With four or more variants, a positive quantity selects the "few" variant exactly
      when its numeral ends in 2-4 but not in 12-14. */
  lemma FewForm(n: nat, k: int, orgRule: Option<PluralizationRule>)
    requires n > 0 && k >= 4
    ensures SlavicLanguagesRule(n, k, orgRule) == 2 <==> FewNumeral(n)
  {
    RuleMatchesNumeral(n, k, orgRule);
  }

  /** Whatever the number of variants, a numeral ending in 2-4 but not in 12-14 selects variant 2. */
  lemma FewFormAnyLength(n: nat, k: int, orgRule: Option<PluralizationRule>)
    requires n > 0 && FewNumeral(n)
    ensures SlavicLanguagesRule(n, k, orgRule) == 2
  {
    RuleMatchesNumeral(n, k, orgRule);
  }

  /** With four or more variants, variant 3 is selected exactly for the positive
      quantities that are neither singular nor "few" (5-20, 25-30, 111-114, ...). */
  lemma ManyForm(n: nat, k: int, orgRule: Option<PluralizationRule>)
    requires k >= 4
    ensures SlavicLanguagesRule(n, k, orgRule) == 3 <==> n > 0 && !SingularNumeral(n) && !FewNumeral(n)
  {
    RuleMatchesNumeral(n, k, orgRule);
  }

  /** With fewer than four variants, "few" and "many" share variant 2: it is selected
      exactly for the positive quantities that are not singular. */
  lemma CollapsedFewAndMany(n: nat, k: int, orgRule: Option<PluralizationRule>)
    requires k < 4
    ensures SlavicLanguagesRule(n, k, orgRule) == 2 <==> n > 0 && !SingularNumeral(n)
  {
    RuleMatchesNumeral(n, k, orgRule);
  }

  /** Adding 100 to a positive quantity keeps its last two digits, hence its variant. */
  lemma ShiftByHundred(p: nat, k: int, orgRule: Option<PluralizationRule>)
    requires p > 0
    ensures SlavicLanguagesRule(p + 100, k, orgRule) == SlavicLanguagesRule(p, k, orgRule)
  {
    assert (p + 100) % 100 == p % 100;
    assert (p + 100) % 10 == p % 10;
  }

  /** For a positive quantity only the last two digits matter: adding any multiple of
      100 selects the same variant. */
  lemma {:induction false} PeriodicInHundreds(n: nat, m: nat, k: int, orgRule: Option<PluralizationRule>)
    requires n > 0
    ensures SlavicLanguagesRule(n + 100 * m, k, orgRule) == SlavicLanguagesRule(n, k, orgRule)
  {
    if m > 0 {
      var p := n + 100 * (m - 1);
      PeriodicInHundreds(n, m - 1, k, orgRule);
      ShiftByHundred(p, k, orgRule);
      assert n + 100 * m == p + 100;
    }
  }

  /** The original rule passed by the library never changes the outcome. */
  lemma IgnoresOriginalRule(n: nat, k: int, a: Option<PluralizationRule>, b: Option<PluralizationRule>)
    ensures SlavicLanguagesRule(n, k, a) == SlavicLanguagesRule(n, k, b)
  {
  }

  /** The quantities the rule's own comments list, and the two lengths that decide the "many" variant. */
  lemma DocumentedExamples(k: int)
    ensures SlavicLanguagesRule(0, k, None) == 0
    ensures SlavicLanguagesRule(1, k, None) == 1 && SlavicLanguagesRule(21, k, None) == 1
    ensures SlavicLanguagesRule(101, k, None) == 1 && SlavicLanguagesRule(11, k, None) != 1
    ensures SlavicLanguagesRule(111, k, None) != 1
    ensures SlavicLanguagesRule(2, k, None) == 2 && SlavicLanguagesRule(22, k, None) == 2
    ensures SlavicLanguagesRule(34, k, None) == 2
    ensures SlavicLanguagesRule(5, 3, None) == 2 && SlavicLanguagesRule(5, 4, None) == 3
    ensures SlavicLanguagesRule(12, 4, None) == 3 && SlavicLanguagesRule(20, 4, None) == 3
  {
  }
}
