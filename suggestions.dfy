/**
 `suggest_improvements`: five independent checks (length under 12, no
 upper-case letter, no lower-case letter, no digit, no special character),
 each appending one advice sentence when it fails, in that order.
 */
module Suggestions {
  import opened CharClasses
  import opened Checks
  import Strength

  const LongerAdvice: string := "Increase password length to at least 12 characters."
  const UpperAdvice: string := "Add uppercase letters for better security."
  const LowerAdvice: string := "Include lowercase letters."
  const DigitAdvice: string := "Use numbers to strengthen your password."
  const SpecialAdvice: string := "Special characters make passwords harder to crack."

  const SuggestionRules: seq<Rule> := [
    Rule(MinLength(12), LongerAdvice),
    Rule(Has(Upper), UpperAdvice),
    Rule(Has(Lower), LowerAdvice),
    Rule(Has(Digit), DigitAdvice),
    Rule(Has(Special), SpecialAdvice)
  ]

  function Suggestions(p: string): seq<string> {
    Messages(Failed(SuggestionRules, p))
  }

  /** All five criteria of the suggestion list. */
  predicate MeetsAll(p: string) {
    |p| >= 12 && Search(Upper, p) && Search(Lower, p) && Search(Digit, p) && Search(Special, p)
  }

  method SuggestImprovements(password: string) returns (suggestions: seq<string>)
    ensures suggestions == Suggestions(password)
    ensures |suggestions| <= |SuggestionRules|
    ensures suggestions == [] <==> MeetsAll(password)
  {
    suggestions := [];
    if |password| < 12 {
      suggestions := suggestions + [LongerAdvice];
    }
    assert suggestions == Flag(|password| < 12, LongerAdvice);
    if !Search(Upper, password) {
      suggestions := suggestions + [UpperAdvice];
    }
    assert suggestions == Flag(|password| < 12, LongerAdvice) + Flag(!Search(Upper, password), UpperAdvice);
    if !Search(Lower, password) {
      suggestions := suggestions + [LowerAdvice];
    }
    assert suggestions == Flag(|password| < 12, LongerAdvice) + Flag(!Search(Upper, password), UpperAdvice)
      + Flag(!Search(Lower, password), LowerAdvice);
    if !Search(Digit, password) {
      suggestions := suggestions + [DigitAdvice];
    }
    assert suggestions == Flag(|password| < 12, LongerAdvice) + Flag(!Search(Upper, password), UpperAdvice)
      + Flag(!Search(Lower, password), LowerAdvice) + Flag(!Search(Digit, password), DigitAdvice);
    if !Search(Special, password) {
      suggestions := suggestions + [SpecialAdvice];
    }
    SuggestionsByCheck(password);
    SuggestionsEmptyIff(password);
  }

  /** Proof helper: the suggestions unfolded one rule at a time, as `SuggestionsByCheck` uses it. */
  lemma SuggestionsByRule(p: string)
    ensures Suggestions(p) ==
      Flag(!Meets(SuggestionRules[0].criterion, p), SuggestionRules[0].message)
      + (Flag(!Meets(SuggestionRules[1].criterion, p), SuggestionRules[1].message)
      + (Flag(!Meets(SuggestionRules[2].criterion, p), SuggestionRules[2].message)
      + (Flag(!Meets(SuggestionRules[3].criterion, p), SuggestionRules[3].message)
      + (Flag(!Meets(SuggestionRules[4].criterion, p), SuggestionRules[4].message) + []))))
  {
    var r := SuggestionRules;
    assert r == [r[0]] + ([r[1]] + ([r[2]] + ([r[3]] + ([r[4]] + []))));
    AdviceCons(r[4], [], p);
    AdviceCons(r[3], [r[4]] + [], p);
    AdviceCons(r[2], [r[3]] + ([r[4]] + []), p);
    AdviceCons(r[1], [r[2]] + ([r[3]] + ([r[4]] + [])), p);
    AdviceCons(r[0], [r[1]] + ([r[2]] + ([r[3]] + ([r[4]] + []))), p);
  }

  /** One advice sentence per failed check, in the order length, upper,
      lower, digit, special. */
  lemma SuggestionsByCheck(p: string)
    ensures Suggestions(p) ==
      Flag(|p| < 12, LongerAdvice) + Flag(!Search(Upper, p), UpperAdvice)
      + Flag(!Search(Lower, p), LowerAdvice) + Flag(!Search(Digit, p), DigitAdvice)
      + Flag(!Search(Special, p), SpecialAdvice)
  {
    SuggestionsByRule(p);
    var f0, f1, f2, f3, f4 := Flag(|p| < 12, LongerAdvice), Flag(!Search(Upper, p), UpperAdvice),
      Flag(!Search(Lower, p), LowerAdvice), Flag(!Search(Digit, p), DigitAdvice),
      Flag(!Search(Special, p), SpecialAdvice);
    assert Suggestions(p) == f0 + (f1 + (f2 + (f3 + (f4 + []))));
    Regroup5(f0, f1, f2, f3, f4);
  }

  /** The number of suggestions equals the number of failed checks. */
  lemma SuggestionsCount(p: string)
    ensures |Suggestions(p)| ==
      Point(|p| < 12) + Point(!Search(Upper, p)) + Point(!Search(Lower, p))
      + Point(!Search(Digit, p)) + Point(!Search(Special, p))
  {
    SuggestionsByCheck(p);
  }

  /** Advice keeps the fixed order length, upper, lower, digit, special. */
  lemma SuggestionsInOrder(p: string)
    ensures OrderedSubsequence(Suggestions(p),
      [LongerAdvice, UpperAdvice, LowerAdvice, DigitAdvice, SpecialAdvice])
  {
    FailedInOrder(SuggestionRules, p);
    assert Messages(SuggestionRules) == [LongerAdvice, UpperAdvice, LowerAdvice, DigitAdvice, SpecialAdvice];
  }

  /** Each advice sentence is present exactly when its check fails. */
  lemma SuggestionPresentIff(p: string)
    ensures LongerAdvice in Suggestions(p) <==> |p| < 12
    ensures UpperAdvice in Suggestions(p) <==> !Search(Upper, p)
    ensures LowerAdvice in Suggestions(p) <==> !Search(Lower, p)
    ensures DigitAdvice in Suggestions(p) <==> !Search(Digit, p)
    ensures SpecialAdvice in Suggestions(p) <==> !Search(Special, p)
  {
    SuggestionsByCheck(p);
  }

  /** The suggestion list is empty exactly when all five checks pass. */
  lemma SuggestionsEmptyIff(p: string)
    ensures Suggestions(p) == [] <==> MeetsAll(p)
  {
    SuggestionsByCheck(p);
  }

  /** The suggestion list is empty exactly when the strength score is 5:
      the two check sets differ, but agree on this. */
  lemma NoSuggestionsIffTopScore(p: string)
    ensures Suggestions(p) == [] <==> Strength.Score(p) == 5
  {
    SuggestionsByCheck(p);
    Strength.ScoreFiveIff(p);
  }

  /** Every deficiency of the strength checker comes with at least one suggestion. */
  lemma DeficiencyHasSuggestion(p: string)
    ensures Strength.Feedback(p) != [] ==> Suggestions(p) != []
  {
    Strength.ScoreAgreesWithFeedback(p);
    NoSuggestionsIffTopScore(p);
  }

  /** The empty password gets all five suggestions, in order. */
  lemma EmptyPasswordSuggestions()
    ensures Suggestions("") == [LongerAdvice, UpperAdvice, LowerAdvice, DigitAdvice, SpecialAdvice]
  {
    SuggestionsByCheck("");
  }
}
