/**
 `check_password_strength`: four checks in a fixed order (length, case mix,
 digit, special character), each adding points to a score and, when it fails,
 a deficiency message to the feedback list; the score is returned clamped
 with `min(score, 5)`.
 */
module Strength {
  import opened CharClasses
  import opened Checks

  const TooShort: string := "❌ Password should be at least 8 characters long."
  const NoCaseMix: string := "❌ Include both uppercase and lowercase letters."
  const NoDigit: string := "❌ Add at least one number (0-9)."
  const NoSpecial: string := "❌ Include at least one special character (!@#$%^&*)."

  /** The checks in evaluation order; a length under 8 is the only length failure. */
  const StrengthRules: seq<Rule> := [
    Rule(MinLength(8), TooShort),
    Rule(BothCases, NoCaseMix),
    Rule(Has(Digit), NoDigit),
    Rule(Has(Special), NoSpecial)
  ]

  /** The bound of the `min` on the returned score. */
  const MaxScore: int := 5

  function Min(a: int, b: int): int {
    if a <= b then a else b
  }

  /** Points for the length: 2 from 12 characters on, 1 from 8 to 11, else 0. */
  function LengthPoints(n: nat): (pts: nat)
    ensures pts <= 2
    ensures pts == 2 <==> n >= 12
    ensures pts == 0 <==> n < 8
  {
    if n >= 12 then 2 else if n >= 8 then 1 else 0
  }

  /** The sum before the clamp; the weights keep it within the clamp. */
  function RawScore(p: string): (s: nat)
    ensures s <= MaxScore
  {
    LengthPoints(|p|) + Point(Meets(BothCases, p)) + Point(Meets(Has(Digit), p))
      + Point(Meets(Has(Special), p))
  }

  function Score(p: string): int {
    Min(RawScore(p), MaxScore)
  }

  function Feedback(p: string): seq<string> {
    Messages(Failed(StrengthRules, p))
  }

  method CheckPasswordStrength(password: string) returns (score: int, feedback: seq<string>)
    ensures 0 <= score <= MaxScore
    ensures score == Score(password) && feedback == Feedback(password)
    ensures feedback == [] <==>
      |password| >= 8 && Meets(BothCases, password) && Meets(Has(Digit), password)
      && Meets(Has(Special), password)
  {
    var points := 0;
    feedback := [];

    if |password| >= 12 {
      points := points + 2;
    } else if |password| >= 8 {
      points := points + 1;
    } else {
      feedback := feedback + [TooShort];
    }
    assert points == LengthPoints(|password|) && feedback == Flag(|password| < 8, TooShort);

    if Search(Upper, password) && Search(Lower, password) {
      points := points + 1;
    } else {
      feedback := feedback + [NoCaseMix];
    }
    assert feedback == Flag(|password| < 8, TooShort) + Flag(!Meets(BothCases, password), NoCaseMix);

    if Search(Digit, password) {
      points := points + 1;
    } else {
      feedback := feedback + [NoDigit];
    }
    assert feedback == Flag(|password| < 8, TooShort) + Flag(!Meets(BothCases, password), NoCaseMix)
      + Flag(!Search(Digit, password), NoDigit);

    if Search(Special, password) {
      points := points + 1;
    } else {
      feedback := feedback + [NoSpecial];
    }
    assert points == RawScore(password);

    score := Min(points, MaxScore);
    FeedbackByCheck(password);
    FeedbackEmptyIff(password);
  }

  /** Proof helper: the feedback unfolded one rule at a time, as `FeedbackByCheck` uses it. */
  lemma FeedbackByRule(p: string)
    ensures Feedback(p) ==
      Flag(!Meets(StrengthRules[0].criterion, p), StrengthRules[0].message)
      + (Flag(!Meets(StrengthRules[1].criterion, p), StrengthRules[1].message)
      + (Flag(!Meets(StrengthRules[2].criterion, p), StrengthRules[2].message)
      + (Flag(!Meets(StrengthRules[3].criterion, p), StrengthRules[3].message) + [])))
  {
    var r0, r1, r2, r3 := StrengthRules[0], StrengthRules[1], StrengthRules[2], StrengthRules[3];
    assert StrengthRules == [r0] + ([r1] + ([r2] + ([r3] + [])));
    AdviceCons(r3, [], p);
    AdviceCons(r2, [r3] + [], p);
    AdviceCons(r1, [r2] + ([r3] + []), p);
    AdviceCons(r0, [r1] + ([r2] + ([r3] + [])), p);
  }

  /** The feedback holds one message per failed check, in evaluation order. */
  lemma FeedbackByCheck(p: string)
    ensures Feedback(p) ==
      Flag(|p| < 8, TooShort) + Flag(!Meets(BothCases, p), NoCaseMix)
      + Flag(!Search(Digit, p), NoDigit) + Flag(!Search(Special, p), NoSpecial)
  {
    FeedbackByRule(p);
    var f0, f1, f2, f3 := Flag(|p| < 8, TooShort), Flag(!Meets(BothCases, p), NoCaseMix),
      Flag(!Search(Digit, p), NoDigit), Flag(!Search(Special, p), NoSpecial);
    assert Feedback(p) == f0 + (f1 + (f2 + (f3 + [])));
    Regroup4(f0, f1, f2, f3);
  }

  /** The number of messages equals the number of failed checks. */
  lemma FeedbackCount(p: string)
    ensures |Feedback(p)| ==
      Point(|p| < 8) + Point(!Meets(BothCases, p)) + Point(!Search(Digit, p))
      + Point(!Search(Special, p))
  {
    FeedbackByCheck(p);
  }

  /** Messages keep the order length, case mix, digit, special. */
  lemma FeedbackInOrder(p: string)
    ensures OrderedSubsequence(Feedback(p), [TooShort, NoCaseMix, NoDigit, NoSpecial])
  {
    FailedInOrder(StrengthRules, p);
    assert Messages(StrengthRules) == [TooShort, NoCaseMix, NoDigit, NoSpecial];
  }

  /** Each message is present exactly when its check fails. */
  lemma DeficiencyPresentIff(p: string)
    ensures TooShort in Feedback(p) <==> |p| < 8
    ensures NoCaseMix in Feedback(p) <==> !Meets(BothCases, p)
    ensures NoDigit in Feedback(p) <==> !Search(Digit, p)
    ensures NoSpecial in Feedback(p) <==> !Search(Special, p)
  {
    FeedbackByCheck(p);
  }

  /** The feedback is empty exactly when all four checks pass. */
  lemma FeedbackEmptyIff(p: string)
    ensures Feedback(p) == [] <==>
      |p| >= 8 && Meets(BothCases, p) && Search(Digit, p) && Search(Special, p)
  {
    FailedEmptyIff(StrengthRules, p);
    var r := StrengthRules;
    assert (forall i :: 0 <= i < |r| ==> Meets(r[i].criterion, p)) <==>
      Meets(r[0].criterion, p) && Meets(r[1].criterion, p) && Meets(r[2].criterion, p)
      && Meets(r[3].criterion, p);
  }

  /** The clamp never changes the sum. */
  lemma ClampIsNoOp(p: string)
    ensures Score(p) == RawScore(p)
    ensures 0 <= Score(p) <= MaxScore
  {
  }

  /** Score 5 exactly when the password is 12 or more characters long and
      passes the case-mix, digit and special checks. */
  lemma ScoreFiveIff(p: string)
    ensures Score(p) == 5 <==>
      |p| >= 12 && Meets(BothCases, p) && Search(Digit, p) && Search(Special, p)
  {
  }

  /** Score 0 exactly when every check fails; then all four messages appear, in order. */
  lemma ScoreZeroIff(p: string)
    ensures Score(p) == 0 <==>
      |p| < 8 && !Meets(BothCases, p) && !Search(Digit, p) && !Search(Special, p)
    ensures Score(p) == 0 ==> Feedback(p) == [TooShort, NoCaseMix, NoDigit, NoSpecial]
  {
    FeedbackByCheck(p);
  }

  /** A password of 8 to 11 characters that passes every check scores 4 with no feedback. */
  lemma MidLengthPerfect(p: string)
    requires 8 <= |p| < 12
    requires Meets(BothCases, p) && Search(Digit, p) && Search(Special, p)
    ensures Score(p) == 4 && Feedback(p) == []
  {
    FeedbackEmptyIff(p);
  }

  /** Score and feedback agree: a top score has no feedback, and no feedback
      means a score of 4 or 5. */
  lemma ScoreAgreesWithFeedback(p: string)
    ensures Score(p) == 5 ==> Feedback(p) == []
    ensures Feedback(p) == [] ==> Score(p) >= 4
  {
    FeedbackEmptyIff(p);
  }

  /** The empty password fails every check. */
  lemma EmptyPassword()
    ensures Score("") == 0
    ensures Feedback("") == [TooShort, NoCaseMix, NoDigit, NoSpecial]
  {
    ScoreZeroIff("");
  }

  /** A short password with no letter, digit or special character scores 0
      and gets all four messages. */
  lemma ShortPlainPassword(p: string)
    requires |p| < 8
    requires forall i :: 0 <= i < |p| ==> !IsUpper(p[i]) && !IsLower(p[i]) && !IsDigit(p[i]) && !IsSpecial(p[i])
    ensures Score(p) == 0
    ensures Feedback(p) == [TooShort, NoCaseMix, NoDigit, NoSpecial]
  {
    ScoreZeroIff(p);
  }

  /** A score of 0 is reachable for a non-empty password: "a" is one. */
  lemma NonEmptyScoreZero()
    ensures exists p: string :: |p| > 0 && Score(p) == 0
  {
    ScoreZeroIff("a");
    assert Score("a") == 0;
  }

  /** A 13-character password that meets all four checks scores 5 with no feedback. */
  lemma StrongExample()
    ensures Score("Abcdefghijk1!") == 5 && Feedback("Abcdefghijk1!") == []
  {
    var p := "Abcdefghijk1!";
    assert Upper.Matches(p[0]) && Lower.Matches(p[1]) && Digit.Matches(p[11]) && Special.Matches(p[12]);
    FeedbackEmptyIff(p);
  }
}
