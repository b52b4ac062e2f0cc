# Password strength advisor — a Dafny model

This project models the rule-based core of a small password-strength
checker (`main.py`, lines 6-63), as four operations over a password string:

- **`check_password_strength`**: four checks run in a fixed order. Length
  earns 2 points at 12 or more characters, 1 point at 8 to 11, and 0 below
  8. A mix of upper- and lower-case letters earns 1 point. A digit earns
  1 point. A character from `!@#$%^&*()_+=` earns 1 point. Each failed check
  appends a fixed deficiency message. The sum is returned through
  `min(score, 5)` together with the messages.
- **`evaluate_entropy`**: the number of distinct characters times the length.
  It returns `("High", "green")` above 100, `("Medium", "orange")` above 50
  and `("Low", "red")` otherwise.
- **`suggest_improvements`**: five independent checks (length under 12, no
  upper-case letter, no lower-case letter, no digit, no special character).
  Each failed check appends one advice sentence, in that order.
- **`generate_strong_password`**: 14 picks from the 75-character alphabet
  `ascii_letters + digits + "!@#$%^&*()_+="`, joined.

Modules:

- `CharClasses` (charclasses.dfy) holds the regular-expression classes
  `[A-Z]`, `[a-z]`, `\d` and `[!@#$%^&*()_+=]`. It also holds `Search`, the
  truth value of `re.search`: some position of the string holds a character
  of the class.
- `Checks` (checks.dfy) holds what the strength checker and the suggestion
  list share. That is a fixed list of rules (a criterion and a message) and
  `Failed`, the rules a password fails, in list order. It proves once, for
  any rule list, that a rule is reported exactly when it is in the list and
  the password fails it, that nothing is reported exactly when every rule is
  met, and that the reported rules and their messages keep the order of the
  list. That a given message is present exactly when its check fails holds
  for the two concrete lists, whose messages are distinct:
  `Strength.DeficiencyPresentIff` and `Suggestions.SuggestionPresentIff`.
- `Strength` (strength.dfy) models `check_password_strength`. The method
  `CheckPasswordStrength` is the if-chain, with a local counter and a list
  built by appending. It is proved equal to the specification functions
  `Score` and `Feedback`, and the lemmas state what the source promises
  about them.
- `Suggestions` (suggestions.dfy) models `suggest_improvements` in the same
  way: the method `SuggestImprovements` and the function `Suggestions`.
- `Entropy` (entropy.dfy) models `evaluate_entropy` as pure functions.
- `Generator` (generator.dfy) models `generate_strong_password`. The random
  picks are an input: 14 positions in the alphabet.

The special class `[!@#$%^&*()_+=]` (main.py:31, 39, 61) has 13 characters,
so the generator's alphabet has 75 (`SpecialsHaveThirteenDistinct`,
`AlphabetLayout`). Despite its name, `generate_strong_password` guarantees
only the length: `GeneratedLengthPasses` proves that part, and
`GeneratorNotAlwaysStrong` exhibits picks whose password scores 2.

`\d` is modelled as the ASCII digits `0`-`9`.

## Model

| member | source | states |
|---|---|---|
| `CharClasses.Search` | main.py:19 | definition of `re.search(...)` used as a truth value (also main.py:25, 31, 55-61): some position holds a character of the class; its consequences are stated in `Strength.DeficiencyPresentIff` and `Suggestions.SuggestionPresentIff` |
| `CharClasses.SpecialsHaveThirteenDistinct` | main.py:31 | the special class `[!@#$%^&*()_+=]` has 13 pairwise different characters |
| `Checks.Failed` | main.py:10-34 | no more rules are reported than the list holds |
| `Checks.FailedMembership` | main.py:10-34 | a rule is reported exactly when it is in the list and the password fails it (the shape of both if-chains, main.py:10-34 and 53-62) |
| `Checks.FailedEmptyIff` | main.py:10-34 | nothing is reported exactly when the password meets every rule of the list |
| `Checks.FailedInOrder` | main.py:10-34 | the reported rules, and their messages, are an ordered subsequence of the rule list: evaluation order is kept |
| `Strength.LengthPoints` | main.py:11-15 | the length earns at most 2 points: 2 exactly from 12 characters on, 0 exactly below 8 (so 1 from 8 to 11) |
| `Strength.RawScore` | main.py:7-34 | the sum of the four checks' points never exceeds 5 |
| `Strength.CheckPasswordStrength` | main.py:6-36 | the returned score is in [0, 5] and equals the specified score; the feedback equals the specified message list; the feedback is empty exactly when length >= 8 and the case-mix, digit and special checks pass |
| `Strength.FeedbackByCheck` | main.py:10-34 | the feedback is the length, case-mix, digit and special messages, each present only when its check fails, in that order |
| `Strength.FeedbackCount` | main.py:10-34 | the number of feedback messages equals the number of failed checks |
| `Strength.FeedbackInOrder` | main.py:10-34 | the messages are an ordered subsequence of (length, case mix, digit, special) |
| `Strength.DeficiencyPresentIff` | main.py:10-34 | each of the four messages is present exactly when its check fails |
| `Strength.FeedbackEmptyIff` | main.py:10-34 | the feedback is empty exactly when length >= 8, both cases, a digit and a special character are present |
| `Strength.ClampIsNoOp` | main.py:36 | `min(score, 5)` never changes the sum, and the score lies in [0, 5] |
| `Strength.ScoreFiveIff` | main.py:11-36 | the score is 5 exactly when length >= 12 and the case-mix, digit and special checks pass |
| `Strength.ScoreZeroIff` | main.py:10-36 | the score is 0 exactly when all four checks fail, and then all four messages appear in order |
| `Strength.MidLengthPerfect` | main.py:11-14 | a password of 8 to 11 characters that passes every check scores 4 with empty feedback |
| `Strength.ScoreAgreesWithFeedback` | main.py:10-36 | a score of 5 has empty feedback; empty feedback means a score of 4 or 5 |
| `Strength.EmptyPassword` | main.py:6-36 | the empty password scores 0 with the four messages in order length, case mix, digit, special |
| `Strength.ShortPlainPassword` | main.py:10-34 | a password under 8 characters with no letter, digit or special character scores 0 with all four messages |
| `Strength.NonEmptyScoreZero` | main.py:10-36 | some non-empty password scores 0 ("a" is one) |
| `Strength.StrongExample` | main.py:6-36 | "Abcdefghijk1!" (13 characters, all checks met) scores 5 with no feedback |
| `Suggestions.SuggestImprovements` | main.py:51-63 | the result equals the specified suggestion list, has at most 5 entries, and is empty exactly when length >= 12 and upper case, lower case, a digit and a special character are present |
| `Suggestions.SuggestionsByCheck` | main.py:53-62 | the suggestions are the length, upper, lower, digit and special sentences, each present only when its check fails, in that order |
| `Suggestions.SuggestionsCount` | main.py:53-62 | the number of suggestions equals the number of failed checks |
| `Suggestions.SuggestionsInOrder` | main.py:53-62 | the suggestions are an ordered subsequence of (length, upper, lower, digit, special) |
| `Suggestions.SuggestionPresentIff` | main.py:53-62 | each of the five sentences is present exactly when its check fails |
| `Suggestions.SuggestionsEmptyIff` | main.py:51-63 | no suggestion exactly when all five checks pass |
| `Suggestions.NoSuggestionsIffTopScore` | main.py:51-63 | no suggestion exactly when `check_password_strength` scores 5, although the two check sets differ |
| `Suggestions.DeficiencyHasSuggestion` | main.py:51-63 | whenever the strength checker reports a deficiency, there is at least one suggestion |
| `Suggestions.EmptyPasswordSuggestions` | main.py:51-63 | the empty password gets all five suggestions, in order |
| `Entropy.DistinctChars` | main.py:43 | `set(password)`: a character is in the set exactly when it occurs in the password |
| `Entropy.EntropyValue` | main.py:43 | definition of `len(set(password)) * len(password)`; its properties are stated in `Entropy.EntropyValueBounds` |
| `Entropy.TierOf` | main.py:44-49 | High exactly above 100, Medium exactly in (50, 100], Low exactly at or below 50 |
| `Entropy.EvaluateEntropy` | main.py:42-49 | the result is always one of the pairs (High, green), (Medium, orange), (Low, red) |
| `Entropy.EntropyThresholds` | main.py:43-49 | High exactly when distinct-count times length exceeds 100, Medium exactly when it lies in (50, 100], Low exactly when it is at most 50 |
| `Entropy.TierMonotone` | main.py:44-49 | a larger value never gives a lower tier |
| `Entropy.TierBoundaries` | main.py:44-49 | 50 gives Low, 51 and 100 give Medium, 101 gives High |
| `Entropy.EmptyIsLow` | main.py:42-49 | the empty password is rated (Low, red) |
| `Entropy.DistinctCountBounds` | main.py:43 | a password has at most as many distinct characters as its length, and at least one when non-empty |
| `Entropy.EntropyValueBounds` | main.py:43 | the value lies between the length and the square of the length |
| `Entropy.ShortIsLow` | main.py:43-49 | every password of at most 7 characters is rated Low |
| `Entropy.LongIsNotLow` | main.py:43-49 | a password of more than 50 characters is never Low, and one of more than 100 is High |
| `Generator.CharRun` | main.py:39 | a run of consecutive characters has the asked length and the asked code points |
| `Generator.Alphabet` | main.py:39 | definition of `string.ascii_letters + string.digits + "!@#$%^&*()_+="`; its properties are stated in `Generator.AlphabetLayout`, `Generator.AlphabetMembership` and `Generator.AlphabetDistinct` |
| `Generator.AlphabetLayout` | main.py:39 | the alphabet has 75 characters: a-z at 0-25, A-Z at 26-51, 0-9 at 52-61, the 13 specials at 62-74 |
| `Generator.AlphabetMembership` | main.py:39 | a character is in the alphabet exactly when it is an upper- or lower-case letter, a digit or a special character |
| `Generator.AlphabetDistinct` | main.py:39 | the 75 characters of the alphabet are pairwise different |
| `Generator.GenerateStrongPassword` | main.py:38-40 | the password has exactly 14 characters, each a letter, digit or special character |
| `Generator.GeneratorCoversAlphabet` | main.py:40 | every 14-character string over the alphabet is produced by some picks |
| `Generator.GeneratedLengthPasses` | main.py:38-40 | every generated password earns 2 length points and gets no length message or length suggestion |
| `Generator.GeneratorNotAlwaysStrong` | main.py:38-40 | some picks give a password that scores only 2 ("aaaaaaaaaaaaaa") |

## Left out

- The Streamlit interface, main.py:65-104 (page set-up, text input, progress bar, button, styled output): presentation over library calls.
- The label and colour lookup `colors[score-1]` (main.py:85) is not modelled. `Strength.NonEmptyScoreZero` shows that a non-empty input can score 0. Python then reads index -1 and shows "Very Strong" in green.
- The progress value `score / 5` (main.py:86) is a float shown by the interface.
- The randomness of `random.choice` (main.py:40): the 14 picks are a parameter of `GenerateStrongPassword`. The model says nothing about their distribution.
- `\d` in Python 3 matches every Unicode decimal digit. The model uses the ASCII digits `0`-`9` only.
- `re.search` returns a match object. Only its truth value is used, and only that is modelled.
- Python strings may hold lone surrogate code points, which a Dafny `char` cannot. Such passwords are outside the model.
