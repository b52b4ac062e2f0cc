/**
 `generate_strong_password`: 14 picks from the alphabet
 `string.ascii_letters + string.digits + "!@#$%^&*()_+="`, joined. The random
 picks are an input: a sequence of 14 positions in the alphabet.
 */
module Generator {
  import opened CharClasses
  import Strength
  import Suggestions

  /** `n` consecutive characters starting at `first`. */
  function CharRun(first: char, n: nat): (s: string)
    requires first as int + n <= 0xD800
    ensures |s| == n
    ensures forall k :: 0 <= k < n ==> s[k] as int == first as int + k
  {
    if n == 0 then [] else CharRun(first, n - 1) + [(first as int + n - 1) as char]
  }

  /** `string.ascii_letters`: the lower-case letters, then the upper-case ones. */
  const AsciiLetters: string := CharRun('a', 26) + CharRun('A', 26)

  /** `string.digits`. */
  const Digits: string := CharRun('0', 10)

  const Alphabet: string := AsciiLetters + Digits + Specials

  const PasswordLength: nat := 14

  /** Characters a generated password may contain. */
  predicate InAlphabetClass(c: char) {
    IsUpper(c) || IsLower(c) || IsDigit(c) || IsSpecial(c)
  }

  function GenerateStrongPassword(picks: seq<nat>): (pw: string)
    requires |picks| == PasswordLength
    requires forall i :: 0 <= i < |picks| ==> picks[i] < |Alphabet|
    ensures |pw| == PasswordLength
    ensures forall i :: 0 <= i < |pw| ==> InAlphabetClass(pw[i])
  {
    AlphabetMembership();
    seq(|picks|, i requires 0 <= i < |picks| => Alphabet[picks[i]])
  }

  /** Where each block of the alphabet starts. */
  lemma AlphabetLayout()
    ensures |Alphabet| == 75
    ensures forall k :: 0 <= k < 26 ==> Alphabet[k] as int == 'a' as int + k
    ensures forall k :: 26 <= k < 52 ==> Alphabet[k] as int == 'A' as int + (k - 26)
    ensures forall k :: 52 <= k < 62 ==> Alphabet[k] as int == '0' as int + (k - 52)
    ensures forall k :: 62 <= k < 75 ==> Alphabet[k] == Specials[k - 62]
  {
  }

  /** Every character of the four classes has a position in the alphabet. */
  lemma ClassCharInAlphabet(c: char)
    requires InAlphabetClass(c)
    ensures c in Alphabet
  {
    AlphabetLayout();
    if IsLower(c) {
      var k := c as int - 'a' as int;
      assert 0 <= k < 26;
      assert Alphabet[k] as int == c as int;
    } else if IsUpper(c) {
      var k := 26 + (c as int - 'A' as int);
      assert 26 <= k < 52;
      assert Alphabet[k] as int == c as int;
    } else if IsDigit(c) {
      var k := 52 + (c as int - '0' as int);
      assert 52 <= k < 62;
      assert Alphabet[k] as int == c as int;
    } else {
      var k :| 0 <= k < |Specials| && Specials[k] == c;
      assert Alphabet[62 + k] == Specials[k];
    }
  }

  /** Every character at a position of the alphabet belongs to one of the four classes. */
  lemma AlphabetCharInClass(k: nat)
    requires k < |Alphabet|
    ensures InAlphabetClass(Alphabet[k])
  {
    AlphabetLayout();
  }

  /** The alphabet holds every upper-case letter, lower-case letter, digit
      and special character, and nothing else. */
  lemma AlphabetMembership()
    ensures |Alphabet| == 75
    ensures forall c :: c in Alphabet <==> InAlphabetClass(c)
  {
    AlphabetLayout();
    forall c | InAlphabetClass(c)
      ensures c in Alphabet
    {
      ClassCharInAlphabet(c);
    }
    forall c | c in Alphabet
      ensures InAlphabetClass(c)
    {
      var k :| 0 <= k < |Alphabet| && Alphabet[k] == c;
      AlphabetCharInClass(k);
    }
  }

  /** No special character is a letter or a digit. */
  lemma SpecialIsNotAlphanumeric(c: char)
    requires IsUpper(c) || IsLower(c) || IsDigit(c)
    ensures !IsSpecial(c)
  {
  }

  /** The 75 characters of the alphabet are pairwise different, so each pick
      selects a different character. */
  lemma AlphabetDistinct()
    ensures forall i, j :: 0 <= i < j < |Alphabet| ==> Alphabet[i] != Alphabet[j]
  {
    AlphabetLayout();
    SpecialsHaveThirteenDistinct();
    forall i, j | 0 <= i < j < |Alphabet|
      ensures Alphabet[i] != Alphabet[j]
    {
      if i >= 62 {
        assert Specials[i - 62] != Specials[j - 62];
      } else if j >= 62 {
        SpecialIsNotAlphanumeric(Alphabet[i]);
        assert IsSpecial(Alphabet[j]) by {
          assert Specials[j - 62] == Alphabet[j];
        }
      } else {
        assert Alphabet[i] as int != Alphabet[j] as int;
      }
    }
  }

  /** Every 14-character string over the alphabet is generated by some picks. */
  lemma GeneratorCoversAlphabet(s: string)
    requires |s| == PasswordLength
    requires forall i :: 0 <= i < |s| ==> InAlphabetClass(s[i])
    ensures exists picks: seq<nat> ::
      && |picks| == PasswordLength
      && (forall i :: 0 <= i < |picks| ==> picks[i] < |Alphabet|)
      && GenerateStrongPassword(picks) == s
  {
    AlphabetMembership();
    var picks := seq(|s|, i requires 0 <= i < |s| => PositionIn(s[i], Alphabet));
    assert GenerateStrongPassword(picks) == s;
  }

  /** A position of `c` in `t`. */
  function PositionIn(c: char, t: string): (k: nat)
    requires c in t
    ensures k < |t| && t[k] == c
  {
    if t[0] == c then 0 else 1 + PositionIn(c, t[1..])
  }

  /** Every generated password passes the length checks of both the strength
      score (2 points, no length message) and the suggestion list. */
  lemma GeneratedLengthPasses(picks: seq<nat>)
    requires |picks| == PasswordLength
    requires forall i :: 0 <= i < |picks| ==> picks[i] < |Alphabet|
    ensures Strength.LengthPoints(|GenerateStrongPassword(picks)|) == 2
    ensures Strength.TooShort !in Strength.Feedback(GenerateStrongPassword(picks))
    ensures Suggestions.LongerAdvice !in Suggestions.Suggestions(GenerateStrongPassword(picks))
  {
    var pw := GenerateStrongPassword(picks);
    Strength.DeficiencyPresentIff(pw);
    Suggestions.SuggestionPresentIff(pw);
  }

  /** The generator does not guarantee a strong password: fourteen picks of
      position 0 give "aaaaaaaaaaaaaa", which scores 2. */
  lemma GeneratorNotAlwaysStrong()
    ensures exists picks: seq<nat> ::
      && |picks| == PasswordLength
      && (forall i :: 0 <= i < |picks| ==> picks[i] < |Alphabet|)
      && Strength.Score(GenerateStrongPassword(picks)) == 2
  {
    assert |Alphabet| == 75 && Alphabet[0] == CharRun('a', 26)[0];
    var picks: seq<nat> := seq(14, i => 0);
    var pw := GenerateStrongPassword(picks);
    assert forall i :: 0 <= i < |pw| ==> pw[i] == 'a';
    assert !Search(Upper, pw) && !Search(Digit, pw);
    assert !Search(Special, pw) by {
      forall i | 0 <= i < |pw|
        ensures !IsSpecial(pw[i])
      {
        assert pw[i] == 'a';
      }
    }
  }
}
