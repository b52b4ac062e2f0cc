/**
 The character classes the password checker searches for with regular
 expressions: `[A-Z]`, `[a-z]`, `\d` and `[!@#$%^&*()_+=]`, and the search
 itself (`re.search(cls, password)` used as a truth value).
 */
module CharClasses {

  /** `[A-Z]`: an ASCII upper-case letter. */
  predicate IsUpper(c: char) {
    'A' <= c <= 'Z'
  }

  /** `[a-z]`: an ASCII lower-case letter. */
  predicate IsLower(c: char) {
    'a' <= c <= 'z'
  }

  /** `\d`, restricted to the ASCII digits 0-9. */
  predicate IsDigit(c: char) {
    '0' <= c <= '9'
  }

  /** The members of the class `[!@#$%^&*()_+=]`: thirteen characters. */
  const Specials: string := "!@#$%^&*()_+="

  predicate IsSpecial(c: char) {
    c in Specials
  }

  datatype CharClass = Upper | Lower | Digit | Special {
    predicate Matches(c: char) {
      match this
      case Upper => IsUpper(c)
      case Lower => IsLower(c)
      case Digit => IsDigit(c)
      case Special => IsSpecial(c)
    }
  }

  /** `re.search(k, s)` taken as a truth value: some position of `s` holds a
      character of class `k`. */
  predicate Search(k: CharClass, s: string) {
    exists i :: 0 <= i < |s| && k.Matches(s[i])
  }

  lemma SpecialsHaveThirteenDistinct()
    ensures |Specials| == 13
    ensures forall i, j :: 0 <= i < j < |Specials| ==> Specials[i] != Specials[j]
  {
  }
}
