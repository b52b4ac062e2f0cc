/**
 `evaluate_entropy`: the number of distinct characters times the length,
 classified as High above 100, Medium above 50 and Low otherwise, each tier
 returned with its colour.
 */
module Entropy {

  /** `set(password)`. */
  function DistinctChars(p: string): (d: set<char>)
    ensures forall c :: c in d <==> c in p
  {
    set i | 0 <= i < |p| :: p[i]
  }

  /** `len(set(password)) * len(password)`. */
  function EntropyValue(p: string): nat {
    |DistinctChars(p)| * |p|
  }

  datatype Tier = Low | Medium | High {
    function Label(): string {
      match this
      case Low => "Low"
      case Medium => "Medium"
      case High => "High"
    }

    function Colour(): string {
      match this
      case Low => "red"
      case Medium => "orange"
      case High => "green"
    }

    function Rank(): nat {
      match this
      case Low => 0
      case Medium => 1
      case High => 2
    }
  }

  /** The thresholds of the classifier: above 100, above 50, otherwise. */
  function TierOf(value: int): (t: Tier)
    ensures t == High <==> value > 100
    ensures t == Medium <==> 50 < value <= 100
    ensures t == Low <==> value <= 50
  {
    if value > 100 then High
    else if value > 50 then Medium
    else Low
  }

  /** The three (level, colour) pairs the classifier can return. */
  const Ratings: set<(string, string)> := {("High", "green"), ("Medium", "orange"), ("Low", "red")}

  function EvaluateEntropy(p: string): (rating: (string, string))
    ensures rating in Ratings
  {
    var tier := TierOf(EntropyValue(p));
    (tier.Label(), tier.Colour())
  }

  /** The level is decided by the distinct-times-length value alone, with the
      thresholds 100 and 50. */
  lemma EntropyThresholds(p: string)
    ensures EvaluateEntropy(p) == ("High", "green") <==> EntropyValue(p) > 100
    ensures EvaluateEntropy(p) == ("Medium", "orange") <==> 50 < EntropyValue(p) <= 100
    ensures EvaluateEntropy(p) == ("Low", "red") <==> EntropyValue(p) <= 50
  {
  }

  /** A larger value never gives a lower tier. */
  lemma TierMonotone(v: int, w: int)
    requires v <= w
    ensures TierOf(v).Rank() <= TierOf(w).Rank()
  {
  }

  lemma TierBoundaries()
    ensures TierOf(50) == Low && TierOf(51) == Medium
    ensures TierOf(100) == Medium && TierOf(101) == High
  {
  }

  lemma EmptyIsLow()
    ensures EvaluateEntropy("") == ("Low", "red")
  {
  }

  /** A password has at most as many distinct characters as its length, and
      at least one when it is not empty. */
  lemma {:induction false} DistinctCountBounds(p: string)
    ensures |DistinctChars(p)| <= |p|
    ensures |p| > 0 ==> |DistinctChars(p)| >= 1
    decreases |p|
  {
    if |p| > 0 {
      var init := p[..|p| - 1];
      DistinctCountBounds(init);
      assert DistinctChars(p) == DistinctChars(init) + {p[|p| - 1]} by {
        forall c | c in DistinctChars(p)
          ensures c in DistinctChars(init) + {p[|p| - 1]}
        {
          var i :| 0 <= i < |p| && p[i] == c;
          if i < |p| - 1 {
            assert init[i] == c;
          }
        }
        forall c | c in DistinctChars(init)
          ensures c in DistinctChars(p)
        {
          var i :| 0 <= i < |init| && init[i] == c;
          assert p[i] == c;
        }
      }
    }
  }

  /** The value lies between the length and the square of the length. */
  lemma EntropyValueBounds(p: string)
    ensures |p| <= EntropyValue(p) || |p| == 0
    ensures EntropyValue(p) <= |p| * |p|
  {
    DistinctCountBounds(p);
    var d, n := |DistinctChars(p)|, |p|;
    assert d * n <= n * n by {
      assert (n - d) * n >= 0;
    }
    if n > 0 {
      assert d * n >= n by {
        assert (d - 1) * n >= 0;
      }
    }
  }

  /** Passwords of at most 7 characters are always Low (the value is at most 49). */
  lemma ShortIsLow(p: string)
    requires |p| <= 7
    ensures EvaluateEntropy(p) == ("Low", "red")
  {
    EntropyValueBounds(p);
    var n := |p|;
    assert n * n <= 49 by {
      assert n * n <= 7 * n;
    }
  }

  /** Passwords of more than 50 characters are never Low, and those of more
      than 100 characters are High, whatever they repeat. */
  lemma LongIsNotLow(p: string)
    ensures |p| > 50 ==> EvaluateEntropy(p) != ("Low", "red")
    ensures |p| > 100 ==> EvaluateEntropy(p) == ("High", "green")
  {
    EntropyValueBounds(p);
  }
}
