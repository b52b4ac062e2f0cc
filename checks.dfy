/**
 The shape shared by the strength checker and the suggestion list: a fixed
 list of rules, each a criterion on the password and a message, evaluated in
 order; every rule the password fails appends its message.
 */
module Checks {
  import opened CharClasses

  /** What a single check asks of the password. */
  datatype Criterion =
    | MinLength(n: nat)   // len(password) >= n
    | BothCases           // re.search("[A-Z]") and re.search("[a-z]")
    | Has(k: CharClass)   // re.search(k)

  predicate Meets(c: Criterion, p: string) {
    match c
    case MinLength(n) => |p| >= n
    case BothCases => Search(Upper, p) && Search(Lower, p)
    case Has(k) => Search(k, p)
  }

  datatype Rule = Rule(criterion: Criterion, message: string)

  /** The rules of `rules` that `p` fails, in their original order. */
  function Failed(rules: seq<Rule>, p: string): (out: seq<Rule>)
    ensures |out| <= |rules|
  {
    if |rules| == 0 then []
    else if Meets(rules[0].criterion, p) then Failed(rules[1..], p)
    else [rules[0]] + Failed(rules[1..], p)
  }

  function Messages(rules: seq<Rule>): seq<string> {
    seq(|rules|, i requires 0 <= i < |rules| => rules[i].message)
  }

  /** One for a check that holds, zero otherwise: a point of the score, or a count of failures. */
  function Point(holds: bool): nat {
    if holds then 1 else 0
  }

  /** The message list of one check: its message if it failed, nothing otherwise. */
  function Flag(failed: bool, message: string): seq<string> {
    if failed then [message] else []
  }

  /** `idx` lists, in increasing order, positions of `b` that hold `a`. */
  ghost predicate IndexedBy<T>(a: seq<T>, b: seq<T>, idx: seq<nat>) {
    && |idx| == |a|
    && (forall k :: 0 <= k < |idx| ==> idx[k] < |b| && a[k] == b[idx[k]])
    && (forall k, l :: 0 <= k < l < |idx| ==> idx[k] < idx[l])
  }

  /** `a` is obtained from `b` by deleting elements, without reordering. */
  ghost predicate OrderedSubsequence<T>(a: seq<T>, b: seq<T>) {
    exists idx :: IndexedBy(a, b, idx)
  }

  lemma FailedCons(r: Rule, rest: seq<Rule>, p: string)
    ensures Failed([r] + rest, p) == (if Meets(r.criterion, p) then [] else [r]) + Failed(rest, p)
  {
  }

  lemma MessagesAppend(a: seq<Rule>, b: seq<Rule>)
    ensures Messages(a + b) == Messages(a) + Messages(b)
  {
  }

  /** Evaluating one more rule in front adds its message, if it fails, in front. */
  lemma AdviceCons(r: Rule, rest: seq<Rule>, p: string)
    ensures Messages(Failed([r] + rest, p)) ==
      Flag(!Meets(r.criterion, p), r.message) + Messages(Failed(rest, p))
  {
    FailedCons(r, rest, p);
    MessagesAppend(if Meets(r.criterion, p) then [] else [r], Failed(rest, p));
  }

  /** Proof helper: reassociates a right-nested concatenation of four lists. */
  lemma Regroup4<T>(a: seq<T>, b: seq<T>, c: seq<T>, d: seq<T>)
    ensures a + (b + (c + (d + []))) == a + b + c + d
  {
  }

  /** Proof helper: reassociates a right-nested concatenation of five lists. */
  lemma Regroup5<T>(a: seq<T>, b: seq<T>, c: seq<T>, d: seq<T>, e: seq<T>)
    ensures a + (b + (c + (d + (e + [])))) == a + b + c + d + e
  {
  }

  /** A rule is reported exactly when it is one of the rules and the password fails it. */
  lemma {:induction false} FailedMembership(rules: seq<Rule>, p: string, r: Rule)
    ensures r in Failed(rules, p) <==> r in rules && !Meets(r.criterion, p)
    decreases |rules|
  {
    if |rules| > 0 {
      FailedMembership(rules[1..], p, r);
      assert rules == [rules[0]] + rules[1..];
    }
  }

  /** Nothing is reported exactly when the password meets every rule. */
  lemma {:induction false} FailedEmptyIff(rules: seq<Rule>, p: string)
    ensures Failed(rules, p) == [] <==> forall i :: 0 <= i < |rules| ==> Meets(rules[i].criterion, p)
    decreases |rules|
  {
    if |rules| > 0 {
      FailedEmptyIff(rules[1..], p);
      assert forall i :: 1 <= i < |rules| ==> rules[i] == rules[1..][i - 1];
    }
  }

  /** Positions in a sequence's tail are positions one further on in the sequence. */
  lemma ShiftPositions<T>(a: seq<T>, b: seq<T>, idx: seq<nat>) returns (shifted: seq<nat>)
    requires |b| > 0 && IndexedBy(a, b[1..], idx)
    ensures IndexedBy(a, b, shifted)
    ensures forall k :: 0 <= k < |shifted| ==> shifted[k] > 0
  {
    shifted := seq(|idx|, k requires 0 <= k < |idx| => idx[k] + 1);
    forall k | 0 <= k < |idx|
      ensures a[k] == b[shifted[k]]
    {
      assert b[1..][idx[k]] == b[idx[k] + 1];
    }
  }

  /** Keeping the head of `b` adds position 0 in front of the positions of the rest. */
  lemma ConsPosition<T>(a: seq<T>, b: seq<T>, idx: seq<nat>)
    requires |b| > 0 && IndexedBy(a, b, idx)
    requires forall k :: 0 <= k < |idx| ==> idx[k] > 0
    ensures IndexedBy([b[0]] + a, b, [0] + idx)
  {
  }

  lemma {:induction false} FailedPositions(rules: seq<Rule>, p: string) returns (idx: seq<nat>)
    ensures IndexedBy(Failed(rules, p), rules, idx)
    decreases |rules|
  {
    if |rules| == 0 {
      idx := [];
    } else {
      var rest := FailedPositions(rules[1..], p);
      var shifted := ShiftPositions(Failed(rules[1..], p), rules, rest);
      if Meets(rules[0].criterion, p) {
        idx := shifted;
      } else {
        ConsPosition(Failed(rules[1..], p), rules, shifted);
        idx := [0] + shifted;
      }
    }
  }

  /** The reported rules, and so their messages, keep the order of the rule list. */
  lemma FailedInOrder(rules: seq<Rule>, p: string)
    ensures OrderedSubsequence(Failed(rules, p), rules)
    ensures OrderedSubsequence(Messages(Failed(rules, p)), Messages(rules))
  {
    var idx := FailedPositions(rules, p);
    assert IndexedBy(Failed(rules, p), rules, idx);
    assert IndexedBy(Messages(Failed(rules, p)), Messages(rules), idx);
  }
}
