/**
 * String primitives the snapshot tools rely on: Python's substring test
 * `pattern in name` and `str.lower()` (restricted to ASCII).
 */
module Text {

  /** `p` occurs in `s` starting at position `i`. */
  predicate OccursAt(s: string, p: string, i: nat)
  {
    i + |p| <= |s| && s[i..i + |p|] == p
  }

  /** Python's `p in s` for two strings: `p` is a contiguous piece of `s`.
      The empty string is contained in every string. */
  predicate Contains(s: string, p: string)
    decreases |s|
  {
    if |p| <= |s| && s[..|p|] == p then true
    else if |s| == 0 then false
    else Contains(s[1..], p)
  }

  /** A positive answer of `Contains` names an occurrence. */
  lemma {:induction false} ContainsSound(s: string, p: string) returns (i: nat)
    requires Contains(s, p)
    ensures OccursAt(s, p, i)
    decreases |s|
  {
    if |p| <= |s| && s[..|p|] == p {
      i := 0;
    } else {
      var j := ContainsSound(s[1..], p);
      assert s[1..][j..j + |p|] == s[j + 1..j + 1 + |p|];
      i := j + 1;
    }
  }

  /** Every occurrence is found by `Contains`. */
  lemma {:induction false} ContainsComplete(s: string, p: string, i: nat)
    requires OccursAt(s, p, i)
    ensures Contains(s, p)
    decreases i
  {
    if i > 0 && !(|p| <= |s| && s[..|p|] == p) {
      assert s[1..][i - 1..i - 1 + |p|] == s[i..i + |p|];
      ContainsComplete(s[1..], p, i - 1);
    }
  }

  /** A pattern longer than the text does not occur in it. */
  lemma {:induction false} NotContainsLonger(s: string, p: string)
    requires |p| > |s|
    ensures !Contains(s, p)
    decreases |s|
  {
    if |s| > 0 {
      NotContainsLonger(s[1..], p);
    }
  }

  /** The scanning definition of `Contains` agrees with the positional one. */
  lemma ContainsIff(s: string, p: string)
    ensures Contains(s, p) <==> exists i: nat :: OccursAt(s, p, i)
  {
    if Contains(s, p) {
      var i := ContainsSound(s, p);
    }
    forall i: nat | OccursAt(s, p, i) ensures Contains(s, p) {
      ContainsComplete(s, p, i);
    }
  }

  /** Python's `any(pattern in s for pattern in patterns)`. */
  predicate AnyContains(s: string, patterns: seq<string>)
  {
    exists j | 0 <= j < |patterns| :: Contains(s, patterns[j])
  }

  /** Some pattern of the list occurs somewhere in `s`, in both directions. */
  lemma AnyContainsIff(s: string, patterns: seq<string>)
    ensures AnyContains(s, patterns) <==>
            exists j, i: nat :: 0 <= j < |patterns| && OccursAt(s, patterns[j], i)
  {
    forall j | 0 <= j < |patterns| ensures Contains(s, patterns[j]) <==> exists i: nat :: OccursAt(s, patterns[j], i) {
      ContainsIff(s, patterns[j]);
    }
  }

  /** `str.lower()` on one character, ASCII letters only. */
  function LowerChar(c: char): char
  {
    if 'A' <= c <= 'Z' then (c as int - 'A' as int + 'a' as int) as char else c
  }

  /** `str.lower()`, ASCII letters only: same length, upper-case letters
      replaced by their lower-case forms, everything else kept. */
  function Lower(s: string): (r: string)
    ensures |r| == |s|
    ensures forall i :: 0 <= i < |s| ==> !('A' <= r[i] <= 'Z')
    ensures forall i :: 0 <= i < |s| && !('A' <= s[i] <= 'Z') ==> r[i] == s[i]
    ensures forall i :: 0 <= i < |s| && 'A' <= s[i] <= 'Z' ==> r[i] as int == s[i] as int - 'A' as int + 'a' as int
  {
    seq(|s|, i requires 0 <= i < |s| => LowerChar(s[i]))
  }
}
