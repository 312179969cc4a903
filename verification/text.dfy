/** String operations the resolver relies on: `toLowerCase` (as an ASCII case map),
    `startsWith` and `includes`. */
module Text {

  /** ASCII case map of one character: 'A'..'Z' become 'a'..'z', every other
      character (digits, punctuation, CJK ideographs) is left alone. */
  function LowerChar(c: char): char {
    if 'A' <= c <= 'Z' then (c as int + 32) as char else c
  }

  /** An ASCII capital letter. */
  predicate IsAsciiUpper(c: char) {
    'A' <= c <= 'Z'
  }

  /** `s.toLowerCase()`, restricted to the ASCII case map. */
  function Lower(s: string): string {
    seq(|s|, i requires 0 <= i < |s| => LowerChar(s[i]))
  }

  /** `Lower` is a case map: the length is kept, each ASCII capital becomes the
      letter 32 code points above it, every other character stays, no capital is
      left, and so lowering twice changes nothing. */
  lemma LowerIsCaseMap(s: string)
    ensures |Lower(s)| == |s|
    ensures forall i :: 0 <= i < |s| && IsAsciiUpper(s[i]) ==> Lower(s)[i] as int == s[i] as int + 32
    ensures forall i :: 0 <= i < |s| && !IsAsciiUpper(s[i]) ==> Lower(s)[i] == s[i]
    ensures forall i :: 0 <= i < |s| ==> !IsAsciiUpper(Lower(s)[i])
    ensures Lower(Lower(s)) == Lower(s)
  {
  }

  /** `s.startsWith(p)`. */
  predicate StartsWith(s: string, p: string) {
    |p| <= |s| && s[..|p|] == p
  }

  /** `k` occurs in `s` starting at position `i`. */
  ghost predicate OccursAt(s: string, k: string, i: nat) {
    i + |k| <= |s| && s[i..i + |k|] == k
  }

  /** `s.includes(k)`: tries every start position from the left. */
  function Contains(s: string, k: string): (r: bool)
    ensures r <==> exists i: nat :: OccursAt(s, k, i)
    decreases |s|
  {
    if StartsWith(s, k) then
      assert OccursAt(s, k, 0);
      true
    else if |s| == 0 then
      false
    else
      var r := Contains(s[1..], k);
      ShiftOccurrence(s, k);
      r
  }

  /** `k` occurs in `s` either at the front or somewhere in `s[1..]`. */
  lemma ShiftOccurrence(s: string, k: string)
    requires |s| > 0
    ensures (exists i: nat :: OccursAt(s, k, i))
        <==> StartsWith(s, k) || exists i: nat :: OccursAt(s[1..], k, i)
  {
    if i: nat :| OccursAt(s, k, i) {
      if i > 0 {
        assert s[1..][i - 1..i - 1 + |k|] == s[i..i + |k|];
        assert OccursAt(s[1..], k, i - 1);
      }
    }
    if i: nat :| OccursAt(s[1..], k, i) {
      assert s[1..][i..i + |k|] == s[i + 1..i + 1 + |k|];
      assert OccursAt(s, k, i + 1);
    }
    if StartsWith(s, k) {
      assert OccursAt(s, k, 0);
    }
  }

  /** An equal string is in particular a prefix. */
  lemma EqualIsPrefix(s: string, p: string)
    requires s == p
    ensures StartsWith(s, p)
  {
  }

  /** A mismatch at a position inside both strings rules a prefix out. */
  lemma MismatchIsNotPrefix(s: string, p: string, i: nat)
    requires i < |s| && i < |p| && s[i] != p[i]
    ensures !StartsWith(s, p)
  {
    if |p| <= |s| {
      assert s[..|p|][i] == s[i];
    }
  }

  /** `startsWith` is transitive: a prefix of a prefix is a prefix. */
  lemma PrefixTransitive(s: string, t: string, p: string)
    requires StartsWith(s, t) && StartsWith(t, p)
    ensures StartsWith(s, p)
  {
    assert s[..|p|] == s[..|t|][..|p|];
  }

  /** Every character of an occurrence is a character of the keyword. */
  lemma OccurrenceChars(s: string, k: string, i: nat)
    requires OccursAt(s, k, i)
    ensures forall p :: i <= p < i + |k| ==> s[p] in k
  {
    forall p | i <= p < i + |k|
      ensures s[p] in k
    {
      assert s[i..i + |k|][p - i] == s[p];
    }
  }

  /** A keyword without a space occurs in `a + " " + b` exactly when it occurs in
      `a` or in `b`: it cannot straddle the separating space. */
  lemma ContainsAcrossSpace(a: string, b: string, k: string)
    requires ' ' !in k
    ensures Contains(a + " " + b, k) <==> Contains(a, k) || Contains(b, k)
  {
    var s := a + " " + b;
    if Contains(s, k) {
      var i: nat :| OccursAt(s, k, i);
      OccurrenceOnOneSide(a, b, k, i);
    }
    if Contains(a, k) {
      var i: nat :| OccursAt(a, k, i);
      OccurrenceInLeft(a, b, k, i);
    }
    if Contains(b, k) {
      var j: nat :| OccursAt(b, k, j);
      OccurrenceInRight(a, b, k, j);
    }
  }

  /** An occurrence of a space-free keyword in `a + " " + b` lies wholly in `a`
      or wholly in `b`. */
  lemma OccurrenceOnOneSide(a: string, b: string, k: string, i: nat)
    requires ' ' !in k && OccursAt(a + " " + b, k, i)
    ensures OccursAt(a, k, i) || (i > |a| && OccursAt(b, k, i - |a| - 1))
  {
    var s := a + " " + b;
    assert s[|a|] == ' ';
    OccurrenceChars(s, k, i);
    if i + |k| <= |a| {
      assert s[i..i + |k|] == a[i..i + |k|];
    } else {
      var j: nat := i - |a| - 1;
      assert s[|a| + 1..] == b;
      assert s[i..i + |k|] == s[|a| + 1..][j..j + |k|];
    }
  }

  /** An occurrence in `a` is one in `a + " " + b` at the same position. */
  lemma OccurrenceInLeft(a: string, b: string, k: string, i: nat)
    requires OccursAt(a, k, i)
    ensures OccursAt(a + " " + b, k, i)
  {
    assert (a + " " + b)[i..i + |k|] == a[i..i + |k|];
  }

  /** An occurrence in `b` is one in `a + " " + b`, shifted past `a` and the space. */
  lemma OccurrenceInRight(a: string, b: string, k: string, j: nat)
    requires OccursAt(b, k, j)
    ensures OccursAt(a + " " + b, k, j + |a| + 1)
  {
    var s := a + " " + b;
    var i := j + |a| + 1;
    assert s[|a| + 1..] == b;
    assert s[i..i + |k|] == s[|a| + 1..][j..j + |k|];
  }
}
