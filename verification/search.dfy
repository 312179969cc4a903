/** The two list operations the resolver is built from: `Array.prototype.find`
    (first element in list order that passes a test) and `Array.prototype.filter`.
    The tests are the finite set of voice predicates the resolver uses, named by
    a `Criterion` so that lemmas can speak of exactly the test the resolver runs. */
module Search {
  import opened Wrappers
  import opened Text
  import opened Voices

  /** The voice tests used by `findVoiceByLanguage`. */
  datatype Criterion =
    | ExactTag(lowered: string, blocked: seq<string>)   // not blocked, lowered tag equals `lowered`
    | PrefixTag(lowered: string, blocked: seq<string>)  // not blocked, lowered tag starts with `lowered`
    | CantoneseLook                                    // `isCantoneseLikeVoice`
    | MandarinLook                                     // `isMandarinLikeVoice`
    | NeitherBlockedNorCantonese(blocked: seq<string>)
    | Both(left: Criterion, right: Criterion)

  predicate Holds(c: Criterion, v: Voice) {
    match c
    case ExactTag(lowered, blocked) => !IsBlocked(v, blocked) && LowerLang(v) == lowered
    case PrefixTag(lowered, blocked) => !IsBlocked(v, blocked) && StartsWith(LowerLang(v), lowered)
    case CantoneseLook => IsCantoneseLike(v)
    case MandarinLook => IsMandarinLike(v)
    case NeitherBlockedNorCantonese(blocked) => !IsBlocked(v, blocked) && !IsCantoneseLike(v)
    case Both(left, right) => Holds(left, v) && Holds(right, v)
  }

  /** `s[j]` is the first element of `s` that passes `c`. */
  ghost predicate IsFirst(s: seq<Voice>, c: Criterion, j: nat) {
    j < |s| && Holds(c, s[j]) && forall k :: 0 <= k < j ==> !Holds(c, s[k])
  }

  /** Position of the first element of `s` that passes `c`, or None when none does. */
  function FirstIndex(s: seq<Voice>, c: Criterion): (r: Option<nat>)
    ensures r.Some? ==> IsFirst(s, c, r.value)
    ensures r.None? <==> forall k :: 0 <= k < |s| ==> !Holds(c, s[k])
  {
    if |s| == 0 then None
    else if Holds(c, s[0]) then Some(0)
    else
      match FirstIndex(s[1..], c)
      case None => None
      case Some(j) => Some(j + 1)
  }

  /** `s.find(v => c(v))`: the first element that passes `c`, or None. */
  function Find(s: seq<Voice>, c: Criterion): (r: Option<Voice>)
    ensures r.Some? ==> r.value in s && Holds(c, r.value)
    ensures r.None? <==> forall v :: v in s ==> !Holds(c, v)
    ensures forall j: nat :: IsFirst(s, c, j) ==> r == Some(s[j])
  {
    match FirstIndex(s, c)
    case None => None
    case Some(j) => Some(s[j])
  }

  /** `s.filter(v => c(v))`: the elements that pass `c`, in their original order. */
  function Filter(s: seq<Voice>, c: Criterion): (r: seq<Voice>)
    ensures |r| <= |s|
    ensures forall v :: v in r <==> v in s && Holds(c, v)
  {
    if |s| == 0 then []
    else if Holds(c, s[0]) then [s[0]] + Filter(s[1..], c)
    else Filter(s[1..], c)
  }

  /** Filtering twice is filtering once by both tests. */
  lemma {:induction false} FilterTwice(s: seq<Voice>, a: Criterion, b: Criterion)
    ensures Filter(Filter(s, a), b) == Filter(s, Both(a, b))
    decreases |s|
  {
    if |s| > 0 {
      FilterTwice(s[1..], a, b);
      if Holds(a, s[0]) {
        assert Filter(s, a) == [s[0]] + Filter(s[1..], a);
        assert ([s[0]] + Filter(s[1..], a))[1..] == Filter(s[1..], a);
      }
    }
  }

  /** Searching a filtered list finds the first element of the ORIGINAL list that
      passes both the filter and the search: filtering keeps list order. */
  lemma {:induction false} FindAfterFilter(s: seq<Voice>, a: Criterion, b: Criterion)
    ensures Find(Filter(s, a), b) == Find(s, Both(a, b))
    decreases |s|
  {
    if |s| > 0 {
      FindAfterFilter(s[1..], a, b);
      FindSkipsHead(s, Both(a, b));
      if Holds(a, s[0]) {
        var f := [s[0]] + Filter(s[1..], a);
        assert f[1..] == Filter(s[1..], a);
        if !Holds(b, s[0]) {
          FindSkipsHead(f, b);
        }
      }
    }
  }

  /** `find` returns the head when it passes, and otherwise searches the tail. */
  lemma FindSkipsHead(s: seq<Voice>, c: Criterion)
    requires |s| > 0
    ensures Holds(c, s[0]) ==> Find(s, c) == Some(s[0])
    ensures !Holds(c, s[0]) ==> Find(s, c) == Find(s[1..], c)
  {
  }
}
