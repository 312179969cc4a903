/** `findVoiceByLanguage` (app.js, section 6): filter the platform's voices, then
    walk the preferred language tags in priority order, and in Cantonese mode fall
    back to the first Cantonese-looking voice. */
module Resolver {
  import opened Wrappers
  import opened Text
  import opened Voices
  import opened Search

  /** The `mode` argument: the two modes the app uses, and any other string that
      is not a property name of the configuration object (`Unrecognised`). */
  datatype Mode = Cantonese | Mandarin | Unrecognised

  /** `Array.isArray(voices) ? [...voices] : []`; `None` is a value that is not an array. */
  function VoiceArray(voices: Option<seq<Voice>>): seq<Voice> {
    voices.GetOr([])
  }

  /** What the two Mandarin-mode filters keep: not blocked, not Cantonese-looking,
      Mandarin-looking. */
  function MandarinEligible(blocked: seq<string>): Criterion {
    Both(NeitherBlockedNorCantonese(blocked), MandarinLook)
  }

  /** The candidate list: in Mandarin mode the two successive filters, otherwise
      the whole list. */
  function Candidates(all: seq<Voice>, mode: Mode, blocked: seq<string>): (c: seq<Voice>)
    ensures |c| <= |all|
    ensures forall v :: v in c <==> v in all && (mode == Mandarin ==> Holds(MandarinEligible(blocked), v))
  {
    if mode == Mandarin then
      Filter(Filter(all, NeitherBlockedNorCantonese(blocked)), MandarinLook)
    else
      all
  }

  /** A candidate is an input voice, and in Mandarin mode one that is Mandarin-looking,
      not Cantonese-looking and not blocked. */
  lemma CandidateFacts(all: seq<Voice>, mode: Mode, blocked: seq<string>, v: Voice)
    ensures v in Candidates(all, mode, blocked) ==>
      && v in all
      && (mode == Mandarin ==> IsMandarinLike(v) && !IsCantoneseLike(v) && !IsBlocked(v, blocked))
  {
  }

  /** Some unblocked candidate matches the lowered preferred tag `tag`, exactly
      or as a prefix (an exact match is also a prefix match). */
  ghost predicate TagHit(cands: seq<Voice>, tag: string, blocked: seq<string>) {
    exists v :: v in cands && Holds(PrefixTag(tag, blocked), v)
  }

  /** Some lowered preferred tag from position `n` on has a hit among the candidates. */
  ghost predicate SomeTagHit(cands: seq<Voice>, tags: seq<string>, blocked: seq<string>, n: nat)
    decreases |tags| - n
  {
    n < |tags| && (TagHit(cands, tags[n], blocked) || SomeTagHit(cands, tags, blocked, n + 1))
  }

  /** The voice `v` is unblocked and matches some lowered tag from position `n` on. */
  ghost predicate MatchesSomeTag(v: Voice, tags: seq<string>, blocked: seq<string>, n: nat)
    decreases |tags| - n
  {
    n < |tags| && (Holds(PrefixTag(tags[n], blocked), v) || MatchesSomeTag(v, tags, blocked, n + 1))
  }

  /** The loop over `preferredLangs`, from tag `n` on, over the tags already
      lowered: for each tag, the first exact match, else the first prefix match,
      else the next tag. */
  function PreferredPass(cands: seq<Voice>, tags: seq<string>, blocked: seq<string>, n: nat): (r: Option<Voice>)
    ensures r.Some? ==> r.value in cands && !IsBlocked(r.value, blocked)
    ensures r.Some? ==> MatchesSomeTag(r.value, tags, blocked, n)
    ensures r.None? <==> !SomeTagHit(cands, tags, blocked, n)
    decreases |tags| - n
  {
    if n >= |tags| then None
    else
      var exact := Find(cands, ExactTag(tags[n], blocked));
      if exact.Some? then exact
      else
        var partial := Find(cands, PrefixTag(tags[n], blocked));
        if partial.Some? then partial
        else PreferredPass(cands, tags, blocked, n + 1)
  }

  /** `SomeTagHit` says "some tag from position `n` on has a hit". */
  lemma {:induction false} SomeTagHitMeans(cands: seq<Voice>, tags: seq<string>, blocked: seq<string>, n: nat)
    ensures SomeTagHit(cands, tags, blocked, n) <==> exists i :: n <= i < |tags| && TagHit(cands, tags[i], blocked)
    decreases |tags| - n
  {
    if n < |tags| {
      SomeTagHitMeans(cands, tags, blocked, n + 1);
    }
  }

  /** `MatchesSomeTag` says "the voice matches some tag from position `n` on". */
  lemma {:induction false} MatchesSomeTagMeans(v: Voice, tags: seq<string>, blocked: seq<string>, n: nat)
    ensures MatchesSomeTag(v, tags, blocked, n)
        <==> exists i :: n <= i < |tags| && Holds(PrefixTag(tags[i], blocked), v)
    decreases |tags| - n
  {
    if n < |tags| {
      MatchesSomeTagMeans(v, tags, blocked, n + 1);
    }
  }

  /** `findVoiceByLanguage(voices, mode, preferredLangs, excludedLangPrefixes)`.
      Each preferred tag is lowered once, as the loop does at the top of every
      iteration. */
  function FindVoiceByLanguage(voices: Option<seq<Voice>>, mode: Mode, prefs: seq<string>,
                               excluded: seq<string>): (r: Option<Voice>)
    ensures r.Some? ==> voices.Some? && r.value in voices.value
    ensures voices.None? || voices == Some([]) ==> r.None?
    ensures mode == Mandarin && r.Some? ==>
      IsMandarinLike(r.value) && !IsCantoneseLike(r.value) && !IsBlocked(r.value, LowerAll(excluded))
    ensures mode != Cantonese && r.Some? ==>
      && !IsBlocked(r.value, LowerAll(excluded))
      && exists i :: 0 <= i < |prefs| && StartsWith(LowerLang(r.value), Lower(prefs[i]))
    ensures mode == Cantonese && r.Some? ==>
      || IsCantoneseLike(r.value)
      || (&& !IsBlocked(r.value, LowerAll(excluded))
          && exists i :: 0 <= i < |prefs| && StartsWith(LowerLang(r.value), Lower(prefs[i])))
  {
    var blocked := LowerAll(excluded);
    var tags := LowerAll(prefs);
    var cands := Candidates(VoiceArray(voices), mode, blocked);
    var preferred := PreferredPass(cands, tags, blocked, 0);
    if preferred.Some? then
      PreferredPick(cands, prefs, blocked);
      CandidateFacts(VoiceArray(voices), mode, blocked, preferred.value);
      preferred
    else if mode == Cantonese then Find(cands, CantoneseLook)
    else None
  }

  /** A voice the preferred pass picks is an unblocked candidate whose lowered tag
      starts with some lowered preferred tag. */
  lemma PreferredPick(cands: seq<Voice>, prefs: seq<string>, blocked: seq<string>)
    ensures var r := PreferredPass(cands, LowerAll(prefs), blocked, 0);
            r.Some? ==>
              && r.value in cands && !IsBlocked(r.value, blocked)
              && exists i :: 0 <= i < |prefs| && StartsWith(LowerLang(r.value), Lower(prefs[i]))
  {
    var tags := LowerAll(prefs);
    var r := PreferredPass(cands, tags, blocked, 0);
    if r.Some? {
      MatchesSomeTagMeans(r.value, tags, blocked, 0);
      var i :| 0 <= i < |tags| && Holds(PrefixTag(tags[i], blocked), r.value);
      assert StartsWith(LowerLang(r.value), Lower(prefs[i]));
    }
  }

  /** One step of the preferred-tag loop at tag `n`. */
  lemma PreferredPassStep(cands: seq<Voice>, tags: seq<string>, blocked: seq<string>, n: nat)
    requires n < |tags|
    ensures var exact := Find(cands, ExactTag(tags[n], blocked));
            var partial := Find(cands, PrefixTag(tags[n], blocked));
            PreferredPass(cands, tags, blocked, n)
            == if exact.Some? then exact
               else if partial.Some? then partial
               else PreferredPass(cands, tags, blocked, n + 1)
  {
  }

  /** A tag that no candidate matches, exactly or by prefix, is passed over. */
  lemma PreferredPassNoHit(cands: seq<Voice>, tags: seq<string>, blocked: seq<string>, n: nat)
    requires n < |tags|
    requires !TagHit(cands, tags[n], blocked)
    ensures PreferredPass(cands, tags, blocked, n) == PreferredPass(cands, tags, blocked, n + 1)
  {
    forall v | v in cands
      ensures !Holds(ExactTag(tags[n], blocked), v) && !Holds(PrefixTag(tags[n], blocked), v)
    {
      if LowerLang(v) == tags[n] {
        EqualIsPrefix(LowerLang(v), tags[n]);
      }
    }
    PreferredPassStep(cands, tags, blocked, n);
  }

  /** No tag at positions `n` up to (not including) `i` has a hit. */
  ghost predicate NoHitBetween(cands: seq<Voice>, tags: seq<string>, blocked: seq<string>, n: nat, i: nat)
    requires i <= |tags|
    decreases i - n
  {
    n >= i || (!TagHit(cands, tags[n], blocked) && NoHitBetween(cands, tags, blocked, n + 1, i))
  }

  /** `NoHitBetween` follows from "no tag between `n` and `i` has a hit". */
  lemma {:induction false} NoHitBetweenMeans(cands: seq<Voice>, tags: seq<string>, blocked: seq<string>, n: nat, i: nat)
    requires n <= i <= |tags|
    requires forall k :: n <= k < i ==> !TagHit(cands, tags[k], blocked)
    ensures NoHitBetween(cands, tags, blocked, n, i)
    decreases i - n
  {
    if n < i {
      NoHitBetweenMeans(cands, tags, blocked, n + 1, i);
    }
  }

  /** Tags that no candidate matches are passed over: the pass from tag `n`
      answers what the pass from tag `i` answers. */
  lemma {:induction false} PreferredPassSkips(cands: seq<Voice>, tags: seq<string>, blocked: seq<string>, n: nat, i: nat)
    requires n <= i <= |tags|
    requires NoHitBetween(cands, tags, blocked, n, i)
    ensures PreferredPass(cands, tags, blocked, n) == PreferredPass(cands, tags, blocked, i)
    decreases i - n
  {
    if n < i {
      PreferredPassNoHit(cands, tags, blocked, n);
      PreferredPassSkips(cands, tags, blocked, n + 1, i);
    }
  }

  /** When tag `i` is the first tag any candidate matches, the preferred pass
      answers at tag `i`: with the first exact match if there is one, else the
      first prefix match. */
  lemma PreferredPassAnswersAt(cands: seq<Voice>, tags: seq<string>, blocked: seq<string>, i: nat)
    requires i < |tags|
    requires TagHit(cands, tags[i], blocked)
    requires forall k :: 0 <= k < i ==> !TagHit(cands, tags[k], blocked)
    ensures Find(cands, ExactTag(tags[i], blocked)).Some? ==>
      PreferredPass(cands, tags, blocked, 0) == Find(cands, ExactTag(tags[i], blocked))
    ensures Find(cands, ExactTag(tags[i], blocked)).None? ==>
      PreferredPass(cands, tags, blocked, 0) == Find(cands, PrefixTag(tags[i], blocked))
  {
    NoHitBetweenMeans(cands, tags, blocked, 0, i);
    PreferredPassSkips(cands, tags, blocked, 0, i);
    var v :| v in cands && Holds(PrefixTag(tags[i], blocked), v);
    assert Find(cands, PrefixTag(tags[i], blocked)).Some?;
  }

  /** The candidates, the lowered exclusions and the lowered tags of one resolver
      call, and what the call returns: the preferred pass over them when it finds
      a voice. */
  lemma ResolverUsesPass(all: seq<Voice>, mode: Mode, prefs: seq<string>, excluded: seq<string>)
    ensures var pass := PreferredPass(Candidates(all, mode, LowerAll(excluded)), LowerAll(prefs), LowerAll(excluded), 0);
            pass.Some? ==> FindVoiceByLanguage(Some(all), mode, prefs, excluded) == pass
  {
  }

  /** Priority by position: if tag `i` is the first preferred tag with any
      (exact or prefix) match among the candidates, the result matches tag `i`,
      however good a match a later tag has. */
  lemma PriorityByPosition(all: seq<Voice>, mode: Mode, prefs: seq<string>, excluded: seq<string>, i: nat)
    requires i < |prefs|
    requires TagHit(Candidates(all, mode, LowerAll(excluded)), Lower(prefs[i]), LowerAll(excluded))
    requires forall k :: 0 <= k < i ==> !TagHit(Candidates(all, mode, LowerAll(excluded)), Lower(prefs[k]), LowerAll(excluded))
    ensures var r := FindVoiceByLanguage(Some(all), mode, prefs, excluded);
            r.Some? && !IsBlocked(r.value, LowerAll(excluded)) && StartsWith(LowerLang(r.value), Lower(prefs[i]))
  {
    var blocked, tags := LowerAll(excluded), LowerAll(prefs);
    var c := Candidates(all, mode, blocked);
    PreferredPassAnswersAt(c, tags, blocked, i);
    ResolverUsesPass(all, mode, prefs, excluded);
  }

  /** Within the deciding tag, an exact match beats a prefix match, and the first
      exact match in list order is the one returned. */
  lemma ExactBeatsPrefix(all: seq<Voice>, mode: Mode, prefs: seq<string>, excluded: seq<string>, i: nat, j: nat)
    requires i < |prefs|
    requires forall k :: 0 <= k < i ==> !TagHit(Candidates(all, mode, LowerAll(excluded)), Lower(prefs[k]), LowerAll(excluded))
    requires IsFirst(Candidates(all, mode, LowerAll(excluded)), ExactTag(Lower(prefs[i]), LowerAll(excluded)), j)
    ensures FindVoiceByLanguage(Some(all), mode, prefs, excluded) == Some(Candidates(all, mode, LowerAll(excluded))[j])
  {
    var blocked, tags := LowerAll(excluded), LowerAll(prefs);
    var c := Candidates(all, mode, blocked);
    assert Holds(PrefixTag(tags[i], blocked), c[j]);
    PreferredPassAnswersAt(c, tags, blocked, i);
    ResolverUsesPass(all, mode, prefs, excluded);
  }

  /** Within the deciding tag, when no candidate matches it exactly, the first
      prefix match in list order is returned. */
  lemma FirstPrefixWithoutExact(all: seq<Voice>, mode: Mode, prefs: seq<string>, excluded: seq<string>, i: nat, j: nat)
    requires i < |prefs|
    requires forall k :: 0 <= k < i ==> !TagHit(Candidates(all, mode, LowerAll(excluded)), Lower(prefs[k]), LowerAll(excluded))
    requires forall v :: v in Candidates(all, mode, LowerAll(excluded)) ==> !Holds(ExactTag(Lower(prefs[i]), LowerAll(excluded)), v)
    requires IsFirst(Candidates(all, mode, LowerAll(excluded)), PrefixTag(Lower(prefs[i]), LowerAll(excluded)), j)
    ensures FindVoiceByLanguage(Some(all), mode, prefs, excluded) == Some(Candidates(all, mode, LowerAll(excluded))[j])
  {
    var blocked, tags := LowerAll(excluded), LowerAll(prefs);
    var c := Candidates(all, mode, blocked);
    PreferredPassAnswersAt(c, tags, blocked, i);
    ResolverUsesPass(all, mode, prefs, excluded);
  }

  /** The relaxed fallback, Cantonese mode only: with no preferred tag matched,
      the result is the first Cantonese-looking voice in list order, or None. */
  lemma CantoneseFallback(all: seq<Voice>, prefs: seq<string>, excluded: seq<string>)
    requires forall k :: 0 <= k < |prefs| ==> !TagHit(all, Lower(prefs[k]), LowerAll(excluded))
    ensures var r := FindVoiceByLanguage(Some(all), Cantonese, prefs, excluded);
            && ((forall v :: v in all ==> !IsCantoneseLike(v)) ==> r.None?)
            && (forall j: nat :: IsFirst(all, CantoneseLook, j) ==> r == Some(all[j]))
  {
    SomeTagHitMeans(all, LowerAll(prefs), LowerAll(excluded), 0);
  }

  /** Outside Cantonese mode there is no relaxed fallback: with no preferred tag
      matched, the result is None. */
  lemma NoFallbackOutsideCantonese(all: seq<Voice>, mode: Mode, prefs: seq<string>, excluded: seq<string>)
    requires mode != Cantonese
    requires forall k :: 0 <= k < |prefs| ==> !TagHit(Candidates(all, mode, LowerAll(excluded)), Lower(prefs[k]), LowerAll(excluded))
    ensures FindVoiceByLanguage(Some(all), mode, prefs, excluded).None?
  {
    SomeTagHitMeans(Candidates(all, mode, LowerAll(excluded)), LowerAll(prefs), LowerAll(excluded), 0);
  }

  /** The Mandarin filters keep list order: every search over the candidates finds
      the first voice of the ORIGINAL list that is eligible and passes the search. */
  lemma MandarinKeepsListOrder(all: seq<Voice>, blocked: seq<string>, c: Criterion)
    ensures Find(Candidates(all, Mandarin, blocked), c) == Find(all, Both(MandarinEligible(blocked), c))
  {
    FilterTwice(all, NeitherBlockedNorCantonese(blocked), MandarinLook);
    FindAfterFilter(all, MandarinEligible(blocked), c);
  }

  /** Preferred tags are compared case-insensitively: tag lists whose tags lower
      to the same strings select the same voice. */
  lemma PreferredTagsIgnoreCase(all: seq<Voice>, mode: Mode, p: seq<string>, q: seq<string>, excluded: seq<string>)
    requires |p| == |q|
    requires forall i :: 0 <= i < |p| ==> Lower(p[i]) == Lower(q[i])
    ensures FindVoiceByLanguage(Some(all), mode, p, excluded) == FindVoiceByLanguage(Some(all), mode, q, excluded)
  {
    assert LowerAll(p) == LowerAll(q);
  }
}
