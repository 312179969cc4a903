/** Lemmas about literal voice lists under the shipped configuration: the
    resolver's ordering and exclusion rules on concrete platform-style inputs. */
module Scenarios {
  import opened Wrappers
  import opened Text
  import opened Voices
  import opened Search
  import opened Resolver
  import opened Config

  /** The shipped Mandarin exclusions, lowered. */
  const BlockedYue: seq<string> := ["yue"]

  /** A voice that reports only a language tag. */
  function TagVoice(lang: string): Voice {
    Voice(Some(lang), None, None)
  }

  /** Mandarin, voices en-US, zh-HK, zh-CN: the zh-CN voice is chosen. */
  lemma MandarinPicksZhCn()
    ensures SelectVoice(Some([TagVoice("en-US"), TagVoice("zh-HK"), TagVoice("zh-CN")]), Mandarin)
            == Some(TagVoice("zh-CN"))
  {
    var all := [TagVoice("en-US"), TagVoice("zh-HK"), TagVoice("zh-CN")];
    var exact := ExactTag("zh-cn", BlockedYue);
    MandarinEligibility();
    assert Lower("yue") == "yue";
    assert LowerAll(["yue"]) == BlockedYue;
    assert IsFirst(all, Both(MandarinEligible(BlockedYue), exact), 2);
    MandarinKeepsListOrder(all, BlockedYue, exact);
    var c := Candidates(all, Mandarin, BlockedYue);
    assert Find(c, exact) == Some(TagVoice("zh-CN"));
    var tags := LowerAll(MandarinConfig.preferredLangs);
    assert tags[0] == "zh-cn";
    assert PreferredPass(c, tags, BlockedYue, 0) == Some(TagVoice("zh-CN"));
  }

  /** Of the tag-only voices en-US, zh-HK and zh-CN, only zh-CN survives the
      Mandarin filters, and it matches "zh-CN" exactly. */
  lemma MandarinEligibility()
    ensures !Holds(MandarinEligible(BlockedYue), TagVoice("en-US"))
    ensures !Holds(MandarinEligible(BlockedYue), TagVoice("zh-HK"))
    ensures Holds(Both(MandarinEligible(BlockedYue), ExactTag("zh-cn", BlockedYue)), TagVoice("zh-CN"))
  {
    NotMandarinByTag("en-US", "en-us");
    NotMandarinByTag("zh-HK", "zh-hk");
    ZhCnEligible();
  }

  /** A tag-only voice whose tag lowers to `lowered`, which is neither `zh-cn` nor
      `cmn*` (it does not start with `c`), is not Mandarin-looking. */
  lemma NotMandarinByTag(lang: string, lowered: string)
    requires Lower(lang) == lowered && lowered != "zh-cn" && |lowered| > 0 && lowered[0] != 'c'
    ensures !Holds(MandarinEligible(BlockedYue), TagVoice(lang))
  {
    TagOnlyVoice(Some(lang));
    MismatchIsNotPrefix(lowered, "cmn", 0);
  }

  /** The tag-only zh-CN voice is eligible for Mandarin and matches `zh-cn` exactly. */
  lemma ZhCnEligible()
    ensures Holds(Both(MandarinEligible(BlockedYue), ExactTag("zh-cn", BlockedYue)), TagVoice("zh-CN"))
  {
    TagOnlyVoice(Some("zh-CN"));
    assert Lower("zh-CN") == "zh-cn";
    MismatchIsNotPrefix("zh-cn", "yue", 0);
    assert !StartsWith(LowerLang(TagVoice("zh-CN")), BlockedYue[0]);
  }

  /** Cantonese, one zh-HK voice named "Cantonese Female": neither `yue-HK` nor
      `yue` matches it, so the preferred pass reaches the third tag and chooses
      the voice by its exact match there, before any fallback is consulted. */
  lemma CantonesePicksZhHk()
    ensures var v := Voice(Some("zh-HK"), Some("Cantonese Female"), None);
            && !TagHit([v], "yue-hk", []) && !TagHit([v], "yue", [])
            && Find([v], ExactTag("zh-hk", [])) == Some(v)
            && PreferredPass([v], LowerAll(CantoneseConfig.preferredLangs), [], 0) == Some(v)
            && SelectVoice(Some([v]), Cantonese) == Some(v)
  {
    var v := Voice(Some("zh-HK"), Some("Cantonese Female"), None);
    var prefs := CantoneseConfig.preferredLangs;
    ZhHkMatchesThirdTagOnly(v);
    ShippedTagsLowered();
    assert LowerAll([]) == [];
    ExactBeatsPrefix([v], Cantonese, prefs, [], 2, 0);
    var tags := LowerAll(prefs);
    assert tags[0] == "yue-hk" && tags[1] == "yue" && tags[2] == "zh-hk";
    PreferredPassAnswersAt([v], tags, [], 2);
  }

  /** A voice tagged zh-HK matches neither `yue-hk` nor `yue`, and matches `zh-hk`
      exactly. */
  lemma ZhHkMatchesThirdTagOnly(v: Voice)
    requires v.lang == Some("zh-HK")
    ensures !TagHit([v], "yue-hk", []) && !TagHit([v], "yue", [])
    ensures IsFirst([v], ExactTag("zh-hk", []), 0)
    ensures Lower(CantoneseConfig.preferredLangs[2]) == "zh-hk"
  {
    assert Lower("zh-HK") == "zh-hk";
    MismatchIsNotPrefix("zh-hk", "yue-hk", 0);
    MismatchIsNotPrefix("zh-hk", "yue", 0);
  }

  /** A prefix match for an earlier tag beats an exact match for a later one:
      yue-Hant (prefix of the second tag "yue") wins over zh-HK (exactly the third). */
  lemma EarlierPrefixBeatsLaterExact()
    ensures SelectVoice(Some([TagVoice("zh-HK"), TagVoice("yue-Hant")]), Cantonese)
            == Some(TagVoice("yue-Hant"))
  {
    var all := [TagVoice("zh-HK"), TagVoice("yue-Hant")];
    var prefs := CantoneseConfig.preferredLangs;
    ZhHkAndYueHant();
    ShippedTagsLowered();
    assert LowerAll([]) == [];
    FirstPrefixWithoutExact(all, Cantonese, prefs, [], 1, 1);
  }

  /** Of the tag-only voices zh-HK and yue-Hant, none matches `yue-hk`, none
      matches `yue` exactly, and yue-Hant is the first to match `yue` as a prefix. */
  lemma ZhHkAndYueHant()
    ensures var all := [TagVoice("zh-HK"), TagVoice("yue-Hant")];
            && !TagHit(all, "yue-hk", [])
            && (forall v :: v in all ==> !Holds(ExactTag("yue", []), v))
            && IsFirst(all, PrefixTag("yue", []), 1)
  {
    var all := [TagVoice("zh-HK"), TagVoice("yue-Hant")];
    assert Lower("zh-HK") == "zh-hk" && Lower("yue-Hant") == "yue-hant";
    MismatchIsNotPrefix("zh-hk", "yue-hk", 0);
    MismatchIsNotPrefix("zh-hk", "yue", 0);
    MismatchIsNotPrefix("yue-hant", "yue-hk", 5);
    assert "yue-hant"[..3] == "yue";
  }

  /** A zh-CN voice whose name says Cantonese is never chosen for Mandarin: the
      rival keyword overrules the Mandarin tag. */
  lemma MandarinRejectsCantoneseNamedVoice()
    ensures SelectVoice(Some([Voice(Some("zh-CN"), Some("Cantonese"), None)]), Mandarin).None?
  {
    var v := Voice(Some("zh-CN"), Some("Cantonese"), None);
    assert Lower("Cantonese") == "cantonese";
    assert OccursAt(Marker(v), "canton", 0);
    assert Contains(Marker(v), CantoneseKeywords[0]);
    assert IsCantoneseLike(v);
  }

  /** The relaxed Cantonese fallback does not consult the excluded prefixes: a
      `yue` voice is returned even when `yue` is excluded. The shipped Cantonese
      configuration excludes nothing, so the app never meets this case. */
  lemma CantoneseFallbackIgnoresExclusions()
    ensures FindVoiceByLanguage(Some([TagVoice("yue-HK")]), Cantonese, ["zh"], ["yue"]) == Some(TagVoice("yue-HK"))
    ensures IsBlocked(TagVoice("yue-HK"), BlockedYue)
  {
    var v := TagVoice("yue-HK");
    assert Lower("yue-HK") == "yue-hk" && Lower("yue") == "yue";
    assert "yue-hk"[..3] == "yue";
    assert LowerAll(["yue"]) == BlockedYue;
    assert StartsWith(LowerLang(v), BlockedYue[0]);
    assert IsBlocked(v, BlockedYue);
    assert IsCantoneseLike(v);
  }
}
