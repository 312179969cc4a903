/** `VOICE_CONFIG` (app.js, section 4) and the two pure decisions `speakCurrentChar`
    makes around the resolver: which arguments it passes, and whether the voice it
    got is a degraded substitute. */
module Config {
  import opened Wrappers
  import opened Text
  import opened Voices
  import opened Search
  import opened Resolver

  /** One entry of `VOICE_CONFIG`; `excludedLangPrefixes` may be absent. The
      display name is the source's `label` field (`label` is a reserved word in
      Dafny). */
  datatype VoiceConfig = VoiceConfig(name: string, preferredLangs: seq<string>,
                                     excludedLangPrefixes: Option<seq<string>>)

  const CantoneseConfig: VoiceConfig :=
    VoiceConfig("廣東話", ["yue-HK", "yue", "zh-HK", "zh-TW", "zh-CN", "zh"], None)

  const MandarinConfig: VoiceConfig :=
    VoiceConfig("普通話", ["zh-CN", "cmn-Hans-CN", "cmn"], Some(["yue"]))

  /** `VOICE_CONFIG[mode]`: undefined for any other mode string that is not a
      property name of the object (inherited names are not modelled). Both
      entries have a first preferred tag for the degraded flag to aim at; the
      Cantonese entry excludes nothing, and the Mandarin exclusions block exactly
      the voices with a `yue*` tag. */
  function ConfigFor(mode: Mode): (r: Option<VoiceConfig>)
    ensures r.None? <==> mode == Unrecognised
    ensures r.Some? ==> |r.value.preferredLangs| > 0
    ensures mode == Cantonese ==> r.value.excludedLangPrefixes.GetOr([]) == []
    ensures mode == Mandarin ==> forall v ::
      IsBlocked(v, LowerAll(r.value.excludedLangPrefixes.GetOr([]))) <==> StartsWith(LowerLang(v), "yue")
  {
    match mode
    case Cantonese => Some(CantoneseConfig)
    case Mandarin =>
      assert Lower("yue") == "yue";
      assert LowerAll(["yue"]) == ["yue"];
      forall v
        ensures IsBlocked(v, ["yue"]) <==> StartsWith(LowerLang(v), "yue")
      {
        if StartsWith(LowerLang(v), "yue") {
          assert StartsWith(LowerLang(v), ["yue"][0]);
        }
      }
      Some(MandarinConfig)
    case Unrecognised => None
  }

  /** The resolver call in `speakCurrentChar`: the configured preferred tags, and
      `config.excludedLangPrefixes || []`. An `Unrecognised` mode speaks nothing. */
  function SelectVoice(voices: Option<seq<Voice>>, mode: Mode): (r: Option<Voice>)
    ensures r.Some? ==> voices.Some? && r.value in voices.value
    ensures mode == Unrecognised ==> r.None?
    ensures mode == Mandarin && r.Some? ==> IsMandarinLike(r.value) && !IsCantoneseLike(r.value)
    ensures mode == Mandarin && r.Some? ==> !StartsWith(LowerLang(r.value), "yue")
  {
    match ConfigFor(mode)
    case None => None
    case Some(config) =>
      FindVoiceByLanguage(voices, mode, config.preferredLangs, config.excludedLangPrefixes.GetOr([]))
  }

  /** The degraded-voice flag computed after speaking, from the chosen voice's
      `lang`: Cantonese wants a `yue*` tag; any other mode wants the first
      preferred tag (`""` when there is none) or `cmn*` as a prefix. A Cantonese
      voice without the flag is Cantonese-looking; outside Cantonese mode a
      `cmn*` voice never raises it, nor does any voice when there are no preferred
      tags, and with a first tag that lowers to `zh-cn` no voice that is
      Mandarin-looking by its tag raises it. */
  function IsFallback(mode: Mode, v: Voice, prefs: seq<string>): (r: bool)
    ensures mode == Cantonese && !r ==> IsCantoneseLike(v)
    ensures mode != Cantonese && (|prefs| == 0 || StartsWith(LowerLang(v), "cmn")) ==> !r
    ensures mode != Cantonese && |prefs| > 0 && Lower(prefs[0]) == "zh-cn" && LowerLang(v) == "zh-cn" ==> !r
  {
    var actual := LowerLang(v);
    if mode == Cantonese then
      !StartsWith(actual, "yue")
    else
      var target := if |prefs| > 0 then Lower(prefs[0]) else "";
      !(StartsWith(actual, target) || StartsWith(actual, "cmn"))
  }

  /** The shipped preferred tags, lowered. */
  lemma ShippedTagsLowered()
    ensures Lower("zh-CN") == "zh-cn"
    ensures Lower("cmn-Hans-CN") == "cmn-hans-cn"
    ensures Lower("cmn") == "cmn"
    ensures Lower("yue-HK") == "yue-hk"
    ensures Lower("yue") == "yue"
  {
  }

  /** With the shipped Mandarin configuration, every voice the resolver picks is
      an ideal one: the degraded flag is never raised for Mandarin. */
  lemma MandarinPickNeverDegraded(voices: Option<seq<Voice>>)
    ensures var r := SelectVoice(voices, Mandarin);
            r.Some? ==> !IsFallback(Mandarin, r.value, MandarinConfig.preferredLangs)
  {
    var prefs := MandarinConfig.preferredLangs;
    var r := SelectVoice(voices, Mandarin);
    if r.Some? {
      var i :| 0 <= i < |prefs| && StartsWith(LowerLang(r.value), Lower(prefs[i]));
      MandarinTagMatchIsIdeal(r.value, i);
    }
  }

  /** A voice whose lowered tag starts with one of the shipped Mandarin tags,
      lowered, does not raise the Mandarin flag. */
  lemma MandarinTagMatchIsIdeal(v: Voice, i: nat)
    requires i < |MandarinConfig.preferredLangs|
    requires StartsWith(LowerLang(v), Lower(MandarinConfig.preferredLangs[i]))
    ensures !IsFallback(Mandarin, v, MandarinConfig.preferredLangs)
  {
    ShippedTagsLowered();
    if i == 1 {
      PrefixTransitive(LowerLang(v), "cmn-hans-cn", "cmn");
    }
  }

  /** With the shipped Cantonese configuration, whenever the platform offers any
      `yue*` voice the resolver picks one, so the degraded flag stays down. */
  lemma CantonesePickIdealWhenYueOffered(all: seq<Voice>, w: Voice)
    requires w in all && StartsWith(LowerLang(w), "yue")
    ensures var r := SelectVoice(Some(all), Cantonese);
            r.Some? && !IsFallback(Cantonese, r.value, CantoneseConfig.preferredLangs)
  {
    var prefs := CantoneseConfig.preferredLangs;
    var blocked := LowerAll([]);
    assert blocked == [];
    assert Candidates(all, Cantonese, blocked) == all;
    var r := SelectVoice(Some(all), Cantonese);
    if TagHit(all, Lower(prefs[0]), blocked) {
      PriorityByPosition(all, Cantonese, prefs, [], 0);
      CantoneseTagMatchIsIdeal(r.value, 0);
    } else {
      ShippedTagsLowered();
      assert Holds(PrefixTag(Lower(prefs[1]), blocked), w);
      PriorityByPosition(all, Cantonese, prefs, [], 1);
      CantoneseTagMatchIsIdeal(r.value, 1);
    }
  }

  /** A voice whose lowered tag starts with one of the first two shipped Cantonese
      tags, lowered, does not raise the Cantonese flag. */
  lemma CantoneseTagMatchIsIdeal(v: Voice, i: nat)
    requires i < 2
    requires StartsWith(LowerLang(v), Lower(CantoneseConfig.preferredLangs[i]))
    ensures !IsFallback(Cantonese, v, CantoneseConfig.preferredLangs)
  {
    ShippedTagsLowered();
    if i == 0 {
      PrefixTransitive(LowerLang(v), "yue-hk", "yue");
    }
  }

  /** With the shipped Cantonese configuration the degraded flag stays down
      exactly when the platform offers some `yue*` voice. */
  lemma CantoneseFlagDownIffYueOffered(all: seq<Voice>)
    ensures var r := SelectVoice(Some(all), Cantonese);
            (r.Some? && !IsFallback(Cantonese, r.value, CantoneseConfig.preferredLangs))
            <==> exists w :: w in all && StartsWith(LowerLang(w), "yue")
  {
    if w :| w in all && StartsWith(LowerLang(w), "yue") {
      CantonesePickIdealWhenYueOffered(all, w);
    }
  }
}
