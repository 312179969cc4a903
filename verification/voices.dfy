/** Speech voices as the platform reports them, and the heuristics that classify
    a voice as Cantonese-looking or Mandarin-looking (app.js, section 5). */
module Voices {
  import opened Wrappers
  import opened Text

  /** A platform voice record. A field the platform leaves undefined (or null) is `None`. */
  datatype Voice = Voice(lang: Option<string>, name: Option<string>, voiceURI: Option<string>)

  /** `field || ""`: a missing field reads as the empty string. */
  function OrEmpty(field: Option<string>): string {
    field.GetOr("")
  }

  /** `(voice.lang || "").toLowerCase()` */
  function LowerLang(v: Voice): string {
    Lower(OrEmpty(v.lang))
  }

  /** `getVoiceTextMarker`: lowered name and lowered URI joined by one space.
      The space keeps the two apart: a keyword without a space is found in the
      marker exactly when it is found in the lowered name or the lowered URI. */
  function Marker(v: Voice): (r: string)
    ensures forall k :: ' ' !in k ==>
      (Contains(r, k) <==> Contains(Lower(OrEmpty(v.name)), k) || Contains(Lower(OrEmpty(v.voiceURI)), k))
  {
    var a, b := Lower(OrEmpty(v.name)), Lower(OrEmpty(v.voiceURI));
    forall k | ' ' !in k
      ensures Contains(a + " " + b, k) <==> Contains(a, k) || Contains(b, k)
    {
      ContainsAcrossSpace(a, b, k);
    }
    a + " " + b
  }

  /** The name/URI keywords that mark a voice as Cantonese. */
  const CantoneseKeywords: seq<string> := ["canton", "yue", "粵", "粤"]

  /** The name/URI keywords that mark a voice as Mandarin. */
  const MandarinKeywords: seq<string> := ["mandarin", "putonghua", "guoyu", "普通話", "国语"]

  /** Some keyword of `keywords` occurs in `s`. */
  predicate MentionsAny(s: string, keywords: seq<string>) {
    exists i :: 0 <= i < |keywords| && Contains(s, keywords[i])
  }

  /** `isCantoneseLikeVoice`: a `yue*` language tag, or a Cantonese keyword in the
      marker. A `yue*` tag decides it; otherwise the Cantonese keywords in the
      name or the URI alone decide it, a missing field reading as "". */
  predicate IsCantoneseLike(v: Voice): (r: bool)
    ensures StartsWith(LowerLang(v), "yue") ==> r
    ensures !StartsWith(LowerLang(v), "yue") ==>
      (r <==> MentionsAny(Lower(OrEmpty(v.name)), CantoneseKeywords)
              || MentionsAny(Lower(OrEmpty(v.voiceURI)), CantoneseKeywords))
  {
    KeywordsAreSpaceFree();
    MentionsSplit(v, CantoneseKeywords);
    StartsWith(LowerLang(v), "yue") || MentionsAny(Marker(v), CantoneseKeywords)
  }

  /** `isMandarinLikeVoice`: tag `zh-cn` or `cmn*`, or a Mandarin keyword in the
      marker. Such a tag (in any case) decides it; otherwise the Mandarin keywords
      in the name or the URI alone decide it. */
  predicate IsMandarinLike(v: Voice): (r: bool)
    ensures LowerLang(v) == "zh-cn" || StartsWith(LowerLang(v), "cmn") ==> r
    ensures LowerLang(v) != "zh-cn" && !StartsWith(LowerLang(v), "cmn") ==>
      (r <==> MentionsAny(Lower(OrEmpty(v.name)), MandarinKeywords)
              || MentionsAny(Lower(OrEmpty(v.voiceURI)), MandarinKeywords))
  {
    KeywordsAreSpaceFree();
    MentionsSplit(v, MandarinKeywords);
    LowerLang(v) == "zh-cn" || StartsWith(LowerLang(v), "cmn") || MentionsAny(Marker(v), MandarinKeywords)
  }

  /** `blocked` inside `findVoiceByLanguage`: every excluded prefix, lowered. */
  function LowerAll(excluded: seq<string>): seq<string> {
    seq(|excluded|, i requires 0 <= i < |excluded| => Lower(excluded[i]))
  }

  /** `isBlocked` inside `findVoiceByLanguage`: the lowered tag starts with one of
      the already-lowered prefixes `blocked`. No prefixes block nothing; an empty
      prefix (an empty excluded entry) blocks every voice. The definition is the
      specification; its consequence for the shipped Mandarin configuration
      (blocked exactly when the tag starts with `yue`) is part of
      `Config.ConfigFor`'s contract. */
  predicate IsBlocked(v: Voice, blocked: seq<string>): (r: bool)
    ensures |blocked| == 0 ==> !r
    ensures (exists i :: 0 <= i < |blocked| && blocked[i] == "") ==> r
  {
    exists i :: 0 <= i < |blocked| && StartsWith(LowerLang(v), blocked[i])
  }

  /** No keyword contains a space, so none can match across the name/URI separator. */
  lemma KeywordsAreSpaceFree()
    ensures forall i :: 0 <= i < |CantoneseKeywords| ==> ' ' !in CantoneseKeywords[i]
    ensures forall i :: 0 <= i < |MandarinKeywords| ==> ' ' !in MandarinKeywords[i]
  {
  }

  /** A keyword is found in the marker exactly when it is found in the lowered
      name or in the lowered URI, each taken on its own. */
  lemma {:induction false} MentionsSplit(v: Voice, keywords: seq<string>)
    requires forall i :: 0 <= i < |keywords| ==> ' ' !in keywords[i]
    ensures MentionsAny(Marker(v), keywords)
        <==> MentionsAny(Lower(OrEmpty(v.name)), keywords) || MentionsAny(Lower(OrEmpty(v.voiceURI)), keywords)
  {
    var a, b := Lower(OrEmpty(v.name)), Lower(OrEmpty(v.voiceURI));
    forall i | 0 <= i < |keywords|
      ensures Contains(Marker(v), keywords[i]) <==> Contains(a, keywords[i]) || Contains(b, keywords[i])
    {
      ContainsAcrossSpace(a, b, keywords[i]);
    }
  }

  /** A voice with neither name nor URI is classified by its tag alone. */
  lemma TagOnlyVoice(lang: Option<string>)
    ensures IsCantoneseLike(Voice(lang, None, None)) <==> StartsWith(Lower(OrEmpty(lang)), "yue")
    ensures IsMandarinLike(Voice(lang, None, None))
        <==> Lower(OrEmpty(lang)) == "zh-cn" || StartsWith(Lower(OrEmpty(lang)), "cmn")
  {
    var v := Voice(lang, None, None);
    KeywordsAreSpaceFree();
    MentionsSplit(v, CantoneseKeywords);
    MentionsSplit(v, MandarinKeywords);
    assert !MentionsAny("", CantoneseKeywords);
    assert !MentionsAny("", MandarinKeywords);
  }
}
