# Voice resolver of the K1 Chinese flashcard widget, in Dafny

The widget shows a Chinese character with an emoji hint and speaks it in
Cantonese or Mandarin through the browser's speech synthesis. Its one piece of
decision logic is the voice resolver in `app.js`. The resolver classifies each
platform voice as Cantonese-looking or Mandarin-looking, from its language tag
first and then from keywords in its name and URI. It then filters the voice list
and walks the configured preferred language tags in priority order. After a
voice is chosen, the app decides whether to warn that it is a degraded
substitute. Around this sits the flashcard picker, which never repeats the card
just shown.

The model is functional. A `Voice` is an immutable record of three optional
strings; an absent field is JavaScript's `undefined`. The voice list is an
`Option<seq<Voice>>`, where `None` stands for a value that is not an array.
`null` results are `None`. `find` and `filter` are first-order searches over a
`Criterion` datatype that names each test the resolver runs. Lemmas can
therefore talk about exactly the test the code uses.

Modules, one per concern:

- `Wrappers`: `Option`.
- `Text`: ASCII `toLowerCase`, `startsWith`, and `includes` with its occurrence specification.
- `Voices`: `Voice`, `getVoiceTextMarker`, the two classifiers, and the exclusion test.
- `Search`: `find` and `filter` over voices, and how they compose.
- `Resolver`: `findVoiceByLanguage` and its ordering, exclusion and fallback properties.
- `Config`: `VOICE_CONFIG`, the resolver call made by `speakCurrentChar`, and the degraded-voice flag.
- `Scenarios`: lemmas about literal voice lists under the shipped configuration.
- `Deck`: the twenty flashcards, `randomIndexExcept` and `showNextWord`.

Two behaviours of `app.js` worth knowing:

- `excludedLangPrefixes` is consulted only inside the Mandarin filter
  (app.js:135) and inside the exact and prefix tag matches (app.js:145, 150).
  The Cantonese keyword fallback (app.js:157) ignores it.
  `Scenarios.CantoneseFallbackIgnoresExclusions` shows this. The shipped
  Cantonese configuration excludes nothing, so the app never meets the case.
- The degraded-voice flag (app.js:246-256) wants a `yue*` tag in Cantonese
  mode. In Mandarin mode it wants the lowered `preferredLangs[0]` (`zh-cn`) or
  `cmn` as a prefix of the lowered tag.

## Model

| member | source | states |
|---|---|---|
| Text.LowerIsCaseMap | app.js:84-85 | `toLowerCase` on ASCII: the length is kept, each capital becomes its small letter, every other character stays, no capital is left, and lowering twice changes nothing |
| Text.Contains | app.js:96-99 | `includes` holds exactly when the keyword occurs at some position of the string |
| Text.ContainsAcrossSpace | app.js:83-87 | a keyword with no space occurs in `name + " " + uri` exactly when it occurs in the name or in the URI |
| Voices.Marker | app.js:83-87 | the marker joins the lowered name and lowered URI with one space, so a keyword without a space is found in it exactly when it is found in the lowered name or the lowered URI |
| Voices.MentionsSplit | app.js:83-87 | some keyword is in the marker exactly when some keyword is in the lowered name or the lowered URI taken alone |
| Voices.IsCantoneseLike | app.js:89-101 | a lowered `yue*` tag makes a voice Cantonese-like; otherwise the Cantonese keywords (`canton`, `yue`, 粵, 粤) in the lowered name or URI decide, and a missing field reads as "" |
| Voices.IsMandarinLike | app.js:103-118 | a lowered tag equal to `zh-cn` or starting with `cmn` makes a voice Mandarin-like; otherwise the Mandarin keywords (`mandarin`, `putonghua`, `guoyu`, 普通話, 国语) in the lowered name or URI decide |
| Voices.IsBlocked | app.js:124-129 | no excluded prefixes block nothing; an empty excluded prefix blocks every voice, since every tag starts with "" |
| Voices.TagOnlyVoice | app.js:83-118 | a voice with neither name nor URI is classified by its language tag alone |
| Search.FirstIndex | app.js:144-152 | the index returned holds the first element that passes the test; None exactly when no element passes |
| Search.Find | app.js:144-152 | `find` returns a list element that passes the test, and it is the first such element; None exactly when none passes |
| Search.Filter | app.js:135-137 | `filter` keeps exactly the elements that pass the test and is never longer than its input |
| Search.FilterTwice | app.js:133-138 | the two successive Mandarin filters equal one filter by both tests |
| Search.FindAfterFilter | app.js:133-152 | searching a filtered list finds the first element of the original list that passes both the filter and the search |
| Resolver.Candidates | app.js:131-138 | the candidates are the input voices, and in Mandarin mode exactly those that are unblocked, not Cantonese-like and Mandarin-like |
| Resolver.PreferredPass | app.js:141-153 | the preferred-tag loop returns an unblocked candidate that matches some preferred tag, and returns None exactly when no candidate matches any tag |
| Resolver.FindVoiceByLanguage | app.js:123-162 | the result is None or an element of the input; a non-array or empty input gives None; a Mandarin result is Mandarin-like, not Cantonese-like and unblocked; outside Cantonese mode every result is unblocked and matches a preferred tag; a Cantonese result matches a preferred tag or is Cantonese-like |
| Resolver.PreferredPassSkips | app.js:141-153 | preferred tags that no candidate matches, exactly or by prefix, are passed over without changing the answer |
| Resolver.PreferredPassAnswersAt | app.js:141-153 | when tag `i` is the first tag any candidate matches, the loop answers at tag `i`, with its first exact match or else its first prefix match |
| Resolver.PriorityByPosition | app.js:141-153 | when tag `i` is the first tag with any exact or prefix match, the result matches tag `i`, whatever later tags match |
| Resolver.ExactBeatsPrefix | app.js:144-147 | within the deciding tag, the first exact match in list order is returned even if a prefix match comes earlier |
| Resolver.FirstPrefixWithoutExact | app.js:149-152 | within the deciding tag, if no candidate matches it exactly, the first prefix match in list order is returned |
| Resolver.CantoneseFallback | app.js:155-161 | in Cantonese mode with no tag matched, the result is the first Cantonese-like voice in list order, or None when there is none |
| Resolver.NoFallbackOutsideCantonese | app.js:155-161 | outside Cantonese mode, no tag matched means None |
| Resolver.MandarinKeepsListOrder | app.js:133-138 | the Mandarin filters keep list order, so every search over the candidates finds the first eligible voice of the original list |
| Resolver.PreferredTagsIgnoreCase | app.js:141-150 | preferred-tag lists whose tags lower to the same strings select the same voice, because each tag is compared only in lowered form |
| Config.SelectVoice | app.js:208-217 | the voice `speakCurrentChar` obtains comes from the list; a mode string with no own entry in `VOICE_CONFIG` (`Unrecognised`) gives none; a Mandarin voice is Mandarin-like, not Cantonese-like and not `yue*` |
| Config.ConfigFor | app.js:67-78 | `VOICE_CONFIG` has an entry for exactly the two modes among the modelled mode strings; each entry has a first preferred tag; the Cantonese entry excludes nothing; the Mandarin exclusions block exactly the `yue*` tags |
| Config.IsFallback | app.js:246-256 | a Cantonese voice without the degraded flag is Cantonese-like; in Mandarin mode a `cmn*` voice never raises the flag, no voice does when there are no preferred tags, and a `zh-cn` voice does not when the first tag lowers to `zh-cn` |
| Config.MandarinPickNeverDegraded | app.js:246-256 | with the shipped Mandarin tags `zh-CN`, `cmn-Hans-CN` and `cmn`, every Mandarin pick starts with `zh-cn` or `cmn`, so the degraded flag is never raised |
| Config.CantonesePickIdealWhenYueOffered | app.js:246-251 | with the shipped Cantonese tags, if the platform offers any `yue*` voice the pick is a `yue*` voice and the flag stays down |
| Config.CantoneseFlagDownIffYueOffered | app.js:246-251 | with the shipped Cantonese tags, the pick exists and has the flag down exactly when the list offers some `yue*` voice |
| Scenarios.MandarinPicksZhCn | app.js:67-78 | in Mandarin mode, voices en-US, zh-HK and zh-CN resolve to the zh-CN voice |
| Scenarios.CantonesePicksZhHk | app.js:141-153 | in Cantonese mode, a lone zh-HK voice named "Cantonese Female" matches neither `yue-HK` nor `yue`, matches `zh-HK` exactly, and is returned by the preferred-tag loop itself, before any fallback |
| Scenarios.EarlierPrefixBeatsLaterExact | app.js:141-153 | in Cantonese mode, `yue-Hant`, a prefix match of the second tag, beats `zh-HK`, an exact match of the third tag |
| Scenarios.MandarinRejectsCantoneseNamedVoice | app.js:133-135 | a zh-CN voice named "Cantonese" is never chosen for Mandarin |
| Scenarios.CantoneseFallbackIgnoresExclusions | app.js:155-158 | the Cantonese keyword fallback returns a voice that the excluded prefixes block |
| Deck.RandomIndexExcept | app.js:46-53 | a total of at most 1 gives 0; otherwise the result is in range, differs from the previous index, and is the first draw that differs |
| Deck.ShowNextWord | app.js:55-57 | the next card index is a valid deck position different from the current one, and the card shown is the deck entry at that index |

## Left out

- `getVoicesWithWait` (app.js:167-194) is left out. It is a promise race between a timer and the `onvoiceschanged` event, with handler save and restore. That is event-loop and browser plumbing. The resolver takes the voice list as a plain argument.
- The side effects of `speakCurrentChar` (app.js:199-243, 258-260) are left out: the `alert` messages, `speechSynthesis.cancel` and `speak`, and building the utterance with its `lang`, rate and pitch. Only the configuration lookup and resolver call (`Config.SelectVoice`) and the degraded flag (`Config.IsFallback`) are modelled.
- DOM lookups, text and attribute writes in `showNextWord`, the event bindings and the voice warm-up (app.js:32-39, 59-61, 266-285) are UI glue and are left out.
- Deck.RandomIndexExcept: `Math.random` is replaced by a finite sequence of draws in `[0, total)`. Uniformity is not modelled. Termination of the retry loop is not modelled either: a result of `None` means every supplied draw equalled the previous index.
- `toLowerCase` is modelled as the ASCII case map. Full Unicode case mapping is not modelled. The CJK keywords are unaffected either way.
- Voices are values: two platform voice objects with the same `lang`, `name` and `voiceURI` are the same `Voice`. The source's `find` returns one particular object (app.js:144, 149, 157); the model can only say which value it returns.
- Voice-list entries are always voice records. A `null` or non-object entry inside the array is not modelled, and neither is a non-string `lang`, `name` or `voiceURI`. A falsy entry found by `find` would be skipped by the source's `if (exactVoice)` test.
- Tag-list entries are always strings. The source reads a missing entry as `""`: `(s || "")` for `excludedLangPrefixes` (app.js:124) and `(lang || "")` for `preferredLangs` (app.js:142). So a `null` excluded prefix blocks every voice, and a `null` preferred tag matches every unblocked candidate by prefix. The model's `seq<string>` cannot hold such an entry; the shipped configuration has none. An empty string entry, which behaves the same way, is modelled.
- Config.ConfigFor: `Unrecognised` covers only mode strings that are not property names of `VOICE_CONFIG`. For an inherited name such as `"toString"` or `"constructor"`, `VOICE_CONFIG[mode]` (app.js:208) is truthy and the source throws a `TypeError` at app.js:141 when it iterates the undefined `preferredLangs`; that case is not modelled. The app only ever passes `"cantonese"` and `"mandarin"` (app.js:274-275).
- Config.SelectVoice: the same limit applies; an inherited-property mode is not the `None` result but an exception in the source.
