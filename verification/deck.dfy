/** The flashcard deck and the random pick that never repeats the card just shown
    (app.js, sections 1 and 3). */
module Deck {
  import opened Wrappers

  /** One flashcard: a character and its picture hint. */
  datatype Word = Word(character: string, emoji: string)

  /** `words`: the twenty shipped flashcards, in source order. */
  const Words: seq<Word> := [
    Word("人", "🧑"), Word("天", "☀️"), Word("月", "🌙"), Word("口", "👄"),
    Word("耳", "👂"), Word("眼", "👀"), Word("鼻", "👃"), Word("手", "✋"),
    Word("腳", "🦶"), Word("男", "👦"), Word("女", "👧"), Word("門", "🚪"),
    Word("衣", "👕"), Word("大", "🦒"), Word("小", "🐜"), Word("水", "💧"),
    Word("魚", "🐟"), Word("果", "🍎"), Word("菜", "🥬"), Word("米", "🍚")
  ]

  /** `randomIndexExcept(previousIndex, total)`. The successive values of
      `Math.floor(Math.random() * total)` are supplied as `draws`; the first draw
      that differs from `previous` is returned. `None` means the supplied draws ran
      out while all of them equalled `previous` (the source would keep drawing). */
  method RandomIndexExcept(previous: int, total: int, draws: seq<int>) returns (r: Option<int>)
    requires total > 1 ==> forall k :: 0 <= k < |draws| ==> 0 <= draws[k] < total
    ensures total <= 1 ==> r == Some(0)
    ensures total > 1 && r.Some? ==> 0 <= r.value < total && r.value != previous
    ensures total > 1 ==> (r.None? <==> forall k :: 0 <= k < |draws| ==> draws[k] == previous)
    ensures total > 1 && r.Some? ==>
      exists k :: 0 <= k < |draws| && draws[k] == r.value && forall m :: 0 <= m < k ==> draws[m] == previous
  {
    if total <= 1 {
      return Some(0);
    }
    if |draws| == 0 {
      return None;
    }
    var n := 0;
    var index := draws[0];
    while index == previous
      invariant 0 <= n < |draws| && index == draws[n]
      invariant forall m :: 0 <= m < n ==> draws[m] == previous
      decreases |draws| - n
    {
      n := n + 1;
      if n == |draws| {
        return None;
      }
      index := draws[n];
    }
    return Some(index);
  }

  /** `showNextWord`: the index of the next card, never the one currently shown
      and always a valid position in the deck. */
  method ShowNextWord(current: int, draws: seq<int>) returns (next: Option<int>, card: Option<Word>)
    requires forall k :: 0 <= k < |draws| ==> 0 <= draws[k] < |Words|
    ensures next.Some? ==> 0 <= next.value < |Words| && next.value != current
    ensures next.Some? <==> card.Some?
    ensures next.Some? ==> card.value == Words[next.value]
    ensures next.None? ==> forall k :: 0 <= k < |draws| ==> draws[k] == current
  {
    next := RandomIndexExcept(current, |Words|, draws);
    card := if next.Some? then Some(Words[next.value]) else None;
  }
}
