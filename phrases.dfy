/**
 * The spoken negatives: a fixed list of assistant-style commands, and the pick
 * that avoids a phrase containing the wake phrase by moving to a second
 * position in the list.
 */
module Phrases {
  import opened Text

  /** `NEGATIVE_SPOKEN_PHRASES` */
  function NegativePhrases(): seq<string>
  {
    [
      "what time is it now",
      "set a timer for ten minutes",
      "play some relaxing music",
      "turn on the kitchen lights",
      "turn off the bedroom lights",
      "what is the weather forecast",
      "increase the volume slightly",
      "decrease the volume a bit",
      "open the calendar for today",
      "read me the latest headlines",
      "start a focus session now",
      "pause the current track",
      "resume the current track",
      "skip to the next song",
      "go to the previous song",
      "create a reminder for tonight",
      "how is traffic right now",
      "dim the living room lights",
      "brighten the office lights",
      "set thermostat to seventy",
      "turn on the hallway fan",
      "turn off the hallway fan",
      "open the garage door",
      "close the garage door",
      "lock the front door",
      "unlock the front door",
      "what events do i have today",
      "read my unread messages",
      "call my mobile phone",
      "start vacuum cleaning",
      "stop vacuum cleaning",
      "how long is my commute",
      "show me popular podcasts",
      "play white noise softly",
      "play rain sounds tonight",
      "mute the speaker output",
      "unmute the speaker output",
      "what is on my shopping list",
      "add milk to shopping list",
      "add eggs to shopping list",
      "remove bread from shopping list",
      "set an alarm for six thirty",
      "snooze the next alarm",
      "cancel all active alarms",
      "read the next calendar event",
      "start recording voice memo",
      "stop recording voice memo",
      "where did i park today",
      "what is the battery level",
      "check internet connection",
      "run a quick speed test",
      "what is cpu temperature",
      "show system memory usage",
      "enable do not disturb",
      "disable do not disturb",
      "open a map to downtown",
      "navigate to central station",
      "show nearby coffee shops",
      "book a table for two",
      "order lunch for noon"
    ]
  }

  /** `sub in s` on Python strings. */
  predicate Contains(s: string, sub: string)
  {
    StartsWith(s, sub) || (s != [] && Contains(s[1..], sub))
  }

  /** `sub` occurs in `s` starting at position `i`. */
  predicate OccursAt(s: string, sub: string, i: int)
  {
    0 <= i <= |s| - |sub| && s[i..i + |sub|] == sub
  }

  /** `Contains` is the usual substring test: some window of `s` is `sub`. */
  lemma {:induction false} ContainsAt(s: string, sub: string)
    ensures Contains(s, sub) <==> exists i :: OccursAt(s, sub, i)
  {
    if s != [] {
      ContainsAt(s[1..], sub);
      if Contains(s[1..], sub) {
        var i :| OccursAt(s[1..], sub, i);
        assert s[i + 1..i + 1 + |sub|] == s[1..][i..i + |sub|];
        assert OccursAt(s, sub, i + 1);
      }
      if StartsWith(s, sub) {
        assert OccursAt(s, sub, 0);
      }
      if exists i :: OccursAt(s, sub, i) {
        var i :| OccursAt(s, sub, i);
        if i > 0 {
          assert s[1..][i - 1..i - 1 + |sub|] == s[i..i + |sub|];
          assert OccursAt(s[1..], sub, i - 1);
        } else {
          assert s[..|sub|] == s[0..0 + |sub|];
        }
      }
    } else if sub == [] {
      assert OccursAt(s, sub, 0);
    }
  }

  /** The list has sixty phrases. */
  lemma NegativePhraseCount()
    ensures |NegativePhrases()| == 60
  {
  }

  /**
   * `pick_negative_phrase` over any non-empty phrase list: the phrase at
   * `7 * i`, unless the wake phrase is non-empty and occurs in it (ignoring
   * case), then the phrase at `11 * i + 3`, whether or not that one contains
   * it too (positions modulo the list's length).
   */
  function PickPhrase(phrases: seq<string>, globalIndex: nat, wakePhrase: string): (r: string)
    requires phrases != []
    ensures r in phrases
    ensures r == phrases[(globalIndex * 7) % |phrases|] || r == phrases[(globalIndex * 11 + 3) % |phrases|]
    ensures !(wakePhrase != [] && Contains(Lower(phrases[(globalIndex * 7) % |phrases|]), Lower(wakePhrase))) ==>
      r == phrases[(globalIndex * 7) % |phrases|]
    ensures wakePhrase != [] && Contains(Lower(phrases[(globalIndex * 7) % |phrases|]), Lower(wakePhrase)) ==>
      r == phrases[(globalIndex * 11 + 3) % |phrases|]
    ensures wakePhrase != [] && Contains(Lower(r), Lower(wakePhrase)) ==>
      && Contains(Lower(phrases[(globalIndex * 7) % |phrases|]), Lower(wakePhrase))
      && Contains(Lower(phrases[(globalIndex * 11 + 3) % |phrases|]), Lower(wakePhrase))
  {
    var phrase := phrases[(globalIndex * 7) % |phrases|];
    if wakePhrase != [] && Contains(Lower(phrase), Lower(wakePhrase)) then
      phrases[(globalIndex * 11 + 3) % |phrases|]
    else phrase
  }

  /** The phrase a negative clip with index `globalIndex` speaks. */
  function PickNegativePhrase(globalIndex: nat, wakePhrase: string): (r: string)
    ensures r in NegativePhrases()
  {
    NegativePhraseCount();
    PickPhrase(NegativePhrases(), globalIndex, wakePhrase)
  }
}
