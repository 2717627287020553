/**
 * What `render_negative_variant` asks the audio tools to produce for a clip
 * kind. The request is a value; whether the tool then succeeds is decided by
 * the caller's oracle. Durations and amplitudes (floating point) are not
 * part of the request.
 */
module Rendering {
  import opened Wrappers
  import opened Text
  import opened Phrases

  /** One audio job: a generated signal, or a phrase spoken by a voice and filtered. */
  datatype Render =
    | Silence
    | Noise(color: string)
    | Tone(frequency: nat)
    | DualTone(low: nat, high: nat)
    | Chirp(startHz: nat, sweepHzPerSecond: nat)
    | Spoken(variant: string, voice: string, phrase: string)

  /** The variation tier: every ten clip indices shift frequencies a step. */
  function Tier(globalIndex: nat): nat { globalIndex / 10 }

  /** The filter a `speech_*` kind renders with; unknown `speech_*` kinds use "clean". */
  function SpeechVariant(kind: string): (r: string)
    ensures r in ["clean", "fast", "slow", "telephone", "quiet"]
    ensures kind == "speech_phone" ==> r == "telephone"
  {
    if kind == "speech_clean" then "clean"
    else if kind == "speech_fast" then "fast"
    else if kind == "speech_slow" then "slow"
    else if kind == "speech_phone" then "telephone"
    else if kind == "speech_quiet" then "quiet"
    else "clean"
  }

  /** A spoken kind has 'p' as its second character, which no signal kind has. */
  lemma SpeechPrefix(kind: string)
    ensures StartsWith(kind, "speech_") ==> |kind| >= 7 && kind[1] == 'p'
  {
    if StartsWith(kind, "speech_") {
      assert kind[1] == kind[..7][1] == "speech_"[1];
    }
  }

  /**
   * The job for a negative clip of `kind` at index `globalIndex`, or `None`
   * when the source returns False without rendering: a spoken kind with no
   * synthesizer or an empty voice pool, or a kind it does not know. Spoken
   * negatives pick their phrase from `phrases` (the generator passes
   * `NegativePhrases()`).
   */
  function NegativeRender(kind: string, globalIndex: nat, hasSynthesizer: bool, voicePool: seq<string>,
                          phrases: seq<string>, wakePhrase: string): (r: Option<Render>)
    requires phrases != []
    ensures StartsWith(kind, "speech_") ==> (r.Some? <==> hasSynthesizer && voicePool != [])
    ensures r.Some? && r.value.Spoken? ==> StartsWith(kind, "speech_") && hasSynthesizer && voicePool != []
    ensures r.Some? && r.value.Spoken? ==>
      && r.value.voice == voicePool[globalIndex % |voicePool|]
      && r.value.phrase == PickPhrase(phrases, globalIndex, wakePhrase)
    ensures r.Some? && r.value.Tone? ==> 220 <= r.value.frequency <= 238 || 440 <= r.value.frequency <= 472
    ensures r.Some? && r.value.Noise? ==> r.value.color in ["white", "pink", "brown"]
  {
    SpeechPrefix(kind);
    var tier := Tier(globalIndex);
    if kind == "silence" then Some(Silence)
    else if kind == "white_noise" then Some(Noise("white"))
    else if kind == "pink_noise" then Some(Noise("pink"))
    else if kind == "brown_noise" then Some(Noise("brown"))
    else if kind == "tone_220hz" then Some(Tone(220 + (tier % 7) * 3))
    else if kind == "tone_440hz" then Some(Tone(440 + (tier % 9) * 4))
    else if kind == "dual_tone" then Some(DualTone(220 + (tier % 6) * 2, 440 + (tier % 6) * 3))
    else if kind == "chirp" then Some(Chirp(170 + (tier % 6) * 5, 300 + (tier % 6) * 10))
    else if StartsWith(kind, "speech_") then
      if !hasSynthesizer || voicePool == [] then None
      else
        Some(Spoken(SpeechVariant(kind), voicePool[globalIndex % |voicePool|], PickPhrase(phrases, globalIndex, wakePhrase)))
    else None
  }
}
