/**
 * The remix kernel: one pass of a text through the original, death, alive,
 * inlive and newbirth phases, and the `_manifest` rewrite that produces the
 * newbirth text. The inlive phase's random network signal is a parameter.
 */
module Remix {
  import opened Text
  import opened Values
  import opened Vibe

  /** `RemixKernel`'s default `glitch_threshold`. */
  const DefaultThreshold: real := 0.5

  /** What `_manifest` appends to a stable text. */
  const Sweetener: string := " \U{1FAE7}\U{1F4BE}\U{1F32B}\U{FE0F} mmm we we we"

  /** How many characters of a toned-down text `_manifest` keeps. */
  const RantLimit: nat := 280

  const PrunedNote: string := "high glitch score \U{2013} pruning unstable patterns"
  const StableNote: string := "stable enough \U{2013} minimal pruning"

  /**
   * `CycleSnapshot`: a labelled bundle captured at one phase. The source's
   * `label` field, the key `to_json` writes, is `phase` here, since `label`
   * is a Dafny keyword.
   */
  datatype Snapshot = Snapshot(phase: string, analysis: map<string, Value>, notes: string)

  /** `RemixCycle`: every phase of one traversal. */
  datatype Cycle = Cycle(original: Snapshot, death: Snapshot, alive: Snapshot, inlive: Snapshot, newbirth: Snapshot)

  /** A report scoring strictly above the threshold is pruned. */
  predicate Unstable(report: VibeReport, threshold: real) {
    GlitchScore(report) > threshold
  }

  function Calm(c: char): char {
    if c == '!' || c == '?' then '.' else c
  }

  /** `text.replace("!", ".").replace("?", ".")`. */
  function ToneDown(s: string): (r: string)
    ensures |r| == |s|
    ensures '!' !in r && '?' !in r
    ensures forall i :: 0 <= i < |s| ==> r[i] == Calm(s[i])
  {
    seq(|s|, i requires 0 <= i < |s| => Calm(s[i]))
  }

  /** Toning down a toned-down text changes nothing. */
  lemma ToneDownIdempotent(s: string)
    ensures ToneDown(ToneDown(s)) == ToneDown(s)
  {
  }

  /**
   * `_manifest`: an unstable text loses its '!' and '?' and is cut to 280
   * characters; a stable one gets the sweetener appended.
   */
  function Manifest(text: string, report: VibeReport, threshold: real): (r: string)
    ensures Unstable(report, threshold) ==>
      && |r| == (if |text| <= RantLimit then |text| else RantLimit)
      && '!' !in r && '?' !in r
      && forall i :: 0 <= i < |r| ==> r[i] == text[i] || (r[i] == '.' && (text[i] == '!' || text[i] == '?'))
    ensures !Unstable(report, threshold) ==> text <= r && r[|text|..] == Sweetener
  {
    if Unstable(report, threshold) then
      var toned := ToneDown(text);
      if |toned| <= RantLimit then toned else toned[..RantLimit]
    else
      text + Sweetener
  }

  /** A score equal to the threshold is not pruned: the text is sweetened. */
  lemma ThresholdIsStrict(text: string, threshold: real)
    requires GlitchScore(AnalyzeText(text)) == threshold
    ensures Manifest(text, AnalyzeText(text), threshold) == text + Sweetener
  {
  }

  predicate IsCoreToken(w: string) { |w| > 3 }

  /** The alive phase's `core_tokens`: whitespace-split words longer than three characters. */
  function CoreTokens(text: string): (n: nat)
    ensures n <= |Split(text)|
    ensures n == 0 <==> forall w :: w in Split(text) ==> |w| <= 3
  {
    var words := Split(text);
    forall w ensures w in Filter(words, IsCoreToken) <==> w in words && IsCoreToken(w) {
      FilterMember(words, IsCoreToken, w);
    }
    var kept := Filter(words, IsCoreToken);
    assert kept != [] ==> kept[0] in kept;
    |kept|
  }

  /**
   * `RemixKernel.remix`: the five snapshots in phase order. The death phase
   * records whether the text was pruned, and the newbirth phase analyses the
   * manifested text.
   */
  function RemixCycle(text: string, threshold: real, signal: real): Cycle
  {
    var report := AnalyzeText(text);
    var pruned := Unstable(report, threshold);
    var deathNotes := [if pruned then PrunedNote else StableNote];
    Cycle(
      Snapshot("original", ToDict(report), "raw perception of incoming artefact"),
      Snapshot("death", map["pruned" := Bool(pruned)], Join(deathNotes, "; ")),
      Snapshot("alive", map["core_tokens" := Int(CoreTokens(text))], "preserved long-form tokens as essence"),
      Snapshot("inlive", map["network_signal" := Real(signal)], "stub \U{2013} would fetch collective intelligence here"),
      Snapshot("newbirth", ToDict(AnalyzeText(Manifest(text, report, threshold))), "evolved artefact generated via _manifest()"))
  }

  /** The five snapshots of a cycle come in phase order, and the inlive phase carries the network signal. */
  lemma CyclePhases(text: string, threshold: real, signal: real)
    ensures var c := RemixCycle(text, threshold, signal);
      && [c.original.phase, c.death.phase, c.alive.phase, c.inlive.phase, c.newbirth.phase]
         == ["original", "death", "alive", "inlive", "newbirth"]
      && c.inlive.analysis == map["network_signal" := Real(signal)]
  {
  }

  /** The original phase analyses the text, and the death phase records whether it was pruned. */
  lemma CycleDeath(text: string, threshold: real, signal: real)
    ensures var c := RemixCycle(text, threshold, signal);
      && c.original.analysis == ToDict(AnalyzeText(text))
      && c.death.analysis == map["pruned" := Bool(Unstable(AnalyzeText(text), threshold))]
      && c.death.notes == (if Unstable(AnalyzeText(text), threshold) then PrunedNote else StableNote)
  {
  }

  /** The alive phase counts at most one core token per word, and the newbirth phase analyses the manifested text. */
  lemma CycleRebirth(text: string, threshold: real, signal: real)
    ensures var c := RemixCycle(text, threshold, signal);
      && c.alive.analysis.Keys == {"core_tokens"}
      && c.alive.analysis["core_tokens"].Int? && 0 <= c.alive.analysis["core_tokens"].i <= |Split(text)|
      && c.newbirth.analysis == ToDict(AnalyzeText(Manifest(text, AnalyzeText(text), threshold)))
  {
  }
}
