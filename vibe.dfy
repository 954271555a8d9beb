/**
 * The vibe sensor: tokenises a text and counts repetition, keysmashes,
 * punctuation runs, sugar words and palindromes, then folds them into a
 * capped glitch score and a comfort index.
 */
module Vibe {
  import opened Text
  import opened Values

  /** The Papiamentu sugar words, spelt as in the source ("ay" then U+00C3 U+00B3). */
  const SugarWords: set<string> := {
    "dushi", "ay\U{C3}\U{B3}", "bon", "bini", "kon", "bo", "ta", "kla", "plase",
    "sinti", "jajajaja", "mmm", "mmmm", "we"
  }

  /** The metrics of one analysed text. */
  datatype VibeReport = VibeReport(
    length: nat,
    wordCount: nat,
    repetitionRate: real,
    keysmashHits: nat,
    punctOverload: nat,
    sugarHits: nat,
    palindromeHits: nat)

  // ------------------------------------------------------------ words

  /** The class `[\w']`. */
  predicate IsTokenChar(c: char) { IsWordChar(c) || c == '\'' }

  /** `re.findall(r"[\w']+", text.lower())`. */
  function Words(text: string): seq<string> {
    Runs(Lower(text), IsTokenChar)
  }

  /** `ws` with every copy of `w` removed. */
  function Without(ws: seq<string>, w: string): (r: seq<string>)
    ensures |r| + Occ(ws, w) == |ws|
    ensures Occ(r, w) == 0
    ensures forall v :: v != w ==> Occ(r, v) == Occ(ws, v)
  {
    if ws == [] then []
    else if ws[0] == w then Without(ws[1..], w)
    else
      var r := [ws[0]] + Without(ws[1..], w);
      assert forall v :: Occ(r, v) == (if ws[0] == v then 1 else 0) + Occ(Without(ws[1..], w), v) by {
        forall v { OccCons(ws[0], Without(ws[1..], w), v); }
      }
      r
  }

  /**
   * `sum(c for c in Counter(ws).values() if c > 1)`: the distinct tokens
   * are visited in first-seen order, as a Counter lists them, and each one
   * occurring more than once adds its count.
   */
  function RepeatedTokens(ws: seq<string>): (n: nat)
    ensures n <= |ws|
    decreases |ws|
  {
    if ws == [] then 0
    else
      var c := Occ(ws, ws[0]);
      (if c > 1 then c else 0) + RepeatedTokens(Without(ws, ws[0]))
  }

  /** No token is repeated exactly when the repeated-token sum is zero. */
  lemma {:induction false} RepeatedTokensZero(ws: seq<string>)
    ensures RepeatedTokens(ws) == 0 <==> forall w :: Occ(ws, w) <= 1
    decreases |ws|
  {
    if ws != [] {
      var w0 := ws[0];
      var rest := Without(ws, w0);
      var c := Occ(ws, w0);
      RepeatedTokensZero(rest);
      assert RepeatedTokens(ws) == (if c > 1 then c else 0) + RepeatedTokens(rest);
      if RepeatedTokens(ws) == 0 {
        forall w ensures Occ(ws, w) <= 1 {
          if w != w0 {
            assert Occ(rest, w) == Occ(ws, w);
          }
        }
      } else if c <= 1 {
        var w :| Occ(rest, w) > 1;
        assert Occ(ws, w) > 1;
      } else {
        assert Occ(ws, w0) > 1;
      }
    }
  }

  lemma RatioBounds(n: real, d: real)
    requires 0.0 <= n <= d && d > 0.0
    ensures 0.0 <= n / d <= 1.0
    ensures n / d == 0.0 <==> n == 0.0
  {
  }

  /** `_calc_repetition_rate`: the repeated-token sum over the word count, 0 for no words. */
  function RepetitionRate(ws: seq<string>): (r: real)
    ensures 0.0 <= r <= 1.0
    ensures ws == [] ==> r == 0.0
  {
    if ws == [] then 0.0
    else
      var n, d := RepeatedTokens(ws) as real, |ws| as real;
      RatioBounds(n, d);
      n / d
  }

  /** The rate is zero exactly when no token occurs twice. */
  lemma RepetitionRateZero(ws: seq<string>)
    ensures RepetitionRate(ws) == 0.0 <==> forall w :: Occ(ws, w) <= 1
  {
    RepeatedTokensZero(ws);
    if ws != [] {
      RatioBounds(RepeatedTokens(ws) as real, |ws| as real);
    }
  }

  // ------------------------------------------------------------ keysmash

  predicate IsLongRun(r: string) { |r| >= 3 }

  /** `re.findall(r"[a-z]{3,}", text.lower(), re.IGNORECASE)`: the letter runs of three or more. */
  function SmashCandidates(text: string): seq<string> {
    Filter(Runs(Lower(text), IsAsciiLetter), IsLongRun)
  }

  predicate HasSmashPattern(c: string) {
    Contains(c, "sksk") || Contains(c, "asdf") || Contains(c, "dfgh") || Contains(c, "ghjk")
  }

  function DistinctChars(c: string): set<char> {
    set ch | ch in c
  }

  /** The test `_detect_keysmash` applies to one candidate. */
  predicate IsKeysmash(c: string) {
    && |c| >= 6
    && c !in SugarWords
    && (|| HasSmashPattern(c)
        || (|DistinctChars(c)| > 4 && exists i :: 0 <= i < |c| && IsAsciiLetter(c[i])))
  }

  /** The list `_detect_keysmash` returns. */
  function Keysmashes(text: string): seq<string> {
    Filter(SmashCandidates(text), IsKeysmash)
  }

  /** `_detect_keysmash`: walks the candidates and keeps the keysmashes, in order. */
  method DetectKeysmash(text: string) returns (filtered: seq<string>)
    ensures filtered == Keysmashes(text)
  {
    var candidates := SmashCandidates(text);
    filtered := [];
    for i := 0 to |candidates|
      invariant filtered == Filter(candidates[..i], IsKeysmash)
    {
      var c := candidates[i];
      assert candidates[..i + 1][..i] == candidates[..i];
      if |c| >= 6 && c !in SugarWords {
        if HasSmashPattern(c) {
          filtered := filtered + [c];
        } else if |DistinctChars(c)| > 4 && exists j :: 0 <= j < |c| && IsAsciiLetter(c[j]) {
          filtered := filtered + [c];
        }
      }
    }
    assert candidates[..|candidates|] == candidates;
  }

  /**
   * Every keysmash is a maximal run of letters of the lowercased text, at
   * least six long, not a sugar word, and either holds a typical pattern
   * or more than four distinct letters; they keep the text's order.
   */
  lemma KeysmashesAreLetterRuns(text: string)
    ensures IsSubseq(Keysmashes(text), Runs(Lower(text), IsAsciiLetter))
    ensures forall k :: k in Keysmashes(text) ==>
      && |k| >= 6
      && k !in SugarWords
      && (forall i :: 0 <= i < |k| ==> IsAsciiLetter(k[i]))
      && (HasSmashPattern(k) || |DistinctChars(k)| > 4)
  {
    var runs := Runs(Lower(text), IsAsciiLetter);
    FilterIsSubseq(runs, IsLongRun);
    FilterIsSubseq(SmashCandidates(text), IsKeysmash);
    SubseqTransitive(Keysmashes(text), SmashCandidates(text), runs);
    RunsCover(Lower(text), IsAsciiLetter);
  }

  // ------------------------------------------------------------ repeated characters

  /** Length of the run of copies of `s[0]` that starts `s`. */
  function SameRunLen(s: string): (n: nat)
    requires s != []
    ensures 1 <= n <= |s|
    ensures forall i :: 0 <= i < n ==> s[i] == s[0]
    ensures n < |s| ==> s[n] != s[0]
  {
    if |s| == 1 || s[1] != s[0] then 1 else 1 + SameRunLen(s[1..])
  }

  /**
   * The number of matches `re.findall(r"(.)\1{2,}")` finds when the
   * group's class is `ok`: scanning left to right, a match needs three
   * equal characters in a row and, being greedy, takes the rest of their run.
   */
  function ScanRepeats(s: string, ok: char -> bool): nat
    decreases |s|
  {
    if |s| < 3 then 0
    else if ok(s[0]) && s[1] == s[0] && s[2] == s[0] then 1 + ScanRepeats(s[SameRunLen(s)..], ok)
    else ScanRepeats(s[1..], ok)
  }

  /** One maximal run of a repeated character. */
  datatype Run = Run(ch: char, len: nat)

  /** The run-length encoding of `s`. */
  function RunLengths(s: string): seq<Run>
    decreases |s|
  {
    if s == [] then [] else [Run(s[0], SameRunLen(s))] + RunLengths(s[SameRunLen(s)..])
  }

  function Repeat(c: char, n: nat): (r: string)
    ensures |r| == n && forall i :: 0 <= i < n ==> r[i] == c
  {
    if n == 0 then [] else [c] + Repeat(c, n - 1)
  }

  function Expand(rs: seq<Run>): string {
    if rs == [] then [] else Repeat(rs[0].ch, rs[0].len) + Expand(rs[1..])
  }

  /** The runs spell `s` back, and neighbouring runs differ in their character. */
  lemma {:induction false} RunLengthsSound(s: string)
    ensures Expand(RunLengths(s)) == s
    ensures forall i :: 0 <= i < |RunLengths(s)| ==> RunLengths(s)[i].len >= 1
    ensures forall i :: 0 <= i < |RunLengths(s)| - 1 ==> RunLengths(s)[i].ch != RunLengths(s)[i + 1].ch
    decreases |s|
  {
    if s != [] {
      var n := SameRunLen(s);
      var rest := s[n..];
      RunLengthsSound(rest);
      assert s == Repeat(s[0], n) + rest;
      var rs := RunLengths(s);
      assert rs[1..] == RunLengths(rest);
      if rest != [] {
        assert RunLengths(rest)[0].ch == rest[0];
      }
    }
  }

  /** The runs of at least three copies of a character in `ok`. */
  function CountLongRuns(rs: seq<Run>, ok: char -> bool): nat {
    if rs == [] then 0
    else (if ok(rs[0].ch) && rs[0].len >= 3 then 1 else 0) + CountLongRuns(rs[1..], ok)
  }

  lemma SameRunLenTail(s: string)
    requires |s| >= 2 && s[1] == s[0]
    ensures SameRunLen(s[1..]) == SameRunLen(s) - 1
  {
  }

  /**
   * The scan counts each maximal run of three or more copies of a
   * character in `ok` exactly once.
   */
  lemma {:induction false} ScanCountsLongRuns(s: string, ok: char -> bool)
    ensures ScanRepeats(s, ok) == CountLongRuns(RunLengths(s), ok)
    decreases |s|
  {
    if s != [] {
      var n := SameRunLen(s);
      if |s| >= 3 && !(ok(s[0]) && s[1] == s[0] && s[2] == s[0]) {
        ScanCountsLongRuns(s[1..], ok);
        DropFirstOfShortRun(s, ok);
      } else {
        ScanCountsLongRuns(s[n..], ok);
        HeadRun(s, ok);
      }
    }
  }

  /** The run-length encoding's first run, and the runs after it. */
  lemma HeadRun(s: string, ok: char -> bool)
    requires s != []
    ensures CountLongRuns(RunLengths(s), ok) ==
      (if ok(s[0]) && SameRunLen(s) >= 3 then 1 else 0) + CountLongRuns(RunLengths(s[SameRunLen(s)..]), ok)
  {
    assert RunLengths(s)[1..] == RunLengths(s[SameRunLen(s)..]);
  }

  /**
   * Dropping the first character of a run that is not counted leaves the
   * count unchanged.
   */
  lemma DropFirstOfShortRun(s: string, ok: char -> bool)
    requires |s| >= 2 && !(ok(s[0]) && SameRunLen(s) >= 3)
    ensures CountLongRuns(RunLengths(s[1..]), ok) == CountLongRuns(RunLengths(s), ok)
  {
    var n := SameRunLen(s);
    HeadRun(s, ok);
    HeadRun(s[1..], ok);
    if n >= 2 {
      SameRunLenTail(s);
      assert s[1..][n - 1..] == s[n..];
    }
  }

  predicate IsNotNewline(c: char) { c != '\n' }

  predicate IsRepeatPunct(c: char) { c == '!' || c == '?' || c == '.' }

  // ------------------------------------------------------------ report

  predicate IsSugar(w: string) { w in SugarWords }

  predicate IsPalindrome(w: string) { |w| > 2 && w == Reverse(w) }

  /** A palindrome reads the same from both ends. */
  lemma PalindromeMirror(w: string)
    ensures IsPalindrome(w) <==> |w| > 2 && forall i :: 0 <= i < |w| ==> w[i] == w[|w| - 1 - i]
  {
    forall i | 0 <= i < |w| {
      ReverseAt(w, i);
    }
  }

  /** `analyze_text`. */
  function AnalyzeText(text: string): (r: VibeReport)
    ensures r.length == |text|
    ensures r.wordCount <= |text|
    ensures r.sugarHits <= r.wordCount && r.palindromeHits <= r.wordCount
    ensures 0.0 <= r.repetitionRate <= 1.0
    ensures r.wordCount == 0 ==> r.repetitionRate == 0.0
  {
    var words := Words(text);
    RunsCover(Lower(text), IsTokenChar);
    VibeReport(
      |text|,
      |words|,
      RepetitionRate(words),
      ScanRepeats(text, IsNotNewline) + |Keysmashes(text)|,
      ScanRepeats(text, IsRepeatPunct),
      |Filter(words, IsSugar)|,
      |Filter(words, IsPalindrome)|)
  }

  /** punct_overload counts each maximal run of three or more identical '!', '?' or '.' once. */
  lemma PunctOverloadCountsRuns(text: string)
    ensures AnalyzeText(text).punctOverload == CountLongRuns(RunLengths(text), IsRepeatPunct)
  {
    ScanCountsLongRuns(text, IsRepeatPunct);
  }

  function Min(x: real, y: real): real { if x <= y then x else y }

  /** `VibeReport.glitch_score`, before its rounding to three decimals. */
  function GlitchScore(r: VibeReport): (g: real)
    ensures r.repetitionRate >= 0.0 ==> 0.0 <= g
    ensures g <= 1.0
  {
    var score := 0.0;
    var score := score + Min(r.repetitionRate, 1.0) * 0.25;
    var score := score + Min(r.keysmashHits as real / 5.0, 1.0) * 0.25;
    var score := score + Min(r.punctOverload as real / 5.0, 1.0) * 0.25;
    var score := score + Min(r.sugarHits as real / 5.0, 1.0) * 0.25;
    score
  }

  /** The glitch score never falls when any of its four metrics rises. */
  lemma GlitchScoreMonotone(a: VibeReport, b: VibeReport)
    requires a.repetitionRate <= b.repetitionRate
    requires a.keysmashHits <= b.keysmashHits
    requires a.punctOverload <= b.punctOverload
    requires a.sugarHits <= b.sugarHits
    ensures GlitchScore(a) <= GlitchScore(b)
  {
  }

  /** `VibeReport.comfort_index`. */
  function ComfortIndex(r: VibeReport): (c: real)
    ensures 0.0 <= c <= 1.0
    ensures c == 1.0 <==> r.palindromeHits >= 3
  {
    Min(r.palindromeHits as real / 3.0, 1.0)
  }

  const ReportKeys: set<string> := {
    "length", "word_count", "repetition_rate", "keysmash_hits", "punct_overload",
    "sugar_hits", "palindrome_hits", "glitch_score", "comfort_index"
  }

  /** `VibeReport.to_dict`: the seven fields plus the two derived scores. */
  function ToDict(r: VibeReport): (d: map<string, Value>)
    ensures d.Keys == ReportKeys
    ensures d["length"] == Int(r.length) && d["word_count"] == Int(r.wordCount)
    ensures d["repetition_rate"] == Real(r.repetitionRate)
    ensures d["keysmash_hits"] == Int(r.keysmashHits) && d["punct_overload"] == Int(r.punctOverload)
    ensures d["sugar_hits"] == Int(r.sugarHits) && d["palindrome_hits"] == Int(r.palindromeHits)
    ensures d["glitch_score"] == Real(GlitchScore(r)) && d["comfort_index"] == Real(ComfortIndex(r))
  {
    map[
      "length" := Int(r.length),
      "word_count" := Int(r.wordCount),
      "repetition_rate" := Real(r.repetitionRate),
      "keysmash_hits" := Int(r.keysmashHits),
      "punct_overload" := Int(r.punctOverload),
      "sugar_hits" := Int(r.sugarHits),
      "palindrome_hits" := Int(r.palindromeHits),
      "glitch_score" := Real(GlitchScore(r)),
      "comfort_index" := Real(ComfortIndex(r))
    ]
  }
}
