/**
 * The security sigil: a threat test on a text (its glitch score, or how
 * often the bare token "lok" occurs), the locked or secure verdict, the
 * sigil derived from the text's hashes, and the palace entry a lock leaves.
 * SHA-1, MD5 and the clock are parameters.
 */
module Sigil {
  import opened Text
  import opened Values
  import opened Vibe
  import Palace

  const SigilPrefix: string := "\U{221E}LOCK"

  /** `SecuritySigil`'s defaults for `threshold_glitch` and `lok_repeat`. */
  const DefaultThresholdGlitch: real := 0.6
  const DefaultLokRepeat: int := 7

  const LockedMessage: string := "System sealed with WE-WE-WE power!"
  const SecureMessage: string := "Nothing suspicious detected."
  const SecurityTag: string := "security_event"

  predicate IsHexDigit(c: char) { '0' <= c <= '9' || 'a' <= c <= 'f' }

  /** A lower-case hexadecimal string of `n` digits, as `hexdigest()` returns. */
  predicate IsHex(s: string, n: nat) {
    |s| == n && forall i :: 0 <= i < |s| ==> IsHexDigit(s[i])
  }

  type Sha1Hex = s: string | IsHex(s, 40) witness "0000000000000000000000000000000000000000"
  type Md5Hex = s: string | IsHex(s, 32) witness "00000000000000000000000000000000"

  /** `Sigil`. */
  datatype SigilRecord = SigilRecord(symbol: string, vibeSignature: string, ts: real)

  /**
   * `_create_sigil`: "∞LOCK-" and the first six hex digits of the text's
   * SHA-1; the signature is the first eight hex digits of its MD5.
   */
  function CreateSigil(text: string, sha1: string -> Sha1Hex, md5: string -> Md5Hex, now: real): (s: SigilRecord)
    ensures |s.symbol| == |SigilPrefix| + 7 && s.symbol[..|SigilPrefix| + 1] == SigilPrefix + "-"
    ensures IsHex(s.symbol[|SigilPrefix| + 1..], 6) && s.symbol[|SigilPrefix| + 1..] <= sha1(text)
    ensures IsHex(s.vibeSignature, 8) && s.vibeSignature <= md5(text)
  {
    var symbol := SigilPrefix + "-" + sha1(text)[..6];
    assert symbol[|SigilPrefix| + 1..] == sha1(text)[..6];
    SigilRecord(symbol, md5(text)[..8], now)
  }

  /** Two texts get the same symbol exactly when their SHA-1 digests agree on the first six digits. */
  lemma SymbolsCollide(a: string, b: string, sha1: string -> Sha1Hex, md5: string -> Md5Hex, now: real)
    ensures CreateSigil(a, sha1, md5, now).symbol == CreateSigil(b, sha1, md5, now).symbol
        <==> sha1(a)[..6] == sha1(b)[..6]
  {
    var sa, sb := CreateSigil(a, sha1, md5, now).symbol, CreateSigil(b, sha1, md5, now).symbol;
    assert sa[|SigilPrefix| + 1..] == sha1(a)[..6];
    assert sb[|SigilPrefix| + 1..] == sha1(b)[..6];
  }

  // ------------------------------------------------------------ threat

  /** `text.lower().split().count("lok")`. */
  function LokCount(text: string): nat {
    Occ(Split(Lower(text)), "lok")
  }

  /** `_is_threat`. */
  predicate IsThreat(text: string, thresholdGlitch: real, lokRepeat: int) {
    GlitchScore(AnalyzeText(text)) >= thresholdGlitch || LokCount(text) >= lokRepeat
  }

  /**
   * A leading token followed by a space adds one to the count exactly when
   * it is "lok" in some case; "lok," or "loks" add nothing.
   */
  lemma LeadingToken(w: string, t: string)
    requires w != [] && forall i :: 0 <= i < |w| ==> !IsSpace(w[i])
    ensures LokCount(w + " " + t) == (if Lower(w) == "lok" then 1 else 0) + LokCount(t)
  {
    var lw, lt := Lower(w), Lower(t);
    LowerSeparated(w, t);
    LowerSpacing(w);
    assert forall i :: 0 <= i < |w| ==> IsNonSpace(w[i]);
    RunsSeparated(lw, ' ', lt, IsNonSpace);
    OccCons(lw, Split(lt), "lok");
  }

  lemma LowerSeparated(w: string, t: string)
    ensures Lower(w + " " + t) == Lower(w) + [' '] + Lower(t)
  {
    LowerAppend(w + " ", t);
    LowerAppend(w, " ");
    assert Lower(" ") == [LowerChar(' ')] + Lower([]);
  }

  /** Lower-casing neither creates nor removes whitespace. */
  lemma LowerSpacing(w: string)
    ensures forall i :: 0 <= i < |w| ==> (IsNonSpace(Lower(w)[i]) <==> IsNonSpace(w[i]))
  {
    forall i | 0 <= i < |w| ensures IsNonSpace(Lower(w)[i]) <==> IsNonSpace(w[i]) {
      var c := w[i];
      assert Lower(w)[i] == LowerChar(c);
      if IsUpper(c) {
        assert 'a' <= LowerChar(c) <= 'z';
      }
    }
  }

  /** "lok" in any case is a single token. */
  lemma LokIsOneToken(w: string)
    requires Lower(w) == "lok"
    ensures w != [] && forall i :: 0 <= i < |w| ==> !IsSpace(w[i])
  {
    LowerSpacing(w);
    assert forall i :: 0 <= i < |w| ==> IsNonSpace(Lower(w)[i]);
  }

  /** `k` copies of `w` followed by a space. */
  function Copies(w: string, k: nat): string {
    if k == 0 then [] else w + " " + Copies(w, k - 1)
  }

  /** Each standalone "lok" in front of a text counts once. */
  lemma {:induction false} LokTokensCount(w: string, k: nat, t: string)
    requires Lower(w) == "lok"
    ensures LokCount(Copies(w, k) + t) == k + LokCount(t)
  {
    if k > 0 {
      LokTokensCount(w, k - 1, t);
      ConcatAssoc(w + " ", Copies(w, k - 1), t);
      LokIsOneToken(w);
      LeadingToken(w, Copies(w, k - 1) + t);
    } else {
      assert Copies(w, k) + t == t;
    }
  }

  /** Seven standalone "lok" tokens, in any case, lock with the default settings whatever the glitch score. */
  lemma SevenLoksLock(w: string, t: string, thresholdGlitch: real)
    requires Lower(w) == "lok"
    ensures IsThreat(Copies(w, 7) + t, thresholdGlitch, DefaultLokRepeat)
  {
    LokTokensCount(w, 7, t);
  }

  // ------------------------------------------------------------ verdict

  /** The dictionary `evaluate` returns. */
  datatype Verdict = Verdict(status: string, sigil: Option<string>, message: string)

  /**
   * `evaluate`'s answer: locked with the sigil's symbol when the text is a
   * threat, otherwise secure with no sigil.
   */
  function Decide(text: string, thresholdGlitch: real, lokRepeat: int, sha1: string -> Sha1Hex, md5: string -> Md5Hex, now: real): (v: Verdict)
    ensures v.status == "locked" <==> IsThreat(text, thresholdGlitch, lokRepeat)
    ensures v.sigil.Some? <==> v.status == "locked"
    ensures v.status == "locked" ==> v.message == LockedMessage && v.sigil == Some(CreateSigil(text, sha1, md5, now).symbol)
    ensures v.status != "locked" ==> v == Verdict("secure", None, SecureMessage)
  {
    if IsThreat(text, thresholdGlitch, lokRepeat) then
      Verdict("locked", Some(CreateSigil(text, sha1, md5, now).symbol), LockedMessage)
    else
      Verdict("secure", None, SecureMessage)
  }

  class SecuritySigil {
    const thresholdGlitch: real
    const lokRepeat: int
    const palace: Palace.MemoryPalace

    /** A shield over the palace it logs to. */
    constructor (thresholdGlitch: real, lokRepeat: int, palace: Palace.MemoryPalace)
      ensures this.thresholdGlitch == thresholdGlitch && this.lokRepeat == lokRepeat && this.palace == palace
    {
      this.thresholdGlitch := thresholdGlitch;
      this.lokRepeat := lokRepeat;
      this.palace := palace;
    }

    /**
     * `evaluate`: the verdict, and on a lock exactly one artefact (the text,
     * tagged "security_event" and the symbol) added to the palace; the secure
     * path leaves the palace alone.
     */
    method Evaluate(text: string, sha1: string -> Sha1Hex, md5: string -> Md5Hex, now: real, stamp: Palace.Stamp) returns (v: Verdict)
      requires palace.Valid()
      modifies palace
      ensures palace.Valid()
      ensures v == Decide(text, thresholdGlitch, lokRepeat, sha1, md5, now)
      ensures v.sigil.Some? ==>
        palace.State() == Palace.Put(old(palace.State()), Palace.Artefact(stamp.id, text, [SecurityTag, v.sigil.value], stamp.ts))
      ensures v.sigil.None? ==> palace.State() == old(palace.State())
    {
      var report := AnalyzeText(text);
      if GlitchScore(report) >= thresholdGlitch || LokCount(text) >= lokRepeat {
        var sigil := CreateSigil(text, sha1, md5, now);
        var _ := palace.Add(text, [SecurityTag, sigil.symbol], stamp);
        v := Verdict("locked", Some(sigil.symbol), LockedMessage);
      } else {
        v := Verdict("secure", None, SecureMessage);
      }
    }
  }
}
