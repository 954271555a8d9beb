/**
 * The cloak translator: an ordered fold of case-insensitive regex
 * substitutions from playful words to corporate phrases, and back through
 * a reverse map built from the phrases' capital letters.
 */
module Cloak {
  import opened Text
  import opened Values

  // ------------------------------------------------------------ patterns

  /**
   * The regular expressions the translator uses, all under `re.IGNORECASE`:
   * `\b` + a literal + `\b`, a bare literal, and `\bmmm+\b`.
   */
  datatype Pattern = Word(w: string) | Phrase(s: string) | MRun

  /**
   * Text character `c` matches pattern character `p` under `re.IGNORECASE`:
   * the same lower case, or one of the extra Unicode equivalents of
   * `s`, `k` and `i` (long s, Kelvin sign, dotted and dotless i).
   */
  predicate FoldsTo(c: char, p: char) {
    || LowerChar(c) == LowerChar(p)
    || (LowerChar(p) == 's' && c == '\U{17F}')
    || (LowerChar(p) == 'k' && c == '\U{212A}')
    || (LowerChar(p) == 'i' && (c == '\U{130}' || c == '\U{131}'))
  }

  /** The literal `w` matches `t` at `i`, ignoring case. */
  predicate LitAt(t: string, i: nat, w: string) {
    i + |w| <= |t| && forall j :: 0 <= j < |w| ==> FoldsTo(t[i + j], w[j])
  }

  /** `\b` at `i`: a word character on exactly one side. */
  predicate Boundary(t: string, i: nat)
    requires i <= |t|
  {
    (i > 0 && IsWordChar(t[i - 1])) != (i < |t| && IsWordChar(t[i]))
  }

  predicate IsM(c: char) { c == 'm' || c == 'M' }

  /** Length of the match of `p` starting at `i`, or 0 when `p` does not match there. */
  function MatchLen(p: Pattern, t: string, i: nat): (n: nat)
    requires i <= |t|
    ensures i + n <= |t|
  {
    match p
    case Word(w) =>
      if |w| > 0 && LitAt(t, i, w) && Boundary(t, i) && Boundary(t, i + |w|) then |w| else 0
    case Phrase(s) =>
      if |s| > 0 && LitAt(t, i, s) then |s| else 0
    case MRun =>
      var r := PrefixLen(t[i..], IsM);
      if r >= 3 && Boundary(t, i) && Boundary(t, i + r) then r else 0
  }

  /**
   * `\bmmm+\b` can only end where the run of m's ends: a shorter match
   * would end between two m's, which is no word boundary. So the greedy
   * match MatchLen takes is the only one.
   */
  lemma MRunOnlyMaximal(t: string, i: nat, k: nat)
    requires i <= |t|
    requires 3 <= k < PrefixLen(t[i..], IsM)
    ensures !Boundary(t, i + k)
  {
    assert t[i + k - 1] == t[i..][k - 1] && t[i + k] == t[i..][k];
  }

  // ------------------------------------------------------------ re.sub

  /**
   * `re.sub(p, r, t[i..])` once the template has become the string `r`:
   * scanning left to right, each match is replaced and scanning resumes
   * after it; other characters are copied.
   */
  function SubFrom(p: Pattern, r: string, t: string, i: nat): string
    requires i <= |t|
    decreases |t| - i
  {
    if i == |t| then []
    else
      var n := MatchLen(p, t, i);
      if n > 0 then r + SubFrom(p, r, t, i + n) else [t[i]] + SubFrom(p, r, t, i + 1)
  }

  /** Where nothing matches, the rest of the text is copied unchanged. */
  lemma {:induction false} SubNoMatch(p: Pattern, r: string, t: string, i: nat)
    requires i <= |t|
    requires forall j :: i <= j < |t| ==> MatchLen(p, t, j) == 0
    ensures SubFrom(p, r, t, i) == t[i..]
    decreases |t| - i
  {
    if i < |t| {
      SubNoMatch(p, r, t, i + 1);
      assert t[i..] == [t[i]] + t[i + 1..];
    }
  }

  /** Where `p` does not match, one character is copied in front of the rest of the scan. */
  lemma SubCopy(p: Pattern, r: string, t: string, i: nat, m: nat, u: string)
    requires i < m <= |t| && MatchLen(p, t, i) == 0
    requires SubFrom(p, r, t, i + 1) == t[i + 1..m] + u
    ensures SubFrom(p, r, t, i) == t[i..m] + u
  {
    assert t[i..m] == [t[i]] + t[i + 1..m];
    ConcatAssoc([t[i]], t[i + 1..m], u);
  }

  /** Where `p` matches, the replacement is written and the scan skips the match. */
  lemma SubReplace(p: Pattern, r: string, t: string, m: nat)
    requires m < |t| && MatchLen(p, t, m) > 0
    ensures SubFrom(p, r, t, m) == r + SubFrom(p, r, t, m + MatchLen(p, t, m))
  {
  }

  /**
   * The leftmost match is the first one replaced: everything before it is
   * copied, then the replacement, then the scan goes on after the match.
   */
  lemma {:induction false} SubFirstMatch(p: Pattern, r: string, t: string, i: nat, m: nat)
    requires i <= m < |t|
    requires forall j :: i <= j < m ==> MatchLen(p, t, j) == 0
    requires MatchLen(p, t, m) > 0
    ensures SubFrom(p, r, t, i) == t[i..m] + r + SubFrom(p, r, t, m + MatchLen(p, t, m))
    decreases m - i
  {
    var rest := SubFrom(p, r, t, m + MatchLen(p, t, m));
    if i < m {
      SubFirstMatch(p, r, t, i + 1, m);
      ConcatAssoc(t[i + 1..m], r, rest);
      SubCopy(p, r, t, i, m, r + rest);
      ConcatAssoc(t[i..m], r, rest);
    } else {
      SubReplace(p, r, t, m);
      assert t[i..m] == [];
    }
  }

  // ------------------------------------------------------------ replacement templates

  /**
   * The replacement string `re.sub` builds from a template: `\a \b \f \n
   * \r \t \v \\` become the control character or the backslash, a
   * backslash before another non-letter stays as written, and a backslash
   * before any other ASCII letter, or at the very end, is an error.
   * Group references (`\g<…>`, `\1`) count as errors here: no template of
   * the translator uses one.
   */
  function Expand(t: string): (r: Option<string>)
    decreases |t|
  {
    if t == [] then Some([])
    else if t[0] != '\\' then
      match Expand(t[1..]) case None => None case Some(rest) => Some([t[0]] + rest)
    else if |t| == 1 then None
    else
      var c := t[1];
      var head :=
        if c == 'a' then Some("\U{07}")
        else if c == 'b' then Some("\U{08}")
        else if c == 'f' then Some("\U{0C}")
        else if c == 'n' then Some("\n")
        else if c == 'r' then Some("\r")
        else if c == 't' then Some("\t")
        else if c == 'v' then Some("\U{0B}")
        else if c == '\\' then Some("\\")
        else if c == 'g' || IsAsciiLetter(c) || IsDigit(c) then None
        else Some(['\\', c]);
      match head
      case None => None
      case Some(h) =>
        match Expand(t[2..]) case None => None case Some(rest) => Some(h + rest)
  }

  /** A template without a backslash is its own replacement. */
  lemma {:induction false} ExpandPlain(t: string)
    requires '\\' !in t
    ensures Expand(t) == Some(t)
    decreases |t|
  {
    if t != [] {
      assert t[0] in t && '\\' !in t[1..];
      ExpandPlain(t[1..]);
      assert [t[0]] + t[1..] == t;
    }
  }

  /** One substitution rule: a pattern and its replacement template. */
  datatype Rule = Rule(pat: Pattern, template: string)

  /** `re.sub(rule.pat, rule.template, t, flags=re.I)`; `None` when the template is rejected. */
  function Sub(rule: Rule, t: string): Option<string> {
    match Expand(rule.template)
    case None => None
    case Some(r) => Some(SubFrom(rule.pat, r, t, 0))
  }

  // ------------------------------------------------------------ _apply

  /** The rules applied in order, each to the previous one's output. */
  function Applied(rules: seq<Rule>, t: string): Option<string>
    decreases |rules|
  {
    if rules == [] then Some(t)
    else
      match Applied(rules[..|rules| - 1], t)
      case None => None
      case Some(u) => Sub(rules[|rules| - 1], u)
  }

  /** Once a rule has failed, the whole fold fails. */
  lemma {:induction false} AppliedFailStays(rules: seq<Rule>, n: nat, t: string)
    requires n <= |rules|
    requires Applied(rules[..n], t).None?
    ensures Applied(rules, t).None?
    decreases |rules|
  {
    if n < |rules| {
      var front := rules[..|rules| - 1];
      assert front[..n] == rules[..n];
      AppliedFailStays(front, n, t);
    } else {
      assert rules[..n] == rules;
    }
  }

  /** Applying two lists of rules in a row is applying their concatenation. */
  lemma {:induction false} AppliedAppend(a: seq<Rule>, b: seq<Rule>, t: string)
    ensures Applied(a + b, t) == match Applied(a, t) case None => None case Some(u) => Applied(b, u)
    decreases |b|
  {
    if b == [] {
      assert a + b == a;
    } else {
      var b' := b[..|b| - 1];
      AppliedAppend(a, b', t);
      assert (a + b)[..|a + b| - 1] == a + b';
    }
  }

  /** When every template is accepted, the fold never fails. */
  lemma {:induction false} AppliedDefined(rules: seq<Rule>, t: string)
    requires forall j :: 0 <= j < |rules| ==> Expand(rules[j].template).Some?
    ensures Applied(rules, t).Some?
    decreases |rules|
  {
    if rules != [] {
      AppliedDefined(rules[..|rules| - 1], t);
    }
  }

  /** When no rule matches anywhere in `t`, the fold gives `t` back. */
  lemma {:induction false} AppliedNoMatch(rules: seq<Rule>, t: string)
    requires forall j :: 0 <= j < |rules| ==> Expand(rules[j].template).Some?
    requires forall j, i :: 0 <= j < |rules| && 0 <= i < |t| ==> MatchLen(rules[j].pat, t, i) == 0
    ensures Applied(rules, t) == Some(t)
    decreases |rules|
  {
    if rules != [] {
      var last := rules[|rules| - 1];
      AppliedNoMatch(rules[..|rules| - 1], t);
      SubNoMatch(last.pat, Expand(last.template).value, t, 0);
    }
  }

  /**
   * `_apply`: each (pattern, replacement) pair in order, each applied to
   * the previous output; a rejected template stops it with an error.
   */
  method Apply(text: string, rules: seq<Rule>) returns (r: Option<string>)
    ensures r == Applied(rules, text)
  {
    var t := text;
    for i := 0 to |rules|
      invariant Applied(rules[..i], text) == Some(t)
    {
      assert rules[..i + 1][..i] == rules[..i];
      var next := Sub(rules[i], t);
      if next.None? {
        AppliedFailStays(rules, i + 1, text);
        return None;
      }
      t := next.value;
    }
    assert rules[..|rules|] == rules;
    return Some(t);
  }

  // ------------------------------------------------------------ the mappings

  /**
   * A corporate phrase: the words before its parenthesis, each with the
   * space or hyphen that follows it, the acronym in the parenthesis, and
   * whatever follows the parenthesis.
   */
  datatype Gloss = Gloss(lead: seq<string>, acronym: string, tail: string)

  /** The phrase as the source spells it. */
  function Corp(g: Gloss): string {
    Concat(g.lead) + "(" + g.acronym + ")" + g.tail
  }

  /** One pair of `_PLAYFUL_TO_CORP`: a playful pattern and its corporate phrase. */
  datatype Entry = Entry(pat: Pattern, gloss: Gloss)

  const Qere := Entry(Word("jajajaja"), Gloss(["Quantum ", "Emotional ", "Resonance ", "Event "], "QERE", ""))
  const Mmbc := Entry(MRun, Gloss(["Micro-", "Meditative ", "Breath ", "Cycle "], "MMBC", ""))
  const Ssa := Entry(Word("we we we"), Gloss(["Synchronous ", "Stakeholder ", "Alignment "], "SSA", ""))
  const Piruc := Entry(Word("lamentwave"), Gloss(["Post-", "Incident ", "Reflective ", "Uplift ", "Cycle "], "PIRUC", ""))
  const Pmds := Entry(Word("sugar-blown"), Gloss(["Poly-", "Mer ", "Dextrose ", "Sculpting "], "PMDS", ""))
  const Sadn := Entry(Word("SADnetTM"),
    Gloss(["Sentient ", "Appliance ", "Distributed ", "Network ", "\U{2014} ", "Tier-", "Managed "], "SADN/TM", ""))
  const Nrg := Entry(Word("containment fiction"), Gloss(["Narrative ", "Resilience ", "Gateway "], "NRG", " breach"))

  /** `_PLAYFUL_TO_CORP`, in its order. */
  const PlayfulToCorp: seq<Entry> := [Qere, Mmbc, Ssa, Piruc, Pmds, Sadn, Nrg]

  /** A literal as a regex source, with its hyphens escaped as in `sugar\-blown`. */
  function EscapeHyphens(w: string): string
    decreases |w|
  {
    if w == [] then []
    else (if w[0] == '-' then "\\-" else [w[0]]) + EscapeHyphens(w[1..])
  }

  /** The regex source a pattern is written as: `\bjajajaja\b`, `\bmmm+\b`, … */
  function Render(p: Pattern): string {
    match p
    case Word(w) => "\\b" + EscapeHyphens(w) + "\\b"
    case Phrase(s) => s
    case MRun => "\\bmmm+\\b"
  }

  /** `cloak`'s rules: each playful pattern, replaced by its corporate phrase. */
  function CloakRules(entries: seq<Entry>): (rules: seq<Rule>)
    ensures |rules| == |entries|
  {
    seq(|entries|, j requires 0 <= j < |entries| => Rule(entries[j].pat, Corp(entries[j].gloss)))
  }

  /** `cloak(text)`: `_apply` over `_PLAYFUL_TO_CORP`. */
  function Cloaked(text: string): Option<string> {
    Applied(CloakRules(PlayfulToCorp), text)
  }

  // ------------------------------------------------------------ facts about the table

  /**
   * A phrase without backslashes, so that `re.sub` takes it literally, and
   * starting with a capital.
   */
  predicate CleanGloss(g: Gloss) {
    && (forall j :: 0 <= j < |g.lead| ==> '\\' !in g.lead[j])
    && '\\' !in g.acronym && '\\' !in g.tail
    && |g.lead| > 0 && |g.lead[0]| > 0 && IsUpper(g.lead[0][0])
  }

  /**
   * A pattern whose `\b` ends `str.strip("\\b")` can take off cleanly: a
   * literal without backslashes that neither starts with `b`, `\` or `-`
   * nor ends with `b` or `\`; or `\bmmm+\b`.
   */
  predicate CleanPattern(p: Pattern) {
    match p
    case Word(w) =>
      && |w| > 0 && '\\' !in w
      && w[0] != 'b' && w[0] != '\\' && w[0] != '-'
      && w[|w| - 1] != 'b' && w[|w| - 1] != '\\'
    case Phrase(_) => false
    case MRun => true
  }

  predicate Clean(e: Entry) { CleanGloss(e.gloss) && CleanPattern(e.pat) }

  lemma CleanPatterns()
    ensures forall j :: 0 <= j < |PlayfulToCorp| ==> CleanPattern(PlayfulToCorp[j].pat)
  {
  }

  lemma CleanQere() ensures CleanGloss(Qere.gloss) { }
  lemma CleanMmbc() ensures CleanGloss(Mmbc.gloss) { }
  lemma CleanSsa() ensures CleanGloss(Ssa.gloss) { }
  lemma CleanPiruc() ensures CleanGloss(Piruc.gloss) { }
  lemma CleanPmds() ensures CleanGloss(Pmds.gloss) { }
  lemma CleanSadn() ensures CleanGloss(Sadn.gloss) { }
  lemma CleanNrg() ensures CleanGloss(Nrg.gloss) { }

  lemma BracketedQere() ensures Bracketed(Qere.gloss) { }
  lemma BracketedMmbc() ensures Bracketed(Mmbc.gloss) { }
  lemma BracketedSsa() ensures Bracketed(Ssa.gloss) { }
  lemma BracketedPiruc() ensures Bracketed(Piruc.gloss) { }
  lemma BracketedPmds() ensures Bracketed(Pmds.gloss) { }
  lemma BracketedSadn() ensures Bracketed(Sadn.gloss) { }
  lemma BracketedNrg() ensures Bracketed(Nrg.gloss) { }

  lemma TableClean()
    ensures forall j :: 0 <= j < |PlayfulToCorp| ==> Clean(PlayfulToCorp[j]) && Bracketed(PlayfulToCorp[j].gloss)
  {
    CleanPatterns();
    CleanQere(); CleanMmbc(); CleanSsa(); CleanPiruc(); CleanPmds(); CleanSadn(); CleanNrg();
    BracketedQere(); BracketedMmbc(); BracketedSsa(); BracketedPiruc(); BracketedPmds(); BracketedSadn(); BracketedNrg();
  }

  /** The first letters of the seven phrases, in table order. */
  const Initials: string := "QMSPPSN"

  lemma FirstCapitals()
    ensures forall j :: 0 <= j < |PlayfulToCorp| ==> |PlayfulToCorp[j].gloss.lead| > 0 && |PlayfulToCorp[j].gloss.lead[0]| > 0
    ensures forall j :: 0 <= j < |PlayfulToCorp| ==> PlayfulToCorp[j].gloss.lead[0][0] == Initials[j]
  {
  }

  // ------------------------------------------------------------ strings of the table

  lemma {:induction false} ConcatAvoids(rs: seq<string>, c: char)
    requires forall j :: 0 <= j < |rs| ==> c !in rs[j]
    ensures c !in Concat(rs)
    decreases |rs|
  {
    if rs != [] {
      ConcatAvoids(rs[1..], c);
    }
  }

  /** A clean phrase holds no backslash and starts with its first capital. */
  lemma CorpShape(g: Gloss)
    requires CleanGloss(g)
    ensures '\\' !in Corp(g)
    ensures |Corp(g)| > 0 && Corp(g)[0] == g.lead[0][0]
  {
    ConcatAvoids(g.lead, '\\');
    assert Concat(g.lead) == g.lead[0] + Concat(g.lead[1..]);
  }

  /** Every replacement `cloak` uses is its corporate phrase, taken literally. */
  lemma CloakTemplatesPlain()
    ensures forall j :: 0 <= j < |PlayfulToCorp| ==>
      Expand(CloakRules(PlayfulToCorp)[j].template) == Some(Corp(PlayfulToCorp[j].gloss))
  {
    TableClean();
    forall j | 0 <= j < |PlayfulToCorp|
      ensures Expand(CloakRules(PlayfulToCorp)[j].template) == Some(Corp(PlayfulToCorp[j].gloss))
    {
      CorpShape(PlayfulToCorp[j].gloss);
      ExpandPlain(Corp(PlayfulToCorp[j].gloss));
    }
  }

  /** `cloak` never fails, and text that none of the playful patterns matches comes back unchanged. */
  lemma CloakUnchanged(text: string)
    ensures Cloaked(text).Some?
    ensures (forall j, i :: 0 <= j < |PlayfulToCorp| && 0 <= i < |text| ==> MatchLen(PlayfulToCorp[j].pat, text, i) == 0)
            ==> Cloaked(text) == Some(text)
  {
    CloakTemplatesPlain();
    AppliedDefined(CloakRules(PlayfulToCorp), text);
    if forall j, i :: 0 <= j < |PlayfulToCorp| && 0 <= i < |text| ==> MatchLen(PlayfulToCorp[j].pat, text, i) == 0 {
      AppliedNoMatch(CloakRules(PlayfulToCorp), text);
    }
  }

  /** `cloak`: the playful-to-corporate rules, in order. */
  method CloakText(text: string) returns (r: string)
    ensures Cloaked(text) == Some(r)
  {
    CloakUnchanged(text);
    var o := Apply(text, CloakRules(PlayfulToCorp));
    r := o.value;
  }

  // ------------------------------------------------------------ the reverse map

  /** `re.sub(r"[^A-Z]+", "", v).lower()`: the capitals of `v`, in lower case. */
  function AcronymKey(v: string): string
    decreases |v|
  {
    if v == [] then [] else (if IsUpper(v[0]) then [LowerChar(v[0])] else []) + AcronymKey(v[1..])
  }

  lemma {:induction false} AcronymKeyAppend(a: string, b: string)
    ensures AcronymKey(a + b) == AcronymKey(a) + AcronymKey(b)
    decreases |a|
  {
    if a == [] {
      assert a + b == b;
    } else {
      var h := if IsUpper(a[0]) then [LowerChar(a[0])] else [];
      assert (a + b)[0] == a[0] && (a + b)[1..] == a[1..] + b;
      AcronymKeyAppend(a[1..], b);
      calc {
        AcronymKey(a + b);
        h + AcronymKey(a[1..] + b);
        h + (AcronymKey(a[1..]) + AcronymKey(b));
        { ConcatAssoc(h, AcronymKey(a[1..]), AcronymKey(b)); }
        AcronymKey(a) + AcronymKey(b);
      }
    }
  }

  /** A key is made of lower-case ASCII letters only, so `\b{acro}\b` reads it literally. */
  lemma {:induction false} AcronymKeyLetters(v: string)
    ensures forall i :: 0 <= i < |AcronymKey(v)| ==> 'a' <= AcronymKey(v)[i] <= 'z'
    decreases |v|
  {
    if v != [] {
      AcronymKeyLetters(v[1..]);
      assert v == [v[0]] + v[1..];
      AcronymKeyAppend([v[0]], v[1..]);
    }
  }

  /** A string starting with a capital has a key starting with that letter in lower case. */
  lemma AcronymKeyFirst(v: string)
    requires |v| > 0 && IsUpper(v[0])
    ensures |AcronymKey(v)| > 0 && AcronymKey(v)[0] == LowerChar(v[0])
  {
    assert v == [v[0]] + v[1..];
    AcronymKeyAppend([v[0]], v[1..]);
  }

  predicate NotOpenParen(c: char) { c != '(' }
  predicate NotCloseParen(c: char) { c != ')' }

  /** The text between the first `(` and the next `)`; all of `v` when it has no `(`. */
  function Parenthesised(v: string): string {
    var n := PrefixLen(v, NotOpenParen);
    if n == |v| then v
    else
      var rest := v[n + 1..];
      rest[..PrefixLen(rest, NotCloseParen)]
  }

  /**
   * The key the reverse map evidently means ("acronym in lower"): the
   * capitals of the acronym in the parenthesis only, e.g. `qere`.
   */
  function IntendedKey(v: string): string {
    AcronymKey(Parenthesised(v))
  }

  /** Capitals are all the key keeps: a string without any has an empty key. */
  lemma {:induction false} AcronymKeyNone(v: string)
    requires forall i :: 0 <= i < |v| ==> !IsUpper(v[i])
    ensures AcronymKey(v) == []
    decreases |v|
  {
    if v != [] {
      AcronymKeyNone(v[1..]);
    }
  }

  /** Parentheses add nothing to a key. */
  lemma KeyInParens(x: string)
    ensures AcronymKey("(" + x + ")") == AcronymKey(x)
  {
    AcronymKeyAppend("(", x);
    AcronymKeyAppend("(" + x, ")");
    assert AcronymKey("(") == [] && AcronymKey(")") == [];
  }

  /** The key of `a(x)t` is the keys of `a`, `x` and `t`, one after another. */
  lemma KeyAround(a: string, x: string, t: string)
    ensures AcronymKey(a + "(" + x + ")" + t) == AcronymKey(a) + AcronymKey(x) + AcronymKey(t)
  {
    var p := "(" + x + ")";
    assert a + "(" + x + ")" + t == a + p + t;
    KeyInParens(x);
    AcronymKeyAppend(a + p, t);
    AcronymKeyAppend(a, p);
  }

  /**
   * A phrase whose words hold no parenthesis, with an acronym that holds no
   * closing one and starts with the phrase's first letter.
   */
  predicate Bracketed(g: Gloss) {
    && (forall j :: 0 <= j < |g.lead| ==> '(' !in g.lead[j] && ')' !in g.lead[j])
    && ')' !in g.acronym
    && |g.lead| > 0 && |g.lead[0]| > 0 && |g.acronym| > 0 && g.acronym[0] == g.lead[0][0]
  }

  /** The parenthesis of `a(x)t` holds `x` when `a` has no `(` and `x` no `)`. */
  lemma ParenthesisedAround(a: string, x: string, t: string)
    requires '(' !in a && ')' !in x
    ensures Parenthesised(a + "(" + x + ")" + t) == x
  {
    var c := a + "(" + x + ")" + t;
    var s := "(" + x + ")" + t;
    assert c == a + s;
    assert forall i :: 0 <= i < |a| ==> a[i] in a;
    PrefixBefore(a, s, NotOpenParen);
    var rest := c[|a| + 1..];
    assert rest == x + (")" + t);
    assert forall i :: 0 <= i < |x| ==> x[i] in x;
    PrefixBefore(x, ")" + t, NotCloseParen);
  }

  /**
   * The key the source builds takes the capitals of the whole phrase: the
   * words' capitals, then the acronym's (the intended key), then the tail's.
   */
  lemma KeyOfGloss(g: Gloss)
    requires '(' !in Concat(g.lead) && ')' !in g.acronym
    ensures IntendedKey(Corp(g)) == AcronymKey(g.acronym)
    ensures AcronymKey(Corp(g)) == AcronymKey(Concat(g.lead)) + IntendedKey(Corp(g)) + AcronymKey(g.tail)
  {
    ParenthesisedAround(Concat(g.lead), g.acronym, g.tail);
    KeyAround(Concat(g.lead), g.acronym, g.tail);
  }

  /**
   * Both keys of a clean phrase start with its first capital, in lower case,
   * and the key the source builds is strictly longer than the intended one.
   */
  lemma KeysFirst(g: Gloss)
    requires CleanGloss(g) && Bracketed(g)
    ensures |AcronymKey(Corp(g))| > 0 && AcronymKey(Corp(g))[0] == LowerChar(g.lead[0][0])
    ensures |IntendedKey(Corp(g))| > 0 && IntendedKey(Corp(g))[0] == LowerChar(g.lead[0][0])
    ensures |AcronymKey(Corp(g))| > |IntendedKey(Corp(g))|
  {
    CorpShape(g);
    AcronymKeyFirst(Corp(g));
    ConcatAvoids(g.lead, '(');
    KeyOfGloss(g);
    AcronymKeyFirst(g.acronym);
    assert Concat(g.lead) == g.lead[0] + Concat(g.lead[1..]);
    AcronymKeyAppend(g.lead[0], Concat(g.lead[1..]));
    AcronymKeyFirst(g.lead[0]);
  }

  /** The characters of `cs` in front of `s`, dropped: `str.lstrip(chars)`. */
  function StripLeft(s: string, cs: set<char>): (r: string)
    ensures |r| <= |s| && r == s[|s| - |r|..]
    ensures forall i :: 0 <= i < |s| - |r| ==> s[i] in cs
    ensures r != [] ==> r[0] !in cs
    decreases |s|
  {
    if s != [] && s[0] in cs then StripLeft(s[1..], cs) else s
  }

  /** The characters of `cs` at the end of `s`, dropped: `str.rstrip(chars)`. */
  function StripRight(s: string, cs: set<char>): (r: string)
    ensures |r| <= |s| && r == s[..|r|]
    ensures forall i :: |r| <= i < |s| ==> s[i] in cs
    ensures r != [] ==> r[|r| - 1] !in cs
    decreases |s|
  {
    if s != [] && s[|s| - 1] in cs then StripRight(s[..|s| - 1], cs) else s
  }

  /** `str.strip(chars)`. */
  function StripChars(s: string, cs: set<char>): string {
    StripRight(StripLeft(s, cs), cs)
  }

  /** The characters `k.strip("\\b")` takes off. */
  const BackslashB: set<char> := {'\\', 'b'}

  /** Stripping `\` and `b` from `\bX\b` gives `X` back when `X` neither starts nor ends with one of them. */
  lemma StripBounded(x: string)
    requires |x| > 0 && x[0] !in BackslashB && x[|x| - 1] !in BackslashB
    ensures StripChars("\\b" + x + "\\b", BackslashB) == x
  {
    var s := "\\b" + x + "\\b";
    var l := StripLeft(s, BackslashB);
    assert s[2] == x[0];
    assert |s| - |l| == 2;
    assert l == x + "\\b";
    var r := StripRight(l, BackslashB);
    assert l[|x| - 1] == x[|x| - 1];
    assert |r| == |x|;
  }

  lemma {:induction false} EscapeHyphensEnds(w: string)
    requires |w| > 0
    ensures |EscapeHyphens(w)| > 0
    ensures EscapeHyphens(w)[0] == if w[0] == '-' then '\\' else w[0]
    ensures EscapeHyphens(w)[|EscapeHyphens(w)| - 1] == w[|w| - 1]
    decreases |w|
  {
    if |w| > 1 {
      EscapeHyphensEnds(w[1..]);
    }
  }

  /** `k.strip("\\b")` for a clean pattern: its literal as written, or `mmm+`. */
  function Unbounded(p: Pattern): string {
    match p
    case Word(w) => EscapeHyphens(w)
    case Phrase(s) => s
    case MRun => "mmm+"
  }

  lemma StripRendered(p: Pattern)
    requires CleanPattern(p)
    ensures StripChars(Render(p), BackslashB) == Unbounded(p)
  {
    match p
    case Word(w) =>
      EscapeHyphensEnds(w);
      StripBounded(EscapeHyphens(w));
    case MRun =>
      assert Render(p) == "\\b" + "mmm+" + "\\b";
      StripBounded("mmm+");
  }

  /** `_CORP_TO_PLAYFUL`: the key of each phrase, mapped to its stripped playful pattern, in table order. */
  function CorpToPlayful(entries: seq<Entry>): (m: seq<(string, string)>)
    ensures |m| == |entries|
  {
    seq(|entries|, j requires 0 <= j < |entries| =>
      (AcronymKey(Corp(entries[j].gloss)), StripChars(Render(entries[j].pat), BackslashB)))
  }

  /** The reverse map as evidently intended: the same values, keyed by the acronyms' capitals. */
  function IntendedMap(entries: seq<Entry>): (m: seq<(string, string)>)
    ensures |m| == |entries|
  {
    seq(|entries|, j requires 0 <= j < |entries| =>
      (IntendedKey(Corp(entries[j].gloss)), StripChars(Render(entries[j].pat), BackslashB)))
  }

  /** A table as the translator needs it: clean, bracketed entries whose phrases start with `Initials`. */
  predicate WellFormedTable(es: seq<Entry>) {
    && |es| == |Initials|
    && forall j :: 0 <= j < |es| ==> Clean(es[j]) && Bracketed(es[j].gloss) && es[j].gloss.lead[0][0] == Initials[j]
  }

  lemma TableWellFormed()
    ensures WellFormedTable(PlayfulToCorp)
  {
    TableClean();
    FirstCapitals();
  }

  /**
   * Each key of the reverse map is the phrase's capitals in lower case,
   * starting with its initial; each value is the playful pattern without
   * its `\b` ends.
   */
  lemma ReverseMapShape(es: seq<Entry>)
    requires WellFormedTable(es)
    ensures forall j :: 0 <= j < |es| ==>
      var k := CorpToPlayful(es)[j].0;
      && |k| > 0 && k[0] == LowerChar(Initials[j])
      && (forall i :: 0 <= i < |k| ==> 'a' <= k[i] <= 'z')
    ensures forall j :: 0 <= j < |es| ==> CorpToPlayful(es)[j].1 == Unbounded(es[j].pat)
  {
    forall j | 0 <= j < |es|
      ensures var k := CorpToPlayful(es)[j].0;
        && |k| > 0 && k[0] == LowerChar(Initials[j])
        && (forall i :: 0 <= i < |k| ==> 'a' <= k[i] <= 'z')
      ensures CorpToPlayful(es)[j].1 == Unbounded(es[j].pat)
    {
      KeysFirst(es[j].gloss);
      AcronymKeyLetters(Corp(es[j].gloss));
      StripRendered(es[j].pat);
    }
  }

  /**
   * Each intended key is the acronym's capitals, in lower case, starting
   * with the phrase's initial, and strictly shorter than the key the
   * source builds; the values are those of the reverse map.
   */
  lemma IntendedMapShape(es: seq<Entry>)
    requires WellFormedTable(es)
    ensures forall j :: 0 <= j < |es| ==>
      var k := IntendedMap(es)[j].0;
      && k == AcronymKey(es[j].gloss.acronym)
      && |k| > 0 && k[0] == LowerChar(Initials[j])
      && |CorpToPlayful(es)[j].0| > |k|
    ensures forall j :: 0 <= j < |es| ==> IntendedMap(es)[j].1 == Unbounded(es[j].pat)
  {
    forall j | 0 <= j < |es|
      ensures var k := IntendedMap(es)[j].0;
        && k == AcronymKey(es[j].gloss.acronym)
        && |k| > 0 && k[0] == LowerChar(Initials[j])
        && |CorpToPlayful(es)[j].0| > |k|
      ensures IntendedMap(es)[j].1 == Unbounded(es[j].pat)
    {
      var g := es[j].gloss;
      KeysFirst(g);
      ConcatAvoids(g.lead, '(');
      KeyOfGloss(g);
      StripRendered(es[j].pat);
    }
  }

  /**
   * The key the source builds is the acronym twice over whenever the words'
   * capitals spell the acronym and the tail has none, as for QERE.
   */
  lemma KeyDoubled(g: Gloss)
    requires '(' !in Concat(g.lead) && ')' !in g.acronym
    requires AcronymKey(Concat(g.lead)) == AcronymKey(g.acronym) && AcronymKey(g.tail) == []
    ensures AcronymKey(Corp(g)) == IntendedKey(Corp(g)) + IntendedKey(Corp(g))
  {
    KeyOfGloss(g);
  }

  // ------------------------------------------------------------ templates of reveal

  function Prepend(a: string, o: Option<string>): Option<string> {
    match o case None => None case Some(x) => Some(a + x)
  }

  lemma PrependAssoc(a: string, b: string, o: Option<string>)
    ensures Prepend(a, Prepend(b, o)) == Prepend(a + b, o)
  {
    match o case None => case Some(x) => assert a + (b + x) == (a + b) + x;
  }

  /** A character other than a backslash is copied. */
  lemma ExpandCons(c: char, u: string)
    requires c != '\\'
    ensures Expand([c] + u) == Prepend([c], Expand(u))
  {
    assert ([c] + u)[1..] == u;
  }

  /** `\-` is a backslash before a non-letter: kept as written. */
  lemma ExpandHyphen(u: string)
    ensures Expand("\\-" + u) == Prepend("\\-", Expand(u))
  {
    var t := "\\-" + u;
    assert t[0] == '\\' && t[1] == '-' && t[2..] == u;
  }

  /** `\b` in a template is the backspace character. */
  lemma ExpandBackspace(u: string)
    ensures Expand("\\b" + u) == Prepend("\U{08}", Expand(u))
  {
    var t := "\\b" + u;
    assert t[0] == '\\' && t[1] == 'b' && t[2..] == u;
  }

  /** An escaped literal reads back as itself. */
  lemma {:induction false} ExpandEscaped(w: string, s: string)
    requires '\\' !in w
    ensures Expand(EscapeHyphens(w) + s) == Prepend(EscapeHyphens(w), Expand(s))
    decreases |w|
  {
    if w == [] {
      assert EscapeHyphens(w) + s == s;
      PrependAssoc([], [], Expand(s));
      match Expand(s) case None => case Some(x) => assert [] + x == x;
    } else {
      assert w[0] in w && '\\' !in w[1..];
      ExpandEscaped(w[1..], s);
      var e := EscapeHyphens(w[1..]);
      var h := if w[0] == '-' then "\\-" else [w[0]];
      assert EscapeHyphens(w) == h + e;
      assert EscapeHyphens(w) + s == h + (e + s);
      if w[0] == '-' {
        ExpandHyphen(e + s);
      } else {
        ExpandCons(w[0], e + s);
      }
      PrependAssoc(h, e, Expand(s));
    }
  }

  /**
   * Read as a template, a rendered pattern is its literal between two
   * backspaces: `\b` in a replacement is the backspace character, not a
   * word boundary.
   */
  lemma ExpandRendered(p: Pattern)
    requires CleanPattern(p)
    ensures Expand(Render(p)) == Some("\U{08}" + Unbounded(p) + "\U{08}")
    ensures Expand(Unbounded(p)) == Some(Unbounded(p))
  {
    var w := if p.Word? then p.w else "mmm+";
    var e := EscapeHyphens(w);
    assert e == Unbounded(p) by {
      if p.MRun? {
        assert EscapeHyphens("mmm+") == "mmm+";
      }
    }
    assert Render(p) == "\\b" + (e + "\\b");
    assert '\\' !in w;
    ExpandBackspace([]);
    assert "\\b" + [] == "\\b" && "\U{08}" + [] == "\U{08}";
    ExpandEscaped(w, "\\b");
    ExpandBackspace(e + "\\b");
    assert "\U{08}" + (e + "\U{08}") == "\U{08}" + e + "\U{08}";
    ExpandEscaped(w, []);
    assert e + [] == e;
  }

  // ------------------------------------------------------------ reveal

  /** `rf"\b{acro}\b"` replaced by the playful value, for each pair of a reverse map in order. */
  function AcronymRules(m: seq<(string, string)>): (rules: seq<Rule>)
    ensures |rules| == |m|
  {
    seq(|m|, j requires 0 <= j < |m| => Rule(Word(m[j].0), m[j].1))
  }

  predicate NotParen(c: char) { c != '(' && c != ')' }

  /**
   * A corporate phrase read as a regex: its parentheses form a group and
   * match no character of their own.
   */
  function PhrasePattern(g: Gloss): Pattern {
    Phrase(Keep(Corp(g), NotParen))
  }

  /** `inverse`: each phrase, replaced by the source of its playful pattern read as a template. */
  function InverseRules(es: seq<Entry>): (rules: seq<Rule>)
    ensures |rules| == |es|
  {
    seq(|es|, j requires 0 <= j < |es| => Rule(PhrasePattern(es[j].gloss), Render(es[j].pat)))
  }

  /** `reveal`'s rules over a table: the acronym stage, then `_apply` over `inverse`. */
  function RevealRules(es: seq<Entry>): seq<Rule> {
    AcronymRules(CorpToPlayful(es)) + InverseRules(es)
  }

  /** `reveal(text)`. */
  function Revealed(text: string): Option<string> {
    Applied(RevealRules(PlayfulToCorp), text)
  }

  /**
   * `inverse` as evidently intended: each phrase replaced by its playful
   * value taken literally, as the acronym stage does.
   */
  function IntendedInverse(es: seq<Entry>): (rules: seq<Rule>)
    ensures |rules| == |es|
  {
    seq(|es|, j requires 0 <= j < |es| =>
      Rule(PhrasePattern(es[j].gloss), StripChars(Render(es[j].pat), BackslashB)))
  }

  /** `reveal` as evidently intended: keys from the acronyms, playful values taken literally. */
  function IntendedRules(es: seq<Entry>): seq<Rule> {
    AcronymRules(IntendedMap(es)) + IntendedInverse(es)
  }

  function RevealedIntended(text: string): Option<string> {
    Applied(IntendedRules(PlayfulToCorp), text)
  }

  /** The literal a pattern looks for. */
  function Literal(p: Pattern): string {
    match p case Word(w) => w case Phrase(s) => s case MRun => "mmm"
  }

  /** A literal pattern matches only where its first character folds to the text's, and only where it fits. */
  lemma MatchInitial(p: Pattern, t: string, i: nat)
    requires i <= |t| && !p.MRun?
    ensures MatchLen(p, t, i) > 0 ==> |Literal(p)| > 0 && i + |Literal(p)| <= |t| && FoldsTo(t[i], Literal(p)[0])
  {
    if MatchLen(p, t, i) > 0 {
      assert LitAt(t, i, Literal(p));
      assert FoldsTo(t[i + 0], Literal(p)[0]);
    }
  }

  /** A phrase's pattern starts with its first capital and is at least as long as its first word. */
  lemma PhraseShape(g: Gloss)
    requires CleanGloss(g) && Bracketed(g)
    ensures var s := Literal(PhrasePattern(g)); |s| >= |g.lead[0]| && s[0] == g.lead[0][0]
  {
    var rest := Concat(g.lead[1..]) + "(" + g.acronym + ")" + g.tail;
    assert Corp(g) == g.lead[0] + rest;
    KeepAppend(g.lead[0], rest, NotParen);
    assert forall i :: 0 <= i < |g.lead[0]| ==> g.lead[0][i] in g.lead[0];
    KeepAll(g.lead[0], NotParen);
  }

  /** A rule looking for a non-empty literal whose first letter is `c`, ignoring case. */
  predicate LiteralFrom(r: Rule, c: char) {
    !r.pat.MRun? && |Literal(r.pat)| > 0 && LowerChar(Literal(r.pat)[0]) == LowerChar(c)
  }

  /** Seven acronym keys, then seven phrases, each starting with its entry's initial. */
  predicate Initialled(rules: seq<Rule>) {
    && |rules| == 2 * |Initials|
    && (forall j :: 0 <= j < |Initials| ==> LiteralFrom(rules[j], Initials[j]))
    && (forall j :: |Initials| <= j < |rules| ==> LiteralFrom(rules[j], Initials[j - |Initials|]))
  }

  /** Keys starting with the initials, in lower case, give rules that start with them. */
  lemma KeyStageShape(m: seq<(string, string)>)
    requires |m| == |Initials|
    requires forall j :: 0 <= j < |m| ==> |m[j].0| > 0 && m[j].0[0] == LowerChar(Initials[j])
    ensures forall j :: 0 <= j < |m| ==> LiteralFrom(AcronymRules(m)[j], Initials[j])
  {
  }

  lemma PhraseStageShape(es: seq<Entry>)
    requires WellFormedTable(es)
    ensures forall j :: 0 <= j < |es| ==> LiteralFrom(InverseRules(es)[j], Initials[j])
    ensures forall j :: 0 <= j < |es| ==> LiteralFrom(IntendedInverse(es)[j], Initials[j])
    ensures |Literal(InverseRules(es)[0].pat)| >= |es[0].gloss.lead[0]|
  {
    forall j | 0 <= j < |es|
      ensures LiteralFrom(InverseRules(es)[j], Initials[j])
      ensures LiteralFrom(IntendedInverse(es)[j], Initials[j])
    {
      PhraseShape(es[j].gloss);
    }
    PhraseShape(es[0].gloss);
  }

  lemma InitialledAppend(a: seq<Rule>, b: seq<Rule>)
    requires |a| == |b| == |Initials|
    requires forall j :: 0 <= j < |a| ==> LiteralFrom(a[j], Initials[j])
    requires forall j :: 0 <= j < |b| ==> LiteralFrom(b[j], Initials[j])
    ensures Initialled(a + b)
  {
    assert forall j :: |Initials| <= j < |a + b| ==> (a + b)[j] == b[j - |Initials|];
  }

  /**
   * The patterns of `reveal`, as written and as intended, start with their
   * entries' initials. The first key the source builds is longer than its
   * acronym, and the first phrase at least as long as its first word.
   */
  lemma RevealShape(es: seq<Entry>)
    requires WellFormedTable(es)
    ensures Initialled(RevealRules(es)) && Initialled(IntendedRules(es))
    ensures |Literal(RevealRules(es)[0].pat)| > |AcronymKey(es[0].gloss.acronym)|
    ensures |Literal(RevealRules(es)[7].pat)| >= |es[0].gloss.lead[0]|
    ensures IntendedRules(es)[0] == Rule(Word(AcronymKey(es[0].gloss.acronym)), Unbounded(es[0].pat))
  {
    ReverseMapShape(es);
    IntendedMapShape(es);
    KeyStageShape(CorpToPlayful(es));
    KeyStageShape(IntendedMap(es));
    PhraseStageShape(es);
    InitialledAppend(AcronymRules(CorpToPlayful(es)), InverseRules(es));
    InitialledAppend(AcronymRules(IntendedMap(es)), IntendedInverse(es));
    assert RevealRules(es)[7] == InverseRules(es)[0];
  }

  /** Every template is accepted. */
  predicate Accepted(rules: seq<Rule>) {
    forall j :: 0 <= j < |rules| ==> Expand(rules[j].template).Some?
  }

  /** The values of both reverse maps read as themselves. */
  lemma KeyTemplates(es: seq<Entry>)
    requires WellFormedTable(es)
    ensures forall j :: 0 <= j < |es| ==> Expand(CorpToPlayful(es)[j].1) == Some(Unbounded(es[j].pat))
    ensures Accepted(AcronymRules(CorpToPlayful(es))) && Accepted(AcronymRules(IntendedMap(es)))
  {
    ReverseMapShape(es);
    IntendedMapShape(es);
    forall j | 0 <= j < |es|
      ensures Expand(Unbounded(es[j].pat)) == Some(Unbounded(es[j].pat))
    {
      ExpandRendered(es[j].pat);
    }
  }

  /**
   * `inverse`'s templates, the sources of the playful patterns, gain a
   * backspace at each end; the intended ones are the playful values.
   */
  lemma InverseTemplates(es: seq<Entry>)
    requires WellFormedTable(es)
    ensures forall j :: 0 <= j < |es| ==>
      Expand(InverseRules(es)[j].template) == Some("\U{08}" + Unbounded(es[j].pat) + "\U{08}")
    ensures forall j :: 0 <= j < |es| ==> Expand(IntendedInverse(es)[j].template) == Some(Unbounded(es[j].pat))
  {
    forall j | 0 <= j < |es|
      ensures Expand(InverseRules(es)[j].template) == Some("\U{08}" + Unbounded(es[j].pat) + "\U{08}")
      ensures Expand(IntendedInverse(es)[j].template) == Some(Unbounded(es[j].pat))
    {
      ExpandRendered(es[j].pat);
      StripRendered(es[j].pat);
    }
  }

  lemma AcceptedAppend(a: seq<Rule>, b: seq<Rule>)
    requires Accepted(a) && Accepted(b)
    ensures Accepted(a + b)
  {
    assert forall j :: |a| <= j < |a + b| ==> (a + b)[j] == b[j - |a|];
  }

  /** Every template of `reveal`, as written and as intended, is accepted. */
  lemma RevealAccepted(es: seq<Entry>)
    requires WellFormedTable(es)
    ensures Accepted(RevealRules(es)) && Accepted(IntendedRules(es))
  {
    KeyTemplates(es);
    InverseTemplates(es);
    AcceptedAppend(AcronymRules(CorpToPlayful(es)), InverseRules(es));
    AcceptedAppend(AcronymRules(IntendedMap(es)), IntendedInverse(es));
  }

  /** `reveal` never fails. */
  lemma RevealDefined(text: string)
    ensures Revealed(text).Some? && RevealedIntended(text).Some?
  {
    TableWellFormed();
    RevealAccepted(PlayfulToCorp);
    AppliedDefined(RevealRules(PlayfulToCorp), text);
    AppliedDefined(IntendedRules(PlayfulToCorp), text);
  }

  /** `reveal`: the acronym stage, then the phrases, each an `_apply` over its rules. */
  method RevealText(text: string) returns (r: string)
    ensures Revealed(text) == Some(r)
  {
    var acro := AcronymRules(CorpToPlayful(PlayfulToCorp));
    var inv := InverseRules(PlayfulToCorp);
    RevealDefined(text);
    AppliedAppend(acro, inv, text);
    var o := Apply(text, acro);
    var o2 := Apply(o.value, inv);
    r := o2.value;
  }

  /** `reveal` with the intended keys and templates: the same two stages over the corrected rules. */
  method RevealIntendedText(text: string) returns (r: string)
    ensures RevealedIntended(text) == Some(r)
  {
    var acro := AcronymRules(IntendedMap(PlayfulToCorp));
    var inv := IntendedInverse(PlayfulToCorp);
    RevealDefined(text);
    AppliedAppend(acro, inv, text);
    var o := Apply(text, acro);
    var o2 := Apply(o.value, inv);
    r := o2.value;
  }

  /** No character of `t` folds to `c`. */
  predicate NoneFolds(t: string, c: char) {
    forall i :: 0 <= i < |t| ==> !FoldsTo(t[i], c)
  }

  /** A rule whose literal starts with a letter no character of `t` folds to matches nowhere in `t`. */
  lemma MissesByInitial(r: Rule, t: string, c: char)
    requires LiteralFrom(r, c) && NoneFolds(t, c)
    ensures forall i :: 0 <= i < |t| ==> MatchLen(r.pat, t, i) == 0
  {
    forall i | 0 <= i < |t|
      ensures MatchLen(r.pat, t, i) == 0
    {
      MatchInitial(r.pat, t, i);
    }
  }

  /** A rule whose literal is longer than `t` matches nowhere in `t`. */
  lemma MissesByLength(r: Rule, t: string)
    requires !r.pat.MRun? && |Literal(r.pat)| > |t|
    ensures forall i :: 0 <= i < |t| ==> MatchLen(r.pat, t, i) == 0
  {
    forall i | 0 <= i < |t|
      ensures MatchLen(r.pat, t, i) == 0
    {
      MatchInitial(r.pat, t, i);
    }
  }

  lemma QereFolds()
    ensures forall j :: 1 <= j < |Initials| ==> NoneFolds("QERE", Initials[j])
  {
  }

  lemma JajaFolds()
    ensures forall j :: 0 <= j < |Initials| ==> NoneFolds("jajajaja", Initials[j])
  {
  }

  /**
   * As written, the bare acronym is not revealed: `QERE` comes back
   * unchanged, because its key is longer than it and every other key and
   * phrase starts with a letter it does not have.
   */
  lemma RevealKeepsAcronymOf(es: seq<Entry>)
    requires WellFormedTable(es)
    requires AcronymKey(es[0].gloss.acronym) == "qere" && |es[0].gloss.lead[0]| > 4
    ensures Applied(RevealRules(es), "QERE") == Some("QERE")
  {
    var rules := RevealRules(es);
    RevealShape(es);
    RevealAccepted(es);
    QereFolds();
    forall j | 0 <= j < |rules|
      ensures forall i :: 0 <= i < 4 ==> MatchLen(rules[j].pat, "QERE", i) == 0
    {
      if j == 0 || j == 7 {
        MissesByLength(rules[j], "QERE");
      } else if j < 7 {
        MissesByInitial(rules[j], "QERE", Initials[j]);
      } else {
        MissesByInitial(rules[j], "QERE", Initials[j - 7]);
      }
    }
    AppliedNoMatch(rules, "QERE");
  }

  /** As intended, `jajajaja` is left alone by every rule but the first: none starts with `j` or `a`. */
  lemma IntendedRestKeeps(es: seq<Entry>)
    requires WellFormedTable(es)
    ensures Applied(IntendedRules(es)[1..], "jajajaja") == Some("jajajaja")
  {
    var rules := IntendedRules(es);
    var rest := rules[1..];
    RevealShape(es);
    RevealAccepted(es);
    JajaFolds();
    var ja := "jajajaja";
    forall j | 0 <= j < |rest|
      ensures Expand(rest[j].template).Some?
      ensures forall i :: 0 <= i < |ja| ==> MatchLen(rest[j].pat, ja, i) == 0
    {
      assert rest[j] == rules[j + 1];
      if j + 1 < 7 {
        MissesByInitial(rest[j], ja, Initials[j + 1]);
      } else {
        MissesByInitial(rest[j], ja, Initials[j + 1 - 7]);
      }
    }
    AppliedNoMatch(rest, ja);
  }

  /** As intended, the acronym stage turns `QERE` into `jajajaja`, and nothing after it applies. */
  lemma RevealIntendedAcronymOf(es: seq<Entry>)
    requires WellFormedTable(es)
    requires AcronymKey(es[0].gloss.acronym) == "qere" && Unbounded(es[0].pat) == "jajajaja"
    ensures Applied(IntendedRules(es), "QERE") == Some("jajajaja")
  {
    var rules := IntendedRules(es);
    var r0 := Rule(Word("qere"), "jajajaja");
    IntendedFirstRule(es);
    SubQere();
    assert Applied([r0], "QERE") == Some("jajajaja") by {
      assert [r0][..0] == [];
    }
    AppliedAppend([r0], rules[1..], "QERE");
    IntendedRestKeeps(es);
  }

  /** The intended rules start with the acronym rule of the first entry. */
  lemma IntendedFirstRule(es: seq<Entry>)
    requires WellFormedTable(es)
    ensures |IntendedRules(es)| > 0
    ensures IntendedRules(es) == [Rule(Word(AcronymKey(es[0].gloss.acronym)), Unbounded(es[0].pat))] + IntendedRules(es)[1..]
  {
    RevealShape(es);
    var rules := IntendedRules(es);
    assert rules == [rules[0]] + rules[1..];
  }

  /** The key `qere` matches all of `QERE`. */
  lemma SubQere()
    ensures Sub(Rule(Word("qere"), "jajajaja"), "QERE") == Some("jajajaja")
  {
    var t, r := "QERE", "jajajaja";
    assert '\\' !in r;
    ExpandPlain(r);
    assert LitAt(t, 0, "qere");
    assert Boundary(t, 0) && Boundary(t, 4);
    assert MatchLen(Word("qere"), t, 0) == 4;
    assert SubFrom(Word("qere"), r, t, 4) == [];
    assert SubFrom(Word("qere"), r, t, 0) == r + [];
    assert r + [] == r;
  }

  lemma KeyQere() ensures AcronymKey("QERE") == "qere" { }

  lemma QereFacts()
    ensures AcronymKey(PlayfulToCorp[0].gloss.acronym) == "qere"
    ensures |PlayfulToCorp[0].gloss.lead[0]| > 4
    ensures Unbounded(PlayfulToCorp[0].pat) == "jajajaja"
  {
    assert PlayfulToCorp[0] == Qere;
    KeyQere();
  }

  /** `reveal("QERE")` returns `QERE`: the acronym the docstring says it matches is left alone. */
  lemma RevealKeepsQere()
    ensures Revealed("QERE") == Some("QERE")
  {
    TableWellFormed();
    QereFacts();
    RevealKeepsAcronymOf(PlayfulToCorp);
  }

  /** With the keys taken from the acronyms, `QERE` is revealed as `jajajaja`. */
  lemma RevealIntendedQere()
    ensures RevealedIntended("QERE") == Some("jajajaja")
  {
    TableWellFormed();
    QereFacts();
    RevealIntendedAcronymOf(PlayfulToCorp);
  }

  /** A phrase pattern matches its own literal from the start: the whole text is the replacement. */
  lemma SubWhole(s: string, r: string)
    requires |s| > 0
    ensures SubFrom(Phrase(s), r, s, 0) == r
  {
    assert LitAt(s, 0, s);
    assert r + [] == r;
  }

  /**
   * As written, `inverse` turns each phrase into its playful pattern
   * between two backspaces: `\bjajajaja\b` read as a template.
   */
  lemma InverseOnPhrase(es: seq<Entry>)
    requires WellFormedTable(es)
    ensures forall j :: 0 <= j < |es| ==>
      var s := Literal(InverseRules(es)[j].pat);
      Sub(InverseRules(es)[j], s) == Some("\U{08}" + Unbounded(es[j].pat) + "\U{08}")
  {
    forall j | 0 <= j < |es|
      ensures var s := Literal(InverseRules(es)[j].pat);
        Sub(InverseRules(es)[j], s) == Some("\U{08}" + Unbounded(es[j].pat) + "\U{08}")
    {
      PhraseShape(es[j].gloss);
      ExpandRendered(es[j].pat);
      SubWhole(Literal(InverseRules(es)[j].pat), "\U{08}" + Unbounded(es[j].pat) + "\U{08}");
    }
  }

  /** As intended, each phrase becomes its playful value, without backspaces. */
  lemma IntendedOnPhrase(es: seq<Entry>)
    requires WellFormedTable(es)
    ensures forall j :: 0 <= j < |es| ==>
      var s := Literal(IntendedInverse(es)[j].pat);
      Sub(IntendedInverse(es)[j], s) == Some(Unbounded(es[j].pat))
  {
    forall j | 0 <= j < |es|
      ensures var s := Literal(IntendedInverse(es)[j].pat);
        Sub(IntendedInverse(es)[j], s) == Some(Unbounded(es[j].pat))
    {
      PhraseShape(es[j].gloss);
      ExpandRendered(es[j].pat);
      StripRendered(es[j].pat);
      SubWhole(Literal(IntendedInverse(es)[j].pat), Unbounded(es[j].pat));
    }
  }
}
