/**
 * The plan extractor: a line-oriented parser that picks bullet lines
 * ("- Do this") and step lines ("Step 2: do that") out of a text and stores
 * each one in the palace as a "TASK: ..." artefact the task manager picks
 * up. The two regular expressions are written out as scanners that follow
 * the regex engine's backtracking order. Reading the file is left out: the
 * decoded text is a parameter.
 */
module Plans {
  import opened Text
  import opened Values
  import Palace
  import Remix
  import Tasks

  const WrapPrefix: string := "TASK: "
  const ExtractedTag: string := "extracted"

  // ------------------------------------------------------------ the bullet rule

  predicate NotNewline(c: char) { c != '\n' }

  /** How far `(.+)` or `[^\n]+` reaches from `t`: up to the next '\n' or the end. */
  function RestLen(line: string, t: nat): nat
    requires t <= |line|
  {
    PrefixLen(line[t..], NotNewline)
  }

  /** How many whitespace characters start at `i`. */
  function SpacesAt(line: string, i: nat): nat
    requires i <= |line|
  {
    PrefixLen(line[i..], IsSpace)
  }

  /**
   * `^[\-*]\s+([A-Z][^\n]+)`: the group starts at the first character after
   * the whitespace. Giving back whitespace would leave a space where `[A-Z]`
   * is needed, so only the longest whitespace run can match.
   */
  function BulletGroup(line: string): (g: Option<string>)
    ensures g.Some? ==> |g.value| >= 2 && IsUpper(g.value[0]) && '\n' !in g.value
  {
    if line == [] || (line[0] != '-' && line[0] != '*') then None
    else
      var w := SpacesAt(line, 1);
      var t := 1 + w;
      if w == 0 || t + 1 >= |line| || !IsUpper(line[t]) || line[t + 1] == '\n' then None
      else
        var g := line[t..t + 1 + RestLen(line, t + 1)];
        assert forall i :: 1 <= i < |g| ==> g[i] == line[t + 1..][i - 1];
        Some(g)
  }

  // ------------------------------------------------------------ the step rule

  /** A character that `s`, `t`, `e` or `p` matches under `re.IGNORECASE`. */
  predicate IsStepWord(w: string) {
    && |w| == 4
    && (w[0] == 's' || w[0] == 'S' || w[0] == '\U{17F}')
    && (w[1] == 't' || w[1] == 'T')
    && (w[2] == 'e' || w[2] == 'E')
    && (w[3] == 'p' || w[3] == 'P')
  }

  /**
   * `\s+(.+)` at `r` with `\s+` holding `w` characters: when `.` cannot
   * match next, `\s+` gives back one character and tries again. Returns
   * where the group starts.
   */
  function SpacesThenAny(line: string, r: nat, w: nat): (t: Option<nat>)
    requires r + w <= |line|
    ensures t.Some? ==> r < t.value < |line| && line[t.value] != '\n'
    decreases w
  {
    if w == 0 then None
    else if r + w < |line| && line[r + w] != '\n' then Some(r + w)
    else SpacesThenAny(line, r, w - 1)
  }

  /** `\s+(.+)` at `r`, starting from the longest whitespace run. */
  function SpacesRest(line: string, r: nat): (t: Option<nat>)
    requires r <= |line|
    ensures t.Some? ==> r < t.value < |line| && line[t.value] != '\n'
    ensures t.Some? ==> forall i :: r <= i < t.value ==> IsSpace(line[i])
  {
    SpacesThenAny(line, r, SpacesAt(line, r))
  }

  /** `[:\.]?\s+(.+)` at `q`: first with the separator, then without it. */
  function SeparatorRest(line: string, q: nat): (t: Option<nat>)
    requires q <= |line|
    ensures t.Some? ==> q < t.value < |line| && line[t.value] != '\n'
    ensures t.Some? && IsStripped(line) ==> !IsSpace(line[t.value])
  {
    SpacesRestNonSpace(line, q);
    var withSep := if q < |line| && (line[q] == ':' || line[q] == '.') then SpacesRestNonSpace(line, q + 1); SpacesRest(line, q + 1) else None;
    if withSep.Some? then withSep else SpacesRest(line, q)
  }

  /** `\d*[:\.]?\s+(.+)` at `p` with `\d*` holding `d` digits, giving them back one at a time. */
  function DigitsRest(line: string, p: nat, d: nat): (t: Option<nat>)
    requires p + d <= |line|
    ensures t.Some? ==> p < t.value < |line| && line[t.value] != '\n'
    ensures t.Some? && IsStripped(line) ==> !IsSpace(line[t.value])
    ensures SeparatorRest(line, p + d).Some? ==> t == SeparatorRest(line, p + d)
    decreases d
  {
    var t := SeparatorRest(line, p + d);
    if t.Some? || d == 0 then t
    else DigitsRest(line, p, d - 1)
  }

  /** `\s*\d*[:\.]?\s+(.+)` after "step", with `\s*` holding `s` characters, giving them back one at a time. */
  function StepRest(line: string, s: nat): (t: Option<nat>)
    requires 4 + s <= |line|
    ensures t.Some? ==> 4 < t.value < |line| && line[t.value] != '\n'
    ensures t.Some? && IsStripped(line) ==> !IsSpace(line[t.value])
    ensures DigitsRest(line, 4 + s, PrefixLen(line[4 + s..], IsDigit)).Some? ==> t == DigitsRest(line, 4 + s, PrefixLen(line[4 + s..], IsDigit))
    decreases s
  {
    var p := 4 + s;
    var t := DigitsRest(line, p, PrefixLen(line[p..], IsDigit));
    if t.Some? || s == 0 then t else StepRest(line, s - 1)
  }

  /** `(.+)` from `t`: the rest of the line up to the next '\n'. */
  function GroupAt(line: string, t: nat): (g: string)
    requires t < |line| && line[t] != '\n'
    ensures g != [] && g[0] == line[t] && '\n' !in g
  {
    var g := line[t..t + RestLen(line, t)];
    assert forall i :: 0 <= i < |g| ==> g[i] == line[t..][i];
    g
  }

  /** `^step\s*\d*[:\.]?\s+(.+)` under `re.IGNORECASE`: the group, if the line matches. */
  function StepGroup(line: string): (g: Option<string>)
    ensures g.Some? ==> g.value != [] && '\n' !in g.value
  {
    if |line| < 4 || !IsStepWord(line[..4]) then None
    else match StepRest(line, SpacesAt(line, 4))
      case None => None
      case Some(t) => Some(GroupAt(line, t))
  }

  // ------------------------------------------------------------ one line

  /**
   * `_extract_lines` for one line: the stripped line must have at least four
   * characters; the bullet rule is tried first, then the step rule, and the
   * group is stripped.
   */
  function LineTask(raw: string): (r: Option<string>)
    ensures |Strip(raw)| < 4 ==> r == None
    ensures BulletGroup(Strip(raw)).Some? && |Strip(raw)| >= 4 ==> r == Some(Strip(BulletGroup(Strip(raw)).value))
    ensures r.Some? ==> IsStripped(r.value)
  {
    var line := Strip(raw);
    if |line| < 4 then None
    else match BulletGroup(line)
      case Some(g) => Some(Strip(g))
      case None =>
        match StepGroup(line)
        case Some(g) => Some(Strip(g))
        case None => None
  }

  /** `\s+` in a stripped line leaves `(.+)` to start on a non-space character. */
  lemma SpacesRestNonSpace(line: string, r: nat)
    requires r <= |line|
    ensures SpacesRest(line, r).Some? && IsStripped(line) ==> !IsSpace(line[SpacesRest(line, r).value])
  {
    var w := SpacesAt(line, r);
    if w > 0 && r + w < |line| {
      assert line[r + w] == line[r..][w];
    }
  }

  /** Every task a line yields is non-empty: both groups start on a non-space character. */
  lemma LineTaskNonEmpty(raw: string)
    ensures LineTask(raw).Some? ==> LineTask(raw).value != []
  {
    var line := Strip(raw);
    if |line| >= 4 {
      match BulletGroup(line)
      case Some(g) =>
        assert !IsSpace(g[0]);
      case None =>
        match StepGroup(line)
        case Some(g) =>
          var t := StepRest(line, SpacesAt(line, 4)).value;
          assert g[0] == line[t];
          assert !IsBlank(g);
        case None =>
    }
  }

  // ------------------------------------------------------------ which lines yield what

  /** A run of `pr` characters from `a` up to `b`, ended by the line or by another character, is the prefix `PrefixLen` measures. */
  lemma RunLen(line: string, a: nat, b: nat, pr: char -> bool)
    requires a <= b <= |line|
    requires forall i :: a <= i < b ==> pr(line[i])
    requires b < |line| ==> !pr(line[b])
    ensures PrefixLen(line[a..], pr) == b - a
  {
    var n := PrefixLen(line[a..], pr);
    assert forall i :: 0 <= i < b - a ==> pr(line[a..][i]) by {
      forall i | 0 <= i < b - a ensures pr(line[a..][i]) {
        assert line[a..][i] == line[a + i];
      }
    }
    if b < |line| {
      assert line[a..][b - a] == line[b];
    }
  }

  /** A line with no '\n' is matched by `[^\n]+` or `(.+)` to its end. */
  lemma RestToEnd(line: string, t: nat)
    requires t <= |line| && '\n' !in line[t..]
    ensures RestLen(line, t) == |line| - t
  {
    var s := line[t..];
    assert forall i :: 0 <= i < |s| ==> NotNewline(s[i]) by {
      forall i | 0 <= i < |s| ensures NotNewline(s[i]) {
        assert s[i] in s;
      }
    }
  }

  /** A bullet, a whitespace run, then a capital: the group is the rest of the line from that capital on. */
  lemma BulletComplete(line: string, w: nat)
    requires w > 0 && |line| >= w + 3
    requires line[0] == '-' || line[0] == '*'
    requires forall i :: 1 <= i <= w ==> IsSpace(line[i])
    requires IsUpper(line[w + 1])
    requires '\n' !in line
    ensures BulletGroup(line) == Some(line[w + 1..])
  {
    RunLen(line, 1, w + 1, IsSpace);
    assert line[w + 2] in line;
    RestToEnd(line, w + 2);
    assert line[w + 1..|line|] == line[w + 1..];
  }

  /** Conversely, a group comes only from such a line: a bullet, `w` spaces, then the group to the end. */
  lemma BulletSound(line: string)
    requires '\n' !in line && BulletGroup(line).Some?
    ensures var g := BulletGroup(line).value; var w := |line| - |g| - 1;
      && w > 0 && |line| >= w + 3
      && (line[0] == '-' || line[0] == '*')
      && (forall i :: 1 <= i <= w ==> IsSpace(line[i]))
      && IsUpper(line[w + 1])
      && g == line[w + 1..]
  {
    var w := SpacesAt(line, 1);
    RestToEnd(line, w + 2);
    forall i | 1 <= i <= w ensures IsSpace(line[i]) {
      assert line[i] == line[1..][i - 1];
    }
  }

  /** "step", one space, then text that starts with no digit, separator or space: the group is that text. */
  lemma StepComplete(word: string, rest: string)
    requires IsStepWord(word)
    requires |rest| > 0 && !IsSpace(rest[0]) && !IsDigit(rest[0]) && rest[0] != ':' && rest[0] != '.'
    requires '\n' !in rest
    ensures StepGroup(word + " " + rest) == Some(rest)
  {
    var line := word + " " + rest;
    assert line[..4] == word && line[4] == ' ' && line[5] == rest[0];
    assert line[5..] == rest;
    assert line[4..] == [' '] + rest;
    PrefixBefore([' '], rest, IsSpace);
    assert SpacesAt(line, 4) == 1;
    // The greedy try, with `\s*` holding the space, leaves `\s+` nothing.
    assert PrefixLen(line[5..], IsDigit) == 0;
    assert SpacesAt(line, 5) == 0;
    assert SeparatorRest(line, 5) == None;
    assert StepRest(line, 1) == StepRest(line, 0);
    // Giving the space back to `\s+` lets `(.+)` start on the text.
    assert PrefixLen(line[4..], IsDigit) == 0;
    assert rest[0] in rest;
    assert SpacesRest(line, 4) == Some(5);
    assert SeparatorRest(line, 4) == Some(5);
    assert StepRest(line, 1) == Some(5);
    RestToEnd(line, 5);
    assert line[5..|line|] == rest;
  }

  /** `[:\.]?\s+(.+)` at a separator whose whitespace run ends at `t`, where `.` matches: the group starts at `t`. */
  lemma SeparatorHit(line: string, q: nat, t: nat)
    requires q + 1 < t < |line|
    requires line[q] == ':' || line[q] == '.'
    requires SpacesAt(line, q + 1) == t - q - 1
    requires line[t] != '\n'
    ensures SeparatorRest(line, q) == Some(t)
  {
  }

  /** When the separator and the rest match after all `d` digits, `\d*` gives back none of them. */
  lemma DigitsRestFirst(line: string, p: nat, d: nat, q: nat)
    requires p + d == q <= |line|
    requires SeparatorRest(line, q).Some?
    ensures DigitsRest(line, p, d) == SeparatorRest(line, q)
  {
  }

  /** The whitespace, digit and whitespace runs of a numbered step line, as `PrefixLen` measures them. */
  lemma StepRuns(line: string, p: nat, q: nat, t: nat)
    requires 4 <= p <= q && q + 1 < t < |line|
    requires forall i :: 4 <= i < p ==> IsSpace(line[i])
    requires !IsSpace(line[p])
    requires forall i :: p <= i < q ==> IsDigit(line[i])
    requires !IsDigit(line[q])
    requires forall i :: q + 1 <= i < t ==> IsSpace(line[i])
    requires !IsSpace(line[t])
    ensures SpacesAt(line, 4) == p - 4
    ensures PrefixLen(line[p..], IsDigit) == q - p
    ensures SpacesAt(line, q + 1) == t - q - 1
  {
    RunLen(line, 4, p, IsSpace);
    RunLen(line, p, q, IsDigit);
    RunLen(line, q + 1, t, IsSpace);
  }

  /** `\s*\d*[:\.]?\s+(.+)` after "step" on its first, greedy try: the group starts at `t`. */
  lemma StepRestHit(line: string, p: nat, q: nat, t: nat)
    requires 4 <= p <= q && q + 1 < t < |line|
    requires SpacesAt(line, 4) == p - 4
    requires PrefixLen(line[p..], IsDigit) == q - p
    requires line[q] == ':' || line[q] == '.'
    requires SpacesAt(line, q + 1) == t - q - 1
    requires line[t] != '\n'
    ensures StepRest(line, SpacesAt(line, 4)) == Some(t)
  {
    SeparatorHit(line, q, t);
    DigitsRestFirst(line, p, q - p, q);
    StepRestFirst(line, p - 4);
  }

  /** When the digits, separator and rest match after the whole whitespace run, `\s*` gives back none of it. */
  lemma StepRestFirst(line: string, s: nat)
    requires 4 + s <= |line|
    requires DigitsRest(line, 4 + s, PrefixLen(line[4 + s..], IsDigit)).Some?
    ensures StepRest(line, s) == DigitsRest(line, 4 + s, PrefixLen(line[4 + s..], IsDigit))
  {
  }

  /** `^step\s*\d*[:\.]?\s+(.+)` on its first, greedy try, in terms of positions: the group is the line from `t` on. */
  lemma StepHit(line: string, p: nat, q: nat, t: nat)
    requires 4 <= p <= q && q + 1 < t < |line|
    requires IsStepWord(line[..4])
    requires SpacesAt(line, 4) == p - 4
    requires PrefixLen(line[p..], IsDigit) == q - p
    requires line[q] == ':' || line[q] == '.'
    requires SpacesAt(line, q + 1) == t - q - 1
    requires '\n' !in line[t..]
    ensures StepGroup(line) == Some(line[t..])
  {
    assert line[t] == line[t..][0];
    StepRestHit(line, p, q, t);
    StepGroupAt(line, t);
    RestToEnd(line, t);
    assert line[t..t + RestLen(line, t)] == line[t..];
  }

  /** The step group runs from where `StepRest` starts it to the end of the line. */
  lemma StepGroupAt(line: string, t: nat)
    requires |line| >= 4 && IsStepWord(line[..4])
    requires StepRest(line, SpacesAt(line, 4)) == Some(t)
    ensures t < |line| && line[t] != '\n' && StepGroup(line) == Some(GroupAt(line, t))
  {
  }

  /**
   * "step", optional whitespace, optional digits, ':' or '.', whitespace,
   * then text starting on a non-space: the group is that text
   * ("Step 2: do that").
   */
  lemma StepNumbered(word: string, gap: string, digits: string, sep: char, ws: string, rest: string)
    requires IsStepWord(word)
    requires forall i :: 0 <= i < |gap| ==> IsSpace(gap[i])
    requires forall i :: 0 <= i < |digits| ==> IsDigit(digits[i])
    requires sep == ':' || sep == '.'
    requires |ws| > 0 && forall i :: 0 <= i < |ws| ==> IsSpace(ws[i])
    requires |rest| > 0 && !IsSpace(rest[0]) && '\n' !in rest
    ensures StepGroup(word + gap + digits + [sep] + ws + rest) == Some(rest)
  {
    var line := word + gap + digits + [sep] + ws + rest;
    var p := 4 + |gap|;
    var q := p + |digits|;
    var t := q + 1 + |ws|;
    assert line[..4] == word;
    assert forall i :: 4 <= i < p ==> line[i] == gap[i - 4];
    assert line[p] == if |digits| > 0 then digits[0] else sep;
    assert forall i :: p <= i < q ==> line[i] == digits[i - p];
    assert line[q] == sep;
    assert forall i :: q + 1 <= i < t ==> line[i] == ws[i - q - 1];
    assert line[t..] == rest;
    StepRuns(line, p, q, t);
    StepHit(line, p, q, t);
  }

  /** A bullet line, once stripped, yields the text from its capital on, stripped. */
  lemma LineBullet(raw: string, w: nat)
    requires var line := Strip(raw);
      && w > 0 && |line| >= w + 3
      && (line[0] == '-' || line[0] == '*')
      && (forall i :: 1 <= i <= w ==> IsSpace(line[i]))
      && IsUpper(line[w + 1])
      && '\n' !in line
    ensures LineTask(raw) == Some(Strip(Strip(raw)[w + 1..]))
  {
    BulletComplete(Strip(raw), w);
  }

  /** A numbered step line, once stripped, yields its text after the separator. */
  lemma LineStep(raw: string, word: string, gap: string, digits: string, sep: char, ws: string, rest: string)
    requires Strip(raw) == word + gap + digits + [sep] + ws + rest
    requires IsStepWord(word)
    requires forall i :: 0 <= i < |gap| ==> IsSpace(gap[i])
    requires forall i :: 0 <= i < |digits| ==> IsDigit(digits[i])
    requires sep == ':' || sep == '.'
    requires |ws| > 0 && forall i :: 0 <= i < |ws| ==> IsSpace(ws[i])
    requires |rest| > 0 && !IsSpace(rest[0]) && '\n' !in rest
    ensures LineTask(raw) == Some(Strip(rest))
  {
    StepNumbered(word, gap, digits, sep, ws, rest);
    assert Strip(raw)[0] == word[0];
    LineTaskStep(raw, rest);
  }

  /** A line the bullet rule misses yields the step group, stripped. */
  lemma LineTaskStep(raw: string, g: string)
    requires |Strip(raw)| >= 4 && Strip(raw)[0] != '-' && Strip(raw)[0] != '*'
    requires StepGroup(Strip(raw)) == Some(g)
    ensures LineTask(raw) == Some(Strip(g))
  {
  }

  // ------------------------------------------------------------ all lines

  /** What `f` yields over `lines`, in order, skipping the lines it yields nothing for. */
  function Collect(lines: seq<string>, f: string -> Option<string>): (r: seq<string>)
    ensures |r| <= |lines|
    decreases |lines|
  {
    if lines == [] then []
    else
      var n := |lines| - 1;
      Collect(lines[..n], f) + (match f(lines[n]) case Some(t) => [t] case None => [])
  }

  /** Everything collected comes from one of the lines. */
  lemma {:induction false} CollectFrom(lines: seq<string>, f: string -> Option<string>)
    ensures forall t :: t in Collect(lines, f) ==> exists i :: 0 <= i < |lines| && f(lines[i]) == Some(t)
    decreases |lines|
  {
    if lines != [] {
      var n := |lines| - 1;
      CollectFrom(lines[..n], f);
    }
  }

  lemma {:induction false} CollectAppend(a: seq<string>, b: seq<string>, f: string -> Option<string>)
    ensures Collect(a + b, f) == Collect(a, f) + Collect(b, f)
    decreases |b|
  {
    if b == [] {
      assert a + b == a;
    } else {
      var n := |b| - 1;
      CollectAppend(a, b[..n], f);
      assert (a + b)[..|a + b| - 1] == a + b[..n];
      assert (a + b)[|a + b| - 1] == b[n];
    }
  }

  /** Collecting one more line appends what that line yields. */
  lemma CollectNext(lines: seq<string>, i: nat, f: string -> Option<string>)
    requires i < |lines|
    ensures Collect(lines[..i + 1], f) == Collect(lines[..i], f) + (match f(lines[i]) case Some(t) => [t] case None => [])
  {
    assert lines[..i + 1][..i] == lines[..i];
  }

  /** `_extract_lines`: the tasks of the lines, in line order, each non-empty and stripped. */
  function ExtractAll(lines: seq<string>): (tasks: seq<string>)
    ensures |tasks| <= |lines|
    ensures forall t :: t in tasks ==> t != [] && IsStripped(t)
  {
    CollectFrom(lines, LineTask);
    forall i | 0 <= i < |lines| ensures LineTask(lines[i]).Some? ==> LineTask(lines[i]).value != [] {
      LineTaskNonEmpty(lines[i]);
    }
    Collect(lines, LineTask)
  }

  /** Extraction keeps line order: the tasks of two blocks of lines are those of each, in turn. */
  lemma ExtractAllAppend(a: seq<string>, b: seq<string>)
    ensures ExtractAll(a + b) == ExtractAll(a) + ExtractAll(b)
  {
    CollectAppend(a, b, LineTask);
  }

  /** `_extract_lines`, looping over the lines and appending. */
  method ExtractLines(lines: seq<string>) returns (tasks: seq<string>)
    ensures tasks == ExtractAll(lines)
  {
    tasks := [];
    for i := 0 to |lines|
      invariant tasks == Collect(lines[..i], LineTask)
    {
      CollectNext(lines, i, LineTask);
      var line := Strip(lines[i]);
      if |line| < 4 {
        continue;
      }
      var m := BulletGroup(line);
      if m.Some? {
        tasks := tasks + [Strip(m.value)];
        continue;
      }
      m := StepGroup(line);
      if m.Some? {
        tasks := tasks + [Strip(m.value)];
        continue;
      }
    }
    assert lines[..|lines|] == lines;
  }

  // ------------------------------------------------------------ into the palace

  /** `f"TASK: {line}"`. */
  function Wrap(t: string): string {
    WrapPrefix + t
  }

  /** Every wrapped line is a task for the task manager. */
  lemma WrapIsTask(t: string)
    ensures Tasks.IsTask(Wrap(t))
  {
    LowerAppend(WrapPrefix, t);
    assert Lower(WrapPrefix) == "task: ";
    assert "task:" <= Lower(WrapPrefix) + Lower(t);
  }

  /** The task manager remixes exactly the extracted line: its body is the stripped line. */
  lemma WrapBody(t: string)
    requires IsStripped(t)
    ensures Tasks.Body(Wrap(t)) == t
  {
    WrapShape(t);
    Tasks.BodyAfterColonAt(Wrap(t), 4);
    StripAfterSpace(t);
  }

  /** The first ':' of a wrapped task is the prefix's, and one space follows it. */
  lemma WrapShape(t: string)
    ensures |Wrap(t)| > 4 && Wrap(t)[4] == ':' && ':' !in Wrap(t)[..4]
    ensures Wrap(t)[5..] == [' '] + t
  {
    assert Wrap(t)[..4] == "TASK";
  }

  /** The artefacts `extract_to_palace` adds, the `i`-th stamped by `clock(i)`. */
  function Wrapped(tasks: seq<string>, name: string, clock: nat -> Palace.Stamp): (arts: seq<Palace.Artefact>)
    ensures |arts| == |tasks|
    ensures forall i :: 0 <= i < |tasks| ==>
      arts[i] == Palace.Artefact(clock(i).id, Wrap(tasks[i]), [ExtractedTag, name], clock(i).ts)
  {
    seq(|tasks|, i requires 0 <= i < |tasks| => Palace.Artefact(clock(i).id, Wrap(tasks[i]), [ExtractedTag, name], clock(i).ts))
  }

  /** Each stored artefact is a task whose body is the extracted line itself. */
  lemma WrappedAreTasks(lines: seq<string>, name: string, clock: nat -> Palace.Stamp)
    ensures forall a :: a in Wrapped(ExtractAll(lines), name, clock) ==>
      Tasks.IsTask(a.text) && Tasks.Body(a.text) in ExtractAll(lines)
  {
    var tasks := ExtractAll(lines);
    var arts := Wrapped(tasks, name, clock);
    forall a | a in arts ensures Tasks.IsTask(a.text) && Tasks.Body(a.text) in tasks {
      var i :| 0 <= i < |arts| && arts[i] == a;
      WrapIsTask(tasks[i]);
      WrapBody(tasks[i]);
    }
  }

  /** The adding loop of `extract_to_palace`: one wrapped artefact per task, in order. */
  method AddWrapped(palace: Palace.MemoryPalace, tasks: seq<string>, name: string, clock: nat -> Palace.Stamp)
    requires palace.Valid()
    modifies palace
    ensures palace.Valid()
    ensures palace.State() == Palace.PutAll(old(palace.State()), Wrapped(tasks, name, clock))
  {
    ghost var st0 := palace.State();
    ghost var arts := Wrapped(tasks, name, clock);
    for i := 0 to |tasks|
      invariant palace.Valid()
      invariant palace.State() == Palace.PutAll(st0, arts[..i])
    {
      Palace.PutAllStep(st0, arts[..i], arts[i]);
      assert arts[..i + 1] == arts[..i] + [arts[i]];
      var _ := palace.Add(Wrap(tasks[i]), [ExtractedTag, name], clock(i));
    }
    assert arts[..|tasks|] == arts;
  }

  /** The remix step of `extract_to_palace`: a task manager with nothing seen runs once over the palace. */
  method RemixFresh(palace: Palace.MemoryPalace, render: Remix.Cycle -> string, signal: nat -> real, clock: nat -> Palace.Stamp)
    requires palace.Valid()
    modifies palace
    ensures palace.Valid()
    ensures palace.State() == Tasks.Pass(old(palace.State()), old(palace.All()), Tasks.PendingTest({}), 0, Tasks.Maker(render, signal, clock))
  {
    var manager := new Tasks.TaskManager(palace);
    manager.RunOnce(render, signal, clock);
  }

  /**
   * The palace after `extract_to_palace` has stored `tasks`: the wrapped
   * artefacts put in order, then, with `remix` and at least one task, one
   * pass of a task manager that has seen nothing.
   */
  function Stored(st: Palace.Store, tasks: seq<string>, name: string, remix: bool, clock: nat -> Palace.Stamp,
                  render: Remix.Cycle -> string, signal: nat -> real, remixClock: nat -> Palace.Stamp): Palace.Store
    requires Palace.IsValid(st)
  {
    var added := Palace.PutAll(st, Wrapped(tasks, name, clock));
    Palace.PutAllValid(st, Wrapped(tasks, name, clock));
    if remix && |tasks| > 0
    then Tasks.Pass(added, Palace.Contents(added), Tasks.PendingTest({}), 0, Tasks.Maker(render, signal, remixClock))
    else added
  }

  /** No later line of the `n` reuses the id of line `i`'s stamp. */
  predicate LastStamp(clock: nat -> Palace.Stamp, n: nat, i: nat) {
    i < n && forall j :: i < j < n ==> clock(j).id != clock(i).id
  }

  /**
   * Without remix, the palace gains exactly the stamp ids of the lines, and
   * each line whose id is not reused later is stored as "TASK: " and the
   * line, tagged "extracted" and the file name.
   */
  lemma StoredWithoutRemix(st: Palace.Store, tasks: seq<string>, name: string, clock: nat -> Palace.Stamp,
                           render: Remix.Cycle -> string, signal: nat -> real, remixClock: nat -> Palace.Stamp)
    requires Palace.IsValid(st)
    ensures var r := Stored(st, tasks, name, false, clock, render, signal, remixClock);
      && Palace.IsValid(r)
      && (forall k :: k in r.entries <==> k in st.entries || exists i :: 0 <= i < |tasks| && clock(i).id == k)
      && forall i: nat :: LastStamp(clock, |tasks|, i) ==>
           r.entries[clock(i).id] == Palace.Artefact(clock(i).id, Wrap(tasks[i]), [ExtractedTag, name], clock(i).ts)
  {
    var arts := Wrapped(tasks, name, clock);
    Palace.PutAllValid(st, arts);
    forall k ensures k in Palace.PutAll(st, arts).entries <==> k in st.entries || exists i :: 0 <= i < |tasks| && clock(i).id == k {
      Palace.PutAllLastWins(st, arts, k);
      if i :| 0 <= i < |tasks| && clock(i).id == k {
        assert arts[i].id == k;
      }
    }
    forall i: nat | LastStamp(clock, |tasks|, i)
      ensures Palace.PutAll(st, arts).entries[clock(i).id] == arts[i]
    {
      Palace.PutAllLastWins(st, arts, clock(i).id);
    }
  }

  /**
   * With remix and at least one line, the task manager's pass processes the
   * pending tasks of the palace after the adds, and every line whose id is
   * not reused later is among them, its body the line itself.
   */
  lemma StoredWithRemix(st: Palace.Store, tasks: seq<string>, name: string, clock: nat -> Palace.Stamp,
                        render: Remix.Cycle -> string, signal: nat -> real, remixClock: nat -> Palace.Stamp)
    requires Palace.IsValid(st) && |tasks| > 0
    requires forall t :: t in tasks ==> IsStripped(t)
    ensures var added := Palace.PutAll(st, Wrapped(tasks, name, clock));
      && Palace.IsValid(added)
      && Stored(st, tasks, name, true, clock, render, signal, remixClock)
         == Palace.PutAll(added, Tasks.Outputs(Tasks.Pending(Palace.Contents(added), {}), 0, Tasks.Maker(render, signal, remixClock)))
      && forall i: nat :: LastStamp(clock, |tasks|, i) ==>
           && Wrapped(tasks, name, clock)[i] in Tasks.Pending(Palace.Contents(added), {})
           && Tasks.Body(Wrapped(tasks, name, clock)[i].text) == tasks[i]
  {
    var arts := Wrapped(tasks, name, clock);
    var added := Palace.PutAll(st, arts);
    Palace.PutAllValid(st, arts);
    Tasks.PassStoresOutputs(added, Palace.Contents(added), Tasks.PendingTest({}), 0, Tasks.Maker(render, signal, remixClock));
    Palace.ContentsExact(added);
    forall i: nat | LastStamp(clock, |tasks|, i)
      ensures arts[i] in Tasks.Pending(Palace.Contents(added), {}) && Tasks.Body(arts[i].text) == tasks[i]
    {
      Palace.PutAllLastWins(st, arts, clock(i).id);
      WrapIsTask(tasks[i]);
      WrapBody(tasks[i]);
      FilterMember(Palace.Contents(added), Tasks.PendingTest({}), arts[i]);
    }
  }

  /**
   * What `extract_to_palace` does with the extracted tasks: the wrapped
   * artefacts are added in order, and with `remix` and at least one task a
   * task manager with nothing seen runs once over the palace.
   */
  method StoreTasks(palace: Palace.MemoryPalace, tasks: seq<string>, name: string, remix: bool, clock: nat -> Palace.Stamp,
                    render: Remix.Cycle -> string, signal: nat -> real, remixClock: nat -> Palace.Stamp)
    requires palace.Valid()
    modifies palace
    ensures palace.Valid()
    ensures palace.State() == Stored(old(palace.State()), tasks, name, remix, clock, render, signal, remixClock)
  {
    AddWrapped(palace, tasks, name, clock);
    if remix && |tasks| > 0 {
      RemixFresh(palace, render, signal, remixClock);
    }
  }

  /**
   * `extract_to_palace` on the decoded text of a file called `name`: one
   * "TASK: " artefact per extracted line, tagged "extracted" and `name`;
   * with `remix` and at least one task, a fresh task manager then runs once
   * over the palace. Returns how many lines were extracted.
   */
  method ExtractToPalace(palace: Palace.MemoryPalace, text: string, name: string, remix: bool, clock: nat -> Palace.Stamp,
                         render: Remix.Cycle -> string, signal: nat -> real, remixClock: nat -> Palace.Stamp)
    returns (count: nat)
    requires palace.Valid()
    modifies palace
    ensures palace.Valid()
    ensures count == |ExtractAll(SplitLines(text))|
    ensures palace.State() == Stored(old(palace.State()), ExtractAll(SplitLines(text)), name, remix, clock, render, signal, remixClock)
  {
    var tasks := ExtractLines(SplitLines(text));
    StoreTasks(palace, tasks, name, remix, clock, render, signal, remixClock);
    count := |tasks|;
  }
}
