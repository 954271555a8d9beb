/**
 * The log ingestor: the heuristic that judges a reversed line to be
 * readable English, and the ingest pass that stores every line whose
 * reversal passes it. Globbing and reading the files are left to the
 * caller: a file arrives as its name and its decoded text.
 */
module Logs {
  import opened Text
  import Palace

  /** `_COMMON_WORDS`. */
  const CommonWords: set<string> := {"the", "and", "we", "you", "to", "of", "in", "is"}

  /** The lowest letter ratio a readable line may have. */
  const MinLetterRatio: real := 0.6

  const DecodedTag: string := "decoded"

  /** `len(_LETTER_RE.findall(text))`: how many ASCII letters the text holds. */
  function Letters(text: string): (n: nat)
    ensures n <= |text|
  {
    |Filter(text, IsAsciiLetter)|
  }

  /** `letters / max(1, len(text))`. */
  function LetterRatio(text: string): real {
    (Letters(text) as real) / (if |text| > 1 then |text| else 1) as real
  }

  /** `set(w.lower() for w in text.split())`. */
  function LowerWords(text: string): set<string> {
    set w | w in Split(text) :: Lower(w)
  }

  /** `_is_likely_reversed`. */
  predicate IsLikelyReversed(text: string) {
    Strip(text) != [] && LetterRatio(text) >= MinLetterRatio && |LowerWords(text) * CommonWords| >= 2
  }

  /**
   * The three tests, each stated without the ratio or the strip: a blank
   * text is never reversed, and otherwise the letters must make up at
   * least three fifths of the characters and two distinct common words
   * must appear.
   */
  lemma ReversedExactly(text: string)
    ensures IsBlank(text) ==> !IsLikelyReversed(text)
    ensures !IsBlank(text) ==>
      (IsLikelyReversed(text) <==> 5 * Letters(text) >= 3 * |text| && |LowerWords(text) * CommonWords| >= 2)
  {
    if !IsBlank(text) {
      assert |text| > 0;
      RatioBound(Letters(text), |text|);
    }
  }

  /** For a positive length, `n / d >= 0.6` is `5 n >= 3 d`. */
  lemma RatioBound(n: nat, d: nat)
    requires d > 0
    ensures (n as real) / (if d > 1 then d else 1) as real >= MinLetterRatio <==> 5 * n >= 3 * d
  {
    var q := (n as real) / (d as real);
    assert q * (d as real) == n as real;
    if 5 * n >= 3 * d {
      assert (5 * n) as real >= (3 * d) as real;
      assert q * (d as real) >= 0.6 * (d as real);
    } else {
      assert (5 * n) as real < (3 * d) as real;
      assert q * (d as real) < 0.6 * (d as real);
    }
  }

  /** Reversing a text keeps its letters, so the letter count of a line and of its reversal agree. */
  lemma {:induction false} ReverseKeepsLetters(s: string)
    ensures Letters(Reverse(s)) == Letters(s)
    decreases |s|
  {
    if s != [] {
      ReverseKeepsLetters(s[1..]);
      FilterAppend(Reverse(s[1..]), [s[0]], IsAsciiLetter);
      FilterCons(s[0], s[1..], IsAsciiLetter);
      assert [s[0]] + s[1..] == s;
      assert Filter([s[0]], IsAsciiLetter) == Filter([], IsAsciiLetter) + (if IsAsciiLetter(s[0]) then [s[0]] else []);
    }
  }

  /**
   * The ratio test cannot tell a line from its reversal: only the blank and
   * common-word tests decide which way round a line reads.
   */
  lemma ReverseKeepsRatio(line: string)
    ensures LetterRatio(Reverse(line)) == LetterRatio(line)
  {
    ReverseKeepsLetters(line);
  }

  // ------------------------------------------------------------ ingest

  /** A file to ingest: its name and its decoded text. */
  datatype SourceFile = SourceFile(name: string, text: string)

  /** A decoded line and the name of the file it came from. */
  datatype Find = Find(text: string, name: string)

  /** `line[::-1]` for each line. */
  function Reversals(lines: seq<string>): (r: seq<string>)
    ensures |r| == |lines|
  {
    seq(|lines|, i requires 0 <= i < |lines| => Reverse(lines[i]))
  }

  /** The decoded lines of one file under the test `keep`, in line order. */
  function Decoded(lines: seq<string>, keep: string -> bool): seq<string> {
    Filter(Reversals(lines), keep)
  }

  /** Each text paired with the file's name. */
  function Labelled(texts: seq<string>, name: string): (r: seq<Find>)
    ensures |r| == |texts|
  {
    seq(|texts|, i requires 0 <= i < |texts| => Find(texts[i], name))
  }

  /**
   * Everything `ingest` decodes, file by file and line by line, when `split`
   * cuts a text into lines and `keep` is the test.
   */
  function Finds(files: seq<SourceFile>, split: string -> seq<string>, keep: string -> bool): seq<Find>
    decreases |files|
  {
    if files == [] then []
    else
      var f := files[|files| - 1];
      Finds(files[..|files| - 1], split, keep) + Labelled(Decoded(split(f.text), keep), f.name)
  }

  /** The artefacts the finds become, the `i`-th stamped by `clock(from + i)`. */
  function Stamped(finds: seq<Find>, clock: nat -> Palace.Stamp, from: nat): (arts: seq<Palace.Artefact>)
    ensures |arts| == |finds|
  {
    seq(|finds|, i requires 0 <= i < |finds| => Palace.Artefact(clock(from + i).id, finds[i].text, [DecodedTag, finds[i].name], clock(from + i).ts))
  }

  /**
   * What `ingest` finds is exactly the reversals that pass the test, each
   * labelled with its file's name; reversing a find gives back the line it
   * came from.
   */
  lemma FindsExact(files: seq<SourceFile>, x: Find)
    ensures x in Finds(files, SplitLines, IsLikelyReversed) <==>
      IsLikelyReversed(x.text) &&
      exists i :: 0 <= i < |files| && files[i].name == x.name && Reverse(x.text) in SplitLines(files[i].text)
  {
    FindsMember(files, SplitLines, IsLikelyReversed, x);
    forall i | 0 <= i < |files|
      ensures FromFile(files[i], SplitLines, x) <==> files[i].name == x.name && Reverse(x.text) in SplitLines(files[i].text)
    {
      ReversalsMember(SplitLines(files[i].text), x.text);
    }
  }

  /** A text is the reversal of one of the lines exactly when its own reversal is that line. */
  lemma ReversalsMember(lines: seq<string>, t: string)
    ensures t in Reversals(lines) <==> Reverse(t) in lines
  {
    ReverseInvolution(t);
    if t in Reversals(lines) {
      var j :| 0 <= j < |lines| && Reversals(lines)[j] == t;
      ReverseInvolution(lines[j]);
    }
    if Reverse(t) in lines {
      var j :| 0 <= j < |lines| && lines[j] == Reverse(t);
      assert Reversals(lines)[j] == t;
    }
  }

  /** `x` reads as the reversal of a line of file `f`, under the file's own name. */
  predicate FromFile(f: SourceFile, split: string -> seq<string>, x: Find) {
    f.name == x.name && x.text in Reversals(split(f.text))
  }

  lemma {:induction false} FindsMember(files: seq<SourceFile>, split: string -> seq<string>, keep: string -> bool, x: Find)
    ensures x in Finds(files, split, keep) <==>
      keep(x.text) && exists i :: 0 <= i < |files| && FromFile(files[i], split, x)
    decreases |files|
  {
    if files != [] {
      var n := |files| - 1;
      var front := files[..n];
      var f := files[n];
      var more := Labelled(Decoded(split(f.text), keep), f.name);
      assert Finds(files, split, keep) == Finds(front, split, keep) + more;
      FindsMember(front, split, keep, x);
      FilterMember(Reversals(split(f.text)), keep, x.text);
      LabelledMember(Decoded(split(f.text), keep), f.name, x);
      if x in Finds(files, split, keep) {
        if x in more {
          assert FromFile(files[n], split, x);
        } else {
          var i :| 0 <= i < n && FromFile(front[i], split, x);
          assert FromFile(files[i], split, x);
        }
      }
      if keep(x.text) && exists i :: 0 <= i < |files| && FromFile(files[i], split, x) {
        var i :| 0 <= i < |files| && FromFile(files[i], split, x);
        if i < n {
          assert FromFile(front[i], split, x);
        }
      }
    }
  }

  lemma LabelledMember(texts: seq<string>, name: string, x: Find)
    ensures x in Labelled(texts, name) <==> x.name == name && x.text in texts
  {
    if x.name == name && x.text in texts {
      var i :| 0 <= i < |texts| && texts[i] == x.text;
      assert Labelled(texts, name)[i] == x;
    }
  }

  /** Stamping a longer list stamps its front, then its back from where the front stopped. */
  lemma StampedAppend(a: seq<Find>, b: seq<Find>, clock: nat -> Palace.Stamp, from: nat)
    ensures Stamped(a + b, clock, from) == Stamped(a, clock, from) + Stamped(b, clock, from + |a|)
  {
  }

  /** Stamping one find more adds one artefact at the end, stamped by the next clock call. */
  lemma StampedSnoc(done: seq<Find>, x: Find, clock: nat -> Palace.Stamp, from: nat)
    ensures Stamped(done + [x], clock, from)
         == Stamped(done, clock, from) + [Palace.Artefact(clock(from + |done|).id, x.text, [DecodedTag, x.name], clock(from + |done|).ts)]
  {
  }

  /** One line more: its reversal is found exactly when it passes `keep`. */
  lemma DecodedStep(lines: seq<string>, j: nat, keep: string -> bool, name: string)
    requires j < |lines|
    ensures Labelled(Decoded(lines[..j + 1], keep), name)
         == Labelled(Decoded(lines[..j], keep), name) + (if keep(Reverse(lines[j])) then [Find(Reverse(lines[j]), name)] else [])
  {
    var rs := Reversals(lines[..j + 1]);
    assert rs[..j] == Reversals(lines[..j]) && rs[j] == Reverse(lines[j]);
    assert Filter(rs, keep) == Filter(rs[..j], keep) + (if keep(rs[j]) then [rs[j]] else []);
  }

  /**
   * One line of a file called `name`: its reversal is added, tagged
   * "decoded" and the name and stamped by `clock(k)`, when it passes `keep`.
   * Returns the next clock index.
   */
  method IngestLine(palace: Palace.MemoryPalace, name: string, line: string, keep: string -> bool,
                    clock: nat -> Palace.Stamp, k: nat)
    returns (next: nat)
    requires palace.Valid()
    modifies palace
    ensures palace.Valid()
    ensures var rev := Reverse(line);
      if keep(rev)
      then next == k + 1 && palace.State() == Palace.Put(old(palace.State()), Palace.Artefact(clock(k).id, rev, [DecodedTag, name], clock(k).ts))
      else next == k && palace.State() == old(palace.State())
  {
    var rev := Reverse(line);
    next := k;
    if keep(rev) {
      var _ := palace.Add(rev, [DecodedTag, name], clock(k));
      next := k + 1;
    }
  }

  /** After one line more, the palace holds the stamped finds of one line more. */
  lemma LineStep(st: Palace.Store, lines: seq<string>, j: nat, keep: string -> bool, name: string,
                 clock: nat -> Palace.Stamp, k: nat, at: nat)
    requires j < |lines|
    requires at == k + |Decoded(lines[..j], keep)|
    ensures var done := Labelled(Decoded(lines[..j], keep), name);
      var rev := Reverse(lines[j]);
      var a := Palace.Artefact(clock(at).id, rev, [DecodedTag, name], clock(at).ts);
      Palace.PutAll(st, Stamped(Labelled(Decoded(lines[..j + 1], keep), name), clock, k))
      == if keep(rev) then Palace.Put(Palace.PutAll(st, Stamped(done, clock, k)), a) else Palace.PutAll(st, Stamped(done, clock, k))
  {
    var done := Labelled(Decoded(lines[..j], keep), name);
    var rev := Reverse(lines[j]);
    DecodedStep(lines, j, keep, name);
    if keep(rev) {
      assert Labelled(Decoded(lines[..j + 1], keep), name) == done + [Find(rev, name)];
      StampedSnoc(done, Find(rev, name), clock, k);
      Palace.PutAllStep(st, Stamped(done, clock, k), Palace.Artefact(clock(k + |done|).id, rev, [DecodedTag, name], clock(k + |done|).ts));
    } else {
      assert Labelled(Decoded(lines[..j + 1], keep), name) == done + [];
      assert done + [] == done;
    }
  }

  /**
   * The lines of one file called `name`: each reversal that passes `keep`
   * is added, tagged "decoded" and the name, stamped by the clock from `k`
   * on. Returns the next clock index.
   */
  method IngestFile(palace: Palace.MemoryPalace, name: string, lines: seq<string>, keep: string -> bool,
                    clock: nat -> Palace.Stamp, k: nat)
    returns (next: nat)
    requires palace.Valid()
    modifies palace
    ensures palace.Valid()
    ensures var finds := Labelled(Decoded(lines, keep), name);
      && next == k + |finds|
      && palace.State() == Palace.PutAll(old(palace.State()), Stamped(finds, clock, k))
  {
    ghost var st0 := palace.State();
    next := k;
    for j := 0 to |lines|
      invariant palace.Valid()
      invariant next == k + |Decoded(lines[..j], keep)|
      invariant palace.State() == Palace.PutAll(st0, Stamped(Labelled(Decoded(lines[..j], keep), name), clock, k))
    {
      LineStep(st0, lines, j, keep, name, clock, k, next);
      DecodedStep(lines, j, keep, name);
      next := IngestLine(palace, name, lines[j], keep, clock, next);
    }
    assert lines[..|lines|] == lines;
  }

  /**
   * `ingest`: every file in turn, every line in turn; the palace ends up
   * with exactly the finds, in order, stamped by consecutive clock calls.
   */
  method Ingest(palace: Palace.MemoryPalace, files: seq<SourceFile>, clock: nat -> Palace.Stamp)
    requires palace.Valid()
    modifies palace
    ensures palace.Valid()
    ensures palace.State() == Palace.PutAll(old(palace.State()), Stamped(Finds(files, SplitLines, IsLikelyReversed), clock, 0))
  {
    ghost var st0 := palace.State();
    var k := 0;
    for i := 0 to |files|
      invariant palace.Valid()
      invariant k == |Finds(files[..i], SplitLines, IsLikelyReversed)|
      invariant palace.State() == Palace.PutAll(st0, Stamped(Finds(files[..i], SplitLines, IsLikelyReversed), clock, 0))
    {
      FindsStep(st0, files, i, SplitLines, IsLikelyReversed, clock);
      k := IngestFile(palace, files[i].name, SplitLines(files[i].text), IsLikelyReversed, clock, k);
    }
    assert files[..|files|] == files;
  }

  /** One file more: its finds are stamped after everything before it. */
  lemma FindsStep(st: Palace.Store, files: seq<SourceFile>, i: nat, split: string -> seq<string>, keep: string -> bool,
                  clock: nat -> Palace.Stamp)
    requires i < |files|
    ensures var done := Finds(files[..i], split, keep);
      var more := Labelled(Decoded(split(files[i].text), keep), files[i].name);
      && Finds(files[..i + 1], split, keep) == done + more
      && Palace.PutAll(st, Stamped(done + more, clock, 0))
         == Palace.PutAll(Palace.PutAll(st, Stamped(done, clock, 0)), Stamped(more, clock, |done|))
  {
    var done := Finds(files[..i], split, keep);
    var more := Labelled(Decoded(split(files[i].text), keep), files[i].name);
    assert files[..i + 1][..i] == files[..i];
    StampedAppend(done, more, clock, 0);
    Palace.PutAllAppend(st, Stamped(done, clock, 0), Stamped(more, clock, |done|));
  }
}
