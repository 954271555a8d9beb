/** The Python string and list built-ins the package relies on, over Unicode code points. */
module Text {

  // ------------------------------------------------------------ characters

  /** `str.isspace()`; also the class `\s` matches and the separators `str.split()` uses. */
  predicate IsSpace(c: char) {
    || c == ' '
    || ('\t' <= c <= '\r')
    || ('\U{1C}' <= c <= '\U{1F}')
    || c == '\U{85}'
    || c == '\U{A0}'
    || c == '\U{1680}'
    || ('\U{2000}' <= c <= '\U{200A}')
    || c == '\U{2028}'
    || c == '\U{2029}'
    || c == '\U{202F}'
    || c == '\U{205F}'
    || c == '\U{3000}'
  }

  predicate IsNonSpace(c: char) { !IsSpace(c) }

  predicate IsUpper(c: char) { 'A' <= c <= 'Z' }

  predicate IsAsciiLetter(c: char) { 'a' <= c <= 'z' || 'A' <= c <= 'Z' }

  predicate IsDigit(c: char) { '0' <= c <= '9' }

  /** The regex class `\w`, for ASCII text: letters, digits and the underscore. */
  predicate IsWordChar(c: char) { IsAsciiLetter(c) || IsDigit(c) || c == '_' }

  /** `str.lower()` for one ASCII character. */
  function LowerChar(c: char): (d: char)
    ensures IsUpper(c) ==> 'a' <= d <= 'z'
    ensures !IsUpper(c) ==> d == c
  {
    if IsUpper(c) then (c as int + 32) as char else c
  }

  /** `str.lower()`, character by character. */
  function Lower(s: string): (r: string)
    ensures |r| == |s|
    ensures forall i :: 0 <= i < |s| ==> r[i] == LowerChar(s[i])
  {
    if s == [] then [] else [LowerChar(s[0])] + Lower(s[1..])
  }

  lemma {:induction false} LowerAppend(a: string, b: string)
    ensures Lower(a + b) == Lower(a) + Lower(b)
  {
    var l, r := Lower(a + b), Lower(a) + Lower(b);
    forall i | 0 <= i < |l|
      ensures l[i] == r[i]
    {
      if i < |a| {
        assert (a + b)[i] == a[i] && r[i] == Lower(a)[i];
      } else {
        assert (a + b)[i] == b[i - |a|] && r[i] == Lower(b)[i - |a|];
      }
    }
  }

  // ------------------------------------------------------------ substrings

  predicate StartsWith(s: string, prefix: string) { prefix <= s }

  /** `t in s` for strings. */
  predicate Contains(s: string, t: string)
    decreases |s|
  {
    t <= s || (s != [] && Contains(s[1..], t))
  }

  lemma {:induction false} ContainsPrefix(s: string, t: string, u: string)
    requires Contains(s, t)
    ensures Contains(s + u, t)
  {
    if t <= s {
      assert t <= s + u;
    } else {
      ContainsPrefix(s[1..], t, u);
      assert (s + u)[1..] == s[1..] + u;
    }
  }

  /** Length of the longest prefix of `s` whose characters all satisfy `p`. */
  function PrefixLen(s: string, p: char -> bool): (n: nat)
    ensures n <= |s|
    ensures forall i :: 0 <= i < n ==> p(s[i])
    ensures n < |s| ==> !p(s[n])
  {
    if s == [] || !p(s[0]) then 0 else 1 + PrefixLen(s[1..], p)
  }

  /** The prefix of `p` characters in `a + s` is `a` when `s` starts with a character that is not `p`. */
  lemma PrefixBefore(a: string, s: string, p: char -> bool)
    requires forall i :: 0 <= i < |a| ==> p(a[i])
    requires |s| > 0 && !p(s[0])
    ensures PrefixLen(a + s, p) == |a|
  {
    assert (a + s)[|a|] == s[0];
    assert forall i :: 0 <= i < |a| ==> (a + s)[i] == a[i];
  }

  /** Length of the longest suffix of `s` made of whitespace. */
  function SpaceSuffixLen(s: string): (n: nat)
    ensures n <= |s|
    ensures forall i :: |s| - n <= i < |s| ==> IsSpace(s[i])
    ensures n < |s| ==> !IsSpace(s[|s| - 1 - n])
  {
    if s == [] || !IsSpace(s[|s| - 1]) then 0 else 1 + SpaceSuffixLen(s[..|s| - 1])
  }

  predicate IsBlank(s: string) { forall i :: 0 <= i < |s| ==> IsSpace(s[i]) }

  /** A string with no whitespace at either end. */
  predicate IsStripped(s: string) { s == [] || (!IsSpace(s[0]) && !IsSpace(s[|s| - 1])) }

  /** `str.strip()`: drops leading and trailing whitespace and keeps the rest as it is. */
  function Strip(s: string): (r: string)
    ensures IsStripped(r)
    ensures r == [] <==> IsBlank(s)
    ensures |r| <= |s|
    ensures IsStripped(s) ==> r == s
  {
    var i := PrefixLen(s, IsSpace);
    if i == |s| then [] else s[i..|s| - SpaceSuffixLen(s)]
  }

  /** Stripping a stripped string behind one space gives the string back. */
  lemma StripAfterSpace(t: string)
    requires IsStripped(t)
    ensures Strip([' '] + t) == t
  {
    var s := [' '] + t;
    assert s[1..] == t;
    if t != [] {
      assert PrefixLen(s, IsSpace) == 1 + PrefixLen(t, IsSpace);
      assert s[|s| - 1] == t[|t| - 1];
    }
  }

  // ------------------------------------------------------------ tokens

  /**
   * The maximal runs of characters satisfying `p`, left to right: what
   * `re.findall` returns for a pattern `[...]+` of one character class.
   */
  function Runs(s: string, p: char -> bool): seq<string>
    decreases |s|
  {
    if s == [] then []
    else if !p(s[0]) then Runs(s[1..], p)
    else
      var n := PrefixLen(s, p);
      [s[..n]] + Runs(s[n..], p)
  }

  /** The characters of `s` that satisfy `p`, in order. */
  function Keep(s: string, p: char -> bool): string
    decreases |s|
  {
    if s == [] then [] else (if p(s[0]) then [s[0]] else []) + Keep(s[1..], p)
  }

  function Concat(rs: seq<string>): string {
    if rs == [] then [] else rs[0] + Concat(rs[1..])
  }

  lemma {:induction false} KeepAppend(a: string, b: string, p: char -> bool)
    ensures Keep(a + b, p) == Keep(a, p) + Keep(b, p)
    decreases |a|
  {
    if a == [] {
      assert a + b == b;
    } else {
      KeepAppend(a[1..], b, p);
      assert (a + b)[0] == a[0];
      assert (a + b)[1..] == a[1..] + b;
    }
  }

  lemma {:induction false} KeepAll(s: string, p: char -> bool)
    requires forall i :: 0 <= i < |s| ==> p(s[i])
    ensures Keep(s, p) == s
    decreases |s|
  {
    if s != [] {
      KeepAll(s[1..], p);
    }
  }

  /**
   * The runs are non-empty, made only of characters satisfying `p`, and
   * together they are exactly the characters of `s` that satisfy `p`.
   */
  lemma {:induction false} RunsCover(s: string, p: char -> bool)
    ensures forall r :: r in Runs(s, p) ==> r != [] && forall i :: 0 <= i < |r| ==> p(r[i])
    ensures Concat(Runs(s, p)) == Keep(s, p)
    ensures |Runs(s, p)| <= |s|
    decreases |s|
  {
    if s == [] {
    } else if !p(s[0]) {
      RunsCover(s[1..], p);
    } else {
      var n := PrefixLen(s, p);
      RunsCover(s[n..], p);
      assert s == s[..n] + s[n..];
      KeepAppend(s[..n], s[n..], p);
      KeepAll(s[..n], p);
      var rs := Runs(s, p);
      assert rs == [s[..n]] + Runs(s[n..], p);
      assert rs[1..] == Runs(s[n..], p);
    }
  }

  /** A run of `p` characters followed by one that is not `p` is a whole run of its own. */
  lemma {:induction false} RunsSeparated(a: string, sep: char, b: string, p: char -> bool)
    requires a != [] && forall i :: 0 <= i < |a| ==> p(a[i])
    requires !p(sep)
    ensures Runs(a + [sep] + b, p) == [a] + Runs(b, p)
  {
    var s := a + [sep] + b;
    PrefixLenRun(a, sep, b, p);
    assert s[..|a|] == a;
    assert s[|a|..] == [sep] + b;
    assert ([sep] + b)[1..] == b;
  }

  lemma {:induction false} PrefixLenRun(a: string, sep: char, b: string, p: char -> bool)
    requires forall i :: 0 <= i < |a| ==> p(a[i])
    requires !p(sep)
    ensures PrefixLen(a + [sep] + b, p) == |a|
    decreases |a|
  {
    if a == [] {
      assert (a + [sep] + b)[0] == sep;
    } else {
      PrefixLenRun(a[1..], sep, b, p);
      assert (a + [sep] + b)[1..] == a[1..] + [sep] + b;
    }
  }

  /** `str.split()` with no separator: the maximal runs of non-whitespace. */
  function Split(s: string): seq<string> {
    Runs(s, IsNonSpace)
  }

  /** `ws.count(w)`. */
  function Occ(ws: seq<string>, w: string): (n: nat)
    ensures n <= |ws|
    ensures n == 0 <==> w !in ws
  {
    if ws == [] then 0 else (if ws[0] == w then 1 else 0) + Occ(ws[1..], w)
  }

  lemma OccCons(x: string, ws: seq<string>, w: string)
    ensures Occ([x] + ws, w) == (if x == w then 1 else 0) + Occ(ws, w)
  {
    assert ([x] + ws)[1..] == ws;
  }

  /** `s[::-1]`. */
  function Reverse<T>(s: seq<T>): (r: seq<T>)
    ensures |r| == |s|
  {
    if s == [] then [] else Reverse(s[1..]) + [s[0]]
  }

  lemma {:induction false} ReverseAt<T>(s: seq<T>, k: nat)
    requires k < |s|
    ensures Reverse(s)[k] == s[|s| - 1 - k]
    decreases |s|
  {
    if k < |s| - 1 {
      ReverseAt(s[1..], k);
    }
  }

  /** Reversing twice gives back the original. */
  lemma {:induction false} ReverseInvolution<T>(s: seq<T>)
    ensures Reverse(Reverse(s)) == s
  {
    forall k | 0 <= k < |s|
      ensures Reverse(Reverse(s))[k] == s[k]
    {
      ReverseAt(Reverse(s), k);
      ReverseAt(s, |s| - 1 - k);
    }
  }

  /** `"".join(...)` of `sep` between the parts. */
  function Join(parts: seq<string>, sep: string): string {
    if parts == [] then []
    else if |parts| == 1 then parts[0]
    else parts[0] + sep + Join(parts[1..], sep)
  }

  /** A part joined in front of at least one more. */
  lemma JoinCons(part: string, rest: seq<string>, sep: string)
    requires rest != []
    ensures Join([part] + rest, sep) == part + sep + Join(rest, sep)
  {
    assert ([part] + rest)[1..] == rest;
  }

  // ------------------------------------------------------------ lines

  /** The characters `str.splitlines()` breaks at. */
  predicate IsLineBreak(c: char) {
    c == '\n' || c == '\r' || c == '\U{0B}' || c == '\U{0C}' || ('\U{1C}' <= c <= '\U{1E}')
    || c == '\U{85}' || c == '\U{2028}' || c == '\U{2029}'
  }

  predicate NotLineBreak(c: char) { !IsLineBreak(c) }

  /** `str.splitlines()`: "\r\n" is one break, and a final break opens no empty line. */
  function SplitLines(s: string): seq<string>
    decreases |s|
  {
    if s == [] then []
    else
      var k := PrefixLen(s, NotLineBreak);
      if k == |s| then [s]
      else [s[..k]] + SplitLines(s[k + BreakLen(s, k)..])
  }

  /** The break at `k` is two characters long when it is "\r\n", otherwise one. */
  function BreakLen(s: string, k: nat): nat
    requires k < |s|
  {
    if s[k] == '\r' && k + 1 < |s| && s[k + 1] == '\n' then 2 else 1
  }

  predicate NoBreaks(l: string) { forall i :: 0 <= i < |l| ==> NotLineBreak(l[i]) }

  /** No line holds a line break, and there are no more lines than characters. */
  lemma {:induction false} SplitLinesNoBreaks(s: string)
    ensures |SplitLines(s)| <= |s|
    ensures forall j :: 0 <= j < |SplitLines(s)| ==> NoBreaks(SplitLines(s)[j])
    decreases |s|
  {
    if s != [] {
      var k := PrefixLen(s, NotLineBreak);
      assert NoBreaks(s[..k]);
      if k < |s| {
        SplitLinesNoBreaks(s[k + BreakLen(s, k)..]);
      }
    }
  }

  /**
   * Joining the lines with "\n" gives the text back when its only breaks
   * are "\n" and it does not end with one.
   */
  lemma {:induction false} SplitLinesJoin(s: string)
    requires forall i :: 0 <= i < |s| && IsLineBreak(s[i]) ==> s[i] == '\n'
    requires s == [] || s[|s| - 1] != '\n'
    ensures Join(SplitLines(s), "\n") == s
    decreases |s|
  {
    if s != [] {
      var k := PrefixLen(s, NotLineBreak);
      if k < |s| {
        var rest := s[k + 1..];
        assert s[k] == '\n' && BreakLen(s, k) == 1;
        assert rest != [] && rest[|rest| - 1] == s[|s| - 1];
        SplitLinesJoin(rest);
        assert SplitLines(rest) != [];
        assert SplitLines(s) == [s[..k]] + SplitLines(rest);
        JoinCons(s[..k], SplitLines(rest), "\n");
        assert s == s[..k] + "\n" + rest;
      }
    }
  }

  // ------------------------------------------------------------ sequences

  lemma ConcatAssoc<T>(a: seq<T>, b: seq<T>, c: seq<T>)
    ensures a + (b + c) == (a + b) + c
  {
  }

  /** `[x for x in s if p(x)]`. */
  function Filter<T>(s: seq<T>, p: T -> bool): (r: seq<T>)
    ensures |r| <= |s|
    ensures forall x :: x in r ==> x in s && p(x)
    decreases |s|
  {
    if s == [] then []
    else Filter(s[..|s| - 1], p) + (if p(s[|s| - 1]) then [s[|s| - 1]] else [])
  }

  lemma {:induction false} FilterMember<T>(s: seq<T>, p: T -> bool, x: T)
    ensures x in Filter(s, p) <==> x in s && p(x)
    decreases |s|
  {
    if s != [] {
      FilterMember(s[..|s| - 1], p, x);
      assert s == s[..|s| - 1] + [s[|s| - 1]];
    }
  }

  lemma {:induction false} FilterAppend<T>(a: seq<T>, b: seq<T>, p: T -> bool)
    ensures Filter(a + b, p) == Filter(a, p) + Filter(b, p)
    decreases |b|
  {
    if b == [] {
      assert a + b == a;
    } else {
      var b', x := b[..|b| - 1], b[|b| - 1];
      var last := if p(x) then [x] else [];
      FilterAppend(a, b', p);
      assert (a + b)[..|a + b| - 1] == a + b';
      assert (a + b)[|a + b| - 1] == x;
      calc {
        Filter(a + b, p);
        Filter(a + b', p) + last;
        (Filter(a, p) + Filter(b', p)) + last;
        Filter(a, p) + (Filter(b', p) + last);
        Filter(a, p) + Filter(b, p);
      }
    }
  }

  /** Filtering a sequence with a head filters the head, then the rest. */
  lemma FilterCons<T>(a: T, rest: seq<T>, p: T -> bool)
    ensures Filter([a] + rest, p) == (if p(a) then [a] else []) + Filter(rest, p)
  {
    var head := if p(a) then [a] else [];
    assert Filter([a], p) == head by {
      assert [a][..0] == [];
      assert Filter([a], p) == Filter([], p) + head;
    }
    FilterAppend([a], rest, p);
  }

  lemma {:induction false} FilterAll<T>(s: seq<T>, p: T -> bool)
    requires forall i :: 0 <= i < |s| ==> p(s[i])
    ensures Filter(s, p) == s
    decreases |s|
  {
    if s != [] {
      var s', x := s[..|s| - 1], s[|s| - 1];
      assert Filter(s', p) == s' by {
        forall i | 0 <= i < |s'| ensures p(s'[i]) {
          assert s'[i] == s[i];
        }
        FilterAll(s', p);
      }
      assert p(x);
      calc {
        Filter(s, p);
        Filter(s', p) + [x];
        s' + [x];
        { assert s == s' + [x]; }
        s;
      }
    }
  }

  lemma {:induction false} FilterNone<T>(s: seq<T>, p: T -> bool)
    requires forall i :: 0 <= i < |s| ==> !p(s[i])
    ensures Filter(s, p) == []
    decreases |s|
  {
    if s != [] {
      FilterNone(s[..|s| - 1], p);
    }
  }

  /** Filtering by a stronger test is filtering the weaker test's result. */
  lemma {:induction false} FilterRefines<T>(s: seq<T>, wide: T -> bool, narrow: T -> bool)
    requires forall x :: narrow(x) ==> wide(x)
    ensures Filter(s, narrow) == Filter(Filter(s, wide), narrow)
    decreases |s|
  {
    if s != [] {
      var init, last := s[..|s| - 1], s[|s| - 1];
      FilterRefines(init, wide, narrow);
      var fw := Filter(init, wide);
      if wide(last) {
        calc {
          Filter(Filter(s, wide), narrow);
          Filter(fw + [last], narrow);
          { assert (fw + [last])[..|fw|] == fw; }
          Filter(fw, narrow) + (if narrow(last) then [last] else []);
          Filter(s, narrow);
        }
      } else {
        assert !narrow(last);
        assert fw + [] == fw;
        assert Filter(s, wide) == fw;
        assert Filter(init, narrow) + [] == Filter(init, narrow);
        assert Filter(s, narrow) == Filter(init, narrow);
      }
    }
  }

  /** `f` maps the positions of `a`, increasingly, to equal elements of `b`. */
  ghost predicate Embeds<T>(f: seq<nat>, a: seq<T>, b: seq<T>) {
    && |f| == |a|
    && (forall i :: 0 <= i < |f| ==> f[i] < |b| && a[i] == b[f[i]])
    && (forall i, j :: 0 <= i < j < |f| ==> f[i] < f[j])
  }

  /** `a` is `b` with some elements left out and the rest in their order. */
  ghost predicate IsSubseq<T>(a: seq<T>, b: seq<T>) {
    exists f :: Embeds(f, a, b)
  }

  lemma {:induction false} FilterIsSubseq<T>(s: seq<T>, p: T -> bool)
    ensures IsSubseq(Filter(s, p), s)
    decreases |s|
  {
    if s == [] {
      assert Embeds([], Filter(s, p), s);
    } else {
      var s' := s[..|s| - 1];
      FilterIsSubseq(s', p);
      var f: seq<nat> :| Embeds(f, Filter(s', p), s');
      if p(s[|s| - 1]) {
        assert Embeds(f + [|s| - 1], Filter(s, p), s);
      } else {
        assert Embeds(f, Filter(s, p), s);
      }
    }
  }

  lemma SubseqTransitive<T>(a: seq<T>, b: seq<T>, c: seq<T>)
    requires IsSubseq(a, b) && IsSubseq(b, c)
    ensures IsSubseq(a, c)
  {
    var f: seq<nat> :| Embeds(f, a, b);
    var g: seq<nat> :| Embeds(g, b, c);
    var h := seq(|f|, i requires 0 <= i < |f| => g[f[i]]);
    assert Embeds(h, a, c);
  }
}
