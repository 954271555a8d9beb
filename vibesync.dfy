/**
 * The browser extension's content script: keyword tests on the page's
 * text add `vibe-…` classes to the root element's class list.
 */
module VibeSync {
  import opened Text

  /**
   * A case-insensitive regex without the `g` flag: a literal, optionally
   * with `+` on its last character (`/mmm+/i`).
   */
  datatype Regex = Regex(lit: string, plus: bool)

  /** One entry of `vibeMap`: a class suffix and its regex. */
  datatype Vibe = Vibe(cls: string, re: Regex)

  /** `vibeMap`, in its entry order. */
  const VibeMap: seq<Vibe> := [
    Vibe("joy", Regex("jajaja", false)),
    Vibe("hum", Regex("mmm", true)),
    Vibe("paranoia", Regex("lok kkkk", false))
  ]

  /**
   * `r` matches `t[i..i + n]`, `t` already in lower case: the literal, and
   * with `+` any further copies of its last character.
   */
  predicate MatchesAt(r: Regex, t: string, i: nat, n: nat)
    requires i + n <= |t|
  {
    && |r.lit| <= n && t[i..i + |r.lit|] == r.lit
    && (if r.plus then |r.lit| > 0 && forall k :: i + |r.lit| <= k < i + n ==> t[k] == r.lit[|r.lit| - 1] else n == |r.lit|)
  }

  /**
   * `regex.test(body)`. Without the `u` flag, `i` folds case only where
   * upper-casing stays inside or outside ASCII, which for these ASCII
   * literals is ASCII case folding. Without `g`, no `lastIndex` is kept, so
   * the answer depends on the text alone.
   */
  predicate Test(r: Regex, body: string) {
    var t := Lower(body);
    exists i: nat, n: nat | i <= |t| && n <= |t| - i :: MatchesAt(r, t, i, n)
  }

  /** `+` never decides whether there is a match: the bare literal matches wherever the run does. */
  lemma PlusAddsNothing(r: Regex, body: string)
    requires |r.lit| > 0
    ensures Test(r, body) <==> Test(r.(plus := false), body)
  {
    var t := Lower(body);
    var r' := r.(plus := false);
    if Test(r, body) {
      var i: nat, n: nat :| i <= |t| && n <= |t| - i && MatchesAt(r, t, i, n);
      assert MatchesAt(r', t, i, |r.lit|);
    }
    if Test(r', body) {
      var i: nat, n: nat :| i <= |t| && n <= |t| - i && MatchesAt(r', t, i, n);
      assert MatchesAt(r, t, i, n);
    }
  }

  /** `classList.add(c)`: appended unless already present. */
  function AddClass(list: seq<string>, c: string): seq<string> {
    if c in list then list else list + [c]
  }

  /** The class an entry adds. */
  function ClassOf(v: Vibe): string { "vibe-" + v.cls }

  /** The class list after the entries `vs` have been tested in order against `body`. */
  function Scanned(list: seq<string>, body: string, vs: seq<Vibe>): seq<string>
    decreases |vs|
  {
    if vs == [] then list
    else
      var l := Scanned(list, body, vs[..|vs| - 1]);
      var v := vs[|vs| - 1];
      if Test(v.re, body) then AddClass(l, ClassOf(v)) else l
  }

  /** Classes are only added: the old list is kept, in order, at the front. */
  lemma {:induction false} ScanKeeps(list: seq<string>, body: string, vs: seq<Vibe>)
    ensures list <= Scanned(list, body, vs)
    decreases |vs|
  {
    if vs != [] {
      ScanKeeps(list, body, vs[..|vs| - 1]);
    }
  }

  /**
   * After a pass, a class is present exactly when it was before or it is
   * the class of an entry whose regex matches the text.
   */
  lemma {:induction false} ScanMember(list: seq<string>, body: string, vs: seq<Vibe>, c: string)
    ensures c in Scanned(list, body, vs) <==>
      c in list || exists j :: 0 <= j < |vs| && ClassOf(vs[j]) == c && Test(vs[j].re, body)
    decreases |vs|
  {
    if vs != [] {
      var front := vs[..|vs| - 1];
      ScanMember(list, body, front, c);
      if exists j :: 0 <= j < |vs| && ClassOf(vs[j]) == c && Test(vs[j].re, body) {
        var j :| 0 <= j < |vs| && ClassOf(vs[j]) == c && Test(vs[j].re, body);
        if j < |front| {
          assert front[j] == vs[j];
        }
      }
      if exists j :: 0 <= j < |front| && ClassOf(front[j]) == c && Test(front[j].re, body) {
        var j :| 0 <= j < |front| && ClassOf(front[j]) == c && Test(front[j].re, body);
        assert vs[j] == front[j];
      }
    }
  }

  /** A pass that finds every class it would add already present changes nothing. */
  lemma {:induction false} ScanSettled(list: seq<string>, body: string, vs: seq<Vibe>)
    requires forall j :: 0 <= j < |vs| && Test(vs[j].re, body) ==> ClassOf(vs[j]) in list
    ensures Scanned(list, body, vs) == list
    decreases |vs|
  {
    if vs != [] {
      ScanSettled(list, body, vs[..|vs| - 1]);
      assert vs[|vs| - 1] == vs[|vs| - 1];
    }
  }

  /** Two passes on unchanged text leave the same class list as one. */
  lemma ScanIdempotent(list: seq<string>, body: string, vs: seq<Vibe>)
    ensures Scanned(Scanned(list, body, vs), body, vs) == Scanned(list, body, vs)
  {
    var once := Scanned(list, body, vs);
    forall j | 0 <= j < |vs| && Test(vs[j].re, body)
      ensures ClassOf(vs[j]) in once
    {
      ScanMember(list, body, vs, ClassOf(vs[j]));
    }
    ScanSettled(once, body, vs);
  }

  /**
   * For the script's own map: `vibe-joy`, `vibe-hum` and `vibe-paranoia`
   * are present after a pass exactly when they were before or the text
   * holds `jajaja`, a run of three m's or `lok kkkk`, ignoring case; every
   * other class is present exactly when it was before.
   */
  lemma VibeClasses(list: seq<string>, body: string, c: string)
    ensures "vibe-joy" in Scanned(list, body, VibeMap) <==> "vibe-joy" in list || Test(Regex("jajaja", false), body)
    ensures "vibe-hum" in Scanned(list, body, VibeMap) <==> "vibe-hum" in list || Test(Regex("mmm", false), body)
    ensures "vibe-paranoia" in Scanned(list, body, VibeMap) <==> "vibe-paranoia" in list || Test(Regex("lok kkkk", false), body)
    ensures c != "vibe-joy" && c != "vibe-hum" && c != "vibe-paranoia" ==>
      (c in Scanned(list, body, VibeMap) <==> c in list)
  {
    assert ClassOf(VibeMap[0]) == "vibe-joy";
    assert ClassOf(VibeMap[1]) == "vibe-hum";
    assert ClassOf(VibeMap[2]) == "vibe-paranoia";
    PlusAddsNothing(VibeMap[1].re, body);
    ScanMember(list, body, VibeMap, "vibe-joy");
    ScanMember(list, body, VibeMap, "vibe-hum");
    ScanMember(list, body, VibeMap, "vibe-paranoia");
    ScanMember(list, body, VibeMap, c);
  }

  /** The page's root element. */
  class Root {
    /** `document.documentElement.classList`, in order. */
    var classList: seq<string>

    constructor (classes: seq<string>)
      ensures classList == classes
    {
      classList := classes;
    }

    /** `scanAndApply`: tests each entry of `vibeMap` in order against the page text. */
    method ScanAndApply(body: string)
      modifies this
      ensures classList == Scanned(old(classList), body, VibeMap)
    {
      for j := 0 to |VibeMap|
        invariant classList == Scanned(old(classList), body, VibeMap[..j])
      {
        assert VibeMap[..j + 1][..j] == VibeMap[..j];
        var v := VibeMap[j];
        if Test(v.re, body) {
          classList := AddClass(classList, ClassOf(v));
        }
      }
      assert VibeMap[..|VibeMap|] == VibeMap;
    }
  }
}
