/**
 * The memory palace: an insertion-ordered map from artefact id to artefact,
 * with `add`, tag `search`, `all`, the dictionary form of an artefact and
 * the merge that loading a saved list performs. The JSON file itself is
 * not modelled: a load receives the decoded list, or nothing when the file
 * is missing or undecodable.
 */
module Palace {
  import opened Text
  import opened Values

  /** A stored piece of text with its tags. */
  datatype Artefact = Artefact(id: string, text: string, tags: seq<string>, timestamp: real)

  /**
   * What the clock supplies to one `add`: the id `str(int(time.time() * 1000))`
   * and the timestamp `time.time()`.
   */
  datatype Stamp = Stamp(id: string, ts: real)

  // ------------------------------------------------------------ dictionary form

  /** `Artefact.to_dict`. */
  function ToDict(a: Artefact): map<string, Value> {
    map["id" := Str(a.id), "text" := Str(a.text), "tags" := StrList(a.tags), "timestamp" := Real(a.timestamp)]
  }

  // ------------------------------------------------------------ str() and float()

  function DigitChar(d: nat): (c: char)
    requires d < 10
    ensures IsDigit(c)
  {
    ('0' as int + d) as char
  }

  function DigitOf(c: char): nat {
    if IsDigit(c) then c as int - '0' as int else 0
  }

  /** The decimal digits of `n`, most significant first, with no leading zero. */
  function Digits(n: nat): (s: string)
    ensures |s| > 0 && (|s| > 1 ==> s[0] != '0')
    ensures forall i :: 0 <= i < |s| ==> IsDigit(s[i])
    decreases n
  {
    if n < 10 then [DigitChar(n)] else Digits(n / 10) + [DigitChar(n % 10)]
  }

  /** `str(i)` for an integer. */
  function IntStr(i: int): string {
    if i < 0 then "-" + Digits(-i) else Digits(i)
  }

  /** `digit (["_"] digit)*`: ASCII digits, with single underscores only between two of them. */
  predicate IsDigitPart(t: string) {
    && |t| > 0 && IsDigit(t[0])
    && forall i :: 0 <= i < |t| ==> IsDigit(t[i]) || (t[i] == '_' && i + 1 < |t| && IsDigit(t[i + 1]))
  }

  /** The number the digits of `t` spell, most significant first; underscores are skipped. */
  function DigitsValue(t: string): nat
    decreases |t|
  {
    if t == [] then 0
    else if t[|t| - 1] == '_' then DigitsValue(t[..|t| - 1])
    else DigitsValue(t[..|t| - 1]) * 10 + DigitOf(t[|t| - 1])
  }

  /** How many digits `t` holds. */
  function DigitCount(t: string): nat
    decreases |t|
  {
    if t == [] then 0 else DigitCount(t[..|t| - 1]) + (if t[|t| - 1] == '_' then 0 else 1)
  }

  function Pow10(n: nat): (p: nat)
    ensures p >= 1
  {
    if n == 0 then 1 else 10 * Pow10(n - 1)
  }

  /** `m` times ten to the power `e`. */
  function Scaled(m: nat, e: int): real {
    if e >= 0 then (m * Pow10(e)) as real else m as real / Pow10(-e) as real
  }

  predicate NotExponentMark(c: char) { c != 'e' && c != 'E' }
  predicate NotDot(c: char) { c != '.' }

  /** `t` without one leading sign, and whether that sign was a minus. */
  function Unsigned(t: string): (string, bool) {
    if |t| > 0 && (t[0] == '+' || t[0] == '-') then (t[1..], t[0] == '-') else (t, false)
  }

  /** A number split at its exponent mark and its dot: whole part, fraction, exponent digits and exponent sign. */
  datatype NumberParts = NumberParts(whole: string, frac: string, exp: string, expNeg: bool)

  function Parts(body: string): NumberParts {
    var k := PrefixLen(body, NotExponentMark);
    var mant := body[..k];
    var q := PrefixLen(mant, NotDot);
    var x := if k < |body| then Unsigned(body[k + 1..]) else ("0", false);
    NumberParts(mant[..q], if q < |mant| then mant[q + 1..] else [], x.0, x.1)
  }

  /** `[digitpart] "." digitpart | digitpart ["."]`, then a digit part for the exponent. */
  predicate PartsValid(p: NumberParts) {
    && (p.whole != [] || p.frac != [])
    && (p.whole == [] || IsDigitPart(p.whole))
    && (p.frac == [] || IsDigitPart(p.frac))
    && IsDigitPart(p.exp)
  }

  function PartsValue(p: NumberParts): real {
    var mag: int := DigitsValue(p.exp);
    Scaled(DigitsValue(p.whole + p.frac), (if p.expNeg then -mag else mag) - DigitCount(p.frac))
  }

  /**
   * An unsigned number: `[digitpart] "." digitpart | digitpart ["."]` and an
   * optional exponent `("e" | "E") [sign] digitpart`.
   */
  function ParseNumber(body: string): Option<real> {
    var p := Parts(body);
    if PartsValid(p) then Some(PartsValue(p)) else None
  }

  /**
   * `float(s)` for a string spelling a finite number: surrounding whitespace,
   * an optional sign and a number. Nothing when `s` has another shape.
   */
  function ParseFloat(s: string): Option<real> {
    var u := Unsigned(Strip(s));
    match ParseNumber(u.0)
    case None => None
    case Some(v) => Some(if u.1 then -v else v)
  }

  /** The spellings of infinity and not-a-number that `float` accepts, in any case and with a sign. */
  predicate IsNonFinite(s: string) {
    Lower(Unsigned(Strip(s)).0) in {"inf", "infinity", "nan"}
  }

  lemma {:induction false} DigitsRoundTrip(n: nat)
    ensures DigitsValue(Digits(n)) == n
    decreases n
  {
    if n >= 10 {
      DigitsRoundTrip(n / 10);
      var s := Digits(n);
      assert s[..|s| - 1] == Digits(n / 10);
    }
  }

  /** A plain run of digits reads as the number it spells. */
  lemma NumberOfDigits(body: string)
    requires |body| > 0 && forall i :: 0 <= i < |body| ==> IsDigit(body[i])
    ensures ParseNumber(body) == Some(DigitsValue(body) as real)
  {
    DigitsParts(body);
    DigitsPartsRead(body);
  }

  lemma DigitsPartsRead(body: string)
    requires |body| > 0 && forall i :: 0 <= i < |body| ==> IsDigit(body[i])
    ensures PartsValid(NumberParts(body, [], "0", false))
    ensures PartsValue(NumberParts(body, [], "0", false)) == DigitsValue(body) as real
  {
    assert IsDigitPart(body);
    assert IsDigitPart("0");
    assert DigitsValue("0") == 0 by {
      assert "0"[..0] == [];
    }
    assert body + [] == body;
  }

  /** A plain run of digits is all whole part, with no fraction and no exponent. */
  lemma DigitsParts(body: string)
    requires forall i :: 0 <= i < |body| ==> IsDigit(body[i])
    ensures Parts(body) == NumberParts(body, [], "0", false)
  {
    assert PrefixLen(body, NotExponentMark) == |body|;
    assert body[..|body|] == body;
    assert PrefixLen(body, NotDot) == |body|;
  }

  /** `str(i)` is already stripped, and its only possible sign is a minus. */
  lemma IntStrShape(i: int)
    ensures Unsigned(Strip(IntStr(i))) == (Digits(if i < 0 then -i else i), i < 0)
  {
    var s := IntStr(i);
    assert IsStripped(s);
    if i < 0 {
      assert s[1..] == Digits(-i);
    }
  }

  /** `float(str(i)) == i` for every integer `i`. */
  lemma IntStrRoundTrip(i: int)
    ensures ParseFloat(IntStr(i)) == Some(i as real)
  {
    var n: nat := if i < 0 then -i else i;
    IntStrShape(i);
    NumberOfDigits(Digits(n));
    DigitsRoundTrip(n);
  }

  /** A timestamp saved as the string of an integer reads back as that number. */
  lemma FloatOfIntStr(i: int)
    ensures FloatOf(Str(IntStr(i))) == Ok(i as real)
  {
    IntStrShape(i);
    DigitFirstFinite(IntStr(i));
    IntStrRoundTrip(i);
  }

  /** A number whose first character after the sign is a digit is neither inf nor nan. */
  lemma DigitFirstFinite(s: string)
    requires |Unsigned(Strip(s)).0| > 0 && IsDigit(Unsigned(Strip(s)).0[0])
    ensures !IsNonFinite(s)
  {
    var l := Lower(Unsigned(Strip(s)).0);
    assert l[0] == Unsigned(Strip(s)).0[0];
    assert l != "inf" && l != "infinity" && l != "nan" by {
      assert "inf"[0] == 'i' && "infinity"[0] == 'i' && "nan"[0] == 'n';
    }
  }

  /** Why `Artefact.from_dict` raises. */
  datatype LoadError =
    | KeyError(key: string)    // a required key is missing
    | TypeError(key: string)   // `list(...)` or `float(...)` of a value of the wrong kind
    | ValueError(key: string)  // `float(...)` of a string that spells no number
    | Unparsed(key: string)    // `str()` of a float or a list, or `float()` of inf or nan: left out of the model

  /** `list(x)` for a dictionary value. */
  function ListOf(v: Value): Result<seq<string>, LoadError> {
    match v
    case StrList(l) => Ok(l)
    case Str(s) => Ok(seq(|s|, i requires 0 <= i < |s| => [s[i]]))
    case _ => Err(TypeError("tags"))
  }

  /** `float(x)` for a dictionary value. */
  function FloatOf(v: Value): Result<real, LoadError> {
    match v
    case Real(r) => Ok(r)
    case Int(i) => Ok(i as real)
    case Bool(b) => Ok(if b then 1.0 else 0.0)
    case Str(s) =>
      if IsNonFinite(s) then Err(Unparsed("timestamp"))
      else (match ParseFloat(s)
        case Some(x) => Ok(x)
        case None => Err(ValueError("timestamp")))
    case _ => Err(TypeError("timestamp"))
  }

  /** The values whose `str()` the model spells out. */
  predicate StrModelled(v: Value) { !v.Real? && !v.StrList? }

  /** `str(x)` for the string-valued keys. */
  function StrOf(d: map<string, Value>, key: string): (r: Result<string, LoadError>)
    ensures r.Ok? <==> key in d && StrModelled(d[key])
    ensures key in d && d[key].Str? ==> r == Ok(d[key].s)
    ensures key in d && d[key].Int? ==> r == Ok(IntStr(d[key].i)) && ParseFloat(r.value) == Some(d[key].i as real)
  {
    if key !in d then Err(KeyError(key))
    else match d[key]
      case Str(s) => Ok(s)
      case Int(i) => IntStrRoundTrip(i); Ok(IntStr(i))
      case Bool(b) => Ok(if b then "True" else "False")
      case Null => Ok("None")
      case _ => Err(Unparsed(key))
  }

  /** `Artefact.from_dict`: tags default to `[]` and the timestamp to `0.0`. */
  function FromDict(d: map<string, Value>): (r: Result<Artefact, LoadError>)
    ensures r.Ok? ==> ("tags" !in d ==> r.value.tags == []) && ("timestamp" !in d ==> r.value.timestamp == 0.0)
    ensures "id" !in d ==> r == Err(KeyError("id"))
    ensures "id" in d && "text" !in d ==> r.Err?
    ensures r.Ok? ==> "id" in d && "text" in d && StrModelled(d["id"]) && StrModelled(d["text"])
    ensures "id" in d && "text" in d && d["id"].Int? && d["text"].Str? && "tags" !in d && "timestamp" !in d ==>
            r == Ok(Artefact(IntStr(d["id"].i), d["text"].s, [], 0.0))
  {
    match StrOf(d, "id")
    case Err(e) => Err(e)
    case Ok(id) =>
      match StrOf(d, "text")
      case Err(e) => Err(e)
      case Ok(text) =>
        match (if "tags" in d then ListOf(d["tags"]) else Ok([]))
        case Err(e) => Err(e)
        case Ok(tags) =>
          match (if "timestamp" in d then FloatOf(d["timestamp"]) else Ok(0.0))
          case Err(e) => Err(e)
          case Ok(ts) => Ok(Artefact(id, text, tags, ts))
  }

  /** Reading back the dictionary form gives the artefact again. */
  lemma DictRoundTrip(a: Artefact)
    ensures FromDict(ToDict(a)) == Ok(a)
  {
  }

  // ------------------------------------------------------------ the store

  /** The palace's `_store`: ids in insertion order and the map they index. */
  datatype Store = Store(order: seq<string>, entries: map<string, Artefact>)

  /** Ids are listed once each, exactly the keys, and key every artefact by its own id. */
  ghost predicate IsValid(st: Store) {
    && (forall i, j :: 0 <= i < j < |st.order| ==> st.order[i] != st.order[j])
    && (forall k :: k in st.entries <==> k in st.order)
    && (forall k :: k in st.entries ==> st.entries[k].id == k)
  }

  const Empty := Store([], map[])

  /** `_store[a.id] = a`: a new id goes last, a known id keeps its place. */
  function Put(st: Store, a: Artefact): Store {
    Store(if a.id in st.entries then st.order else st.order + [a.id], st.entries[a.id := a])
  }

  /**
   * After a put the id maps to the new artefact, every other id is as it
   * was, and the store has grown by one entry exactly when the id was new.
   */
  lemma PutEffect(st: Store, a: Artefact)
    requires IsValid(st)
    ensures IsValid(Put(st, a))
    ensures Put(st, a).entries[a.id] == a
    ensures forall k :: k != a.id ==> (k in Put(st, a).entries <==> k in st.entries)
    ensures forall k :: k != a.id && k in st.entries ==> Put(st, a).entries[k] == st.entries[k]
    ensures |Put(st, a).order| == if a.id in st.entries then |st.order| else |st.order| + 1
  {
  }

  /** The artefacts in insertion order: `list(_store.values())`. */
  function Contents(st: Store): (r: seq<Artefact>)
    requires IsValid(st)
    ensures |r| == |st.order|
    ensures forall i :: 0 <= i < |r| ==> r[i].id == st.order[i] && r[i] == st.entries[st.order[i]]
  {
    seq(|st.order|, i requires 0 <= i < |st.order| => st.entries[st.order[i]])
  }

  /** No id is listed twice. */
  lemma ContentsDistinct(st: Store)
    requires IsValid(st)
    ensures forall p, q :: 0 <= p < q < |Contents(st)| ==> Contents(st)[p].id != Contents(st)[q].id
  {
  }

  /** The listing holds exactly the stored artefacts. */
  lemma ContentsExact(st: Store)
    requires IsValid(st)
    ensures forall k :: k in st.entries ==> st.entries[k] in Contents(st)
    ensures forall a: Artefact :: a in Contents(st) <==> a.id in st.entries && st.entries[a.id] == a
  {
    var r := Contents(st);
    forall k | k in st.entries ensures st.entries[k] in r {
      var i :| 0 <= i < |st.order| && st.order[i] == k;
      assert r[i] == st.entries[k];
    }
  }

  /** Puts applied one after the other. */
  function PutAll(st: Store, arts: seq<Artefact>): Store
    decreases |arts|
  {
    if arts == [] then st else Put(PutAll(st, arts[..|arts| - 1]), arts[|arts| - 1])
  }

  /** Puts keep the store well formed. */
  lemma {:induction false} PutAllValid(st: Store, arts: seq<Artefact>)
    requires IsValid(st)
    ensures IsValid(PutAll(st, arts))
    decreases |arts|
  {
    if arts != [] {
      PutAllValid(st, arts[..|arts| - 1]);
      PutEffect(PutAll(st, arts[..|arts| - 1]), arts[|arts| - 1]);
    }
  }

  /**
   * After a sequence of puts an id is stored when it was before or some
   * artefact carries it; it then maps to the last such artefact, so later
   * artefacts with the same id overwrite earlier ones.
   */
  lemma PutAllLastWins(st: Store, arts: seq<Artefact>, k: string)
    requires IsValid(st)
    ensures IsValid(PutAll(st, arts))
    ensures k in PutAll(st, arts).entries <==> k in st.entries || exists i :: 0 <= i < |arts| && arts[i].id == k
    ensures (forall i :: 0 <= i < |arts| ==> arts[i].id != k) && k in st.entries ==>
      PutAll(st, arts).entries[k] == st.entries[k]
    ensures forall i :: 0 <= i < |arts| && arts[i].id == k && (forall j :: i < j < |arts| ==> arts[j].id != k) ==>
      PutAll(st, arts).entries[k] == arts[i]
  {
    PutAllValid(st, arts);
    PutAllKeys(st, arts, k);
    if forall i :: 0 <= i < |arts| ==> arts[i].id != k {
      PutAllKeeps(st, arts, k);
    }
    forall i | 0 <= i < |arts| && arts[i].id == k && (forall j :: i < j < |arts| ==> arts[j].id != k)
      ensures PutAll(st, arts).entries[k] == arts[i]
    {
      PutAllLast(st, arts, i);
    }
  }

  lemma {:induction false} PutAllKeys(st: Store, arts: seq<Artefact>, k: string)
    ensures k in PutAll(st, arts).entries <==> k in st.entries || exists i :: 0 <= i < |arts| && arts[i].id == k
    decreases |arts|
  {
    if arts != [] {
      var init := arts[..|arts| - 1];
      PutAllKeys(st, init, k);
      if exists i :: 0 <= i < |init| && init[i].id == k {
        var i :| 0 <= i < |init| && init[i].id == k;
        assert arts[i].id == k;
      }
    }
  }

  lemma {:induction false} PutAllKeeps(st: Store, arts: seq<Artefact>, k: string)
    requires forall i :: 0 <= i < |arts| ==> arts[i].id != k
    ensures k in PutAll(st, arts).entries <==> k in st.entries
    ensures k in st.entries ==> PutAll(st, arts).entries[k] == st.entries[k]
    decreases |arts|
  {
    if arts != [] {
      PutAllKeeps(st, arts[..|arts| - 1], k);
    }
  }

  lemma {:induction false} PutAllLast(st: Store, arts: seq<Artefact>, i: nat)
    requires i < |arts|
    requires forall j :: i < j < |arts| ==> arts[j].id != arts[i].id
    ensures arts[i].id in PutAll(st, arts).entries && PutAll(st, arts).entries[arts[i].id] == arts[i]
    decreases |arts|
  {
    if i < |arts| - 1 {
      var init := arts[..|arts| - 1];
      PutAllLast(st, init, i);
    }
  }

  /** Whatever a sequence of puts leaves in the store was there before or is one of the artefacts put. */
  lemma PutAllContents(st: Store, arts: seq<Artefact>)
    requires IsValid(st)
    ensures IsValid(PutAll(st, arts))
    ensures forall a :: a in Contents(PutAll(st, arts)) ==> a in Contents(st) || a in arts
  {
    PutAllValid(st, arts);
    ContentsExact(st);
    ContentsExact(PutAll(st, arts));
    forall a | a in Contents(PutAll(st, arts)) ensures a in Contents(st) || a in arts {
      PutAllLastWins(st, arts, a.id);
      if i :| 0 <= i < |arts| && arts[i].id == a.id {
        var j := LastWith(arts, a.id, i);
        assert PutAll(st, arts).entries[a.id] == arts[j];
      }
    }
  }

  /** The position of the last artefact with id `k`, at or after `i`. */
  ghost function LastWith(arts: seq<Artefact>, k: string, i: nat): (j: nat)
    requires i < |arts| && arts[i].id == k
    ensures i <= j < |arts| && arts[j].id == k
    ensures forall m :: j < m < |arts| ==> arts[m].id != k
    decreases |arts| - i
  {
    if exists m :: i < m < |arts| && arts[m].id == k then
      var m :| i < m < |arts| && arts[m].id == k;
      LastWith(arts, k, m)
    else i
  }

  lemma PutAllStep(st: Store, arts: seq<Artefact>, a: Artefact)
    ensures PutAll(st, arts + [a]) == Put(PutAll(st, arts), a)
  {
    assert (arts + [a])[..|arts|] == arts;
  }

  lemma {:induction false} PutAllAppend(st: Store, arts: seq<Artefact>, more: seq<Artefact>)
    ensures PutAll(st, arts + more) == PutAll(PutAll(st, arts), more)
    decreases |more|
  {
    if more == [] {
      assert arts + more == arts;
    } else {
      PutAllAppend(st, arts, more[..|more| - 1]);
      assert (arts + more)[..|arts + more| - 1] == arts + more[..|more| - 1];
    }
  }

  // ------------------------------------------------------------ search

  /** `set(tags).issubset(a.tags)`. */
  predicate Matches(a: Artefact, tags: seq<string>) {
    forall t :: t in tags ==> t in a.tags
  }

  function MatcherFor(tags: seq<string>): Artefact -> bool {
    a => Matches(a, tags)
  }

  /** The artefacts of `arts` that carry every one of `tags`, in order. */
  function Select(arts: seq<Artefact>, tags: seq<string>): seq<Artefact> {
    Filter(arts, MatcherFor(tags))
  }

  /**
   * The selection is exactly the matching artefacts, keeps their order,
   * and with no tags required is everything.
   */
  lemma SelectExact(arts: seq<Artefact>, tags: seq<string>)
    ensures forall a :: a in Select(arts, tags) <==> a in arts && Matches(a, tags)
    ensures IsSubseq(Select(arts, tags), arts)
    ensures tags == [] ==> Select(arts, tags) == arts
  {
    forall a {
      FilterMember(arts, MatcherFor(tags), a);
    }
    FilterIsSubseq(arts, MatcherFor(tags));
    if tags == [] {
      FilterAll(arts, MatcherFor(tags));
    }
  }

  /** Requiring one more tag never enlarges the result: it keeps a subsequence. */
  lemma {:induction false} SelectNarrows(arts: seq<Artefact>, tags: seq<string>, t: string)
    ensures IsSubseq(Select(arts, tags + [t]), Select(arts, tags))
    decreases |arts|
  {
    var narrow, wide := MatcherFor(tags + [t]), MatcherFor(tags);
    assert forall a :: narrow(a) ==> wide(a);
    FilterRefines(arts, wide, narrow);
    FilterIsSubseq(Filter(arts, wide), narrow);
  }

  // ------------------------------------------------------------ load

  /**
   * The loop of `_load` over the decoded list: each record is converted and
   * stored under its id, and the first record that fails to convert stops
   * the loop with its error, leaving the records before it stored.
   */
  function Merge(st: Store, records: seq<map<string, Value>>): (Store, Option<LoadError>)
    decreases |records|
  {
    if records == [] then (st, None)
    else match FromDict(records[0])
      case Err(e) => (st, Some(e))
      case Ok(a) => Merge(Put(st, a), records[1..])
  }

  /** When every record converts, loading is a put of each in turn. */
  lemma {:induction false} MergeIsPutAll(st: Store, records: seq<map<string, Value>>, arts: seq<Artefact>)
    requires |arts| == |records|
    requires forall i :: 0 <= i < |records| ==> FromDict(records[i]) == Ok(arts[i])
    ensures Merge(st, records) == (PutAll(st, arts), None)
    decreases |records|
  {
    if records != [] {
      MergeIsPutAll(Put(st, arts[0]), records[1..], arts[1..]);
      PutAllAppend(st, [arts[0]], arts[1..]);
      assert [arts[0]] + arts[1..] == arts;
      assert PutAll(st, [arts[0]]) == Put(st, arts[0]) by {
        assert [arts[0]][..0] == [];
      }
    }
  }

  // ------------------------------------------------------------ the palace object

  class MemoryPalace {
    /** The ids of `_store`, in the order the dictionary iterates them. */
    var order: seq<string>
    var entries: map<string, Artefact>

    function State(): Store
      reads this
    {
      Store(order, entries)
    }

    ghost predicate Valid()
      reads this
    {
      IsValid(State())
    }

    /** A palace with nothing saved yet. */
    constructor ()
      ensures Valid() && State() == Empty
    {
      order, entries := [], map[];
    }

    /** `add`: stores the text under the clock's id and returns the new artefact. */
    method Add(text: string, tags: seq<string>, stamp: Stamp) returns (a: Artefact)
      requires Valid()
      modifies this
      ensures Valid()
      ensures a == Artefact(stamp.id, text, tags, stamp.ts)
      ensures State() == Put(old(State()), a)
    {
      a := Artefact(stamp.id, text, tags, stamp.ts);
      PutEffect(State(), a);
      if a.id !in entries {
        order := order + [a.id];
      }
      entries := entries[a.id := a];
    }

    /** `all`: every stored artefact once, in the order their ids were first added. */
    function All(): (r: seq<Artefact>)
      reads this
      requires Valid()
      ensures |r| == |order|
      ensures forall i :: 0 <= i < |r| ==> r[i].id == order[i] && r[i] == entries[order[i]]
    {
      Contents(State())
    }

    /** `search`: the stored artefacts that carry every one of `tags`, in store order. */
    function Search(tags: seq<string>): (r: seq<Artefact>)
      reads this
      requires Valid()
      ensures forall a :: a in r <==> a in All() && Matches(a, tags)
      ensures IsSubseq(r, All())
      ensures tags == [] ==> r == All()
    {
      SelectExact(All(), tags);
      Select(All(), tags)
    }

    /**
     * `_load` on the decoded file: nothing changes when there is nothing to
     * decode; otherwise each record is merged in, later ids overwriting
     * earlier ones, until a record fails to convert.
     */
    method Load(data: Option<seq<map<string, Value>>>) returns (err: Option<LoadError>)
      requires Valid()
      modifies this
      ensures Valid()
      ensures data.None? ==> State() == old(State()) && err == None
      ensures data.Some? ==> (State(), err) == Merge(old(State()), data.value)
    {
      err := None;
      if data.None? {
        return;
      }
      var records := data.value;
      var i := 0;
      while i < |records|
        invariant 0 <= i <= |records|
        invariant Valid()
        invariant Merge(old(State()), records) == Merge(State(), records[i..])
      {
        assert records[i..][1..] == records[i + 1..];
        match FromDict(records[i])
        case Err(e) =>
          err := Some(e);
          return;
        case Ok(a) =>
          PutEffect(State(), a);
          if a.id !in entries {
            order := order + [a.id];
          }
          entries := entries[a.id := a];
        i := i + 1;
      }
    }
  }
}
