/**
 * The quantum bus: a JSON Lines log shared by every process that opens the
 * same emoji marker. A bus appends handshake and tick records to it and
 * reads them back; the file itself is the `log` field, one parsed line per
 * element.
 */
module Bus {
  import opened Text
  import opened Values
  import Sigil

  // ------------------------------------------------------------ the marker

  /** Bytes UTF-8 takes for one code point. */
  function Utf8Width(c: char): (n: nat)
    ensures 1 <= n <= 4
    ensures n == 1 <==> (c as int) < 0x80
    ensures n == 4 <==> (c as int) >= 0x10000
  {
    if (c as int) < 0x80 then 1
    else if (c as int) < 0x800 then 2
    else if (c as int) < 0x10000 then 3
    else 4
  }

  /** `len(s.encode("utf-8"))`: at least one byte and at most four per character. */
  function Utf8Len(s: string): (n: nat)
    ensures |s| <= n <= 4 * |s|
    decreases |s|
  {
    if s == [] then 0 else Utf8Width(s[0]) + Utf8Len(s[1..])
  }

  /** Each character's bytes are part of the whole encoding. */
  lemma {:induction false} Utf8LenCovers(s: string, i: nat)
    requires i < |s|
    ensures Utf8Len(s) >= Utf8Width(s[i])
    decreases i
  {
    if i > 0 {
      Utf8LenCovers(s[1..], i - 1);
      assert s[1..][i - 1] == s[i];
    }
  }

  /** The constructor's test: a marker is accepted once it takes four bytes or more. */
  predicate AcceptedMarker(emoji: string) {
    Utf8Len(emoji) >= 4
  }

  /** Any marker holding a character outside the Basic Multilingual Plane, as most emoji are, is accepted. */
  lemma AstralAccepted(emoji: string, i: nat)
    requires i < |emoji| && (emoji[i] as int) >= 0x10000
    ensures AcceptedMarker(emoji)
  {
    Utf8LenCovers(emoji, i);
  }

  /**
   * For ASCII text the test counts characters: four ASCII characters pass,
   * although the error message asks for a non-ASCII marker.
   */
  lemma {:induction false} AsciiMarker(emoji: string)
    requires forall i :: 0 <= i < |emoji| ==> (emoji[i] as int) < 0x80
    ensures Utf8Len(emoji) == |emoji|
    ensures AcceptedMarker(emoji) <==> |emoji| >= 4
    decreases |emoji|
  {
    if emoji != [] {
      AsciiMarker(emoji[1..]);
    }
  }

  // ------------------------------------------------------------ the log file's name

  predicate IsHexDigit(c: char) { '0' <= c <= '9' || 'a' <= c <= 'f' }

  function HexDigit(d: nat): (c: char)
    requires d < 16
    ensures IsHexDigit(c)
  {
    if d < 10 then ('0' as int + d) as char else ('a' as int + d - 10) as char
  }

  function DigitValue(c: char): nat {
    if '0' <= c <= '9' then c as int - '0' as int
    else if 'a' <= c <= 'f' then c as int - 'a' as int + 10
    else 0
  }

  /** `f"{n:x}"`: lower-case hexadecimal, no leading zero. */
  function Hex(n: nat): (s: string)
    ensures |s| > 0 && (|s| > 1 ==> s[0] != '0')
    ensures forall i :: 0 <= i < |s| ==> IsHexDigit(s[i])
    decreases n
  {
    if n < 16 then [HexDigit(n)] else Hex(n / 16) + [HexDigit(n % 16)]
  }

  /** The number a string of hexadecimal digits spells, most significant first. */
  function HexValue(s: string): nat
    decreases |s|
  {
    if s == [] then 0 else HexValue(s[..|s| - 1]) * 16 + DigitValue(s[|s| - 1])
  }

  lemma {:induction false} HexRoundTrip(n: nat)
    ensures HexValue(Hex(n)) == n
    decreases n
  {
    if n >= 16 {
      HexRoundTrip(n / 16);
      var s := Hex(n);
      assert s[..|s| - 1] == Hex(n / 16);
    }
  }

  /** The code points of a marker. */
  function CodePoints(emoji: string): (r: seq<nat>)
    ensures |r| == |emoji|
  {
    seq(|emoji|, i requires 0 <= i < |emoji| => emoji[i] as nat)
  }

  /** `"_".join(f"{ord(c):x}" for c in emoji)`. */
  function SafeName(emoji: string): string {
    Join(seq(|emoji|, i requires 0 <= i < |emoji| => Hex(emoji[i] as nat)), "_")
  }

  /** `.we_bus_{safe}.jsonl`, under the base directory. */
  function LogFileName(emoji: string): string {
    ".we_bus_" + SafeName(emoji) + ".jsonl"
  }

  predicate NotUnderscore(c: char) { c != '_' }

  /** `s.split("_")`. */
  function Fields(s: string): (r: seq<string>)
    ensures |r| > 0
    decreases |s|
  {
    var n := PrefixLen(s, NotUnderscore);
    if n == |s| then [s] else [s[..n]] + Fields(s[n + 1..])
  }

  /** Splitting at `_` undoes joining with `_` parts that hold none. */
  lemma {:induction false} FieldsJoin(parts: seq<string>)
    requires |parts| > 0
    requires forall i :: 0 <= i < |parts| ==> '_' !in parts[i]
    ensures Fields(Join(parts, "_")) == parts
    decreases |parts|
  {
    var p := parts[0];
    assert forall i :: 0 <= i < |p| ==> p[i] in p;
    if |parts| > 1 {
      var rest := parts[1..];
      assert parts == [p] + rest;
      JoinCons(p, rest, "_");
      var s := Join(parts, "_");
      assert s == p + ("_" + Join(rest, "_"));
      PrefixBefore(p, "_" + Join(rest, "_"), NotUnderscore);
      assert s[..|p|] == p && s[|p| + 1..] == Join(rest, "_");
      FieldsJoin(rest);
    }
  }

  /** The code points can be read back from the name: each field between underscores is one of them. */
  lemma SafeNameRoundTrip(emoji: string)
    requires |emoji| > 0
    ensures var f := Fields(SafeName(emoji));
      |f| == |emoji| && forall i :: 0 <= i < |f| ==> HexValue(f[i]) == CodePoints(emoji)[i]
  {
    var parts := seq(|emoji|, i requires 0 <= i < |emoji| => Hex(emoji[i] as nat));
    forall i | 0 <= i < |parts|
      ensures '_' !in parts[i] && HexValue(parts[i]) == emoji[i] as nat
    {
      HexRoundTrip(emoji[i] as nat);
    }
    FieldsJoin(parts);
  }

  /** Two different markers never share a log file. */
  lemma LogFileNameInjective(a: string, b: string)
    requires |a| > 0 && |b| > 0
    requires LogFileName(a) == LogFileName(b)
    ensures a == b
  {
    var x, y := SafeName(a), SafeName(b);
    assert |x| == |y|;
    assert x == LogFileName(a)[8..8 + |x|] && y == LogFileName(b)[8..8 + |y|];
    SafeNameRoundTrip(a);
    SafeNameRoundTrip(b);
    assert |a| == |b|;
    forall i | 0 <= i < |a|
      ensures a[i] == b[i]
    {
      assert CodePoints(a)[i] == CodePoints(b)[i];
    }
  }

  // ------------------------------------------------------------ records

  type Payload = map<string, Value>

  /** `_Record`: `type` is whatever string the line carries, not only "handshake" or "tick". */
  datatype Record = Record(id: string, ts: real, kind: string, payload: Payload)

  /** One line of the log as `json.loads` and `_Record(**data)` see it. */
  datatype Line = Blank | Malformed | Parsed(rec: Record)

  /** `uuid.uuid4().hex[:8]`. */
  type NodeId = s: string | Sigil.IsHex(s, 8) witness "00000000"

  /** `ts or time.time()`: a missing or zero timestamp is replaced by the clock. */
  function TickStamp(ts: Option<real>, now: real): (r: real)
    ensures ts.Some? && ts.value != 0.0 ==> r == ts.value
    ensures ts.None? || ts.value == 0.0 ==> r == now
  {
    if ts.Some? && ts.value != 0.0 then ts.value else now
  }

  /** A tick from some node other than `me`: what `consume` yields the payload of. */
  predicate PeerTick(l: Line, me: string) {
    l.Parsed? && l.rec.kind == "tick" && l.rec.id != me
  }

  /** The payloads `consume(follow=False)` yields, in log order. */
  function Ticks(lines: seq<Line>, me: string): seq<Payload>
    decreases |lines|
  {
    if lines == [] then []
    else
      var last := lines[|lines| - 1];
      Ticks(lines[..|lines| - 1], me) + (if PeerTick(last, me) then [last.rec.payload] else [])
  }

  /** Reading two stretches of log in a row yields each one's ticks in turn. */
  lemma {:induction false} TicksAppend(a: seq<Line>, b: seq<Line>, me: string)
    ensures Ticks(a + b, me) == Ticks(a, me) + Ticks(b, me)
    decreases |b|
  {
    if b == [] {
      assert a + b == a;
    } else {
      var b' := b[..|b| - 1];
      TicksAppend(a, b', me);
      assert (a + b)[..|a + b| - 1] == a + b';
    }
  }

  /** A payload is yielded exactly when some line is another node's tick carrying it. */
  lemma {:induction false} TicksMember(lines: seq<Line>, me: string, p: Payload)
    ensures p in Ticks(lines, me) <==>
      exists i :: 0 <= i < |lines| && PeerTick(lines[i], me) && lines[i].rec.payload == p
    decreases |lines|
  {
    if lines != [] {
      var front := lines[..|lines| - 1];
      TicksMember(front, me, p);
      if p in Ticks(lines, me) {
        if p in Ticks(front, me) {
          var i :| 0 <= i < |front| && PeerTick(front[i], me) && front[i].rec.payload == p;
          assert lines[i] == front[i];
        } else {
          assert PeerTick(lines[|lines| - 1], me) && lines[|lines| - 1].rec.payload == p;
        }
      }
      if exists i :: 0 <= i < |lines| && PeerTick(lines[i], me) && lines[i].rec.payload == p {
        var i :| 0 <= i < |lines| && PeerTick(lines[i], me) && lines[i].rec.payload == p;
        if i < |front| {
          assert front[i] == lines[i];
        }
      }
    }
  }

  datatype ConsumeError = TellDuringIteration

  /**
   * `consume(follow=False)` as written: line 126 calls `f.tell()` while
   * `for line in f` iterates a text-mode file, which CPython's text reader
   * refuses with `OSError`. The first line read, blank or not, ends the
   * call before anything is yielded; only an empty log gets through.
   */
  function ConsumeAsWritten(lines: seq<Line>, me: string): (r: Result<seq<Payload>, ConsumeError>)
    ensures r.Err? <==> |lines| > 0
    ensures r.Ok? ==> r.value == []
    ensures r.Ok? ==> r.value == Ticks(lines, me)
  {
    if lines == [] then Ok([]) else Err(TellDuringIteration)
  }

  /** One tick from another node: the intended loop yields its payload, the written one raises. */
  lemma TickLostAsWritten()
    ensures var log := [Parsed(Record("ab12cd34", 1.0, "tick", map[]))];
      Ticks(log, "00000000") == [map[]] && ConsumeAsWritten(log, "00000000").Err?
  {
    var log := [Parsed(Record("ab12cd34", 1.0, "tick", map[]))];
    assert log[..0] == [];
  }

  /** A node's own tick is never yielded back to it, and is yielded once to every other node. */
  lemma OwnTickUnseen(lines: seq<Line>, me: string, other: string, r: Record)
    requires r.kind == "tick" && r.id == me && other != me
    ensures Ticks(lines + [Parsed(r)], me) == Ticks(lines, me)
    ensures Ticks(lines + [Parsed(r)], other) == Ticks(lines, other) + [r.payload]
  {
    TicksAppend(lines, [Parsed(r)], me);
    TicksAppend(lines, [Parsed(r)], other);
  }

  /** A handshake record young enough for the poll at `now`. */
  predicate RecentHandshake(l: Line, now: real, timeout: real) {
    l.Parsed? && l.rec.kind == "handshake" && now - l.rec.ts < 2.0 * timeout
  }

  /** `peers` at a poll at `now`. */
  function Peers(lines: seq<Line>, now: real, timeout: real): set<string>
    decreases |lines|
  {
    if lines == [] then {}
    else
      var last := lines[|lines| - 1];
      Peers(lines[..|lines| - 1], now, timeout) + (if RecentHandshake(last, now, timeout) then {last.rec.id} else {})
  }

  /** An id is a peer exactly when some recent handshake record carries it. */
  lemma {:induction false} PeersMember(lines: seq<Line>, now: real, timeout: real, id: string)
    ensures id in Peers(lines, now, timeout) <==>
      exists i :: 0 <= i < |lines| && RecentHandshake(lines[i], now, timeout) && lines[i].rec.id == id
    decreases |lines|
  {
    if lines != [] {
      var front := lines[..|lines| - 1];
      PeersMember(front, now, timeout, id);
      if id in Peers(lines, now, timeout) {
        if id in Peers(front, now, timeout) {
          var i :| 0 <= i < |front| && RecentHandshake(front[i], now, timeout) && front[i].rec.id == id;
          assert lines[i] == front[i];
        } else {
          assert RecentHandshake(lines[|lines| - 1], now, timeout) && lines[|lines| - 1].rec.id == id;
        }
      }
      if exists i :: 0 <= i < |lines| && RecentHandshake(lines[i], now, timeout) && lines[i].rec.id == id {
        var i :| 0 <= i < |lines| && RecentHandshake(lines[i], now, timeout) && lines[i].rec.id == id;
        if i < |front| {
          assert front[i] == lines[i];
        }
      }
    }
  }

  /** Once the node's own id is among the peers, two peers means at least one other node. */
  lemma ReadyMeansOther(peers: set<string>, me: string)
    requires me in peers
    ensures |peers| >= 2 <==> exists id :: id in peers && id != me
  {
    var rest := peers - {me};
    assert peers == rest + {me};
    assert |rest| == |peers| - 1;
    if |peers| >= 2 {
      var id :| id in rest;
      assert id in peers && id != me;
    }
    if exists id :: id in peers && id != me {
      var id :| id in peers && id != me;
      assert id in rest;
    }
  }

  /** The node's own handshake counts as a peer for polls within twice the timeout of it. */
  lemma OwnHandshakePeer(lines: seq<Line>, r: Record, now: real, timeout: real)
    requires r.kind == "handshake" && now - r.ts < 2.0 * timeout
    ensures r.id in Peers(lines + [Parsed(r)], now, timeout)
  {
    assert (lines + [Parsed(r)])[..|lines|] == lines;
  }

  /** Every poll from the first up to `i` happens before the timeout runs out. */
  predicate InTime(polls: seq<real>, start: real, timeout: real, i: nat)
    requires i < |polls|
  {
    forall k :: 0 <= k <= i ==> polls[k] - start < timeout
  }

  datatype BusError = MarkerTooShort

  // ------------------------------------------------------------ the bus

  class QuantumBus {
    const emoji: string
    const nodeId: NodeId
    const path: string
    /** The records of the log file, one per line, in file order. */
    var log: seq<Line>

    constructor Init(emoji: string, nodeId: NodeId, log: seq<Line>)
      ensures this.emoji == emoji && this.nodeId == nodeId && this.log == log
      ensures path == LogFileName(emoji)
    {
      this.emoji := emoji;
      this.nodeId := nodeId;
      this.path := LogFileName(emoji);
      this.log := log;
    }

    /**
     * `QuantumBus(emoji)`: rejects a marker shorter than four UTF-8 bytes;
     * otherwise opens the log, creating an empty one when it is missing.
     */
    static method Open(emoji: string, nodeId: NodeId, existing: Option<seq<Line>>) returns (r: Result<QuantumBus, BusError>)
      ensures r.Err? <==> !AcceptedMarker(emoji)
      ensures r.Ok? ==> fresh(r.value) && r.value.emoji == emoji && r.value.nodeId == nodeId
      ensures r.Ok? ==> r.value.path == LogFileName(emoji)
      ensures r.Ok? ==> r.value.log == (if existing.Some? then existing.value else [])
    {
      if Utf8Len(emoji) < 4 {
        return Err(MarkerTooShort);
      }
      var b := new QuantumBus.Init(emoji, nodeId, if existing.Some? then existing.value else []);
      return Ok(b);
    }

    /** `send_tick`: one tick record with this node's id and the payload, stamped by `ts` or the clock. */
    method SendTick(payload: Payload, ts: Option<real>, now: real)
      modifies this
      ensures log == old(log) + [Parsed(Record(nodeId, TickStamp(ts, now), "tick", payload))]
    {
      log := log + [Parsed(Record(nodeId, TickStamp(ts, now), "tick", payload))];
    }

    /**
     * `consume(follow=False)` as intended: one pass over the log from offset
     * 0, with the offset kept without `f.tell()` (see ConsumeAsWritten).
     */
    method Consume() returns (r: seq<Payload>)
      ensures r == Ticks(log, nodeId)
    {
      r := [];
      var offset := 0;
      while offset < |log|
        invariant 0 <= offset <= |log|
        invariant r == Ticks(log[..offset], nodeId)
      {
        var line := log[offset];
        assert log[..offset + 1][..offset] == log[..offset];
        offset := offset + 1;
        if PeerTick(line, nodeId) {
          r := r + [line.rec.payload];
        }
      }
      assert log[..|log|] == log;
    }

    /** The `peers` set comprehension of one poll. */
    method PeersAt(now: real, timeout: real) returns (peers: set<string>)
      ensures peers == Peers(log, now, timeout)
    {
      peers := {};
      for j := 0 to |log|
        invariant peers == Peers(log[..j], now, timeout)
      {
        assert log[..j + 1][..j] == log[..j];
        if RecentHandshake(log[j], now, timeout) {
          peers := peers + {log[j].rec.id};
        }
      }
      assert log[..|log|] == log;
    }

    /**
     * `handshake`: append this node's record stamped `start`, then poll at
     * the clock readings `polls` while they are within `timeout` of
     * `start`; succeed at the first poll that finds two peers.
     */
    method Handshake(start: real, polls: seq<real>, timeout: real) returns (ok: bool)
      modifies this
      ensures log == old(log) + [Parsed(Record(nodeId, start, "handshake", map[]))]
      ensures ok <==> exists i :: 0 <= i < |polls| && InTime(polls, start, timeout, i) && |Peers(log, polls[i], timeout)| >= 2
    {
      log := log + [Parsed(Record(nodeId, start, "handshake", map[]))];
      var i := 0;
      while i < |polls| && polls[i] - start < timeout
        invariant 0 <= i <= |polls|
        invariant log == old(log) + [Parsed(Record(nodeId, start, "handshake", map[]))]
        invariant forall k :: 0 <= k < i ==> polls[k] - start < timeout
        invariant forall k :: 0 <= k < i ==> |Peers(log, polls[k], timeout)| < 2
      {
        var peers := PeersAt(polls[i], timeout);
        if |peers| >= 2 {
          assert InTime(polls, start, timeout, i);
          return true;
        }
        i := i + 1;
      }
      ok := false;
      forall j | 0 <= j < |polls| && InTime(polls, start, timeout, j)
        ensures |Peers(log, polls[j], timeout)| < 2
      {
        if j >= i {
          assert false;
        }
      }
    }
  }
}
