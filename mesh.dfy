/**
 * The mesh heartbeat's payload: a digest of the most recent artefact in
 * the memory palace.
 */
module Mesh {
  import opened Values
  import Palace
  import Sigil

  /** `{"hash": …, "tags": …}`. */
  datatype Digest = Digest(hash: string, tags: seq<string>)

  /**
   * The position `max(arts, key=lambda a: a.timestamp)` picks: a greatest
   * timestamp, and the first artefact in store order among those that
   * share it, since `max` only moves on for a strictly greater key.
   */
  function Latest(arts: seq<Palace.Artefact>): (k: nat)
    requires |arts| > 0
    ensures k < |arts|
    ensures forall i :: 0 <= i < |arts| ==> arts[i].timestamp <= arts[k].timestamp
    ensures forall i :: 0 <= i < k ==> arts[i].timestamp < arts[k].timestamp
    decreases |arts|
  {
    if |arts| == 1 then 0
    else
      var k := Latest(arts[..|arts| - 1]);
      if arts[|arts| - 1].timestamp > arts[k].timestamp then |arts| - 1 else k
  }

  /** Only one position is both a maximum and before every other maximum. */
  lemma LatestUnique(arts: seq<Palace.Artefact>, j: nat)
    requires j < |arts|
    requires forall i :: 0 <= i < |arts| ==> arts[i].timestamp <= arts[j].timestamp
    requires forall i :: 0 <= i < j ==> arts[i].timestamp < arts[j].timestamp
    ensures j == Latest(arts)
  {
    var k := Latest(arts);
    assert arts[k].timestamp <= arts[j].timestamp && arts[j].timestamp <= arts[k].timestamp;
  }

  /**
   * An artefact stored after the others becomes the latest when its
   * timestamp is strictly greater than all of theirs, and changes nothing
   * otherwise.
   */
  lemma LatestAppend(arts: seq<Palace.Artefact>, a: Palace.Artefact)
    requires |arts| > 0
    ensures a.timestamp > arts[Latest(arts)].timestamp ==> Latest(arts + [a]) == |arts|
    ensures a.timestamp <= arts[Latest(arts)].timestamp ==> Latest(arts + [a]) == Latest(arts)
  {
    assert (arts + [a])[..|arts|] == arts;
  }

  function Min(a: nat, b: nat): nat { if a < b then a else b }

  /**
   * `_digest_latest` over the palace's artefacts in store order: nothing
   * for an empty palace; otherwise the first eight hex digits of the SHA-1
   * of the latest artefact's text, and its first five tags.
   */
  function DigestLatest(arts: seq<Palace.Artefact>, sha1: string -> Sigil.Sha1Hex): (d: Option<Digest>)
    ensures d.None? <==> arts == []
    ensures d.Some? ==>
      var a := arts[Latest(arts)];
      && Sigil.IsHex(d.value.hash, 8) && d.value.hash <= sha1(a.text)
      && d.value.tags <= a.tags && |d.value.tags| == Min(5, |a.tags|)
  {
    if arts == [] then None
    else
      var a := arts[Latest(arts)];
      Some(Digest(sha1(a.text)[..8], a.tags[..Min(5, |a.tags|)]))
  }

  /** `_digest_latest()` on a palace object, read through `all()`. */
  function DigestOfPalace(p: Palace.MemoryPalace, sha1: string -> Sigil.Sha1Hex): (d: Option<Digest>)
    reads p
    requires p.Valid()
    ensures d.None? <==> p.order == []
  {
    DigestLatest(p.All(), sha1)
  }
}
