/**
 * The task manager: recognising task artefacts, extracting their bodies,
 * and one pass over the palace that remixes every task it has not seen
 * before. The JSON rendering of a remix cycle, the random network signal
 * and the clock are parameters.
 */
module Tasks {
  import opened Text
  import opened Values
  import Palace
  import Remix

  const RemixedTag: string := "remixed"

  /** `_is_task`: starts with "task:" or "todo:", or contains "[task]", ignoring case. */
  predicate IsTask(text: string) {
    var t := Lower(text);
    StartsWith(t, "task:") || StartsWith(t, "todo:") || Contains(t, "[task]")
  }

  /** Where the first `c` in `s` is, if anywhere. */
  function FirstIndex(s: string, c: char): (r: Option<nat>)
    ensures r.None? <==> c !in s
    ensures r.Some? ==> r.value < |s| && s[r.value] == c && c !in s[..r.value]
  {
    if s == [] then None
    else if s[0] == c then Some(0)
    else match FirstIndex(s[1..], c)
      case None => None
      case Some(k) =>
        assert s[..k + 1] == [s[0]] + s[1..][..k];
        Some(k + 1)
  }

  /** `text.split(":", 1)[-1].strip()`: what follows the first ':', or the whole text, stripped. */
  function Body(text: string): string {
    match FirstIndex(text, ':')
    case None => Strip(text)
    case Some(k) => Strip(text[k + 1..])
  }

  /** The body is the stripped text after the first ':', or the whole stripped text when there is none. */
  lemma BodyAfterFirstColon(text: string)
    ensures ':' !in text ==> Body(text) == Strip(text)
    ensures forall k :: 0 <= k < |text| && text[k] == ':' && ':' !in text[..k] ==> Body(text) == Strip(text[k + 1..])
    ensures IsStripped(Body(text))
  {
    forall k | 0 <= k < |text| && text[k] == ':' && ':' !in text[..k] ensures Body(text) == Strip(text[k + 1..]) {
      BodyAfterColonAt(text, k);
    }
  }

  /** When the first ':' is at `k`, the body is what follows it, stripped. */
  lemma BodyAfterColonAt(text: string, k: nat)
    requires k < |text| && text[k] == ':' && ':' !in text[..k]
    ensures Body(text) == Strip(text[k + 1..])
  {
    assert text[..k + 1][k] == ':';
  }

  /**
   * The artefact `_process` stores for task `a`: the rendered remix of its
   * body, tagged "remixed", then the task's own tags, then the task's id.
   */
  function Processed(a: Palace.Artefact, render: Remix.Cycle -> string, signal: real, stamp: Palace.Stamp): Palace.Artefact
  {
    Palace.Artefact(stamp.id, render(Remix.RemixCycle(Body(a.text), Remix.DefaultThreshold, signal)), [RemixedTag] + a.tags + [a.id], stamp.ts)
  }

  /** A task `run_once` still has to process. */
  predicate IsPending(seen: set<string>, a: Palace.Artefact) {
    a.id !in seen && IsTask(a.text)
  }

  function PendingTest(seen: set<string>): Palace.Artefact -> bool {
    a => IsPending(seen, a)
  }

  /** The tasks of a snapshot not yet seen, in snapshot order. */
  function Pending(arts: seq<Palace.Artefact>, seen: set<string>): seq<Palace.Artefact> {
    Filter(arts, PendingTest(seen))
  }

  /** `_process` as the `k`-th call of a pass: the artefact it stores for task `a`. */
  function Maker(render: Remix.Cycle -> string, signal: nat -> real, clock: nat -> Palace.Stamp): (Palace.Artefact, nat) -> Palace.Artefact {
    (a: Palace.Artefact, k: nat) => Processed(a, render, signal(k), clock(k))
  }

  /** What processing `tasks` in order stores, numbering the calls from `from`. */
  function Outputs(tasks: seq<Palace.Artefact>, from: nat, make: (Palace.Artefact, nat) -> Palace.Artefact): (r: seq<Palace.Artefact>)
    ensures |r| == |tasks|
    decreases |tasks|
  {
    if tasks == [] then []
    else
      var n := |tasks| - 1;
      Outputs(tasks[..n], from, make) + [make(tasks[n], from + n)]
  }

  lemma {:induction false} OutputsCons(a: Palace.Artefact, tasks: seq<Palace.Artefact>, from: nat, make: (Palace.Artefact, nat) -> Palace.Artefact)
    ensures Outputs([a] + tasks, from, make) == [make(a, from)] + Outputs(tasks, from + 1, make)
    decreases |tasks|
  {
    var all := [a] + tasks;
    if tasks == [] {
      assert all[..0] == [];
    } else {
      var n := |tasks| - 1;
      OutputsCons(a, tasks[..n], from, make);
      assert all[..|all| - 1] == [a] + tasks[..n];
      assert all[|all| - 1] == tasks[n];
    }
  }

  /** Each output is made from one of the tasks. */
  lemma {:induction false} OutputsMade(tasks: seq<Palace.Artefact>, from: nat, make: (Palace.Artefact, nat) -> Palace.Artefact)
    ensures forall x :: x in Outputs(tasks, from, make) ==> exists i :: 0 <= i < |tasks| && x == make(tasks[i], from + i)
    decreases |tasks|
  {
    if tasks != [] {
      var n := |tasks| - 1;
      OutputsMade(tasks[..n], from, make);
    }
  }

  /**
   * The store after `run_once` has visited `arts` in order with `from` tasks
   * already processed: each pending artefact has its output put in turn.
   */
  function Pass(st: Palace.Store, arts: seq<Palace.Artefact>, pending: Palace.Artefact -> bool, from: nat,
                make: (Palace.Artefact, nat) -> Palace.Artefact): Palace.Store
    decreases |arts|
  {
    if arts == [] then st
    else if pending(arts[0]) then Pass(Palace.Put(st, make(arts[0], from)), arts[1..], pending, from + 1, make)
    else Pass(st, arts[1..], pending, from, make)
  }

  /** One visit of `run_once`'s loop keeps the rest of the pass equal to the whole. */
  lemma PassAdvance(st0: Palace.Store, arts: seq<Palace.Artefact>, i: nat, pending: Palace.Artefact -> bool, k: nat,
                    make: (Palace.Artefact, nat) -> Palace.Artefact, before: Palace.Store, after: Palace.Store)
    requires i < |arts|
    requires Pass(st0, arts, pending, 0, make) == Pass(before, arts[i..], pending, k, make)
    requires pending(arts[i]) ==> after == Palace.Put(before, make(arts[i], k))
    requires !pending(arts[i]) ==> after == before
    ensures Pass(st0, arts, pending, 0, make) == Pass(after, arts[i + 1..], pending, if pending(arts[i]) then k + 1 else k, make)
  {
    assert arts[i..][0] == arts[i] && arts[i..][1..] == arts[i + 1..];
  }

  /** Visiting ids the seen set did not hold does not change what is pending. */
  lemma PendingUnseen(seen0: set<string>, ids: set<string>, a: Palace.Artefact)
    requires a.id !in ids
    ensures IsPending(seen0 + ids, a) == PendingTest(seen0)(a)
  {
  }

  /** A pass puts, in order, exactly the outputs of the pending artefacts. */
  lemma {:induction false} PassStoresOutputs(st: Palace.Store, arts: seq<Palace.Artefact>, pending: Palace.Artefact -> bool, from: nat,
                                             make: (Palace.Artefact, nat) -> Palace.Artefact)
    ensures Pass(st, arts, pending, from, make) == Palace.PutAll(st, Outputs(Filter(arts, pending), from, make))
    decreases |arts|
  {
    if arts != [] {
      var a, rest := arts[0], arts[1..];
      assert arts == [a] + rest;
      FilterCons(a, rest, pending);
      if pending(a) {
        var out := make(a, from);
        var later := Outputs(Filter(rest, pending), from + 1, make);
        PassStoresOutputs(Palace.Put(st, out), rest, pending, from + 1, make);
        OutputsCons(a, Filter(rest, pending), from, make);
        Palace.PutAllAppend(st, [out], later);
        Palace.PutAllStep(st, [], out);
        assert [] + [out] == [out];
      } else {
        PassStoresOutputs(st, rest, pending, from, make);
        assert Filter(arts, pending) == Filter(rest, pending);
      }
    }
  }

  /** With distinct ids, visiting the next artefact adds an id not yet visited. */
  lemma IdsStep(arts: seq<Palace.Artefact>, i: nat)
    requires i < |arts|
    requires forall p, q :: 0 <= p < q < |arts| ==> arts[p].id != arts[q].id
    ensures Ids(arts[..i + 1]) == Ids(arts[..i]) + {arts[i].id}
    ensures arts[i].id !in Ids(arts[..i])
  {
    assert arts[..i + 1][..i] == arts[..i];
  }

  /** The ids of `arts`. */
  function Ids(arts: seq<Palace.Artefact>): (r: set<string>)
    ensures forall x :: x in r <==> exists a :: a in arts && a.id == x
    decreases |arts|
  {
    if arts == [] then {} else Ids(arts[..|arts| - 1]) + {arts[|arts| - 1].id}
  }

  /**
   * After a pass whose outputs are never tasks, the next pass finds nothing
   * pending: every old id is then seen and every new artefact is an output.
   */
  lemma PassIdle(st: Palace.Store, seen: set<string>, make: (Palace.Artefact, nat) -> Palace.Artefact)
    requires Palace.IsValid(st)
    requires forall a, k :: !IsTask(make(a, k).text)
    ensures Palace.IsValid(Pass(st, Palace.Contents(st), PendingTest(seen), 0, make))
    ensures Pending(Palace.Contents(Pass(st, Palace.Contents(st), PendingTest(seen), 0, make)), seen + Ids(Palace.Contents(st))) == []
  {
    var tasks := Pending(Palace.Contents(st), seen);
    var outs := Outputs(tasks, 0, make);
    PassStoresOutputs(st, Palace.Contents(st), PendingTest(seen), 0, make);
    Palace.PutAllContents(st, outs);
    OutputsMade(tasks, 0, make);
    var after := Palace.Contents(Palace.PutAll(st, outs));
    var seen' := seen + Ids(Palace.Contents(st));
    forall i | 0 <= i < |after| ensures !PendingTest(seen')(after[i]) {
      var a := after[i];
      if a !in Palace.Contents(st) {
        var j :| 0 <= j < |tasks| && a == make(tasks[j], j);
      }
    }
    FilterNone(after, PendingTest(seen'));
  }

  /**
   * `render` never turns a cycle that `remix` builds into a task. The JSON
   * rendering `to_json` meets this: its text starts with '{', so no task
   * prefix applies, and it holds only the fixed phase labels, notes and
   * keys, with numbers and booleans as values, none of which spells "[task]".
   */
  ghost predicate RendersNoTask(render: Remix.Cycle -> string) {
    forall text, signal :: !IsTask(render(Remix.RemixCycle(text, Remix.DefaultThreshold, signal)))
  }

  /**
   * A second `run_once` right after the first processes nothing, provided a
   * rendered remix cycle is never itself a task.
   */
  lemma SecondRunIdle(st: Palace.Store, seen: set<string>, render: Remix.Cycle -> string, signal: nat -> real, clock: nat -> Palace.Stamp)
    requires Palace.IsValid(st)
    requires RendersNoTask(render)
    ensures Palace.IsValid(Pass(st, Palace.Contents(st), PendingTest(seen), 0, Maker(render, signal, clock)))
    ensures Pending(Palace.Contents(Pass(st, Palace.Contents(st), PendingTest(seen), 0, Maker(render, signal, clock))),
                    seen + Ids(Palace.Contents(st))) == []
  {
    MakerNeverTask(render, signal, clock);
    PassIdle(st, seen, Maker(render, signal, clock));
  }

  /** When no rendered remix cycle is a task, nothing processing stores is a task either. */
  lemma MakerNeverTask(render: Remix.Cycle -> string, signal: nat -> real, clock: nat -> Palace.Stamp)
    requires RendersNoTask(render)
    ensures forall a, k :: !IsTask(Maker(render, signal, clock)(a, k).text)
  {
    forall a, k: nat ensures !IsTask(Maker(render, signal, clock)(a, k).text) {
      ProcessedNeverTask(a, render, signal(k), clock(k));
    }
  }

  /** The artefact `_process` stores is not a task when the rendering never makes one. */
  lemma ProcessedNeverTask(a: Palace.Artefact, render: Remix.Cycle -> string, signal: real, stamp: Palace.Stamp)
    requires RendersNoTask(render)
    ensures !IsTask(Processed(a, render, signal, stamp).text)
  {
    var c := Remix.RemixCycle(Body(a.text), Remix.DefaultThreshold, signal);
    assert !IsTask(render(c));
  }

  /** Nothing is pending in a snapshot whose ids have all been seen. */
  lemma AllSeenNothingPending(arts: seq<Palace.Artefact>, seen: set<string>)
    requires Ids(arts) <= seen
    ensures Pending(arts, seen) == []
  {
    forall i | 0 <= i < |arts| ensures !PendingTest(seen)(arts[i]) {
      assert arts[i].id in Ids(arts);
    }
    FilterNone(arts, PendingTest(seen));
  }

  class TaskManager {
    /** `_seen`: the ids already visited. */
    var seen: set<string>
    const palace: Palace.MemoryPalace

    constructor (palace: Palace.MemoryPalace)
      ensures seen == {} && this.palace == palace
    {
      seen := {};
      this.palace := palace;
    }

    /** `_process`: remix the body and store the result. */
    method Process(a: Palace.Artefact, render: Remix.Cycle -> string, signal: real, stamp: Palace.Stamp)
      requires palace.Valid()
      modifies palace
      ensures palace.Valid()
      ensures palace.State() == Palace.Put(old(palace.State()), Processed(a, render, signal, stamp))
    {
      var cycle := Remix.RemixCycle(Body(a.text), Remix.DefaultThreshold, signal);
      var _ := palace.Add(render(cycle), [RemixedTag] + a.tags + [a.id], stamp);
    }

    /** One step of `run_once`: process `a` if it is an unseen task, then mark it seen. */
    method Visit(a: Palace.Artefact, k: nat, render: Remix.Cycle -> string, signal: nat -> real, clock: nat -> Palace.Stamp)
      returns (next: nat)
      requires palace.Valid()
      modifies this, palace
      ensures palace.Valid()
      ensures seen == old(seen) + {a.id}
      ensures IsPending(old(seen), a) ==>
        palace.State() == Palace.Put(old(palace.State()), Maker(render, signal, clock)(a, k)) && next == k + 1
      ensures !IsPending(old(seen), a) ==> palace.State() == old(palace.State()) && next == k
    {
      next := k;
      if a.id !in seen && IsTask(a.text) {
        Process(a, render, signal(k), clock(k));
        next := k + 1;
      }
      seen := seen + {a.id};
    }

    /**
     * `run_once`: over a snapshot of the palace, processes each unseen task
     * and marks every visited id as seen. Artefacts stored during the pass
     * are not visited, and `seen` only grows.
     */
    method RunOnce(render: Remix.Cycle -> string, signal: nat -> real, clock: nat -> Palace.Stamp)
      requires palace.Valid()
      modifies this, palace
      ensures palace.Valid()
      ensures seen == old(seen) + Ids(old(palace.All()))
      ensures palace.State() == Pass(old(palace.State()), old(palace.All()), PendingTest(old(seen)), 0, Maker(render, signal, clock))
      ensures palace.State()
           == Palace.PutAll(old(palace.State()), Outputs(Pending(old(palace.All()), old(seen)), 0, Maker(render, signal, clock)))
    {
      var arts := palace.All();
      ghost var seen0 := seen;
      ghost var st0 := palace.State();
      ghost var pending := PendingTest(seen0);
      ghost var make := Maker(render, signal, clock);
      var k: nat := 0;
      assert arts[..0] == [];
      for i := 0 to |arts|
        invariant palace.Valid()
        invariant seen == seen0 + Ids(arts[..i])
        invariant Pass(st0, arts, pending, 0, make) == Pass(palace.State(), arts[i..], pending, k, make)
      {
        var a := arts[i];
        assert Ids(arts[..i + 1]) == Ids(arts[..i]) + {a.id} && a.id !in Ids(arts[..i]) by {
          Palace.ContentsDistinct(st0);
          IdsStep(arts, i);
        }
        PendingUnseen(seen0, Ids(arts[..i]), a);
        ghost var before := palace.State();
        var k' := Visit(a, k, render, signal, clock);
        PassAdvance(st0, arts, i, pending, k, make, before, palace.State());
        k := k';
        assert seen == seen0 + Ids(arts[..i + 1]);
      }
      assert arts[..|arts|] == arts;
      PassStoresOutputs(st0, arts, pending, 0, make);
    }
  }
}
