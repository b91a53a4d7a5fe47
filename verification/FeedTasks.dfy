/** `FeedTask` keeps one list of subtasks until somebody asks for the wrappers' own
    tasks, and only then copies it to a `WrapperTask` for each wrapper of the feed. */
module FeedTasks {
  import opened Options

  /** A subtask, and the name under which it provides its result. */
  datatype Task = Task(id: int, providesAs: Option<string>)

  /** A `WrapperTask`: its subtasks, and the names that `add_subtask` has seen. */
  datatype Tx = Tx(tasks: seq<Task>, keys: set<string>)

  function NameOf(t: Task): set<string> { if t.providesAs.Some? then {t.providesAs.value} else {} }

  /** `WrapperTask.add_subtask`: a name that was seen before is refused. */
  predicate Accepts(tx: Tx, t: Task) { NameOf(t) !! tx.keys }

  function Add(tx: Tx, t: Task): Tx {
    if Accepts(tx, t) then Tx(tx.tasks + [t], tx.keys + NameOf(t)) else tx
  }

  function AddAll(tx: Tx, ts: seq<Task>): Tx {
    if ts == [] then tx else Add(AddAll(tx, ts[..|ts| - 1]), ts[|ts| - 1])
  }

  const EMPTY := Tx([], {})

  /** A wrapper's task when every subtask is added to it right away. */
  function Eager(before: seq<Task>, after: seq<Task>): Tx { AddAll(AddAll(EMPTY, before), after) }

  /** The same when it is made from the common subtasks in between. */
  function Lazy(before: seq<Task>, after: seq<Task>): Tx { AddAll(Tx(AddAll(EMPTY, before).tasks, {}), after) }

  predicate NamesNew(tx: Tx, ts: seq<Task>) { forall t | t in ts :: NameOf(t) !! tx.keys }

  /** Without a name of `base` among the new ones, seeding makes no difference. */
  lemma {:induction false} SeedingIsHarmless(base: Tx, ts: seq<Task>)
    requires NamesNew(base, ts)
    ensures var a, b := AddAll(base, ts), AddAll(Tx(base.tasks, {}), ts);
      a.tasks == b.tasks && a.keys == base.keys + b.keys && base.keys !! b.keys
  {
    if ts != [] {
      var n := |ts| - 1;
      assert forall t | t in ts[..n] :: t in ts;
      SeedingIsHarmless(base, ts[..n]);
      assert ts[n] in ts;
    }
  }

  /** A seeded task accepts whatever the other one accepts and more. */
  lemma {:induction false} SeededAcceptsMore(base: Tx, ts: seq<Task>)
    ensures var a, b := AddAll(base, ts), AddAll(Tx(base.tasks, {}), ts);
      |a.tasks| <= |b.tasks| && b.keys <= a.keys && a.keys <= base.keys + b.keys
    ensures !NamesNew(base, ts) ==> |AddAll(base, ts).tasks| < |AddAll(Tx(base.tasks, {}), ts).tasks|
  {
    if ts != [] {
      var n := |ts| - 1;
      SeededAcceptsMore(base, ts[..n]);
      assert ts == ts[..n] + [ts[n]];
      var a, b := AddAll(base, ts[..n]), AddAll(Tx(base.tasks, {}), ts[..n]);
      if NamesNew(base, ts[..n]) { SeedingIsHarmless(base, ts[..n]); }
      KeysGrow(base, ts[..n]);
    }
  }

  lemma {:induction false} KeysGrow(base: Tx, ts: seq<Task>)
    ensures base.keys <= AddAll(base, ts).keys
  {
    if ts != [] { KeysGrow(base, ts[..|ts| - 1]); }
  }

  /** Lazy replication is as good as eager exactly if no subtask that is added after it
      provides a name that one added before it provides.  Otherwise the duplicate is
      not refused. */
  lemma LazyIsEagerIff(before: seq<Task>, after: seq<Task>)
    ensures Lazy(before, after).tasks == Eager(before, after).tasks <==> NamesNew(AddAll(EMPTY, before), after)
  {
    var base := AddAll(EMPTY, before);
    if NamesNew(base, after) { SeedingIsHarmless(base, after); } else { SeededAcceptsMore(base, after); }
  }

  class FeedTask {
    const uuids: seq<string>
    var common: Tx
    var txByUuid: map<string, Tx>
    /** What was added so far, before and after replication. */
    ghost var before: seq<Task>
    ghost var after: seq<Task>

    ghost predicate Valid()
      reads this
    {
      && uuids != [] && common == AddAll(EMPTY, before)
      && (txByUuid == map[] ==> after == [])
      && (txByUuid != map[] ==> (forall u :: u in txByUuid <==> u in uuids)
                                && forall u | u in txByUuid :: txByUuid[u] == Lazy(before, after))
    }

    constructor (uuids: seq<string>)
      requires uuids != []
      ensures Valid() && this.uuids == uuids && txByUuid == map[] && before == [] && after == []
    {
      this.uuids, common, txByUuid, before, after := uuids, EMPTY, map[], [], [];
    }

    /** The property `wrapper_tasks`. */
    method WrapperTasks() returns (txs: map<string, Tx>)
      requires Valid()
      modifies this`txByUuid
      ensures Valid() && txs == txByUuid && txs != map[]
      ensures forall u | u in uuids :: u in txs && txs[u] == Lazy(before, after)
    {
      if txByUuid == map[] {
        var made: map<string, Tx> := map[];
        for i := 0 to |uuids|
          invariant forall u :: u in made <==> u in uuids[..i]
          invariant forall u | u in made :: made[u] == Lazy(before, [])
        {
          made := made[uuids[i] := Tx(common.tasks, {})];
        }
        assert uuids[..|uuids|] == uuids && uuids[0] in uuids && uuids[0] in made;
        txByUuid := made;
      }
      txs := txByUuid;
    }

    /** `add_subtask`: false for a name that was seen before. */
    method AddSubtask(t: Task) returns (ok: bool)
      requires Valid()
      modifies this
      ensures Valid() && (txByUuid == map[] <==> old(txByUuid) == map[])
      ensures old(txByUuid) == map[] ==> before == old(before) + [t] && after == [] && ok == Accepts(AddAll(EMPTY, old(before)), t)
      ensures old(txByUuid) != map[] ==> before == old(before) && after == old(after) + [t] && ok == Accepts(Lazy(before, old(after)), t)
    {
      if txByUuid == map[] {
        ok := Accepts(common, t);
        common := Add(common, t);
        assert (before + [t])[..|before|] == before;
        before := before + [t];
        return;
      }
      ghost var tx0 := Lazy(before, after);
      ok := true;
      var todo := uuids;
      var txs := txByUuid;
      for i := 0 to |uuids|
        invariant txs.Keys == txByUuid.Keys && (i > 0 ==> ok == Accepts(tx0, t)) && (i == 0 ==> ok)
        invariant forall u | u in txs :: txs[u] == if u in uuids[..i] then Add(tx0, t) else tx0
      {
        var u := uuids[i];
        if u !in uuids[..i] {
          ok := Accepts(txs[u], t);
          txs := txs[u := Add(txs[u], t)];
        }
        assert uuids[..i + 1] == uuids[..i] + [u];
      }
      assert uuids[..|uuids|] == uuids;
      txByUuid := txs;
      assert (after + [t])[..|after|] == after;
      after := after + [t];
    }
  }
}
