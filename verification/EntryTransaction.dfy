/** `WrapperTask.execute` under `@entry_transaction`: GET a wrapper, run the
    subtasks on it, POST it with its etag, and on an etag mismatch (HTTP 412, also
    one raised by a subtask) refresh and start over, at most 60 times.  Other
    writers may act on the server between any two requests.  The server refuses a
    POST whose etag is not current (If-Match, section 13.1.1 of RFC 9110). */
module EntryTransaction {
  import opened Options

  const TRIES := 60

  /** A subtask's return value: its truth value and the rest of it. */
  datatype Ret = Ret(truthy: bool, data: int)

  type Provided = map<string, Ret>

  /** An exception of a subtask: HTTP 412, which is redriven, or any other. */
  datatype Raised = Mismatch | Other

  /** `run` changes the wrapper's content, or raises. */
  datatype Subtask<!V(!new)> =
    Subtask(run: (V, Provided) -> Result<(V, Ret), Raised>, providesAs: Option<string>, flagUpdate: bool)

  datatype Ran<V> = Ran(value: V, provided: Provided, update: bool)

  function Provide<V(!new)>(t: Subtask<V>, p: Provided, ret: Ret): Provided {
    if t.providesAs.Some? then p[t.providesAs.value := ret] else p
  }

  /** The subtasks in order on one wrapper. */
  function RunAll<V(!new)>(tasks: seq<Subtask<V>>, v: V, p: Provided): Result<Ran<V>, Raised>
    decreases |tasks|
  {
    if tasks == [] then Ok(Ran(v, p, false))
    else match tasks[0].run(v, p)
         case Err(e) => Err(e)
         case Ok((v1, ret)) =>
           match RunAll(tasks[1..], v1, Provide(tasks[0], p, ret))
           case Err(e) => Err(e)
           case Ok(rest) => Ok(rest.(update := (tasks[0].flagUpdate && ret.truthy) || rest.update))
  }

  /** What the subtasks make of v, run once on a task that has not run before. */
  function Fresh<V(!new)>(tasks: seq<Subtask<V>>, v: V): Result<Ran<V>, Raised> { RunAll(tasks, v, map[]) }

  // ---- Failed attempts leave no trace ----

  ghost predicate Agree(p: Provided, q: Provided, names: set<string>) {
    forall n | n in names :: (n in p <==> n in q) && (n in p ==> p[n] == q[n])
  }

  ghost predicate ReadsOnly<V(!new)>(t: Subtask<V>, names: set<string>) {
    forall v, p, q | Agree(p, q, names) :: t.run(v, p) == t.run(v, q)
  }

  function Names<V(!new)>(t: Subtask<V>): set<string> { if t.providesAs.Some? then {t.providesAs.value} else {} }

  /** Every subtask reads only names that subtasks before it provide. */
  ghost predicate ReadsEarlier<V(!new)>(tasks: seq<Subtask<V>>, names: set<string>) {
    tasks == [] || (ReadsOnly(tasks[0], names) && ReadsEarlier(tasks[1..], names + Names(tasks[0])))
  }

  function AllNames<V(!new)>(tasks: seq<Subtask<V>>): set<string> {
    if tasks == [] then {} else Names(tasks[0]) + AllNames(tasks[1..])
  }

  /** What an earlier attempt provided does not show in a later one: same content,
      same decision to POST, same values under every name the subtasks provide. */
  lemma {:induction false} ResidueFree<V(!new)>(tasks: seq<Subtask<V>>, names: set<string>, v: V, p: Provided, q: Provided)
    requires ReadsEarlier(tasks, names) && Agree(p, q, names)
    ensures var a, b := RunAll(tasks, v, p), RunAll(tasks, v, q);
      && (a.Err? ==> b == a)
      && (a.Ok? ==> b.Ok? && a.value.value == b.value.value && a.value.update == b.value.update
                      && Agree(a.value.provided, b.value.provided, names + AllNames(tasks)))
    decreases |tasks|
  {
    if tasks != [] {
      var t := tasks[0];
      assert t.run(v, p) == t.run(v, q);
      if t.run(v, p).Ok? {
        var (v1, ret) := t.run(v, p).value;
        ResidueFree(tasks[1..], names + Names(t), v1, Provide(t, p, ret), Provide(t, q, ret));
        assert names + AllNames(tasks) == names + Names(t) + AllNames(tasks[1..]);
      }
    }
  }

  // ---- The server ----

  /** A REST object.  `values` records every value it has had; the etag numbers
      them.  `own` marks the writes of the transaction under consideration. */
  class Server<V(!new, 0)> {
    var value: V
    var etag: nat
    ghost var values: seq<V>
    ghost var own: seq<bool>

    ghost predicate Valid()
      reads this
    {
      |values| == etag + 1 && values[etag] == value && |own| == etag
    }

    constructor (v: V)
      ensures Valid() && values == [v]
    {
      value, etag := v, 0;
      values, own := [v], [];
    }

    /** Any number of writes by others. */
    method Others()
      requires Valid()
      modifies this
      ensures Valid() && old(values) <= values && old(own) <= own
      ensures NoOwn(own, old(etag))
    {
      var n: nat := *;
      while n > 0
        invariant Valid() && old(values) <= values && old(own) <= own && NoOwn(own, old(etag))
      {
        var v: V := *;
        value, etag := v, etag + 1;
        values, own := values + [v], own + [false];
        n := n - 1;
      }
    }

    method Get() returns (w: Wrapper<V>)
      requires Valid()
      ensures Clean(w, values) && w.etag == etag
    {
      w := Wrapper(value, etag);
    }

    /** POST with If-Match. */
    method Post(w: Wrapper<V>) returns (accepted: bool)
      requires Valid()
      modifies this
      ensures Valid() && accepted == (w.etag == old(etag))
      ensures accepted ==> values == old(values) + [w.value] && own == old(own) + [true]
      ensures !accepted ==> values == old(values) && own == old(own)
    {
      accepted := w.etag == etag;
      if accepted {
        value, etag := w.value, etag + 1;
        values, own := values + [w.value], own + [true];
      }
    }
  }

  datatype Wrapper<+V> = Wrapper(value: V, etag: nat)

  /** The wrapper is as the server had it under that etag. */
  ghost predicate Clean<V>(w: Wrapper<V>, values: seq<V>) {
    w.etag < |values| && values[w.etag] == w.value
  }

  ghost predicate NoOwn(own: seq<bool>, from_: nat) { forall i | from_ <= i < |own| :: !own[i] }

  /** From write number `from_` on, write k and no other is ours. */
  ghost predicate OneOwn(own: seq<bool>, from_: nat, k: nat) {
    from_ <= k < |own| && own[k] && forall i | from_ <= i < |own| && i != k :: !own[i]
  }

  datatype Failure = NoSubtasks | SubtaskRaised | RequestFailed | EtagMismatch

  datatype Done<+V> =
    | Empty                        // no subtasks, and that is allowed
    | Unchanged(wrapper: Wrapper<V>)
    | Posted(wrapper: Wrapper<V>)

  /** A run of a WrapperTask: the server's values and write marks after it. */
  ghost predicate NoLostUpdate<V(!new)>(tasks: seq<Subtask<V>>, values: seq<V>, own: seq<bool>, from_: nat,
                                        provided: Provided, res: Result<Done<V>, Failure>)
    requires |values| == |own| + 1
  {
    match res
    case Ok(Posted(w)) =>
      exists k: nat | OneOwn(own, from_, k) ::
        var ran := Fresh(tasks, values[k]);
        && ran.Ok? && ran.value.update
        && values[k + 1] == ran.value.value
        && w == Wrapper(values[k + 1], k + 1)
        && Agree(provided, ran.value.provided, AllNames(tasks))
    case Ok(Unchanged(w)) =>
      && NoOwn(own, from_)
      && w.etag < |values|
      && var ran := Fresh(tasks, values[w.etag]);
         ran.Ok? && !ran.value.update && w.value == ran.value.value
         && Agree(provided, ran.value.provided, AllNames(tasks))
    case Ok(Empty) => tasks == [] && NoOwn(own, from_)
    case Err(SubtaskRaised) =>
      NoOwn(own, from_) && exists k: nat | k < |values| :: Fresh(tasks, values[k]) == Err(Other)
    case Err(_) => NoOwn(own, from_)
  }

  class WrapperTask<V(!new, 0)> {
    var tasks: seq<Subtask<V>>
    var provided: Provided
    var providedKeys: set<string>
    /** None while a getter stands in for the wrapper. */
    var wrapper: Option<Wrapper<V>>
    const allowEmpty: bool

    constructor (wrapper: Option<Wrapper<V>>, subtasks: seq<Subtask<V>>, allowEmpty: bool)
      ensures this.wrapper == wrapper && tasks == subtasks && this.allowEmpty == allowEmpty
      ensures provided == map[] && providedKeys == {}
    {
      this.wrapper, tasks, this.allowEmpty := wrapper, subtasks, allowEmpty;
      provided, providedKeys := map[], {};
    }

    /** False for a 'provides' name that was added before. */
    method AddSubtask(t: Subtask<V>) returns (ok: bool)
      modifies this`tasks, this`providedKeys
      ensures ok == (Names(t) !! old(providedKeys))
      ensures tasks == (if ok then old(tasks) + [t] else old(tasks))
      ensures providedKeys == (if ok then old(providedKeys) + Names(t) else old(providedKeys))
    {
      ok := true;
      if t.providesAs.Some? {
        if t.providesAs.value in providedKeys {
          return false;
        }
        providedKeys := providedKeys + {t.providesAs.value};
      }
      tasks := tasks + [t];
    }

    /** The loop over the subtasks; `provided` is updated as they go. */
    method RunSubtasks(v: V) returns (raised: Option<Raised>, content: V, update: bool)
      modifies this`provided
      ensures RunAll(tasks, v, old(provided)) == if raised.Some? then Err(raised.value) else Ok(Ran(content, provided, update))
    {
      content, update := v, false;
      var i := 0;
      assert tasks[0..] == tasks;
      while i < |tasks|
        invariant 0 <= i <= |tasks|
        invariant var all, rest := RunAll(tasks, v, old(provided)), RunAll(tasks[i..], content, provided);
          && (rest.Err? ==> all == rest)
          && (rest.Ok? ==> all.Ok? && all.value == rest.value.(update := update || rest.value.update))
      {
        assert tasks[i..][0] == tasks[i] && tasks[i..][1..] == tasks[i + 1..];
        var result := tasks[i].run(content, provided);
        if result.Err? {
          return Some(result.error), content, update;
        }
        content := result.value.0;
        if tasks[i].flagUpdate && result.value.1.truthy {
          update := true;
        }
        if tasks[i].providesAs.Some? {
          provided := provided[tasks[i].providesAs.value := result.value.1];
        }
        i := i + 1;
      }
      assert tasks[i..] == [];
      return None, content, update;
    }

    /** One call of the body on a clean wrapper, with the POST if the subtasks
        asked for one; None if HTTP 412 was raised, by the server because of the
        etag or by a subtask. */
    method Attempt(server: Server<V>, w: Wrapper<V>) returns (res: Option<Result<Done<V>, Failure>>, touched: Wrapper<V>)
      requires server.Valid() && ReadsEarlier(tasks, {}) && tasks != [] && Clean(w, server.values)
      modifies this`provided, server
      ensures server.Valid() && old(server.values) <= server.values && old(server.own) <= server.own
      ensures res.None? ==> NoOwn(server.own, old(server.etag))
      ensures res.None? ==> w.etag != server.etag || Fresh(tasks, w.value) == Err(Mismatch)
      ensures res.Some? ==> NoLostUpdate(tasks, server.values, server.own, old(server.etag), provided, res.value)
      ensures res.Some? && res.value.Ok? ==> !res.value.value.Empty?
    {
      ghost var before := provided;
      var raised, content, update := RunSubtasks(w.value);
      ResidueFree(tasks, {}, w.value, before, map[]);
      assert {} + AllNames(tasks) == AllNames(tasks);
      touched := Wrapper(content, w.etag);
      if raised.Some? {
        res := if raised.value.Mismatch? then None else Some(Err(SubtaskRaised));
        return;
      }
      if !update {
        res := Some(Ok(Unchanged(touched)));
        return;
      }
      server.Others();
      var requestFails: bool := *;
      if requestFails {
        res := Some(Err(RequestFailed));
        return;
      }
      label post:
      var accepted := server.Post(touched);
      if accepted {
        assert server.values[w.etag] == w.value;
        assert OneOwn(server.own, old(server.etag), w.etag);
        res := Some(Ok(Posted(Wrapper(content, w.etag + 1))));
      } else {
        res := None;
      }
    }

    /** `execute`.  A wrapper handed in is changed in place by the first attempt;
        every later attempt works on a refreshed one. */
    method Execute(server: Server<V>) returns (res: Result<Done<V>, Failure>, calls: nat)
      requires server.Valid() && ReadsEarlier(tasks, {})
      requires wrapper.Some? ==> Clean(wrapper.value, server.values)
      modifies this`provided, this`wrapper, server
      ensures server.Valid() && old(server.values) <= server.values && old(server.own) <= server.own
      ensures calls <= TRIES
      ensures NoLostUpdate(tasks, server.values, server.own, old(server.etag), provided, res)
      ensures res.Ok? && !res.value.Empty? ==> wrapper == Some(res.value.wrapper)
    {
      calls := 0;
      if |tasks| == 0 {
        res := if allowEmpty then Ok(Empty) else Err(NoSubtasks);
        return;
      }
      server.Others();
      var w: Wrapper<V>;
      if wrapper.Some? {
        w := wrapper.value;
      } else {
        w := server.Get();
      }
      while calls < TRIES
        invariant calls <= TRIES && server.Valid()
        invariant old(server.values) <= server.values && old(server.own) <= server.own
        invariant Clean(w, server.values) && NoOwn(server.own, old(server.etag))
      {
        calls := calls + 1;
        ghost var from_ := server.etag;
        ghost var ownBefore := server.own;
        var attempt, touched := Attempt(server, w);
        if calls == 1 && wrapper.Some? {
          wrapper := Some(touched);
        }
        if attempt.Some? {
          EarlierWritesAreOthers(tasks, server.values, server.own, ownBefore, old(server.etag), from_, provided, attempt.value);
          res := attempt.value;
          if res.Ok? {
            wrapper := Some(res.value.wrapper);
          }
          return;
        }
        server.Others();
        w := server.Get();
      }
      res := Err(EtagMismatch);
    }
  }

  lemma EarlierWritesAreOthers<V(!new)>(tasks: seq<Subtask<V>>, values: seq<V>, own: seq<bool>, ownBefore: seq<bool>,
                                        first: nat, from_: nat, provided: Provided, res: Result<Done<V>, Failure>)
    requires |values| == |own| + 1 && first <= from_ == |ownBefore| && ownBefore <= own && NoOwn(ownBefore, first)
    requires NoLostUpdate(tasks, values, own, from_, provided, res)
    ensures NoLostUpdate(tasks, values, own, first, provided, res)
  {
    forall i | first <= i < from_ ensures !own[i] { assert own[i] == ownBefore[i]; }
    if res.Ok? && res.value.Posted? {
      var k: nat :| OneOwn(own, from_, k)
        && var ran := Fresh(tasks, values[k]);
        && ran.Ok? && ran.value.update
        && values[k + 1] == ran.value.value
        && res.value.wrapper == Wrapper(values[k + 1], k + 1)
        && Agree(provided, ran.value.provided, AllNames(tasks));
      assert OneOwn(own, first, k);
    }
  }

  // ---- Many transactions on one server ----

  /** A write of the server's history: by a transaction, or by anybody else. */
  datatype Writer<!V(!new)> = Transaction(tasks: seq<Subtask<V>>) | Outsider(value: V)

  ghost predicate Explains<V(!new)>(w: Writer<V>, before: V, after: V) {
    match w
    case Transaction(tasks) => Fresh(tasks, before).Ok? && Fresh(tasks, before).value.value == after
    case Outsider(v) => after == v
  }

  ghost predicate Accepted<V(!new)>(values: seq<V>, writers: seq<Writer<V>>) {
    |values| == |writers| + 1 && forall i | 0 <= i < |writers| :: Explains(writers[i], values[i], values[i + 1])
  }

  /** One writer after the other, nobody in between. */
  ghost function Serially<V(!new)>(v: V, writers: seq<Writer<V>>): V {
    if writers == [] then v
    else
      var before := Serially(v, writers[..|writers| - 1]);
      match writers[|writers| - 1]
      case Transaction(tasks) => if Fresh(tasks, before).Ok? then Fresh(tasks, before).value.value else before
      case Outsider(u) => u
  }

  lemma {:induction false} AcceptedIsSerial<V(!new)>(values: seq<V>, writers: seq<Writer<V>>)
    requires Accepted(values, writers)
    ensures values[|writers|] == Serially(values[0], writers)
  {
    if writers != [] {
      var n := |writers| - 1;
      forall i | 0 <= i < n ensures Explains(writers[..n][i], values[..n + 1][i], values[..n + 1][i + 1]) {
        assert Explains(writers[i], values[i], values[i + 1]);
      }
      AcceptedIsSerial(values[..n + 1], writers[..n]);
      assert Explains(writers[n], values[n], values[n + 1]);
    }
  }

  /** An execution of a task as it is seen in the end: `values` are the server's, and
      `own` marks this execution's writes. */
  datatype Execution<!V(!new)> =
    Execution(tasks: seq<Subtask<V>>, from_: nat, own: seq<bool>, provided: Provided, res: Result<Done<V>, Failure>)

  ghost predicate Completed<V(!new)>(x: Execution<V>, values: seq<V>) {
    && |values| == |x.own| + 1 && x.from_ <= |x.own| && (forall i | 0 <= i < x.from_ :: !x.own[i])
    && NoLostUpdate(x.tasks, values, x.own, x.from_, x.provided, x.res)
  }

  /** What `Execute` ensures when it returns still holds after later writes by others. */
  lemma LaterWritesAreOthers<V(!new)>(x: Execution<V>, values: seq<V>, values': seq<V>, own': seq<bool>)
    requires Completed(x, values) && values <= values' && x.own <= own' && |values'| == |own'| + 1 && NoOwn(own', |x.own|)
    ensures Completed(x.(own := own'), values')
  {
    forall i | 0 <= i < |x.own| ensures own'[i] == x.own[i] {}
    if x.res.Ok? && x.res.value.Posted? {
      var k: nat :| OneOwn(x.own, x.from_, k)
        && var ran := Fresh(x.tasks, values[k]);
        && ran.Ok? && ran.value.update
        && values[k + 1] == ran.value.value
        && x.res.value.wrapper == Wrapper(values[k + 1], k + 1)
        && Agree(x.provided, ran.value.provided, AllNames(x.tasks));
      assert OneOwn(own', x.from_, k);
    }
  }

  /** The execution that made write i. */
  ghost function Owner<V(!new)>(runs: seq<Execution<V>>, i: nat): (k: Option<nat>)
    ensures k.Some? ==> k.value < |runs| && i < |runs[k.value].own| && runs[k.value].own[i]
    ensures k.None? ==> forall j | 0 <= j < |runs| && i < |runs[j].own| :: !runs[j].own[i]
  {
    if runs == [] then None
    else
      var n := |runs| - 1;
      if i < |runs[n].own| && runs[n].own[i] then Some(n) else Owner(runs[..n], i)
  }

  ghost function WriterOf<V(!new)>(runs: seq<Execution<V>>, values: seq<V>, i: nat): Writer<V>
    requires i + 1 < |values|
  {
    match Owner(runs, i)
    case Some(k) => Transaction(runs[k].tasks)
    case None => Outsider(values[i + 1])
  }

  ghost function Writers<V(!new)>(runs: seq<Execution<V>>, values: seq<V>, n: nat): (w: seq<Writer<V>>)
    requires n < |values|
    ensures |w| == n && forall i | 0 <= i < n :: w[i] == WriterOf(runs, values, i)
  {
    if n == 0 then [] else Writers(runs, values, n - 1) + [WriterOf(runs, values, n - 1)]
  }

  lemma OwnWriteExplained<V(!new)>(x: Execution<V>, values: seq<V>, i: nat)
    requires Completed(x, values) && i < |x.own| && x.own[i]
    ensures Explains(Transaction(x.tasks), values[i], values[i + 1])
  {
    var k: nat :| OneOwn(x.own, x.from_, k)
      && var ran := Fresh(x.tasks, values[k]);
      && ran.Ok? && values[k + 1] == ran.value.value;
    assert k == i;
  }

  lemma WriterExplained<V(!new)>(values: seq<V>, runs: seq<Execution<V>>, i: nat)
    requires i + 1 < |values| && forall k | 0 <= k < |runs| :: Completed(runs[k], values)
    ensures Explains(WriterOf(runs, values, i), values[i], values[i + 1])
  {
    var k := Owner(runs, i);
    if k.Some? { OwnWriteExplained(runs[k.value], values, i); }
  }

  /** Any number of executions on one server, interleaved with each other and with
      others: the value in the end is that of running them one after the other, alone,
      in the order in which the server accepted them. */
  lemma WritesAreSerial<V(!new)>(values: seq<V>, runs: seq<Execution<V>>)
    requires values != [] && forall k | 0 <= k < |runs| :: Completed(runs[k], values)
    ensures var n := |values| - 1; values[n] == Serially(values[0], Writers(runs, values, n))
  {
    var n := |values| - 1;
    var writers := Writers(runs, values, n);
    forall i | 0 <= i < n ensures Explains(writers[i], values[i], values[i + 1]) { WriterExplained(values, runs, i); }
    AcceptedIsSerial(values, writers);
  }

  /** No write is marked by two executions. */
  ghost predicate MarksApart<V(!new)>(runs: seq<Execution<V>>, n: nat) {
    && (forall k | 0 <= k < |runs| :: |runs[k].own| == n)
    && forall k, l, i | 0 <= k < |runs| && 0 <= l < |runs| && k != l && 0 <= i < n :: !(runs[k].own[i] && runs[l].own[i])
  }

  lemma OwnerMarks<V(!new)>(runs: seq<Execution<V>>, n: nat, k: nat, i: nat)
    requires MarksApart(runs, n) && k < |runs| && i < n
    ensures Owner(runs, i) == Some(k) <==> runs[k].own[i]
  {
    var o := Owner(runs, i);
  }

  lemma PostMarksOnce<V(!new)>(x: Execution<V>, values: seq<V>)
    requires Completed(x, values)
    ensures (exists i | 0 <= i < |x.own| :: x.own[i]) <==> x.res.Ok? && x.res.value.Posted?
    ensures forall i, j | 0 <= i < j < |x.own| :: !(x.own[i] && x.own[j])
  {
    var own, first := x.own, x.from_;
    if x.res.Ok? && x.res.value.Posted? {
      var p: nat :| OneOwn(own, first, p);
      assert OneOwn(own, first, p) && first <= p < |own|;
      assert own[p];
      forall i | 0 <= i < |own| && i != p ensures !own[i] {}
    } else {
      assert NoOwn(own, first);
    }
  }

  /** In that order an execution that posted comes exactly once, and one that did not
      post not at all. */
  lemma EachPostOnce<V(!new)>(values: seq<V>, runs: seq<Execution<V>>, k: nat)
    requires values != [] && MarksApart(runs, |values| - 1) && k < |runs| && Completed(runs[k], values)
    ensures (exists i | 0 <= i < |values| - 1 :: Owner(runs, i) == Some(k)) <==> runs[k].res.Ok? && runs[k].res.value.Posted?
    ensures forall i, j | 0 <= i < j < |values| - 1 :: !(Owner(runs, i) == Some(k) && Owner(runs, j) == Some(k))
  {
    PostMarksOnce(runs[k], values);
    forall i | 0 <= i < |values| - 1 ensures Owner(runs, i) == Some(k) <==> runs[k].own[i] {
      OwnerMarks(runs, |values| - 1, k, i);
    }
    if runs[k].res.Ok? && runs[k].res.value.Posted? {
      var i :| 0 <= i < |runs[k].own| && runs[k].own[i];
      assert Owner(runs, i) == Some(k);
    }
  }
}
