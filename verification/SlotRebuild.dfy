/** Rebuilding a partition on another host: every slot with saved storage gets one
    Virtual I/O Server that sees all of it. */
module SlotRebuild {
  import opened Options
  import opened Sets
  import opened SlotStore
  import SlotColours

  datatype Error =
    | InvalidIoType                       // virtual optical media
    | NoViosForUdid(udid: string)
    | NotEnoughVios(udid: string)
    | ViosListedNoMore(udid: string)      // `list.remove` of an absent element

  /** A saved storage element: its class, UDID and logical unit address. */
  datatype Elem = Elem(cls: IoClass, udid: string, lua: string)

  type Visible = map<string, seq<string>>
  type BuildMap = map<IoClass, map<string, map<string, (int, string)>>>

  predicate Storage(c: IoClass) { c == PV || c == LU || c == VDISK }

  predicate Has(t: Topology, slot: int, e: Elem) { Storage(e.cls) && Get(t, slot, e.cls, e.udid) == Some(e.lua) }

  // ---- The order of the slots: `_vscsi_build_slot_order` ----

  function CountOf(io: Io, c: IoClass): nat { if c in io then |io[c]| else 0 }

  function Weight(io: Io): nat { CountOf(io, PV) + CountOf(io, LU) + CountOf(io, VDISK) }

  ghost predicate MostFirst(t: Topology, order: seq<int>) {
    && (forall i | 0 <= i < |order| :: order[i] in t)
    && (forall i, j | 0 <= i < j < |order| :: Weight(t[order[i]]) >= Weight(t[order[j]]))
  }

  ghost predicate NoRepeats<T>(s: seq<T>) { forall i, j | 0 <= i < j < |s| :: s[i] != s[j] }

  lemma SomeInt(s: set<int>)
    requires s != {}
    ensures exists c :: c in s
  {
    if forall c :: c !in s { NoMember(s); }
  }

  function InsertAt<T>(s: seq<T>, k: nat, x: T): (r: seq<T>)
    requires k <= |s|
    ensures |r| == |s| + 1 && r[k] == x
    ensures forall i | 0 <= i < |r| && i != k :: r[i] == s[if i < k then i else i - 1]
  {
    s[..k] + [x] + s[k..]
  }

  lemma InsertHas<T>(s: seq<T>, k: nat, x: T)
    requires k <= |s|
    ensures forall y :: y in InsertAt(s, k, x) <==> y in s || y == x
  {
    assert s == s[..k] + s[k..];
  }

  lemma InsertNoRepeats<T>(s: seq<T>, k: nat, x: T)
    requires k <= |s| && NoRepeats(s) && x !in s
    ensures NoRepeats(InsertAt(s, k, x))
  {
  }

  /** Before the first slot with a smaller weight. */
  method InsertSlot(t: Topology, order: seq<int>, slot: int) returns (r: seq<int>)
    requires MostFirst(t, order) && NoRepeats(order) && slot in t && slot !in order
    ensures MostFirst(t, r) && NoRepeats(r) && forall s :: s in r <==> s in order || s == slot
  {
    var k := 0;
    while k < |order| && Weight(t[order[k]]) >= Weight(t[slot])
      invariant 0 <= k <= |order| && forall i | 0 <= i < k :: Weight(t[order[i]]) >= Weight(t[slot])
    {
      k := k + 1;
    }
    r := InsertAt(order, k, slot);
    InsertHas(order, k, slot);
    InsertNoRepeats(order, k, slot);
  }

  method VscsiBuildSlotOrder(t: Topology) returns (res: Result<seq<int>, Error>)
    ensures res.Err? <==> exists s | s in t :: CountOf(t[s], VOPT) > 0
    ensures res.Err? ==> res.error == InvalidIoType
    ensures res.Ok? ==> MostFirst(t, res.value) && NoRepeats(res.value) && forall s :: s in res.value <==> s in t
  {
    var order: seq<int> := [];
    var todo := t.Keys;
    while todo != {}
      invariant todo <= t.Keys && MostFirst(t, order) && NoRepeats(order)
      invariant forall s :: s in order <==> s in t && s !in todo
      invariant forall s | s in order :: CountOf(t[s], VOPT) == 0
      decreases |todo|
    {
      SomeInt(todo);
      var slot :| slot in todo;
      todo := todo - {slot};
      if CountOf(t[slot], VOPT) > 0 {
        return Err(InvalidIoType);
      }
      order := InsertSlot(t, order, slot);
    }
    return Ok(order);
  }

  // ---- The elements of a slot ----

  ghost predicate ListsElems(io: Io, c: IoClass, elems: seq<Elem>) {
    && NoRepeats(elems)
    && forall e :: e in elems <==> e.cls == c && c in io && e.udid in io[c] && io[c][e.udid] == e.lua
  }

  method ElemsOfClass(io: Io, c: IoClass) returns (elems: seq<Elem>)
    ensures ListsElems(io, c, elems)
  {
    elems := [];
    if c !in io {
      return;
    }
    var todo := io[c].Keys;
    while todo != {}
      invariant todo <= io[c].Keys && NoRepeats(elems)
      invariant forall e :: e in elems <==> e.cls == c && e.udid in io[c] && e.udid !in todo && io[c][e.udid] == e.lua
      decreases |todo|
    {
      var udid :| udid in todo;
      todo := todo - {udid};
      elems := elems + [Elem(c, udid, io[c][udid])];
    }
  }

  /** `slot_info`. */
  method SlotInfo(t: Topology, slot: int) returns (elems: seq<Elem>)
    requires slot in t
    ensures NoRepeats(elems) && forall e :: e in elems <==> Has(t, slot, e)
  {
    var a := ElemsOfClass(t[slot], PV);
    var b := ElemsOfClass(t[slot], LU);
    var c := ElemsOfClass(t[slot], VDISK);
    forall i, j | 0 <= i < |a| && 0 <= j < |b| ensures a[i] != b[j] { assert a[i] in a && b[j] in b; }
    forall i, j | 0 <= i < |a| && 0 <= j < |c| ensures a[i] != c[j] { assert a[i] in a && c[j] in c; }
    forall i, j | 0 <= i < |b| && 0 <= j < |c| ensures b[i] != c[j] { assert b[i] in b && c[j] in c; }
    elems := a + b + c;
  }

  // ---- The build map: `_put_vios_val` and `get_vscsi_slot` ----

  function BuildGet(bm: BuildMap, c: IoClass, vios: string, udid: string): Option<(int, string)> {
    if c in bm && vios in bm[c] && udid in bm[c][vios] then Some(bm[c][vios][udid]) else None
  }

  function PutViosVal(bm: BuildMap, c: IoClass, vios: string, udid: string, val: (int, string)): BuildMap {
    var byVios := if c in bm then bm[c] else map[];
    var byUdid := if vios in byVios then byVios[vios] else map[];
    bm[c := byVios[vios := byUdid[udid := val]]]
  }

  method GetVscsiSlot(bm: BuildMap, vios: string, udid: string) returns (r: Option<(int, string)>)
    ensures r.Some? ==> exists c :: BuildGet(bm, c, vios, udid) == r
    ensures r.None? ==> forall c :: BuildGet(bm, c, vios, udid) == None
  {
    var todo := bm.Keys;
    while todo != {}
      invariant todo <= bm.Keys && forall c | c in bm && c !in todo :: BuildGet(bm, c, vios, udid) == None
      decreases |todo|
    {
      var c :| c in todo;
      todo := todo - {c};
      if vios in bm[c] && udid in bm[c][vios] {
        assert BuildGet(bm, c, vios, udid) == Some(bm[c][vios][udid]);
        return Some(bm[c][vios][udid]);
      }
    }
    return None;
  }

  // ---- `_vscsi_build_out` ----

  /** `list.remove`. */
  function RemoveFirst(s: seq<string>, x: string): seq<string> {
    if s == [] then [] else if s[0] == x then s[1..] else [s[0]] + RemoveFirst(s[1..], x)
  }

  lemma {:induction false} RemoveFirstHas(s: seq<string>, x: string)
    requires NoRepeats(s)
    ensures NoRepeats(RemoveFirst(s, x)) && forall y :: y in RemoveFirst(s, x) <==> y in s && y != x
  {
    if s != [] {
      assert NoRepeats(s[1..]) by {
        forall i, j | 0 <= i < j < |s[1..]| ensures s[1..][i] != s[1..][j] { assert s[i + 1] != s[j + 1]; }
      }
      RemoveFirstHas(s[1..], x);
      var r := RemoveFirst(s[1..], x);
      forall i | 0 <= i < |r| ensures r[i] in s[1..] { assert r[i] in r; }
      forall y | y in s[1..] ensures y != s[0] {
        var i :| 0 <= i < |s[1..]| && s[1..][i] == y;
        assert s[0] != s[i + 1];
      }
    }
  }

  ghost predicate ListsApart(tbl: Visible) { forall u | u in tbl :: NoRepeats(tbl[u]) }

  /** No server is listed twice for a UDID, and no slot has a UDID in two classes. */
  ghost predicate Sane(t: Topology, tbl: Visible) {
    && ListsApart(tbl)
    && forall s, e, f | Has(t, s, e) && Has(t, s, f) && e.udid == f.udid :: e == f
  }

  ghost predicate Sees(tbl: Visible, vios: string, elems: seq<Elem>) {
    forall i | 0 <= i < |elems| :: elems[i].udid in tbl && vios in tbl[elems[i].udid]
  }

  lemma SeesShorter(tbl: Visible, vios: string, elems: seq<Elem>, n: nat)
    requires n <= |elems|
    ensures Sees(tbl, vios, elems) ==> Sees(tbl, vios, elems[..n])
  {
  }

  /** Any server that sees all the elements. */
  method PickVios(elems: seq<Elem>, vioses: seq<string>, tbl: Visible) returns (res: Result<string, Error>)
    requires elems != []
    ensures res.Ok? ==> res.value in vioses && Sees(tbl, res.value, elems)
    ensures res.Err? ==> exists i | 0 <= i < |elems| ::
      || (elems[i].udid !in tbl && res.error == NoViosForUdid(elems[i].udid))
      || (res.error == NotEnoughVios(elems[i].udid) && forall v | v in vioses :: !Sees(tbl, v, elems))
  {
    var candidates := set v | v in vioses;
    for i := 0 to |elems|
      invariant i > 0 ==> candidates != {}
      invariant forall v :: v in candidates <==> v in vioses && Sees(tbl, v, elems[..i])
    {
      var udid := elems[i].udid;
      if udid !in tbl {
        return Err(NoViosForUdid(udid));
      }
      ghost var before := candidates;
      candidates := candidates * set v | v in tbl[udid];
      forall v ensures v in candidates <==> v in vioses && Sees(tbl, v, elems[..i + 1]) {
        assert Sees(tbl, v, elems[..i + 1]) <==> Sees(tbl, v, elems[..i]) && v in tbl[udid];
      }
      if candidates == {} {
        forall v | v in vioses ensures !Sees(tbl, v, elems) {
          assert v !in candidates;
          SeesShorter(tbl, v, elems, i + 1);
        }
        return Err(NotEnoughVios(udid));
      }
    }
    assert elems[..|elems|] == elems;
    var vios :| vios in candidates;
    return Ok(vios);
  }

  /** The build map after the elements of a slot went to a server. */
  ghost predicate PutAll(bm0: BuildMap, bm: BuildMap, slot: int, vios: string, elems: seq<Elem>) {
    && (forall e | e in elems :: BuildGet(bm, e.cls, vios, e.udid) == Some((slot, e.lua)))
    && (forall c, v, u | (forall e | e in elems :: e.cls != c || e.udid != u || v != vios) ::
          BuildGet(bm, c, v, u) == BuildGet(bm0, c, v, u))
  }

  /** The server is off the lists of these elements. */
  ghost predicate TakenOff(tbl0: Visible, tbl: Visible, vios: string, elems: seq<Elem>) {
    && tbl.Keys == tbl0.Keys && ListsApart(tbl)
    && (forall u, v | u in tbl && v in tbl[u] :: v in tbl0[u])
    && (forall u, v | u in tbl && v in tbl0[u] ::
          v in tbl[u] <==> !(v == vios && exists e | e in elems :: e.udid == u))
  }

  lemma PutMore(bm0: BuildMap, bm: BuildMap, slot: int, vios: string, elems: seq<Elem>, e: Elem)
    requires PutAll(bm0, bm, slot, vios, elems) && forall f | f in elems :: f.udid != e.udid
    ensures PutAll(bm0, PutViosVal(bm, e.cls, vios, e.udid, (slot, e.lua)), slot, vios, elems + [e])
  {
    var bm' := PutViosVal(bm, e.cls, vios, e.udid, (slot, e.lua));
    forall c, v, u
      ensures BuildGet(bm', c, v, u) == if c == e.cls && v == vios && u == e.udid then Some((slot, e.lua)) else BuildGet(bm, c, v, u)
    {
    }
    forall c, v, u | forall f | f in elems + [e] :: f.cls != c || f.udid != u || v != vios
      ensures BuildGet(bm', c, v, u) == BuildGet(bm0, c, v, u)
    {
      assert e in elems + [e];
      forall f | f in elems ensures f.cls != c || f.udid != u || v != vios { assert f in elems + [e]; }
    }
  }

  lemma TakeMore(tbl0: Visible, tbl: Visible, vios: string, elems: seq<Elem>, e: Elem)
    requires TakenOff(tbl0, tbl, vios, elems) && e.udid in tbl
    ensures TakenOff(tbl0, tbl[e.udid := RemoveFirst(tbl[e.udid], vios)], vios, elems + [e])
  {
    RemoveFirstHas(tbl[e.udid], vios);
    var tbl' := tbl[e.udid := RemoveFirst(tbl[e.udid], vios)];
    forall u, v | u in tbl' && v in tbl0[u]
      ensures v in tbl'[u] <==> !(v == vios && exists f | f in elems + [e] :: f.udid == u)
    {
      assert e in elems + [e];
      if exists f | f in elems :: f.udid == u {
        var f :| f in elems && f.udid == u;
        assert f in elems + [e];
      }
    }
  }

  /** The elements of a slot go to server `vios`. */
  method PutSlotElems(bm0: BuildMap, tbl0: Visible, slot: int, vios: string, elems: seq<Elem>)
    returns (res: Result<(), Error>, bm: BuildMap, tbl: Visible)
    requires forall e | e in elems :: e.udid in tbl0
    ensures res.Err? ==> exists e | e in elems :: res.error == ViosListedNoMore(e.udid)
    ensures ListsApart(tbl0) && Sees(tbl0, vios, elems) && (forall i, j | 0 <= i < j < |elems| :: elems[i].udid != elems[j].udid) ==>
      res.Ok? && PutAll(bm0, bm, slot, vios, elems) && TakenOff(tbl0, tbl, vios, elems)
    ensures tbl.Keys == tbl0.Keys
  {
    bm, tbl := bm0, tbl0;
    ghost var fine := ListsApart(tbl0) && Sees(tbl0, vios, elems) && (forall i, j | 0 <= i < j < |elems| :: elems[i].udid != elems[j].udid);
    ghost var done: seq<Elem> := [];
    for i := 0 to |elems|
      invariant |done| == i && (forall j | 0 <= j < i :: done[j] == elems[j]) && tbl.Keys == tbl0.Keys
      invariant fine ==> PutAll(bm0, bm, slot, vios, done) && TakenOff(tbl0, tbl, vios, done)
    {
      var e := elems[i];
      assert e in elems;
      if fine {
        forall f | f in done ensures f.udid != e.udid {
          var j :| 0 <= j < i && done[j] == f;
          assert elems[j].udid != elems[i].udid;
        }
        PutMore(bm0, bm, slot, vios, done, e);
        TakeMore(tbl0, tbl, vios, done, e);
        assert vios in tbl0[e.udid] && vios in tbl[e.udid];
      }
      bm := PutViosVal(bm, e.cls, vios, e.udid, (slot, e.lua));
      if vios !in tbl[e.udid] {
        return Err(ViosListedNoMore(e.udid)), bm, tbl;
      }
      tbl := tbl[e.udid := RemoveFirst(tbl[e.udid], vios)];
      done := done + [e];
    }
    assert done == elems;
    return Ok(()), bm, tbl;
  }

  // ---- The plan ----

  /** Which server hosts which slot. */
  type Plan = map<int, string>

  /** Server v hosts a slot with this UDID. */
  ghost predicate Hosts(t: Topology, plan: Plan, v: string, udid: string) {
    exists s, e :: s in plan && plan[s] == v && Has(t, s, e) && e.udid == udid
  }

  /** Every planned slot is on a listed server that sees all of its storage, and slots
      that share a UDID are on different servers. */
  ghost predicate PlanOk(t: Topology, tbl: Visible, vioses: seq<string>, plan: Plan) {
    && (forall s | s in plan :: s in t && plan[s] in vioses)
    && (forall s, e | s in plan && Has(t, s, e) :: e.udid in tbl && plan[s] in tbl[e.udid])
    && (forall r, s, e, f | r in plan && s in plan && r != s && Has(t, r, e) && Has(t, s, f) && e.udid == f.udid ::
          plan[r] != plan[s])
  }

  /** The build map has the elements of the planned slots and nothing else. */
  ghost predicate Builds(t: Topology, plan: Plan, bm: BuildMap) {
    forall c, v, u, s, l :: BuildGet(bm, c, v, u) == Some((s, l)) <==> s in plan && plan[s] == v && Has(t, s, Elem(c, u, l))
  }

  /** What is still listed: servers that see the UDID and do not host it yet. */
  ghost predicate Lists(t: Topology, tbl0: Visible, plan: Plan, tbl: Visible) {
    && tbl.Keys == tbl0.Keys && ListsApart(tbl)
    && forall u, v | u in tbl :: v in tbl[u] <==> v in tbl0[u] && !Hosts(t, plan, v, u)
  }

  /** A slot that cannot be placed: no listed server that sees all of its storage is
      without a slot that shares a UDID with it. */
  ghost predicate Stuck(t: Topology, tbl: Visible, vioses: seq<string>, plan: Plan, slot: int) {
    forall v | v in vioses :: exists e | Has(t, slot, e) :: e.udid !in tbl || v !in tbl[e.udid] || Hosts(t, plan, v, e.udid)
  }

  lemma HostsMore(t: Topology, plan: Plan, slot: int, vios: string, v: string, u: string)
    requires slot !in plan
    ensures Hosts(t, plan[slot := vios], v, u) <==> Hosts(t, plan, v, u) || (v == vios && exists e :: Has(t, slot, e) && e.udid == u)
  {
    var plan' := plan[slot := vios];
    if Hosts(t, plan, v, u) {
      var s, e :| s in plan && plan[s] == v && Has(t, s, e) && e.udid == u;
      assert s in plan' && plan'[s] == v;
    }
    if v == vios && exists e :: Has(t, slot, e) && e.udid == u {
      var e :| Has(t, slot, e) && e.udid == u;
      assert slot in plan' && plan'[slot] == v;
    }
  }

  lemma PlanMore(t: Topology, tbl0: Visible, vioses: seq<string>, plan: Plan, tbl: Visible, slot: int, vios: string, elems: seq<Elem>)
    requires PlanOk(t, tbl0, vioses, plan) && Lists(t, tbl0, plan, tbl)
    requires slot in t && slot !in plan && vios in vioses && Sees(tbl, vios, elems) && forall e :: e in elems <==> Has(t, slot, e)
    ensures PlanOk(t, tbl0, vioses, plan[slot := vios])
  {
    forall e | Has(t, slot, e) ensures e.udid in tbl0 && vios in tbl0[e.udid] && !Hosts(t, plan, vios, e.udid) {
      var i :| 0 <= i < |elems| && elems[i] == e;
    }
    forall s, e, f | s in plan && Has(t, slot, e) && Has(t, s, f) && e.udid == f.udid ensures plan[s] != vios {
      assert !Hosts(t, plan, vios, e.udid);
    }
  }

  lemma BuildsMore(t: Topology, tbl0: Visible, plan: Plan, tbl: Visible, bm0: BuildMap, bm: BuildMap,
                   slot: int, vios: string, elems: seq<Elem>)
    requires Builds(t, plan, bm0) && Lists(t, tbl0, plan, tbl) && slot !in plan
    requires Sees(tbl, vios, elems) && (forall e :: e in elems <==> Has(t, slot, e)) && PutAll(bm0, bm, slot, vios, elems)
    ensures Builds(t, plan[slot := vios], bm)
  {
    var plan' := plan[slot := vios];
    forall c, v, u, s, l
      ensures BuildGet(bm, c, v, u) == Some((s, l)) <==> s in plan' && plan'[s] == v && Has(t, s, Elem(c, u, l))
    {
      if v == vios && exists e | e in elems :: e.cls == c && e.udid == u {
        var e :| e in elems && e.cls == c && e.udid == u;
        assert BuildGet(bm, c, v, u) == Some((slot, e.lua));
        var i :| 0 <= i < |elems| && elems[i] == e;
        assert !Hosts(t, plan, vios, u);
      } else {
        assert forall e | e in elems :: e.cls != c || e.udid != u || v != vios;
        assert s == slot && v == vios ==> !Has(t, s, Elem(c, u, l)) by { assert Elem(c, u, l) in elems <==> Has(t, slot, Elem(c, u, l)); }
      }
    }
  }

  lemma ListsMore(t: Topology, tbl0: Visible, plan: Plan, tbl: Visible, tbl': Visible, slot: int, vios: string, elems: seq<Elem>)
    requires Lists(t, tbl0, plan, tbl) && slot !in plan && TakenOff(tbl, tbl', vios, elems)
    requires forall e :: e in elems <==> Has(t, slot, e)
    ensures Lists(t, tbl0, plan[slot := vios], tbl')
  {
    forall u, v | u in tbl' ensures v in tbl'[u] <==> v in tbl0[u] && !Hosts(t, plan[slot := vios], v, u) {
      HostsMore(t, plan, slot, vios, v, u);
    }
  }

  lemma UdidsOnce(t: Topology, tbl: Visible, slot: int, elems: seq<Elem>)
    requires Sane(t, tbl) && NoRepeats(elems) && forall e :: e in elems <==> Has(t, slot, e)
    ensures forall i, j | 0 <= i < j < |elems| :: elems[i].udid != elems[j].udid
  {
    forall i, j | 0 <= i < j < |elems| ensures elems[i].udid != elems[j].udid {
      assert elems[i] in elems && elems[j] in elems;
    }
  }

  lemma PickFails(t: Topology, tbl0: Visible, vioses: seq<string>, plan: Plan, tbl: Visible, slot: int, elems: seq<Elem>,
                  error: Error, sane: bool)
    requires tbl.Keys == tbl0.Keys && (forall e :: e in elems <==> Has(t, slot, e)) && (sane ==> Lists(t, tbl0, plan, tbl))
    requires exists i | 0 <= i < |elems| ::
      || (elems[i].udid !in tbl && error == NoViosForUdid(elems[i].udid))
      || (error == NotEnoughVios(elems[i].udid) && forall v | v in vioses :: !Sees(tbl, v, elems))
    ensures error.NoViosForUdid? || error.NotEnoughVios?
    ensures error.NoViosForUdid? ==> error.udid !in tbl0 && exists s, e :: Has(t, s, e) && e.udid == error.udid
    ensures error.NotEnoughVios? && sane ==> Stuck(t, tbl0, vioses, plan, slot)
  {
    var i :| 0 <= i < |elems| && (
      || (elems[i].udid !in tbl && error == NoViosForUdid(elems[i].udid))
      || (error == NotEnoughVios(elems[i].udid) && forall v | v in vioses :: !Sees(tbl, v, elems)));
    assert elems[i] in elems;
    if error.NotEnoughVios? && sane {
      forall v | v in vioses
        ensures exists e | Has(t, slot, e) :: e.udid !in tbl0 || v !in tbl0[e.udid] || Hosts(t, plan, v, e.udid)
      {
        var j :| 0 <= j < |elems| && !(elems[j].udid in tbl && v in tbl[elems[j].udid]);
        assert elems[j] in elems;
      }
    }
  }

  ghost predicate State(t: Topology, tbl0: Visible, vioses: seq<string>, plan: Plan, tbl: Visible, bm: BuildMap) {
    PlanOk(t, tbl0, vioses, plan) && Lists(t, tbl0, plan, tbl) && Builds(t, plan, bm)
  }

  ghost predicate HasStorage(t: Topology, slot: int) { exists e :: Has(t, slot, e) }

  /** Why a rebuild with this much of a plan failed. */
  ghost predicate Explains(t: Topology, tbl: Visible, vioses: seq<string>, plan: Plan, error: Error) {
    match error
    case InvalidIoType => exists s | s in t :: CountOf(t[s], VOPT) > 0
    case NoViosForUdid(u) => u !in tbl && exists s, e :: Has(t, s, e) && e.udid == u
    case NotEnoughVios(_) => Sane(t, tbl) ==> exists s | s in t && s !in plan && HasStorage(t, s) :: Stuck(t, tbl, vioses, plan, s)
    case ViosListedNoMore(_) => !Sane(t, tbl)
  }

  lemma StateMore(t: Topology, tbl0: Visible, vioses: seq<string>, plan: Plan, tbl: Visible, tbl': Visible, bm0: BuildMap, bm: BuildMap,
                  slot: int, vios: string, elems: seq<Elem>)
    requires State(t, tbl0, vioses, plan, tbl, bm0) && slot in t && slot !in plan && vios in vioses
    requires Sees(tbl, vios, elems) && forall e :: e in elems <==> Has(t, slot, e)
    requires PutAll(bm0, bm, slot, vios, elems) && TakenOff(tbl, tbl', vios, elems)
    ensures State(t, tbl0, vioses, plan[slot := vios], tbl', bm)
  {
    PlanMore(t, tbl0, vioses, plan, tbl, slot, vios, elems);
    BuildsMore(t, tbl0, plan, tbl, bm0, bm, slot, vios, elems);
    ListsMore(t, tbl0, plan, tbl, tbl', slot, vios, elems);
  }

  // ---- When every choice is right ----

  ghost predicate SeesAll(t: Topology, tbl: Visible, v: string, slot: int) {
    forall e | Has(t, slot, e) :: e.udid in tbl && v in tbl[e.udid]
  }

  ghost predicate Shares(t: Topology, r: int, s: int) {
    r != s && exists e, f :: Has(t, r, e) && Has(t, s, f) && e.udid == f.udid
  }

  /** The servers that see all of a slot's storage. */
  ghost function Seers(t: Topology, tbl: Visible, vioses: seq<string>, slot: int): set<string> {
    set v | v in vioses && SeesAll(t, tbl, v, slot)
  }

  /** The other slots that have a UDID in common with it. */
  ghost function Sharers(t: Topology, slot: int): set<int> { set r | r in t && Shares(t, r, slot) }

  /** More servers see all of a slot's storage than other slots share a UDID with it. */
  ghost predicate Roomy(t: Topology, tbl: Visible, vioses: seq<string>) {
    forall s | s in t && HasStorage(t, s) :: |Seers(t, tbl, vioses, s)| > |Sharers(t, s)|
  }

  ghost predicate Unshared(t: Topology) { forall r, s | r in t && s in t :: !Shares(t, r, s) }

  ghost predicate Optical(t: Topology) { exists s | s in t :: CountOf(t[s], VOPT) > 0 }

  ghost function Images(plan: Plan, slots: set<int>): set<string>
    requires slots <= plan.Keys
  {
    set s | s in slots :: plan[s]
  }

  lemma {:induction false} ImagesSize(plan: Plan, slots: set<int>)
    requires slots <= plan.Keys
    ensures |Images(plan, slots)| <= |slots|
    decreases |slots|
  {
    if s :| s in slots {
      ImagesSize(plan, slots - {s});
      assert Images(plan, slots) == Images(plan, slots - {s}) + {plan[s]};
    } else {
      assert forall c :: c !in slots;
      NoMember(slots);
    }
  }

  /** A server that sees all of the slot's storage but is not a candidate any more hosts
      a slot that shares a UDID with it. */
  lemma TakenBySharer(t: Topology, plan: Plan, slot: int, v: string, e: Elem) returns (r: int)
    requires Hosts(t, plan, v, e.udid) && Has(t, slot, e) && slot !in plan
    ensures r in plan && plan[r] == v && Shares(t, r, slot)
  {
    var s, f :| s in plan && plan[s] == v && Has(t, s, f) && f.udid == e.udid;
    r := s;
  }

  lemma StuckIsCrowded(t: Topology, tbl: Visible, vioses: seq<string>, plan: Plan, slot: int)
    requires PlanOk(t, tbl, vioses, plan) && slot !in plan && Stuck(t, tbl, vioses, plan, slot)
    ensures |Seers(t, tbl, vioses, slot)| <= |Sharers(t, slot)|
  {
    var seers, sharers := Seers(t, tbl, vioses, slot), Sharers(t, slot) * plan.Keys;
    forall v | v in seers ensures v in Images(plan, sharers) {
      var e :| Has(t, slot, e) && (e.udid !in tbl || v !in tbl[e.udid] || Hosts(t, plan, v, e.udid));
      var r := TakenBySharer(t, plan, slot, v, e);
      assert r in sharers;
    }
    ImagesSize(plan, sharers);
    SubsetSize(seers, Images(plan, sharers));
    SubsetSize(sharers, Sharers(t, slot));
  }

  lemma UnlistedIsUnseen(t: Topology, tbl: Visible, vioses: seq<string>, slot: int, e: Elem)
    requires Has(t, slot, e) && e.udid !in tbl
    ensures |Seers(t, tbl, vioses, slot)| == 0
  {
    assert Seers(t, tbl, vioses, slot) == {};
  }

  /** With room for every slot, no plan that was made so far is in the way of the next
      slot, whichever candidates were taken. */
  lemma RoomyNeverFails(t: Topology, tbl: Visible, vioses: seq<string>, plan: Plan, error: Error)
    requires Sane(t, tbl) && Roomy(t, tbl, vioses) && !Optical(t) && PlanOk(t, tbl, vioses, plan)
    ensures !Explains(t, tbl, vioses, plan, error)
  {
    match error
    case InvalidIoType =>
    case NoViosForUdid(u) =>
      forall s, e | Has(t, s, e) && e.udid == u ensures u in tbl {
        assert s in t && HasStorage(t, s);
        if u !in tbl { UnlistedIsUnseen(t, tbl, vioses, s, e); }
      }
    case NotEnoughVios(_) =>
      forall s | s in t && s !in plan && HasStorage(t, s) ensures !Stuck(t, tbl, vioses, plan, s) {
        if Stuck(t, tbl, vioses, plan, s) { StuckIsCrowded(t, tbl, vioses, plan, s); }
      }
    case ViosListedNoMore(_) =>
  }

  ghost predicate EverySlotSeen(t: Topology, tbl: Visible, vioses: seq<string>) {
    forall s | s in t && HasStorage(t, s) :: exists v | v in vioses :: SeesAll(t, tbl, v, s)
  }

  /** If no two slots share a UDID, what was taken for other slots does not matter. */
  lemma UnsharedStuckIff(t: Topology, tbl: Visible, vioses: seq<string>, plan: Plan, slot: int)
    requires Unshared(t) && PlanOk(t, tbl, vioses, plan) && slot in t && slot !in plan
    ensures Stuck(t, tbl, vioses, plan, slot) <==> forall v | v in vioses :: !SeesAll(t, tbl, v, slot)
  {
    forall v, e | Has(t, slot, e) ensures !Hosts(t, plan, v, e.udid) {
      if Hosts(t, plan, v, e.udid) { var r := TakenBySharer(t, plan, slot, v, e); }
    }
  }

  lemma SeenIsRoomy(t: Topology, tbl: Visible, vioses: seq<string>)
    requires Unshared(t)
    ensures EverySlotSeen(t, tbl, vioses) ==> Roomy(t, tbl, vioses)
  {
    forall s | s in t && HasStorage(t, s) && exists v | v in vioses :: SeesAll(t, tbl, v, s)
      ensures |Seers(t, tbl, vioses, s)| > |Sharers(t, s)|
    {
      assert Sharers(t, s) == {};
      var v :| v in vioses && SeesAll(t, tbl, v, s);
      assert v in Seers(t, tbl, vioses, s);
      assert Seers(t, tbl, vioses, s) == {v} + (Seers(t, tbl, vioses, s) - {v});
    }
  }

  lemma PlanSees(t: Topology, tbl: Visible, vioses: seq<string>, plan: Plan)
    requires PlanOk(t, tbl, vioses, plan) && forall s, e | Has(t, s, e) :: s in plan
    ensures EverySlotSeen(t, tbl, vioses)
  {
    forall s | s in t && HasStorage(t, s) ensures exists v | v in vioses :: SeesAll(t, tbl, v, s) {
      assert s in plan && plan[s] in vioses && SeesAll(t, tbl, plan[s], s);
    }
  }

  lemma OutcomeDecided(t: Topology, tbl: Visible, vioses: seq<string>, plan: Plan, res: Result<(), Error>)
    requires Sane(t, tbl) && PlanOk(t, tbl, vioses, plan) && !Optical(t)
    requires res.Ok? ==> forall s, e | Has(t, s, e) :: s in plan
    requires res.Err? ==> Explains(t, tbl, vioses, plan, res.error)
    ensures res.Ok? ==> EverySlotSeen(t, tbl, vioses)
    ensures Roomy(t, tbl, vioses) ==> res.Ok?
    ensures Unshared(t) && EverySlotSeen(t, tbl, vioses) ==> res.Ok?
  {
    if res.Ok? {
      PlanSees(t, tbl, vioses, plan);
    } else {
      if Unshared(t) { SeenIsRoomy(t, tbl, vioses); }
      if Roomy(t, tbl, vioses) { RoomyNeverFails(t, tbl, vioses, plan, res.error); }
    }
  }

  // ---- When a wrong choice cannot be made ----

  ghost predicate Complete(t: Topology, tbl: Visible, vioses: seq<string>, plan: Plan) {
    PlanOk(t, tbl, vioses, plan) && forall s | s in t && HasStorage(t, s) :: s in plan
  }

  /** There is a server for every slot. */
  ghost predicate CanBuild(t: Topology, tbl: Visible, vioses: seq<string>) { exists plan :: Complete(t, tbl, vioses, plan) }

  ghost function TableOf(t: Topology, tbl: Visible, vioses: seq<string>): SlotColours.Table {
    SlotColours.Table(
      map s | s in t && HasStorage(t, s) :: Seers(t, tbl, vioses, s),
      set r, s | r in t.Keys && s in t.Keys && Shares(t, r, s) :: (r, s))
  }

  ghost function Stored(t: Topology, plan: Plan): Plan { map s | s in plan && HasStorage(t, s) :: plan[s] }

  lemma TableShares(t: Topology, tbl: Visible, vioses: seq<string>, r: int, s: int)
    ensures TableOf(t, tbl, vioses).Shares(r, s) <==> Shares(t, r, s)
  {
    if Shares(t, r, s) {
      var e, f :| Has(t, r, e) && Has(t, s, f) && e.udid == f.udid;
      assert r in t.Keys && s in t.Keys;
    }
    if Shares(t, s, r) {
      var e, f :| Has(t, s, e) && Has(t, r, f) && e.udid == f.udid;
      assert Shares(t, r, s);
    }
  }

  lemma PlanFits(t: Topology, tbl: Visible, vioses: seq<string>, plan: Plan)
    requires PlanOk(t, tbl, vioses, plan)
    ensures SlotColours.Fits(TableOf(t, tbl, vioses), Stored(t, plan))
  {
    var table, p := TableOf(t, tbl, vioses), Stored(t, plan);
    forall r, s | r in p && s in p && table.Shares(r, s) ensures p[r] != p[s] { TableShares(t, tbl, vioses, r, s); }
  }

  lemma CompleteIsWhole(t: Topology, tbl: Visible, vioses: seq<string>, plan: Plan)
    requires Complete(t, tbl, vioses, plan)
    ensures SlotColours.Whole(TableOf(t, tbl, vioses), Stored(t, plan))
  {
    PlanFits(t, tbl, vioses, plan);
    assert forall s :: s in Stored(t, plan) <==> s in TableOf(t, tbl, vioses).seers;
  }

  lemma StuckInTable(t: Topology, tbl: Visible, vioses: seq<string>, plan: Plan, slot: int)
    requires PlanOk(t, tbl, vioses, plan) && slot in t && slot !in plan && HasStorage(t, slot) && Stuck(t, tbl, vioses, plan, slot)
    ensures SlotColours.Stuck(TableOf(t, tbl, vioses), Stored(t, plan), slot)
  {
    var table, p := TableOf(t, tbl, vioses), Stored(t, plan);
    PlanFits(t, tbl, vioses, plan);
    assert table.seers[slot] == Seers(t, tbl, vioses, slot) && slot !in p;
    forall v | v in Seers(t, tbl, vioses, slot) ensures exists r :: SlotColours.TakenBy(table, p, slot, v, r) {
      var r := Taker(t, tbl, vioses, plan, slot, v);
      TableShares(t, tbl, vioses, r, slot);
      assert SlotColours.TakenBy(table, p, slot, v, r);
    }
  }

  lemma Taker(t: Topology, tbl: Visible, vioses: seq<string>, plan: Plan, slot: int, v: string) returns (r: int)
    requires slot !in plan && Stuck(t, tbl, vioses, plan, slot) && v in Seers(t, tbl, vioses, slot)
    ensures r in plan && plan[r] == v && Shares(t, r, slot) && HasStorage(t, r)
  {
    var e :| Has(t, slot, e) && (e.udid !in tbl || v !in tbl[e.udid] || Hosts(t, plan, v, e.udid));
    r := TakenBySharer(t, plan, slot, v, e);
  }

  /** In a calm topology one gets stuck only where there is no server for every slot,
      whichever candidates were taken. */
  lemma CalmStuckRightly(t: Topology, tbl: Visible, vioses: seq<string>, plan: Plan, slot: int)
    requires SlotColours.Calm(TableOf(t, tbl, vioses)) && PlanOk(t, tbl, vioses, plan)
    requires slot in t && slot !in plan && HasStorage(t, slot) && Stuck(t, tbl, vioses, plan, slot)
    ensures !CanBuild(t, tbl, vioses)
  {
    StuckInTable(t, tbl, vioses, plan, slot);
    forall whole ensures !Complete(t, tbl, vioses, whole) {
      SlotColours.CalmHasNoWhole(TableOf(t, tbl, vioses), Stored(t, plan), slot, Stored(t, whole));
      if Complete(t, tbl, vioses, whole) { CompleteIsWhole(t, tbl, vioses, whole); }
    }
  }

  lemma CalmFailsRightly(t: Topology, tbl: Visible, vioses: seq<string>, plan: Plan, error: Error)
    requires Sane(t, tbl) && !Optical(t) && SlotColours.Calm(TableOf(t, tbl, vioses)) && PlanOk(t, tbl, vioses, plan)
    requires Explains(t, tbl, vioses, plan, error)
    ensures !CanBuild(t, tbl, vioses)
  {
    if error.NotEnoughVios? {
      var s :| s in t && s !in plan && HasStorage(t, s) && Stuck(t, tbl, vioses, plan, s);
      CalmStuckRightly(t, tbl, vioses, plan, s);
    } else {
      forall whole ensures !Complete(t, tbl, vioses, whole) {
        if Complete(t, tbl, vioses, whole) { UnlistedIsNeeded(t, tbl, vioses, whole, error); }
      }
    }
  }

  lemma UnlistedIsNeeded(t: Topology, tbl: Visible, vioses: seq<string>, whole: Plan, error: Error)
    requires Complete(t, tbl, vioses, whole)
    ensures error.NoViosForUdid? ==> error.udid in tbl || forall s, e | Has(t, s, e) :: e.udid != error.udid
  {
    forall s, e | Has(t, s, e) ensures e.udid in tbl {
      assert s in t && HasStorage(t, s);
    }
  }

  class RebuildSlotMap {
    var buildMap: BuildMap

    constructor ()
      ensures buildMap == map[]
    {
      buildMap := map[];
    }

    /** One slot of `_vscsi_build_out`; `tbl` is what is left of the visibility table. */
    method BuildSlot(t: Topology, slot: int, vioses: seq<string>, ghost tbl0: Visible, tbl: Visible, ghost plan: Plan, ghost sane: bool)
      returns (res: Result<(), Error>, left: Visible, ghost plan': Plan)
      requires slot in t && slot !in plan && tbl.Keys == tbl0.Keys && sane == Sane(t, tbl0)
      requires sane ==> State(t, tbl0, vioses, plan, tbl, buildMap)
      modifies this
      ensures res.Ok? ==> left.Keys == tbl0.Keys && (sane ==> State(t, tbl0, vioses, plan', left, buildMap))
      ensures forall s | s in plan' && s !in plan :: s == slot
      ensures forall s | s in plan :: s in plan'
      ensures res.Ok? ==> forall e | Has(t, slot, e) :: slot in plan'
      ensures res.Err? ==> plan' == plan && Explains(t, tbl0, vioses, plan, res.error)
    {
      left, plan' := tbl, plan;
      var elems := SlotInfo(t, slot);
      if elems == [] {
        forall e ensures !Has(t, slot, e) { assert e !in elems; }
        return Ok(()), left, plan';
      }
      var picked := PickVios(elems, vioses, tbl);
      if picked.Err? {
        assert elems[0] in elems && HasStorage(t, slot);
        PickFails(t, tbl0, vioses, plan, tbl, slot, elems, picked.error, sane);
        return Err(picked.error), left, plan';
      }
      var vios := picked.value;
      ghost var bm0 := buildMap;
      forall e | e in elems ensures e.udid in tbl { var k :| 0 <= k < |elems| && elems[k] == e; }
      if sane { UdidsOnce(t, tbl0, slot, elems); }
      var bm: BuildMap;
      res, bm, left := PutSlotElems(buildMap, tbl, slot, vios, elems);
      buildMap := bm;
      if res.Ok? {
        if sane { StateMore(t, tbl0, vioses, plan, tbl, left, bm0, bm, slot, vios, elems); }
        plan' := plan[slot := vios];
      }
    }

    /** The slots in order, from a build map without entries. */
    method BuildSlots(t: Topology, order: seq<int>, vioses: seq<string>, volToVio: Visible)
      returns (res: Result<(), Error>, ghost plan: Plan)
      requires buildMap == map[] && NoRepeats(order) && forall s :: s in order <==> s in t
      modifies this
      ensures Sane(t, volToVio) ==> PlanOk(t, volToVio, vioses, plan)
      ensures Sane(t, volToVio) && res.Ok? ==> Builds(t, plan, buildMap)
      ensures res.Ok? ==> forall s, e | Has(t, s, e) :: s in plan
      ensures res.Err? ==> Explains(t, volToVio, vioses, plan, res.error)
    {
      plan := map[];
      var tbl := volToVio;
      ghost var sane := Sane(t, volToVio);
      for i := 0 to |order|
        invariant tbl.Keys == volToVio.Keys
        invariant forall s | s in plan :: exists j | 0 <= j < i :: order[j] == s
        invariant forall j, e | 0 <= j < i && Has(t, order[j], e) :: order[j] in plan
        invariant sane ==> State(t, volToVio, vioses, plan, tbl, buildMap)
      {
        assert order[i] in order;
        res, tbl, plan := BuildSlot(t, order[i], vioses, volToVio, tbl, plan, sane);
        if res.Err? {
          return;
        }
      }
      forall s, e | Has(t, s, e) ensures s in plan {
        assert s in order;
        var j :| 0 <= j < |order| && order[j] == s;
      }
      return Ok(()), plan;
    }

    /** `_vscsi_build_out`.  `plan` tells the servers, also of a call that fails.  With
        room for every slot, and always if no UDID is shared, the outcome does not
        depend on which candidates are taken. */
    method VscsiBuildOut(t: Topology, vioses: seq<string>, volToVio: Visible) returns (res: Result<(), Error>, ghost plan: Plan)
      requires buildMap == map[]
      modifies this
      ensures Sane(t, volToVio) ==> PlanOk(t, volToVio, vioses, plan)
      ensures Sane(t, volToVio) && res.Ok? ==> Builds(t, plan, buildMap) && forall s, e | Has(t, s, e) :: s in plan
      ensures res.Err? ==> Explains(t, volToVio, vioses, plan, res.error)
      ensures res.Ok? ==> !Optical(t)
      ensures Sane(t, volToVio) && res.Ok? ==> EverySlotSeen(t, volToVio, vioses)
      ensures Sane(t, volToVio) && Roomy(t, volToVio, vioses) ==> (res.Ok? <==> !Optical(t))
      ensures Sane(t, volToVio) && Unshared(t) ==> (res.Ok? <==> !Optical(t) && EverySlotSeen(t, volToVio, vioses))
      ensures Sane(t, volToVio) && SlotColours.Calm(TableOf(t, volToVio, vioses)) ==>
        (res.Ok? <==> !Optical(t) && CanBuild(t, volToVio, vioses))
    {
      plan := map[];
      var ordered := VscsiBuildSlotOrder(t);
      if ordered.Err? {
        assert Optical(t);
        return Err(ordered.error), plan;
      }
      assert !Optical(t);
      res, plan := BuildSlots(t, ordered.value, vioses, volToVio);
      if Sane(t, volToVio) {
        OutcomeDecided(t, volToVio, vioses, plan, res);
        if res.Ok? {
          assert Complete(t, volToVio, vioses, plan);
        } else if SlotColours.Calm(TableOf(t, volToVio, vioses)) {
          CalmFailsRightly(t, volToVio, vioses, plan, res.error);
        }
      }
    }
  }

  /** What `get_vscsi_slot` answers after a rebuild: the saved slot and address of the
      element, on the server that hosts the slot and on no other. */
  lemma SlotsComeBack(t: Topology, tbl: Visible, vioses: seq<string>, plan: Plan, bm: BuildMap, vios: string, udid: string,
                      r: Option<(int, string)>)
    requires PlanOk(t, tbl, vioses, plan) && Builds(t, plan, bm)
    requires r.Some? ==> exists c :: BuildGet(bm, c, vios, udid) == r
    requires r.None? ==> forall c :: BuildGet(bm, c, vios, udid) == None
    ensures forall s, e | s in plan && plan[s] == vios && Has(t, s, e) && e.udid == udid :: r.Some? && r.value.0 == s
    ensures r.Some? ==> r.value.0 in plan && plan[r.value.0] == vios && exists c :: Has(t, r.value.0, Elem(c, udid, r.value.1))
  {
    if r.Some? {
      var c :| BuildGet(bm, c, vios, udid) == r;
      assert Has(t, r.value.0, Elem(c, udid, r.value.1));
    }
    forall s, e | s in plan && plan[s] == vios && Has(t, s, e) && e.udid == udid ensures r.Some? && r.value.0 == s {
      assert BuildGet(bm, e.cls, vios, udid) == Some((s, e.lua)) by { assert e == Elem(e.cls, udid, e.lua); }
    }
  }

  // ---- Taking any candidate is not always right ----

  const TANGLE: Topology := map[1 := map[PV := map["a" := "", "b" := ""]], 2 := map[PV := map["a" := "", "c" := ""]]]
  const SEEN: Visible := map["a" := ["v", "w"], "b" := ["v", "w"], "c" := ["v"]]

  lemma TangleHas(s: int, e: Elem)
    ensures Has(TANGLE, s, e) <==>
      e.cls == PV && e.lua == "" && ((s == 1 && e.udid in {"a", "b"}) || (s == 2 && e.udid in {"a", "c"}))
  {
  }

  lemma TangleWeighs()
    ensures Weight(TANGLE[1]) == 2 && Weight(TANGLE[2]) == 2
  {
    assert TANGLE[1][PV].Keys == {"a", "b"} && TANGLE[2][PV].Keys == {"a", "c"};
  }

  lemma TanglePlanOk(plan: Plan)
    requires plan == map[1 := "v"] || plan == map[1 := "w", 2 := "v"]
    ensures PlanOk(TANGLE, SEEN, ["v", "w"], plan)
  {
    forall s, e | s in plan && Has(TANGLE, s, e) ensures e.udid in SEEN && plan[s] in SEEN[e.udid] { TangleHas(s, e); }
  }

  lemma TangleSane()
    ensures Sane(TANGLE, SEEN)
  {
    forall s, e, f | Has(TANGLE, s, e) && Has(TANGLE, s, f) && e.udid == f.udid ensures e == f {
      TangleHas(s, e);
      TangleHas(s, f);
    }
  }

  lemma TangleStuck(plan: Plan)
    requires plan == map[1 := "v"]
    ensures Stuck(TANGLE, SEEN, ["v", "w"], plan, 2)
  {
    var a, c := Elem(PV, "a", ""), Elem(PV, "c", "");
    TangleHas(1, a);
    TangleHas(2, a);
    TangleHas(2, c);
    forall v | v in ["v", "w"]
      ensures exists e | Has(TANGLE, 2, e) :: e.udid !in SEEN || v !in SEEN[e.udid] || Hosts(TANGLE, plan, v, e.udid)
    {
      if v == "v" {
        assert 1 in plan && plan[1] == "v" && Has(TANGLE, 1, a) && a.udid == "a";
        assert Has(TANGLE, 2, a);
      } else {
        assert v == "w" && v !in SEEN[c.udid];
        assert Has(TANGLE, 2, c);
      }
    }
  }

  /** Which server is taken does matter: with server v for slot 1 there is none left for
      slot 2, while with server w there is. */
  lemma TakingOneCanFail()
    ensures Weight(TANGLE[1]) == Weight(TANGLE[2]) && Sane(TANGLE, SEEN)
    ensures PlanOk(TANGLE, SEEN, ["v", "w"], map[1 := "v"]) && Stuck(TANGLE, SEEN, ["v", "w"], map[1 := "v"], 2)
    ensures PlanOk(TANGLE, SEEN, ["v", "w"], map[1 := "w", 2 := "v"])
  {
    TangleWeighs();
    TangleSane();
    TangleStuck(map[1 := "v"]);
    TanglePlanOk(map[1 := "v"]);
    TanglePlanOk(map[1 := "w", 2 := "v"]);
  }
}
