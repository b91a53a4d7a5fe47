/** The saved slot topology of a partition: which I/O element sits in which client
    slot, as nested dictionaries. */
module SlotStore {
  import opened Options

  datatype IoClass = VFC | LU | VDISK | VOPT | PV | CNA | MGMT_CNA | VNIC

  type Io = map<IoClass, map<string, string>>
  type Topology = map<int, Io>

  // ---- The flat view ----

  /** The extra specification of an element in a slot. */
  function Get(t: Topology, slot: int, cls: IoClass, key: string): Option<string> {
    if slot in t && cls in t[slot] && key in t[slot][cls] then Some(t[slot][cls][key]) else None
  }

  /** No dictionary but the outermost is empty. */
  ghost predicate Canonical(t: Topology) {
    forall s | s in t :: |t[s]| > 0 && forall c | c in t[s] :: |t[s][c]| > 0
  }

  ghost predicate SameEntries(t: Topology, u: Topology) {
    forall s, c, k :: Get(t, s, c, k) == Get(u, s, c, k)
  }

  lemma SomeKey<K, V>(m: map<K, V>) returns (k: K)
    requires |m| > 0
    ensures k in m
  {
    assert m.Keys != {};
    k :| k in m.Keys;
  }

  lemma KeysWithin(t: Topology, u: Topology)
    requires Canonical(t) && SameEntries(t, u)
    ensures forall s | s in t :: s in u
    ensures forall s, c | s in t && c in t[s] :: c in u[s]
    ensures forall s, c, k | s in t && c in t[s] && k in t[s][c] :: k in u[s][c] && u[s][c][k] == t[s][c][k]
  {
    forall s, c, k | s in t && c in t[s] && k in t[s][c]
      ensures s in u && c in u[s] && k in u[s][c] && u[s][c][k] == t[s][c][k]
    {
      assert Get(t, s, c, k) == Get(u, s, c, k);
    }
    forall s, c | s in t && c in t[s] ensures s in u && c in u[s] { var k := SomeKey(t[s][c]); }
    forall s | s in t ensures s in u { var c := SomeKey(t[s]); }
  }

  /** Canonical topologies with the same entries are the same: that `save` compares
      the dictionaries is as good as comparing what they say. */
  lemma CanonicalIsUnique(t: Topology, u: Topology)
    requires Canonical(t) && Canonical(u) && SameEntries(t, u)
    ensures t == u
  {
    KeysWithin(t, u);
    KeysWithin(u, t);
    forall s, c | s in t && c in t[s] ensures t[s][c] == u[s][c] {
      forall k ensures k in t[s][c] <==> k in u[s][c] {}
    }
    forall s | s in t ensures t[s] == u[s] {
      forall c ensures c in t[s] <==> c in u[s] {}
    }
    forall s ensures s in t <==> s in u {}
  }

  // ---- `_reg_slot` and `_drop_slot` ----

  function Registered(t: Topology, cls: IoClass, key: string, slot: int, spec: string): Topology {
    var io := if slot in t then t[slot] else map[];
    var elems := if cls in io then io[cls] else map[];
    t[slot := io[cls := elems[key := spec]]]
  }

  function PutClass(io: Io, cls: IoClass, elems: map<string, string>): Io {
    if |elems| == 0 then io - {cls} else io[cls := elems]
  }

  function PutSlot(t: Topology, slot: int, io: Io): Topology {
    if |io| == 0 then t - {slot} else t[slot := io]
  }

  function Dropped(t: Topology, cls: IoClass, key: string, slot: int): Topology {
    if Get(t, slot, cls, key).None? then t
    else PutSlot(t, slot, PutClass(t[slot], cls, t[slot][cls] - {key}))
  }

  lemma RegisteredGets(t: Topology, cls: IoClass, key: string, slot: int, spec: string, s: int, c: IoClass, k: string)
    ensures Get(Registered(t, cls, key, slot, spec), s, c, k) ==
      if s == slot && c == cls && k == key then Some(spec) else Get(t, s, c, k)
  {
  }

  lemma EmptyIsEmpty<K, V>(m: map<K, V>)
    requires |m| == 0
    ensures m == map[]
  {
    assert m.Keys == {};
  }

  function GetIo(io: Io, c: IoClass, k: string): Option<string> { if c in io && k in io[c] then Some(io[c][k]) else None }

  lemma PutClassGets(io: Io, cls: IoClass, elems: map<string, string>, c: IoClass, k: string)
    ensures GetIo(PutClass(io, cls, elems), c, k) ==
      if c == cls then (if k in elems then Some(elems[k]) else None) else GetIo(io, c, k)
  {
    if |elems| == 0 { EmptyIsEmpty(elems); }
  }

  lemma PutSlotGets(t: Topology, slot: int, io: Io, s: int, c: IoClass, k: string)
    ensures Get(PutSlot(t, slot, io), s, c, k) == if s == slot then GetIo(io, c, k) else Get(t, s, c, k)
  {
    if |io| == 0 { EmptyIsEmpty(io); }
  }

  /** Dropping takes that element off that slot and nothing else, even where it prunes. */
  lemma DroppedGets(t: Topology, cls: IoClass, key: string, slot: int, s: int, c: IoClass, k: string)
    ensures Get(Dropped(t, cls, key, slot), s, c, k) ==
      if s == slot && c == cls && k == key then None else Get(t, s, c, k)
  {
    if Get(t, slot, cls, key).Some? {
      var elems := t[slot][cls] - {key};
      PutClassGets(t[slot], cls, elems, c, k);
      PutSlotGets(t, slot, PutClass(t[slot], cls, elems), s, c, k);
    }
  }

  lemma NonEmpty<K, V>(m: map<K, V>, k: K)
    requires k in m
    ensures |m| > 0
  {
    assert k in m.Keys;
  }

  lemma RegisteredCanonical(t: Topology, cls: IoClass, key: string, slot: int, spec: string)
    requires Canonical(t)
    ensures Canonical(Registered(t, cls, key, slot, spec))
  {
    var r := Registered(t, cls, key, slot, spec);
    NonEmpty(r[slot], cls);
    NonEmpty(r[slot][cls], key);
  }

  lemma DroppedCanonical(t: Topology, cls: IoClass, key: string, slot: int)
    requires Canonical(t)
    ensures Canonical(Dropped(t, cls, key, slot))
  {
  }

  /** Registering an element that was not there and dropping it again restores the
      topology exactly, so that nothing is written for it. */
  lemma DropUndoesRegister(t: Topology, cls: IoClass, key: string, slot: int, spec: string)
    requires Canonical(t) && Get(t, slot, cls, key).None?
    ensures Dropped(Registered(t, cls, key, slot, spec), cls, key, slot) == t
  {
    var r := Registered(t, cls, key, slot, spec);
    var d := Dropped(r, cls, key, slot);
    RegisteredCanonical(t, cls, key, slot, spec);
    DroppedCanonical(r, cls, key, slot);
    forall s, c, k ensures Get(d, s, c, k) == Get(t, s, c, k) {
      DroppedGets(r, cls, key, slot, s, c, k);
      RegisteredGets(t, cls, key, slot, spec, s, c, k);
    }
    CanonicalIsUnique(d, t);
  }

  lemma SetTwice<K, V>(m: map<K, V>, k: K, a: V, b: V)
    ensures m[k := a][k := b] == m[k := b]
  {
  }

  lemma SetThenUnset<K, V>(m: map<K, V>, k: K, a: V)
    ensures m[k := a] - {k} == m - {k}
  {
  }

  /** Backing storage: what was last written under the instance's key, and how often. */
  class Backend {
    var blob: Option<Topology>
    var writes: nat

    constructor (blob: Option<Topology>)
      ensures this.blob == blob && writes == 0
    {
      this.blob, writes := blob, 0;
    }
  }

  class SlotMapStore {
    const backend: Backend
    var slotTopo: Topology
    /** The entry `_max_vslots` of the same dictionary. */
    var maxVslots: Option<int>
    var loadedTopo: Topology
    var loadedMax: Option<int>

    ghost predicate Valid()
      reads this
    {
      Canonical(slotTopo) && Canonical(loadedTopo)
    }

    constructor (backend: Backend, load: bool)
      requires backend.blob.Some? ==> Canonical(backend.blob.value)
      ensures Valid() && this.backend == backend && maxVslots == None
      ensures slotTopo == if load && backend.blob.Some? then backend.blob.value else map[]
      ensures loadedTopo == slotTopo && loadedMax == None
    {
      this.backend := backend;
      var topo: Topology := if load && backend.blob.Some? then backend.blob.value else map[];
      slotTopo, loadedTopo := topo, topo;
      maxVslots, loadedMax := None, None;
    }

    method RegisterMaxVslots(n: int)
      requires Valid()
      modifies this`maxVslots
      ensures Valid() && maxVslots == Some(n)
    {
      maxVslots := Some(n);
    }

    method RegSlot(cls: IoClass, key: string, slot: int, spec: string)
      requires Valid()
      modifies this`slotTopo
      ensures Valid() && slotTopo == Registered(old(slotTopo), cls, key, slot, spec)
    {
      RegisteredCanonical(slotTopo, cls, key, slot, spec);
      ghost var topo := slotTopo;
      if slot !in slotTopo {
        slotTopo := slotTopo[slot := map[]];
      }
      ghost var io := slotTopo[slot];
      if cls !in slotTopo[slot] {
        SetTwice(topo, slot, map[], io[cls := map[]]);
        slotTopo := slotTopo[slot := slotTopo[slot][cls := map[]]];
      }
      var elems := slotTopo[slot][cls][key := spec];
      SetTwice(io, cls, map[], elems);
      SetTwice(topo, slot, slotTopo[slot], io[cls := elems]);
      slotTopo := slotTopo[slot := slotTopo[slot][cls := elems]];
    }

    method DropSlot(cls: IoClass, key: string, slot: int)
      requires Valid()
      modifies this`slotTopo
      ensures Valid() && slotTopo == Dropped(old(slotTopo), cls, key, slot)
    {
      DroppedCanonical(slotTopo, cls, key, slot);
      if slot !in slotTopo || cls !in slotTopo[slot] {
        return;
      }
      if key in slotTopo[slot][cls] {
        ghost var topo, elems := slotTopo, slotTopo[slot][cls] - {key};
        slotTopo := slotTopo[slot := slotTopo[slot][cls := slotTopo[slot][cls] - {key}]];
        if |slotTopo[slot][cls]| == 0 {
          SetThenUnset(topo[slot], cls, elems);
          SetTwice(topo, slot, topo[slot][cls := elems], topo[slot] - {cls});
          slotTopo := slotTopo[slot := slotTopo[slot] - {cls}];
        }
        ghost var io := PutClass(topo[slot], cls, elems);
        assert slotTopo == topo[slot := io];
        if |slotTopo[slot]| == 0 {
          SetThenUnset(topo, slot, io);
          slotTopo := slotTopo - {slot};
        }
      }
    }

    /** `save`: writes exactly if an entry or `_max_vslots` differs from what was loaded
        or saved last.  What it writes lacks `_max_vslots`. */
    method Save()
      requires Valid()
      modifies this`loadedTopo, this`loadedMax, backend
      ensures Valid() && loadedTopo == slotTopo && loadedMax == maxVslots
      ensures var same := SameEntries(slotTopo, old(loadedTopo)) && maxVslots == old(loadedMax);
        && backend.writes == old(backend.writes) + (if same then 0 else 1)
        && backend.blob == if same then old(backend.blob) else Some(slotTopo)
    {
      if SameEntries(slotTopo, loadedTopo) { CanonicalIsUnique(slotTopo, loadedTopo); }
      if slotTopo != loadedTopo || maxVslots != loadedMax {
        backend.blob, backend.writes := Some(slotTopo), backend.writes + 1;
        loadedTopo, loadedMax := slotTopo, maxVslots;
      }
    }
  }

  function Content(blob: Option<Topology>): Topology { if blob.Some? then blob.value else map[] }

  /** A store saved and loaded again has the same topology exactly if it had changed
      since it was loaded or the back-end holds it already, and the same number of
      slots exactly if none was registered. */
  method SaveAndLoad(store: SlotMapStore) returns (again: SlotMapStore)
    requires store.Valid() && Canonical(Content(store.backend.blob))
    modifies store`loadedTopo, store`loadedMax, store.backend
    ensures again.slotTopo == store.slotTopo <==>
      store.slotTopo != old(store.loadedTopo) || store.maxVslots != old(store.loadedMax)
      || Content(old(store.backend.blob)) == store.slotTopo
    ensures again.maxVslots == store.maxVslots <==> store.maxVslots.None?
  {
    if SameEntries(store.slotTopo, store.loadedTopo) { CanonicalIsUnique(store.slotTopo, store.loadedTopo); }
    store.Save();
    again := new SlotMapStore(store.backend, true);
  }
}
