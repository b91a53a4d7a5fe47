/** VLAN placement on network bridges, as values: what `ensure_vlans_on_nb` and
    `remove_vlan_from_nb` of the trunk-adapter bridger do to the bridges of a
    server.  NetworkBridger.dfy holds the loops that compute this.

    A call works on a feed of bridge wrappers fetched from the server.  Posting a
    wrapper is conditional on its etag (RFC 9110, section 13.1.1), and posting
    does not renew the etag of the wrapper in hand, so that within one feed a
    wrapper can be posted once. */
module VlanBridges {
  import opened Options

  const MAX_VEAS_PER_SEA := 15
  const MAX_VLANS_PER_VEA := 20
  const TOP_VID := 4094

  datatype Trunk = Trunk(pvid: int, tags: seq<int>)

  datatype Sea = Sea(primary: Trunk, addl: seq<Trunk>)

  /** `second` is the SEA on the failover VIOS, if there is one. */
  datatype Bridge = Bridge(uuid: nat, vswitch: int, loadBalance: bool, first: Sea, second: Option<Sea>) {
    function Addl(): seq<Trunk> { first.addl }

    function WithAddl(a: seq<Trunk>): Bridge {
      this.(first := first.(addl := a), second := if second.Some? then Some(second.value.(addl := a)) else None)
    }

    /** The second SEA mirrors the first. */
    predicate Mirrored() { second.None? || second.value == first }
  }

  predicate Tagged(addl: seq<Trunk>, v: int) { exists i | 0 <= i < |addl| :: v in addl[i].tags }

  predicate HasPvid(addl: seq<Trunk>, p: int) { exists i | 0 <= i < |addl| :: addl[i].pvid == p }

  /** How often VLAN v is tagged on the additional trunks of one SEA. */
  function Copies(addl: seq<Trunk>, v: int): nat {
    if addl == [] then 0 else multiset(addl[0].tags)[v] + Copies(addl[1..], v)
  }

  predicate DistinctPvids(addl: seq<Trunk>) {
    forall i, j | 0 <= i < j < |addl| :: addl[i].pvid != addl[j].pvid
  }

  /** `NetBridge.supports_vlan`: the primary PVID, or tagged on any trunk. */
  predicate Supports(b: Bridge, v: int) {
    v == b.first.primary.pvid || v in b.first.primary.tags || Tagged(b.Addl(), v)
  }

  function TrunkVids(addl: seq<Trunk>): seq<int> {
    if addl == [] then [] else [addl[0].pvid] + addl[0].tags + TrunkVids(addl[1..])
  }

  /** `NetBridge.list_vlans(pvid=True, arbitrary=True)`. */
  function ListVlans(b: Bridge): seq<int> {
    [b.first.primary.pvid] + b.first.primary.tags + TrunkVids(b.Addl())
  }

  /** What holds of every bridge by itself: the SEAs mirror each other, and the
      throw-away PVIDs are distinct and no VLANs of this bridge. */
  predicate Local(b: Bridge) {
    && b.Mirrored()
    && DistinctPvids(b.Addl())
    && forall i | 0 <= i < |b.Addl()| :: !Supports(b, b.Addl()[i].pvid)
  }

  predicate AllLocal(bs: seq<Bridge>) { forall k | 0 <= k < |bs| :: Local(bs[k]) }

  function UsedOn(bs: seq<Bridge>, vs: int): seq<int> {
    if bs == [] then [] else (if bs[0].vswitch == vs then ListVlans(bs[0]) else []) + UsedOn(bs[1..], vs)
  }

  predicate ArbitraryOn(bs: seq<Bridge>, vs: int, v: int) {
    exists k | 0 <= k < |bs| :: bs[k].vswitch == vs && HasPvid(bs[k].Addl(), v)
  }

  /** VID x is a VLAN or a PVID of some bridge of the virtual switch. */
  predicate InUse(bs: seq<Bridge>, vs: int, x: int) {
    exists k | 0 <= k < |bs| :: bs[k].vswitch == vs && (Supports(bs[k], x) || HasPvid(bs[k].Addl(), x))
  }

  /** The configuration a bridger works in: the cross-VEA option and the orphan
      VLANs of every virtual switch. */
  datatype Env = Env(acrossVeas: bool, orphanMap: map<int, seq<int>>) {
    function Orphans(vs: int): seq<int> { if vs in orphanMap then orphanMap[vs] else [] }
  }

  // ---- Choosing a throw-away PVID: `_find_new_arbitrary_vid` ----

  function FreeFrom(i: int, used: seq<int>): (r: Option<int>)
    requires i <= TOP_VID
    ensures r.Some? ==> 2 <= r.value <= i && r.value !in used && forall j | r.value < j <= i :: j in used
    ensures r.None? ==> forall j | 2 <= j <= i :: j in used
    decreases i
  {
    if i <= 1 then None else if i !in used then Some(i) else FreeFrom(i - 1, used)
  }

  function FreeVid(used: seq<int>): Option<int> { FreeFrom(TOP_VID, used) }

  // ---- Choosing a trunk: `_find_available_trunks` ----

  function Counts(addl: seq<Trunk>): seq<nat> { seq(|addl|, i requires 0 <= i < |addl| => |addl[i].tags|) }

  function NumAvailable(counts: seq<nat>): nat {
    if counts == [] then 0
    else NumAvailable(counts[..|counts| - 1]) + if counts[|counts| - 1] < MAX_VLANS_PER_VEA then 1 else 0
  }

  /** The first trunk with the fewest tags among those that are not full. */
  function Emptiest(counts: seq<nat>): (r: Option<nat>)
    ensures r.Some? ==> r.value < |counts| && counts[r.value] < MAX_VLANS_PER_VEA
    ensures r.Some? ==> forall j | 0 <= j < |counts| :: counts[r.value] <= counts[j] || counts[j] >= MAX_VLANS_PER_VEA
    ensures r.Some? ==> forall j | 0 <= j < r.value :: counts[r.value] < counts[j]
    ensures r.None? ==> forall j | 0 <= j < |counts| :: counts[j] >= MAX_VLANS_PER_VEA
  {
    if counts == [] then None
    else
      var n := |counts| - 1;
      var best := Emptiest(counts[..n]);
      if counts[n] >= MAX_VLANS_PER_VEA then best
      else if best.None? || counts[n] < counts[best.value] then Some(n)
      else best
  }

  function FindAvailable(counts: seq<nat>, lb: bool, acrossVeas: bool): (r: Option<nat>)
    ensures r.Some? ==> r.value < |counts| && counts[r.value] < MAX_VLANS_PER_VEA
  {
    if acrossVeas && |counts| < MAX_VEAS_PER_SEA then None
    else if lb && NumAvailable(counts) == 1 && |counts| % 2 == 1 then None
    else Emptiest(counts)
  }

  // ---- Placing VLANs: `_add_vlans_to_nb` ----

  function Place(addl: seq<Trunk>, at: Option<nat>, v: int, arb: int): seq<Trunk>
    requires at.Some? ==> at.value < |addl|
  {
    if at.Some? then addl[at.value := addl[at.value].(tags := addl[at.value].tags + [v])]
    else addl + [Trunk(arb, [v])]
  }

  /** Every VID a new throw-away PVID must avoid. */
  function Reserved(bs: seq<Bridge>, env: Env, vs: int, others: seq<int>): seq<int> {
    UsedOn(bs, vs) + others + env.Orphans(vs)
  }

  /** Bridge r after the VLANs `todo` have been put on trunks one by one; None if
      a trunk was needed and no VID was free.  `all` are the VLANs of the call. */
  ghost function PlaceAll(bs: seq<Bridge>, env: Env, r: nat, todo: seq<int>, all: seq<int>): (res: Option<Bridge>)
    requires r < |bs|
    decreases |todo|
  {
    if todo == [] then Some(bs[r])
    else
      var b := bs[r];
      var at := FindAvailable(Counts(b.Addl()), b.loadBalance, env.acrossVeas);
      var free := FreeVid(Reserved(bs, env, b.vswitch, all));
      if at.None? && free.None? then None
      else
        var arb := if free.Some? then free.value else 0;
        PlaceAll(bs[r := b.WithAddl(Place(b.Addl(), at, todo[0], arb))], env, r, todo[1..], all)
  }

  // ---- Removing a VLAN: `_remove_vlan_from_nb` ----

  /** The first trunk that has VLAN v tagged. */
  function TrunkWith(addl: seq<Trunk>, v: int): (i: nat)
    ensures i <= |addl|
    ensures i < |addl| ==> v in addl[i].tags
    ensures forall j | 0 <= j < i :: v !in addl[j].tags
  {
    if addl == [] || v in addl[0].tags then 0 else 1 + TrunkWith(addl[1..], v)
  }

  function DropFirst(s: seq<int>, v: int): seq<int> {
    if s == [] then [] else if s[0] == v then s[1..] else [s[0]] + DropFirst(s[1..], v)
  }

  function WithoutVlan(addl: seq<Trunk>, lb: bool, v: int): seq<Trunk> {
    var i := TrunkWith(addl, v);
    if i == |addl| then addl
    else if |addl[i].tags| == 1 && (!lb || |addl| > 1) then addl[..i] + addl[i + 1..]
    else addl[i := addl[i].(tags := DropFirst(addl[i].tags, v))]
  }

  ghost function Without(b: Bridge, v: int): Bridge { b.WithAddl(WithoutVlan(b.Addl(), b.loadBalance, v)) }

  /** The VLAN can be taken off the additional trunks: it is not on the primary. */
  ghost predicate Removable(b: Bridge, v: int) {
    Tagged(b.Addl(), v) && v != b.first.primary.pvid && v !in b.first.primary.tags
  }

  // ---- Moving a throw-away PVID: `_reassign_arbitrary_vid` ----

  function TrunkOfPvid(addl: seq<Trunk>, pvid: int): (i: nat)
    ensures i <= |addl|
    ensures i < |addl| ==> addl[i].pvid == pvid
    ensures forall j | 0 <= j < i :: addl[j].pvid != pvid
  {
    if addl == [] || addl[0].pvid == pvid then 0 else 1 + TrunkOfPvid(addl[1..], pvid)
  }

  function Repvid(addl: seq<Trunk>, old_: int, new_: int): seq<Trunk> {
    var i := TrunkOfPvid(addl, old_);
    if i == |addl| then addl else addl[i := addl[i].(pvid := new_)]
  }

  ghost function Reassign(b: Bridge, old_: int, new_: int): Bridge { b.WithAddl(Repvid(b.Addl(), old_, new_)) }

  // ---- The calls ----

  datatype Outcome =
    | Done
    | PvidOfBridge(vlan: int)        // the VLAN is a peer's primary PVID
    | OrphanFound(vlan: int)
    | VidsExhausted
    | NoTrunkToReassign              // a peer's throw-away PVID was asked for

  /** The server, the wrappers fetched from it, and which of them were posted. */
  datatype World = World(server: seq<Bridge>, feed: seq<Bridge>, posted: set<nat>) {
    ghost predicate Valid() {
      && |server| == |feed|
      && forall k | 0 <= k < |feed| :: feed[k].uuid == server[k].uuid && feed[k].vswitch == server[k].vswitch
    }

    /** Change wrapper k and post it: refused if its etag is stale. */
    ghost function Post(k: nat, b: Bridge): World
      requires k < |server| == |feed|
    {
      if k in posted then this.(feed := feed[k := b])
      else World(server[k := b], feed[k := b], posted + {k})
    }
  }

  /** Redriving a refused removal on the same wrapper strips one copy after the
      other, until the VLAN is gone from memory. */
  ghost function Purge(b: Bridge, v: int): Bridge
    decreases Copies(b.Addl(), v)
  {
    if Removable(b, v) then WithoutDropsOne(b.Addl(), b.loadBalance, v); Purge(Without(b, v), v) else b
  }

  ghost function RemoveSynch(w: World, env: Env, k: nat, v: int, failIfPvid: bool): (World, Outcome)
    requires k < |w.server| == |w.feed|
  {
    var b := w.feed[k];
    if HasPvid(b.Addl(), v) then
      var free := FreeVid(Reserved(w.feed, env, b.vswitch, [v]));
      if free.None? then (w, VidsExhausted) else (w.Post(k, Reassign(b, v, free.value)), Done)
    else if Supports(b, v) && failIfPvid && b.first.primary.pvid == v then (w, PvidOfBridge(v))
    else if !Removable(b, v) then (w, Done)
    else if k in w.posted then (w.Post(k, Purge(b, v)), Done)
    else (w.Post(k, Without(b, v)), Done)
  }

  predicate IsPeer(bs: seq<Bridge>, r: nat, p: int)
    requires r < |bs|
  {
    0 <= p < |bs| && p != r && bs[p].vswitch == bs[r].vswitch
  }

  /** The first peer of bridge r, from index p on, that supports the VLAN. */
  ghost function FirstPeer(bs: seq<Bridge>, r: nat, v: int, p: nat): (res: nat)
    requires r < |bs| && p <= |bs|
    ensures p <= res <= |bs|
    ensures res < |bs| ==> IsPeer(bs, r, res) && Supports(bs[res], v)
    ensures forall q | p <= q < res && IsPeer(bs, r, q) :: !Supports(bs[q], v)
    decreases |bs| - p
  {
    if p == |bs| || (IsPeer(bs, r, p) && Supports(bs[p], v)) then p else FirstPeer(bs, r, v, p + 1)
  }

  /** A VLAN that a peer supports is removed from the first such peer. */
  ghost function TakeFromPeer(w: World, env: Env, r: nat, v: int): (res: (World, Outcome))
    requires r < |w.server| == |w.feed|
    ensures |res.0.server| == |res.0.feed| == |w.feed|
  {
    var p := FirstPeer(w.feed, r, v, 0);
    if p < |w.feed| then RemoveSynch(w, env, p, v, true) else (w, Done)
  }

  datatype ScanResult =
    | Scanned(w: World, added: seq<int>)
    | Reassigned(w: World)
    | Failed(w: World, why: Outcome)

  /** The loop of `_ensure_vlans_on_nb_synch` over the requested VLANs. */
  ghost function Scan(w: World, env: Env, r: nat, vlans: seq<int>, i: nat, added: seq<int>): ScanResult
    requires r < |w.server| == |w.feed| && i <= |vlans|
    decreases |vlans| - i
  {
    if i == |vlans| then Scanned(w, added)
    else if Supports(w.feed[r], vlans[i]) then Scan(w, env, r, vlans, i + 1, added)
    else
      var v := vlans[i];
      var (w1, o) := TakeFromPeer(w, env, r, v);
      if o != Done then Failed(w1, o)
      else if ArbitraryOn(w1.feed, w1.feed[r].vswitch, v) then
        var free := FreeVid(Reserved(w1.feed, env, w1.feed[r].vswitch, vlans));
        if free.None? then Failed(w1, VidsExhausted)
        else if !HasPvid(w1.feed[r].Addl(), v) then Failed(w1, NoTrunkToReassign)
        else Reassigned(w1.Post(r, Reassign(w1.feed[r], v, free.value)))
      else if v in env.Orphans(w1.feed[r].vswitch) then Failed(w1, OrphanFound(v))
      else Scan(w1, env, r, vlans, i + 1, added + [v])
  }

  ghost function Fetch(server: seq<Bridge>): World { World(server, server, {}) }

  // ---- Facts about one list of trunks ----

  lemma {:induction false} CopiesSplit(a: seq<Trunk>, b: seq<Trunk>, v: int)
    ensures Copies(a + b, v) == Copies(a, v) + Copies(b, v)
  {
    if a == [] {
      assert a + b == b;
    } else {
      CopiesSplit(a[1..], b, v);
      assert (a + b)[1..] == a[1..] + b;
    }
  }

  lemma CopiesAt(a: seq<Trunk>, i: nat, v: int)
    requires i < |a|
    ensures Copies(a, v) == Copies(a[..i], v) + multiset(a[i].tags)[v] + Copies(a[i + 1..], v)
  {
    assert a == a[..i] + a[i..];
    CopiesSplit(a[..i], a[i..], v);
  }

  lemma CopiesUpdate(a: seq<Trunk>, i: nat, t: Trunk, v: int)
    requires i < |a|
    ensures Copies(a[i := t], v) + multiset(a[i].tags)[v] == Copies(a, v) + multiset(t.tags)[v]
  {
    CopiesAt(a, i, v);
    CopiesAt(a[i := t], i, v);
    assert a[i := t][..i] == a[..i] && a[i := t][i + 1..] == a[i + 1..];
  }

  lemma {:induction false} CopiesTagged(a: seq<Trunk>, v: int)
    ensures Copies(a, v) > 0 <==> Tagged(a, v)
  {
    if a != [] {
      CopiesTagged(a[1..], v);
      if Tagged(a[1..], v) {
        var i :| 0 <= i < |a[1..]| && v in a[1..][i].tags;
        assert v in a[i + 1].tags;
      }
      if Tagged(a, v) && v !in a[0].tags {
        var i :| 0 <= i < |a| && v in a[i].tags;
        assert v in a[1..][i - 1].tags;
      }
    }
  }

  lemma {:induction false} DropFirstBag(s: seq<int>, v: int)
    requires v in s
    ensures multiset(DropFirst(s, v)) == multiset(s) - multiset{v}
  {
    assert s == [s[0]] + s[1..];
    if s[0] != v { DropFirstBag(s[1..], v); }
  }

  lemma TrunkWithFinds(addl: seq<Trunk>, v: int)
    requires Tagged(addl, v)
    ensures TrunkWith(addl, v) < |addl|
  {
  }

  /** Taking a VLAN off drops one tag of that VLAN and nothing else. */
  lemma WithoutDropsOne(addl: seq<Trunk>, lb: bool, v: int)
    requires Tagged(addl, v)
    ensures forall u :: Copies(WithoutVlan(addl, lb, v), u) == Copies(addl, u) - (if u == v then 1 else 0)
    ensures Copies(addl, v) > 0
  {
    CopiesTagged(addl, v);
    TrunkWithFinds(addl, v);
    var i := TrunkWith(addl, v);
    DropFirstBag(addl[i].tags, v);
    forall u ensures Copies(WithoutVlan(addl, lb, v), u) == Copies(addl, u) - (if u == v then 1 else 0) {
      if |addl[i].tags| == 1 && (!lb || |addl| > 1) {
        assert addl[i].tags == [v];
        CopiesAt(addl, i, u);
        CopiesSplit(addl[..i], addl[i + 1..], u);
      } else {
        CopiesUpdate(addl, i, addl[i].(tags := DropFirst(addl[i].tags, v)), u);
      }
    }
  }

  /** Placing a VLAN adds one tag of it and nothing else, after what its trunk
      already carries. */
  lemma PlaceAddsOne(addl: seq<Trunk>, at: Option<nat>, v: int, arb: int)
    requires at.Some? ==> at.value < |addl|
    ensures forall u :: Copies(Place(addl, at, v, arb), u) == Copies(addl, u) + (if u == v then 1 else 0)
  {
    forall u ensures Copies(Place(addl, at, v, arb), u) == Copies(addl, u) + (if u == v then 1 else 0) {
      if at.Some? {
        CopiesUpdate(addl, at.value, addl[at.value].(tags := addl[at.value].tags + [v]), u);
      } else {
        CopiesSplit(addl, [Trunk(arb, [v])], u);
      }
    }
  }

  lemma {:induction false} RepvidKeepsCopies(addl: seq<Trunk>, old_: int, new_: int, u: int)
    ensures Copies(Repvid(addl, old_, new_), u) == Copies(addl, u)
  {
    var i := TrunkOfPvid(addl, old_);
    if i < |addl| { CopiesUpdate(addl, i, addl[i].(pvid := new_), u); }
  }

  lemma {:induction false} TrunkVidsMembers(a: seq<Trunk>, x: int)
    ensures x in TrunkVids(a) <==> Tagged(a, x) || HasPvid(a, x)
  {
    if a != [] {
      TrunkVidsMembers(a[1..], x);
      assert forall i | 0 <= i < |a[1..]| :: a[1..][i] == a[i + 1];
      if Tagged(a[1..], x) {
        var i :| 0 <= i < |a[1..]| && x in a[1..][i].tags;
        assert x in a[i + 1].tags;
      }
      if HasPvid(a[1..], x) {
        var i :| 0 <= i < |a[1..]| && a[1..][i].pvid == x;
        assert a[i + 1].pvid == x;
      }
      if Tagged(a, x) && x !in a[0].tags {
        var i :| 0 <= i < |a| && x in a[i].tags;
        assert x in a[1..][i - 1].tags;
      }
      if HasPvid(a, x) && x != a[0].pvid {
        var i :| 0 <= i < |a| && a[i].pvid == x;
        assert a[1..][i - 1].pvid == x;
      }
    }
  }

  lemma ListVlansMembers(b: Bridge, x: int)
    ensures x in ListVlans(b) <==> Supports(b, x) || HasPvid(b.Addl(), x)
  {
    TrunkVidsMembers(b.Addl(), x);
  }

  lemma {:induction false} UsedOnMembers(bs: seq<Bridge>, vs: int, x: int)
    ensures x in UsedOn(bs, vs) <==> InUse(bs, vs, x)
  {
    if bs != [] {
      ListVlansMembers(bs[0], x);
      UsedOnMembers(bs[1..], vs, x);
      assert forall k | 0 <= k < |bs[1..]| :: bs[1..][k] == bs[k + 1];
      if InUse(bs[1..], vs, x) {
        var k :| 0 <= k < |bs[1..]| && bs[1..][k].vswitch == vs && (Supports(bs[1..][k], x) || HasPvid(bs[1..][k].Addl(), x));
        assert bs[k + 1] == bs[1..][k];
      }
      if InUse(bs, vs, x) {
        var k :| 0 <= k < |bs| && bs[k].vswitch == vs && (Supports(bs[k], x) || HasPvid(bs[k].Addl(), x));
        if k > 0 { assert bs[1..][k - 1] == bs[k]; }
      }
    }
  }

  /** A newly chosen PVID is in use nowhere on the virtual switch. */
  lemma NewVidIsFree(bs: seq<Bridge>, env: Env, vs: int, others: seq<int>)
    requires FreeVid(Reserved(bs, env, vs, others)).Some?
    ensures var n := FreeVid(Reserved(bs, env, vs, others)).value;
      && n !in others && n !in env.Orphans(vs)
      && forall k | 0 <= k < |bs| && bs[k].vswitch == vs :: !Supports(bs[k], n) && !HasPvid(bs[k].Addl(), n)
  {
    var n := FreeVid(Reserved(bs, env, vs, others)).value;
    UsedOnMembers(bs, vs, n);
  }

  /** A trunk is chosen exactly if none has to be opened: on a bridge that spreads
      VLANs over all trunks it may have, when it has fewer; on a load-balanced one
      with an odd number of trunks, when just one of them has room.  The choice is
      the first of the trunks with the fewest VLANs. */
  lemma FindAvailableMeans(counts: seq<nat>, lb: bool, acrossVeas: bool)
    ensures var r := FindAvailable(counts, lb, acrossVeas);
      && (r.None? <==>
            || (acrossVeas && |counts| < MAX_VEAS_PER_SEA)
            || AllFull(counts)
            || (lb && |counts| % 2 == 1 && exists i :: OnlyRoom(counts, i)))
      && (r.Some? ==>
            && r.value < |counts| && counts[r.value] < MAX_VLANS_PER_VEA
            && (forall j | 0 <= j < |counts| :: counts[r.value] <= counts[j])
            && (forall j | 0 <= j < r.value :: counts[r.value] < counts[j]))
  {
    NumAvailableMeans(counts);
    var r := Emptiest(counts);
    if r.Some? { assert !AllFull(counts); }
  }

  ghost predicate AllFull(counts: seq<nat>) { forall j | 0 <= j < |counts| :: counts[j] >= MAX_VLANS_PER_VEA }

  /** Trunk i is the only one that is not full. */
  ghost predicate OnlyRoom(counts: seq<nat>, i: int) {
    0 <= i < |counts| && counts[i] < MAX_VLANS_PER_VEA && AllFull(counts[..i]) && AllFull(counts[i + 1..])
  }

  lemma AllFullAppend(counts: seq<nat>, c: nat)
    ensures AllFull(counts + [c]) <==> AllFull(counts) && c >= MAX_VLANS_PER_VEA
  {
    assert forall j | 0 <= j < |counts| :: (counts + [c])[j] == counts[j];
    assert (counts + [c])[|counts|] == c;
  }

  lemma {:induction false} NumAvailableMeans(counts: seq<nat>)
    ensures NumAvailable(counts) == 0 <==> AllFull(counts)
    ensures NumAvailable(counts) == 1 <==> exists i :: OnlyRoom(counts, i)
  {
    if counts == [] {
      forall i ensures !OnlyRoom(counts, i) {}
    } else {
      var n := |counts| - 1;
      var rest := counts[..n];
      NumAvailableMeans(rest);
      AllFullAppend(rest, counts[n]);
      assert counts == rest + [counts[n]];
      forall i | 0 <= i < n ensures OnlyRoom(counts, i) <==> OnlyRoom(rest, i) && counts[n] >= MAX_VLANS_PER_VEA {
        assert counts[..i] == rest[..i] && counts[i + 1..] == rest[i + 1..] + [counts[n]];
        AllFullAppend(rest[i + 1..], counts[n]);
      }
      assert OnlyRoom(counts, n) <==> counts[n] < MAX_VLANS_PER_VEA && AllFull(rest);
      if exists i :: OnlyRoom(rest, i) {
        var i :| OnlyRoom(rest, i);
        assert !AllFull(rest);
      }
    }
  }
}
