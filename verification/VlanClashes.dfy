/** When exactly a call to ensure VLANs gives one throw-away PVID to two bridges.

    A peer's wrapper is posted once in a pass, so that a trunk that goes from it
    later is gone in memory only.  Its PVID then looks free. */
module VlanClashes {
  import opened Options
  import opened Sets
  import opened VlanBridges
  import opened VlanSafety
  import opened VlanResults
  import opened VlanPasses
  import opened VlanLayout

  // ---- Which VIDs a placement takes ----

  ghost function FreeVids(bs: seq<Bridge>, env: Env, vs: int, others: seq<int>): set<int> {
    set v | 2 <= v <= TOP_VID && v !in Reserved(bs, env, vs, others)
  }

  lemma FreeVidIsTop(bs: seq<Bridge>, env: Env, vs: int, others: seq<int>)
    ensures var f, s := FreeVid(Reserved(bs, env, vs, others)), FreeVids(bs, env, vs, others);
      && (f.None? <==> |s| == 0)
      && (f.Some? ==> f.value in s && forall v | v in s :: v <= f.value)
  {
    var f, s := FreeVid(Reserved(bs, env, vs, others)), FreeVids(bs, env, vs, others);
    if f.Some? {
      assert f.value in s;
    } else {
      assert forall v :: v in s <==> v in {};
      assert s == {};
    }
  }

  /** How many trunks n more VLANs open on a SEA. */
  function Opened(counts: seq<nat>, lb: bool, acrossVeas: bool, n: nat): nat
    decreases n
  {
    if n == 0 then 0
    else (if FindAvailable(counts, lb, acrossVeas).None? then 1 else 0)
         + Opened(NextCounts(counts, lb, acrossVeas), lb, acrossVeas, n - 1)
  }

  /** The n highest members of the set. */
  ghost predicate TopOf(picks: set<int>, free: set<int>, n: nat) {
    picks <= free && |picks| == n && forall p, f | p in picks && f in free && f !in picks :: f < p
  }

  lemma PlacedInUse(bs: seq<Bridge>, r: nat, c: Bridge, v: int, arb: Option<int>)
    requires r < |bs| && c.vswitch == bs[r].vswitch
    requires forall u :: Supports(c, u) <==> Supports(bs[r], u) || u == v
    requires forall p :: HasPvid(c.Addl(), p) <==> HasPvid(bs[r].Addl(), p) || arb == Some(p)
    ensures forall x :: InUse(bs[r := c], c.vswitch, x) <==> InUse(bs, c.vswitch, x) || x == v || arb == Some(x)
  {
    var bs' := bs[r := c];
    forall x ensures InUse(bs', c.vswitch, x) <==> InUse(bs, c.vswitch, x) || x == v || arb == Some(x) {
      assert bs'[r] == c;
      if InUse(bs, c.vswitch, x) {
        var k :| 0 <= k < |bs| && bs[k].vswitch == c.vswitch && (Supports(bs[k], x) || HasPvid(bs[k].Addl(), x));
        assert bs'[k].vswitch == c.vswitch && (Supports(bs'[k], x) || HasPvid(bs'[k].Addl(), x));
      }
      if InUse(bs', c.vswitch, x) {
        var k :| 0 <= k < |bs'| && bs'[k].vswitch == c.vswitch && (Supports(bs'[k], x) || HasPvid(bs'[k].Addl(), x));
        assert k != r ==> bs[k] == bs'[k];
      }
    }
  }

  /** What is left of the free VIDs when a trunk has taken one, if it has. */
  ghost function Left(free: set<int>, arb: Option<int>): set<int> {
    if arb.Some? then free - {arb.value} else free
  }

  /** Placing a VLAN of the call takes a VID exactly if it opens a trunk. */
  lemma PlacedFree(bs: seq<Bridge>, env: Env, r: nat, c: Bridge, v: int, arb: Option<int>, all: seq<int>)
    requires r < |bs| && c.vswitch == bs[r].vswitch && v in all
    requires forall u :: Supports(c, u) <==> Supports(bs[r], u) || u == v
    requires forall p :: HasPvid(c.Addl(), p) <==> HasPvid(bs[r].Addl(), p) || arb == Some(p)
    ensures FreeVids(bs[r := c], env, c.vswitch, all) == Left(FreeVids(bs, env, c.vswitch, all), arb)
  {
    PlacedInUse(bs, r, c, v, arb);
    var s, t := FreeVids(bs[r := c], env, c.vswitch, all), FreeVids(bs, env, c.vswitch, all);
    forall x ensures x in s <==> x in Left(t, arb) {
      UsedOnMembers(bs, c.vswitch, x);
      UsedOnMembers(bs[r := c], c.vswitch, x);
    }
  }

  /** One VLAN placed: c is the bridge then, and arb the VID of the trunk opened. */
  ghost predicate OneStep(bs: seq<Bridge>, env: Env, r: nat, todo: seq<int>, all: seq<int>, c: Bridge, arb: Option<int>)
    requires r < |bs| && todo != []
  {
    && c.vswitch == bs[r].vswitch && c.loadBalance == bs[r].loadBalance && Local(c)
    && Placeable(bs[r := c], env, c.vswitch, todo[1..])
    && Counts(c.Addl()) == NextCounts(Counts(bs[r].Addl()), c.loadBalance, env.acrossVeas)
    && FreeVids(bs[r := c], env, c.vswitch, all) == Left(FreeVids(bs, env, c.vswitch, all), arb)
    && (forall p :: HasPvid(c.Addl(), p) <==> HasPvid(bs[r].Addl(), p) || arb == Some(p))
    && PlaceAll(bs, env, r, todo, all) == PlaceAll(bs[r := c], env, r, todo[1..], all)
  }

  lemma TakeStep(bs: seq<Bridge>, env: Env, r: nat, todo: seq<int>, all: seq<int>) returns (c: Bridge, arb: Option<int>)
    requires r < |bs| && Local(bs[r]) && Placeable(bs, env, bs[r].vswitch, todo) && todo != [] && forall v | v in todo :: v in all
    requires var b := bs[r];
      FindAvailable(Counts(b.Addl()), b.loadBalance, env.acrossVeas).Some? || FreeVid(Reserved(bs, env, b.vswitch, all)).Some?
    ensures OneStep(bs, env, r, todo, all, c, arb)
    ensures var b := bs[r];
      arb == if FindAvailable(Counts(b.Addl()), b.loadBalance, env.acrossVeas).Some? then None else FreeVid(Reserved(bs, env, b.vswitch, all))
  {
    var b := bs[r];
    var at := FindAvailable(Counts(b.Addl()), b.loadBalance, env.acrossVeas);
    var free := FreeVid(Reserved(bs, env, b.vswitch, all));
    var vid := if free.Some? then free.value else 0;
    c := b.WithAddl(Place(b.Addl(), at, todo[0], vid));
    arb := if at.Some? then None else free;
    PlaceStep(bs, env, r, todo, all, at, vid);
    CountsPlace(b, env.acrossVeas, todo[0], vid);
    PlacedFree(bs, env, r, c, todo[0], arb, all);
  }

  lemma TopNext(rest: set<int>, free: set<int>, top: int, n: nat)
    requires top in free && (forall v | v in free :: v <= top) && TopOf(rest, free - {top}, n)
    ensures TopOf(rest + {top}, free, n + 1)
  {
    assert |rest + {top}| == |rest| + 1;
  }

  /** The result of a placement on b that opens n trunks: there is one exactly if
      so many VIDs are free, and it takes the highest of them. */
  ghost predicate TakesTop(b: Bridge, res: Option<Bridge>, free: set<int>, n: nat, picks: set<int>) {
    && (res.Some? <==> n <= |free|)
    && (res.Some? ==> TopOf(picks, free, n))
    && (res.Some? ==> forall p :: HasPvid(res.value.Addl(), p) <==> HasPvid(b.Addl(), p) || p in picks)
  }

  lemma TakesOneMore(b: Bridge, c: Bridge, res: Option<Bridge>, free: set<int>, n: nat, rest: set<int>, top: int)
    requires TakesTop(c, res, free - {top}, n, rest) && top in free && forall v | v in free :: v <= top
    requires forall p :: HasPvid(c.Addl(), p) <==> HasPvid(b.Addl(), p) || p == top
    ensures TakesTop(b, res, free, n + 1, rest + {top})
  {
    assert |free - {top}| == |free| - 1;
    if res.Some? { TopNext(rest, free, top, n); }
  }

  ghost function ToOpen(b: Bridge, env: Env, n: nat): nat { Opened(Counts(b.Addl()), b.loadBalance, env.acrossVeas, n) }

  lemma {:induction false} PlaceAllTakesTop(bs: seq<Bridge>, env: Env, r: nat, todo: seq<int>, all: seq<int>) returns (picks: set<int>)
    requires r < |bs| && Local(bs[r]) && Placeable(bs, env, bs[r].vswitch, todo) && forall v | v in todo :: v in all
    ensures TakesTop(bs[r], PlaceAll(bs, env, r, todo, all), FreeVids(bs, env, bs[r].vswitch, all), ToOpen(bs[r], env, |todo|), picks)
    decreases |todo|
  {
    picks := {};
    if todo != [] {
      var free := FreeVids(bs, env, bs[r].vswitch, all);
      FreeVidIsTop(bs, env, bs[r].vswitch, all);
      var at := FindAvailable(Counts(bs[r].Addl()), bs[r].loadBalance, env.acrossVeas);
      if at.Some? || FreeVid(Reserved(bs, env, bs[r].vswitch, all)).Some? {
        var c, arb := TakeStep(bs, env, r, todo, all);
        picks := PlaceAllTakesTop(bs[r := c], env, r, todo[1..], all);
        if arb.Some? {
          TakesOneMore(bs[r], c, PlaceAll(bs[r := c], env, r, todo[1..], all), free, ToOpen(c, env, |todo[1..]|), picks, arb.value);
          picks := picks + {arb.value};
        }
      }
    }
  }

  // ---- The last pass as a world ----

  lemma ServerStripped(o: seq<Bridge>, r: nat, vlans: seq<int>, p: nat, n: nat)
    requires r < |o| && AllLocal(o) && p < |o| && n <= |vlans|
    ensures Stripped(o[p], OnServer(o, r, vlans, p, n), vlans)
  {
    var f := FirstHit(o, r, vlans, p, n);
    assert Local(o[p]);
    if f < n { StrippedOnce(o[p], o[p], vlans[f], vlans); }
  }

  lemma {:induction false} MemoryStripped(o: seq<Bridge>, r: nat, vlans: seq<int>, p: nat, n: nat)
    requires r < |o| && AllLocal(o) && p < |o| && n <= |vlans|
    ensures Stripped(o[p], InMemory(o, r, vlans, p, n), vlans)
  {
    if n == 0 {
      assert Local(o[p]);
    } else {
      MemoryStripped(o, r, vlans, p, n - 1);
      var b := InMemory(o, r, vlans, p, n - 1);
      if Hit(o, r, vlans[n - 1], p) {
        if FirstHit(o, r, vlans, p, n - 1) == n - 1 {
          UntouchedInMemory(o, r, vlans, p, n - 1);
          StrippedOnce(o[p], b, vlans[n - 1], vlans);
        } else {
          StrippedPurge(o[p], b, vlans[n - 1], vlans);
        }
      }
    }
  }

  ghost function PassWorld(o: seq<Bridge>, r: nat, vlans: seq<int>, n: nat): World
    requires r < |o| && n <= |vlans|
  {
    World(ServerAt(o, r, vlans, n), MemoryAt(o, r, vlans, n), {})
  }

  lemma PassWorldInv(o: seq<Bridge>, r: nat, vlans: seq<int>, n: nat)
    requires r < |o| && AllLocal(o) && n <= |vlans|
    ensures ScanInv(o, PassWorld(o, r, vlans, n), r, vlans)
  {
    forall k: nat | k < |o|
      ensures Stripped(o[k], OnServer(o, r, vlans, k, n), vlans) && Stripped(o[k], InMemory(o, r, vlans, k, n), vlans)
    {
      ServerStripped(o, r, vlans, k, n);
      MemoryStripped(o, r, vlans, k, n);
    }
    var w := PassWorld(o, r, vlans, n);
    forall k: nat | k < |o| ensures Stripped(o[k], w.server[k], vlans) && Stripped(o[k], w.feed[k], vlans) {
      assert Local(o[k]);
    }
  }

  /** The bridges in memory, and those on the server, when all VLANs of a call have
      been looked at. */
  ghost function MemoryAfter(o: seq<Bridge>, r: nat, vlans: seq<int>): seq<Bridge>
    requires r < |o|
  {
    MemoryAt(o, r, vlans, |vlans|)
  }

  ghost function ServerAfter(o: seq<Bridge>, r: nat, vlans: seq<int>): seq<Bridge>
    requires r < |o|
  {
    ServerAt(o, r, vlans, |vlans|)
  }

  /** No requested VLAN ends the pass. */
  ghost predicate Passable(o: seq<Bridge>, env: Env, r: nat, vlans: seq<int>)
    requires r < |o|
  {
    forall i | 0 <= i < |vlans| :: !EndsAt(o, env, r, vlans, i)
  }

  lemma PassableStops(o: seq<Bridge>, env: Env, r: nat, vlans: seq<int>)
    requires r < |o|
    ensures Passable(o, env, r, vlans) <==> Stop(o, env, r, vlans) == |vlans|
  {
  }

  lemma PassedPlaceable(o: seq<Bridge>, env: Env, r: nat, vlans: seq<int>)
    requires Request(o, r, vlans) && Passable(o, env, r, vlans)
    ensures Placeable(MemoryAfter(o, r, vlans), env, o[r].vswitch, Missing(o[r], vlans))
  {
    PassableStops(o, env, r, vlans);
    FirstPass(o, env, r, vlans);
    ScanFromServer(o, env, r, vlans);
  }

  ghost function FreeAfter(o: seq<Bridge>, env: Env, r: nat, vlans: seq<int>): set<int>
    requires r < |o|
  {
    FreeVids(MemoryAfter(o, r, vlans), env, o[r].vswitch, Missing(o[r], vlans))
  }

  ghost function TrunksToOpen(o: seq<Bridge>, r: nat, vlans: seq<int>, acrossVeas: bool): nat
    requires r < |o|
  {
    Opened(Counts(o[r].Addl()), o[r].loadBalance, acrossVeas, |Missing(o[r], vlans)|)
  }

  /** The pass is not ended, and there are as many free VIDs as trunks to open. */
  ghost predicate Delivers(o: seq<Bridge>, env: Env, r: nat, vlans: seq<int>)
    requires r < |o|
  {
    Passable(o, env, r, vlans) && TrunksToOpen(o, r, vlans, env.acrossVeas) <= |FreeAfter(o, env, r, vlans)|
  }

  /** What the bridge is then: it has the missing VLANs, and the highest free VIDs as
      further PVIDs. */
  ghost predicate Placed(o: seq<Bridge>, env: Env, r: nat, vlans: seq<int>, c: Bridge, picks: set<int>)
    requires r < |o|
  {
    && Local(c) && c.vswitch == o[r].vswitch
    && TopOf(picks, FreeAfter(o, env, r, vlans), TrunksToOpen(o, r, vlans, env.acrossVeas))
    && (forall p :: HasPvid(c.Addl(), p) <==> HasPvid(o[r].Addl(), p) || p in picks)
    && (forall u :: Supports(c, u) <==> Supports(o[r], u) || u in Missing(o[r], vlans))
  }

  lemma PlacedVlans(o: Bridge, c: Bridge, m: seq<int>)
    requires o.first.primary == c.first.primary
    requires forall u :: Copies(c.Addl(), u) == Copies(o.Addl(), u) + multiset(m)[u]
    ensures forall u :: Supports(c, u) <==> Supports(o, u) || u in m
  {
    forall u ensures Supports(c, u) <==> Supports(o, u) || u in m {
      CopiesTagged(c.Addl(), u);
      CopiesTagged(o.Addl(), u);
    }
  }

  /** The last pass of a call. */
  lemma Ends(o: seq<Bridge>, env: Env, r: nat, vlans: seq<int>) returns (c: Bridge, picks: set<int>)
    requires Request(o, r, vlans) && !Restarts(o, env, r, vlans)
    ensures Ensure(o, env, r, vlans).1 == Done <==> Delivers(o, env, r, vlans)
    ensures Ensure(o, env, r, vlans).0 == ServerAt(o, r, vlans, Looked(o, env, r, vlans))[r := c]
    ensures if Delivers(o, env, r, vlans) then Placed(o, env, r, vlans, c, picks) else c == o[r]
  {
    LastPassIs(o, env, r, vlans);
    PassableStops(o, env, r, vlans);
    c, picks := o[r], {};
    assert ServerAt(o, r, vlans, Looked(o, env, r, vlans))[r := c] == ServerAt(o, r, vlans, Looked(o, env, r, vlans));
    if Passable(o, env, r, vlans) {
      var bs, m := MemoryAfter(o, r, vlans), Missing(o[r], vlans);
      assert Local(o[r]);
      PassedPlaceable(o, env, r, vlans);
      picks := PlaceAllTakesTop(bs, env, r, m, m);
      var res := PlaceAll(bs, env, r, m, m);
      if res.Some? {
        c := res.value;
        PlaceAllOk(o[r], bs, env, r, m, m);
        PlacedVlans(o[r], c, m);
      }
    }
  }

  /** A call succeeds exactly if no requested VLAN ends its last pass and there are as
      many free VIDs then as trunks to open. */
  lemma SucceedsIff(o: seq<Bridge>, env: Env, r: nat, vlans: seq<int>)
    requires Request(o, r, vlans)
    ensures Ensure(o, env, r, vlans).1 == Done <==> Delivers(LastPass(o, env, r, vlans), env, r, vlans)
  {
    var c, picks := Ends(LastPass(o, env, r, vlans), env, r, vlans);
  }

  // ---- What stays apart ----

  /** PVIDs are apart, but that bridge r may have some in common with others. */
  ghost predicate NearlyApart(bs: seq<Bridge>, env: Env, r: nat) {
    && AllLocal(bs)
    && forall j, k, p | 0 <= j < |bs| && 0 <= k < |bs| && bs[j].vswitch == bs[k].vswitch && HasPvid(bs[j].Addl(), p) ::
         !Supports(bs[k], p) && p !in env.Orphans(bs[j].vswitch) && (HasPvid(bs[k].Addl(), p) ==> j == k || j == r || k == r)
  }

  predicate PeerPvid(bs: seq<Bridge>, r: nat, q: int)
    requires r < |bs|
  {
    exists k | 0 <= k < |bs| :: IsPeer(bs, r, k) && HasPvid(bs[k].Addl(), q)
  }

  /** PVIDs that bridge r gains in a pass: not requested, no orphans, in use nowhere in
      memory. */
  ghost predicate Gained(w: World, env: Env, r: nat, vlans: seq<int>, q: int)
    requires r < |w.feed|
  {
    q !in vlans && q !in env.Orphans(w.feed[r].vswitch) && !InUse(w.feed, w.feed[r].vswitch, q)
  }

  /** Nobody on the server has a gained PVID as a VLAN: what was left there has been
      requested. */
  lemma GainedUnsupported(o: seq<Bridge>, w: World, env: Env, r: nat, vlans: seq<int>, k: nat, q: int)
    requires ScanInv(o, w, r, vlans) && Gained(w, env, r, vlans, q) && k < |o| && o[k].vswitch == o[r].vswitch
    ensures !Supports(w.server[k], q)
  {
    SameBridges(o, w, r, vlans, k);
    assert w.feed[r] == o[r];
    if Supports(w.server[k], q) { LeftIsRequested(o, w, r, vlans, k, q); }
  }

  /** Bridge r replaced by c: only a PVID of c on a peer, or a VLAN of c that is a
      PVID there, can be in the way of being apart. */
  ghost predicate Gains(o: seq<Bridge>, w: World, env: Env, r: nat, vlans: seq<int>, c: Bridge)
    requires r < |o| && r < |w.feed|
  {
    && Local(c) && c.vswitch == o[r].vswitch
    && (forall q | HasPvid(c.Addl(), q) :: HasPvid(o[r].Addl(), q) || Gained(w, env, r, vlans, q))
    && (forall u | Supports(o[r], u) :: Supports(c, u))
  }

  lemma ServerFacts(o: seq<Bridge>, w: World, env: Env, r: nat, vlans: seq<int>, j: nat, k: nat, p: int)
    requires ScanInv(o, w, r, vlans) && NearlyApart(o, env, r)
    requires j < |o| && k < |o| && w.server[j].vswitch == w.server[k].vswitch && HasPvid(w.server[j].Addl(), p)
    ensures !Supports(w.server[k], p) && p !in env.Orphans(w.server[j].vswitch)
    ensures HasPvid(w.server[k].Addl(), p) ==> j == k || j == r || k == r
  {
    SameSwitches(o, w, r, vlans, j);
    SameSwitches(o, w, r, vlans, k);
  }

  /** What bridge c has as PVIDs is no VLAN of a bridge and no orphan. */
  lemma OwnFacts(o: seq<Bridge>, w: World, env: Env, r: nat, vlans: seq<int>, c: Bridge, k: nat, p: int)
    requires ScanInv(o, w, r, vlans) && NearlyApart(o, env, r) && Gains(o, w, env, r, vlans, c)
    requires k < |o| && w.server[k].vswitch == c.vswitch && HasPvid(c.Addl(), p)
    ensures !Supports(w.server[k], p) && p !in env.Orphans(c.vswitch)
  {
    SameSwitches(o, w, r, vlans, k);
    if HasPvid(o[r].Addl(), p) {
      assert w.server[r] == o[r];
      ServerFacts(o, w, env, r, vlans, r, k, p);
    } else {
      assert w.feed[r] == o[r];
      GainedUnsupported(o, w, env, r, vlans, k, p);
    }
  }

  lemma EndNearly(o: seq<Bridge>, w: World, env: Env, r: nat, vlans: seq<int>, c: Bridge)
    requires ScanInv(o, w, r, vlans) && NearlyApart(o, env, r) && Gains(o, w, env, r, vlans, c)
    requires forall q | PeerPvid(w.server, r, q) :: !Supports(c, q)
    ensures NearlyApart(w.server[r := c], env, r)
  {
    var t := w.server[r := c];
    forall k | 0 <= k < |t| ensures Local(t[k]) {
      if k != r { assert Stripped(o[k], w.server[k], vlans); }
    }
    assert w.server[r] == o[r];
    forall j, k, p | 0 <= j < |t| && 0 <= k < |t| && t[j].vswitch == t[k].vswitch && HasPvid(t[j].Addl(), p)
      ensures !Supports(t[k], p) && p !in env.Orphans(t[j].vswitch) && (HasPvid(t[k].Addl(), p) ==> j == k || j == r || k == r)
    {
      if j != r {
        ServerFacts(o, w, env, r, vlans, j, k, p);
        if k == r { assert IsPeer(w.server, r, j); assert PeerPvid(w.server, r, p); }
      } else {
        OwnFacts(o, w, env, r, vlans, c, if k == r then r else k, p);
        assert k == r ==> t[k] == c && !Supports(c, p) by { OwnLocal(c, p); }
      }
    }
  }

  lemma OwnLocal(c: Bridge, p: int)
    requires Local(c) && HasPvid(c.Addl(), p)
    ensures !Supports(c, p)
  {
  }

  /** PVIDs are apart exactly if bridge r has none in common with a peer. */
  lemma NearlyIsApart(bs: seq<Bridge>, env: Env, r: nat)
    requires NearlyApart(bs, env, r) && r < |bs|
    ensures PvidsApart(bs, env) <==> forall q | PeerPvid(bs, r, q) :: !HasPvid(bs[r].Addl(), q)
  {
    if PvidsApart(bs, env) {
      forall q | PeerPvid(bs, r, q) ensures !HasPvid(bs[r].Addl(), q) {
        var k :| 0 <= k < |bs| && IsPeer(bs, r, k) && HasPvid(bs[k].Addl(), q);
        assert HasPvid(bs[r].Addl(), q) ==> k == r;
      }
    }
    forall j, k, p | 0 <= j < |bs| && 0 <= k < |bs| && j != k && bs[j].vswitch == bs[k].vswitch && HasPvid(bs[j].Addl(), p) && HasPvid(bs[k].Addl(), p)
      ensures PeerPvid(bs, r, p) && HasPvid(bs[r].Addl(), p)
    {
      assert IsPeer(bs, r, if j == r then k else j);
    }
  }

  /** The end of a pass: what exactly keeps the PVIDs from being apart. */
  lemma EndApartIff(o: seq<Bridge>, w: World, env: Env, r: nat, vlans: seq<int>, c: Bridge)
    requires ScanInv(o, w, r, vlans) && NearlyApart(o, env, r) && Gains(o, w, env, r, vlans, c)
    ensures PvidsApart(w.server[r := c], env) <==>
      forall q | PeerPvid(w.server, r, q) :: !HasPvid(c.Addl(), q) && !Supports(c, q)
  {
    var t := w.server[r := c];
    assert w.server[r] == o[r];
    forall q ensures PeerPvid(t, r, q) <==> PeerPvid(w.server, r, q) { SamePeerPvids(w.server, r, c, q); }
    if PvidsApart(t, env) {
      forall q | PeerPvid(w.server, r, q) ensures !HasPvid(c.Addl(), q) && !Supports(c, q) {
        var k :| 0 <= k < |t| && IsPeer(t, r, k) && HasPvid(t[k].Addl(), q);
        assert t[r] == c && !Supports(t[r], q) && (HasPvid(t[r].Addl(), q) ==> k == r);
      }
    } else if forall q | PeerPvid(w.server, r, q) :: !Supports(c, q) {
      EndNearly(o, w, env, r, vlans, c);
      NearlyIsApart(t, env, r);
    }
  }

  lemma SamePeerPvids(bs: seq<Bridge>, r: nat, c: Bridge, q: int)
    requires r < |bs| && c.vswitch == bs[r].vswitch
    ensures PeerPvid(bs[r := c], r, q) <==> PeerPvid(bs, r, q)
  {
    var t := bs[r := c];
    assert forall k | 0 <= k < |bs| && k != r :: t[k] == bs[k] && (IsPeer(t, r, k) <==> IsPeer(bs, r, k));
    if PeerPvid(bs, r, q) {
      var k :| 0 <= k < |bs| && IsPeer(bs, r, k) && HasPvid(bs[k].Addl(), q);
      assert IsPeer(t, r, k) && HasPvid(t[k].Addl(), q);
    }
    if PeerPvid(t, r, q) {
      var k :| 0 <= k < |t| && IsPeer(t, r, k) && HasPvid(t[k].Addl(), q);
      assert IsPeer(bs, r, k) && HasPvid(bs[k].Addl(), q);
    }
  }

  lemma RestartGains(o: seq<Bridge>, env: Env, r: nat, vlans: seq<int>, s: nat)
    requires Request(o, r, vlans) && s < |vlans| && HasPvid(o[r].Addl(), vlans[s]) && NewVid(o, env, r, vlans, s).Some?
    ensures var c := Reassign(o[r], vlans[s], NewVid(o, env, r, vlans, s).value);
      && Gains(o, PassWorld(o, r, vlans, s + 1), env, r, vlans, c)
      && (forall u :: Supports(c, u) <==> Supports(o[r], u))
  {
    var bs := MemoryAt(o, r, vlans, s + 1);
    var n := NewVid(o, env, r, vlans, s).value;
    NewVidIsFree(bs, env, o[r].vswitch, vlans);
    assert Local(o[r]) && bs[r] == o[r];
    ReassignEffect(o[r], vlans[s], n, vlans);
    assert Gained(PassWorld(o, r, vlans, s + 1), env, r, vlans, n);
  }

  lemma MovedNearly(o: seq<Bridge>, env: Env, r: nat, vlans: seq<int>, s: nat)
    requires Request(o, r, vlans) && NearlyApart(o, env, r)
    requires s < |vlans| && HasPvid(o[r].Addl(), vlans[s]) && NewVid(o, env, r, vlans, s).Some?
    ensures NearlyApart(ServerAt(o, r, vlans, s + 1)[r := Reassign(o[r], vlans[s], NewVid(o, env, r, vlans, s).value)], env, r)
  {
    var w := PassWorld(o, r, vlans, s + 1);
    var c := Reassign(o[r], vlans[s], NewVid(o, env, r, vlans, s).value);
    PassWorldInv(o, r, vlans, s + 1);
    RestartGains(o, env, r, vlans, s);
    GainsNearly(o, w, env, r, vlans, c);
  }

  lemma GainsNearly(o: seq<Bridge>, w: World, env: Env, r: nat, vlans: seq<int>, c: Bridge)
    requires ScanInv(o, w, r, vlans) && NearlyApart(o, env, r) && Gains(o, w, env, r, vlans, c)
    requires forall u :: Supports(c, u) <==> Supports(o[r], u)
    ensures NearlyApart(w.server[r := c], env, r)
  {
    forall q | PeerPvid(w.server, r, q) ensures !Supports(c, q) { PeerUnsupported(o, w, env, r, vlans, q); }
    EndNearly(o, w, env, r, vlans, c);
  }

  /** A pass that starts the call over keeps PVIDs nearly apart. */
  lemma RestartNearly(o: seq<Bridge>, env: Env, r: nat, vlans: seq<int>)
    requires Request(o, r, vlans) && NearlyApart(o, env, r) && Restarts(o, env, r, vlans)
    ensures NearlyApart(Restarted(o, env, r, vlans), env, r)
  {
    MovedNearly(o, env, r, vlans, Stop(o, env, r, vlans));
  }

  lemma {:induction false} LastPassNearly(o: seq<Bridge>, env: Env, r: nat, vlans: seq<int>)
    requires Request(o, r, vlans) && NearlyApart(o, env, r)
    ensures NearlyApart(LastPass(o, env, r, vlans), env, r)
    decreases TotalWanted(o, vlans)
  {
    if Restarts(o, env, r, vlans) {
      RestartNearly(o, env, r, vlans);
      StartsOver(o, env, r, vlans);
      LastPassNearly(Restarted(o, env, r, vlans), env, r, vlans);
    }
  }

  // ---- When PVIDs clash ----

  ghost function Pvids(bs: seq<Bridge>, vs: int): set<int> { set p | 2 <= p <= TOP_VID && ArbitraryOn(bs, vs, p) }

  /** The PVIDs that are gone in memory only. */
  ghost function Lost(o: seq<Bridge>, r: nat, vlans: seq<int>): set<int>
    requires r < |o|
  {
    Pvids(ServerAfter(o, r, vlans), o[r].vswitch) - Pvids(MemoryAfter(o, r, vlans), o[r].vswitch)
  }

  function Above(s: set<int>, q: int): set<int> { set g | g in s && g > q }

  /** Before its last pass a call has given bridge r a PVID that a peer still has after
      it. */
  ghost predicate Inherited(o: seq<Bridge>, env: Env, r: nat, vlans: seq<int>)
    requires r < |o|
  {
    exists q :: HasPvid(o[r].Addl(), q) && PeerPvid(ServerAt(o, r, vlans, Looked(o, env, r, vlans)), r, q)
  }

  /** A VLAN that is put on bridge r is a PVID that a peer still has. */
  ghost predicate TagsPvid(o: seq<Bridge>, r: nat, vlans: seq<int>)
    requires r < |o|
  {
    exists v | v in Missing(o[r], vlans) :: PeerPvid(ServerAfter(o, r, vlans), r, v)
  }

  /** A PVID that is gone in memory only is among the highest free VIDs, as many as
      trunks are to be opened. */
  ghost predicate TakesLost(o: seq<Bridge>, env: Env, r: nat, vlans: seq<int>)
    requires r < |o|
  {
    exists q | q in Lost(o, r, vlans) :: |Above(FreeAfter(o, env, r, vlans), q)| < TrunksToOpen(o, r, vlans, env.acrossVeas)
  }

  lemma PickedIff(free: set<int>, picks: set<int>, n: nat, q: int)
    requires TopOf(picks, free, n) && q in free
    ensures q in picks <==> |Above(free, q)| < n
  {
    if q in picks {
      forall g | g in Above(free, q) ensures g in picks - {q} {}
      SubsetSize(Above(free, q), picks - {q});
    } else {
      SubsetSize(picks, Above(free, q));
    }
  }

  /** What is lost is a PVID of a peer. */
  lemma LostIsPeers(o: seq<Bridge>, r: nat, vlans: seq<int>, q: int)
    requires r < |o| && q in Lost(o, r, vlans)
    ensures PeerPvid(ServerAfter(o, r, vlans), r, q)
  {
    var s, f := ServerAfter(o, r, vlans), MemoryAfter(o, r, vlans);
    var k :| 0 <= k < |s| && s[k].vswitch == o[r].vswitch && HasPvid(s[k].Addl(), q);
    assert !HasPvid(f[r].Addl(), q);
    assert IsPeer(s, r, k);
  }

  /** A PVID of a peer that is free in memory is lost. */
  lemma FreeIsLost(o: seq<Bridge>, env: Env, r: nat, vlans: seq<int>, q: int)
    requires r < |o| && q in FreeAfter(o, env, r, vlans) && PeerPvid(ServerAfter(o, r, vlans), r, q)
    ensures q in Lost(o, r, vlans)
  {
    var s, f := ServerAfter(o, r, vlans), MemoryAfter(o, r, vlans);
    UsedOnMembers(f, o[r].vswitch, q);
    var k :| 0 <= k < |s| && IsPeer(s, r, k) && HasPvid(s[k].Addl(), q);
    assert ArbitraryOn(s, o[r].vswitch, q);
    assert !ArbitraryOn(f, o[r].vswitch, q);
  }

  /** What is lost is free, unless it is requested itself. */
  lemma LostIsFree(o: seq<Bridge>, env: Env, r: nat, vlans: seq<int>, q: int)
    requires Request(o, r, vlans) && NearlyApart(o, env, r) && q in Lost(o, r, vlans)
    ensures q in FreeAfter(o, env, r, vlans) || q in Missing(o[r], vlans)
  {
    var w, vs := PassWorld(o, r, vlans, |vlans|), o[r].vswitch;
    PassWorldInv(o, r, vlans, |vlans|);
    UsedOnMembers(w.feed, vs, q);
    var k :| 0 <= k < |o| && w.server[k].vswitch == vs && HasPvid(w.server[k].Addl(), q);
    SameSwitches(o, w, r, vlans, k);
    NearlyMeans(o, env, r, k, q);
    UnusedInMemory(o, w, r, vlans, q);
  }

  lemma NearlyMeans(bs: seq<Bridge>, env: Env, r: nat, k: nat, q: int)
    requires NearlyApart(bs, env, r) && k < |bs| && HasPvid(bs[k].Addl(), q)
    ensures q !in env.Orphans(bs[k].vswitch)
    ensures forall j | 0 <= j < |bs| && bs[j].vswitch == bs[k].vswitch :: !Supports(bs[j], q)
  {
    assert !Supports(bs[k], q);
  }

  lemma FeedSupports(o: seq<Bridge>, w: World, r: nat, vlans: seq<int>, k: nat, u: int)
    requires ScanInv(o, w, r, vlans) && k < |o|
    ensures o[k].vswitch == w.feed[k].vswitch && (Supports(w.feed[k], u) ==> Supports(o[k], u))
  {
    assert Stripped(o[k], w.feed[k], vlans);
  }

  /** A PVID that no wrapper has any more, and no bridge has as a VLAN. */
  lemma UnusedInMemory(o: seq<Bridge>, w: World, r: nat, vlans: seq<int>, q: int)
    requires ScanInv(o, w, r, vlans) && !ArbitraryOn(w.feed, o[r].vswitch, q)
    requires forall j | 0 <= j < |o| && o[j].vswitch == o[r].vswitch :: !Supports(o[j], q)
    ensures !InUse(w.feed, o[r].vswitch, q)
  {
    forall j | 0 <= j < |o| && w.feed[j].vswitch == o[r].vswitch ensures !Supports(w.feed[j], q) {
      FeedSupports(o, w, r, vlans, j, q);
    }
  }

  lemma PickIsGained(o: seq<Bridge>, env: Env, r: nat, vlans: seq<int>, q: int)
    requires Request(o, r, vlans) && q in FreeAfter(o, env, r, vlans)
    ensures Gained(PassWorld(o, r, vlans, |vlans|), env, r, vlans, q)
  {
    var bs := MemoryAfter(o, r, vlans);
    UsedOnMembers(bs, o[r].vswitch, q);
    MissingHas(o[r], vlans, q);
    var b := bs[r];
    assert b == o[r] && (q in vlans && q !in Missing(b, vlans) ==> Supports(b, q));
  }

  /** The PVIDs of a placement clash exactly if a requested VLAN is a PVID of a peer,
      or one that is lost is taken. */
  lemma PlacedApartIff(o: seq<Bridge>, env: Env, r: nat, vlans: seq<int>, c: Bridge, picks: set<int>)
    requires Request(o, r, vlans) && NearlyApart(o, env, r) && Placed(o, env, r, vlans, c, picks)
    ensures PvidsApart(ServerAfter(o, r, vlans)[r := c], env) <==>
      && !TagsPvid(o, r, vlans) && !TakesLost(o, env, r, vlans)
      && forall q | HasPvid(o[r].Addl(), q) :: !PeerPvid(ServerAfter(o, r, vlans), r, q)
  {
    var w := PassWorld(o, r, vlans, |vlans|);
    var free, n := FreeAfter(o, env, r, vlans), TrunksToOpen(o, r, vlans, env.acrossVeas);
    PassWorldInv(o, r, vlans, |vlans|);
    forall q | q in picks ensures Gained(w, env, r, vlans, q) { PickIsGained(o, env, r, vlans, q); }
    assert Gains(o, w, env, r, vlans, c);
    EndApartIff(o, w, env, r, vlans, c);
    forall q | PeerPvid(w.server, r, q) ensures !Supports(o[r], q) { PeerUnsupported(o, w, env, r, vlans, q); }
    assert TakesLost(o, env, r, vlans) && !TagsPvid(o, r, vlans) ==> exists q :: q in picks && PeerPvid(w.server, r, q) by {
      if TakesLost(o, env, r, vlans) && !TagsPvid(o, r, vlans) {
        var q :| q in Lost(o, r, vlans) && |Above(free, q)| < n;
        LostIsPeers(o, r, vlans, q);
        LostIsFree(o, env, r, vlans, q);
        PickedIff(free, picks, n, q);
      }
    }
    forall q | q in picks && PeerPvid(w.server, r, q) ensures TakesLost(o, env, r, vlans) {
      FreeIsLost(o, env, r, vlans, q);
      PickedIff(free, picks, n, q);
    }
  }

  lemma PeerUnsupported(o: seq<Bridge>, w: World, env: Env, r: nat, vlans: seq<int>, q: int)
    requires ScanInv(o, w, r, vlans) && NearlyApart(o, env, r) && PeerPvid(w.server, r, q)
    ensures !Supports(o[r], q)
  {
    var k :| 0 <= k < |w.server| && IsPeer(w.server, r, k) && HasPvid(w.server[k].Addl(), q);
    assert w.server[r] == o[r];
    ServerFacts(o, w, env, r, vlans, k, r, q);
  }

  /** The same where nothing is placed. */
  lemma UnplacedApartIff(o: seq<Bridge>, env: Env, r: nat, vlans: seq<int>, n: nat)
    requires Request(o, r, vlans) && NearlyApart(o, env, r) && n <= |vlans|
    ensures PvidsApart(ServerAt(o, r, vlans, n), env) <==>
      forall q | HasPvid(o[r].Addl(), q) :: !PeerPvid(ServerAt(o, r, vlans, n), r, q)
  {
    var w := PassWorld(o, r, vlans, n);
    PassWorldInv(o, r, vlans, n);
    assert w.server[r := o[r]] == w.server && Local(o[r]);
    EndApartIff(o, w, env, r, vlans, o[r]);
    forall q | PeerPvid(w.server, r, q) ensures !Supports(o[r], q) { PeerUnsupported(o, w, env, r, vlans, q); }
  }

  /** A PVID given to the bridge by an earlier pass is still a peer's; or the call
      succeeds, and a VLAN it puts on the bridge is a PVID of a peer, or a PVID that is
      gone in memory only is among the highest free VIDs. */
  ghost predicate WillClash(o: seq<Bridge>, env: Env, r: nat, vlans: seq<int>)
    requires Request(o, r, vlans)
  {
    var f := LastPass(o, env, r, vlans);
    || Inherited(f, env, r, vlans)
    || (Delivers(f, env, r, vlans) && (TagsPvid(f, r, vlans) || TakesLost(f, env, r, vlans)))
  }

  /** When PVIDs are not apart after a call, although they were before. */
  lemma ClashIff(o: seq<Bridge>, env: Env, r: nat, vlans: seq<int>)
    requires Request(o, r, vlans) && PvidsApart(o, env)
    ensures !PvidsApart(Ensure(o, env, r, vlans).0, env) <==> WillClash(o, env, r, vlans)
  {
    LastPassNearly(o, env, r, vlans);
    var f := LastPass(o, env, r, vlans);
    var c, picks := Ends(f, env, r, vlans);
    if Delivers(f, env, r, vlans) {
      PassableStops(f, env, r, vlans);
      PlacedApartIff(f, env, r, vlans, c, picks);
    } else {
      var n := Looked(f, env, r, vlans);
      assert ServerAt(f, r, vlans, n)[r := f[r]] == ServerAt(f, r, vlans, n);
      UnplacedApartIff(f, env, r, vlans, n);
    }
  }

  // ---- Any run of calls ----

  datatype Call = EnsureCall(r: nat, vlans: seq<int>) | RemoveCall(k: nat, vlan: int, failIfPvid: bool)

  ghost predicate InRange(bs: seq<Bridge>, c: Call) {
    match c
    case EnsureCall(r, _) => r < |bs|
    case RemoveCall(k, _, _) => k < |bs|
  }

  ghost function Exec(bs: seq<Bridge>, env: Env, c: Call): seq<Bridge>
    requires AllLocal(bs) && InRange(bs, c)
  {
    match c
    case EnsureCall(r, vlans) => Ensure(bs, env, r, vlans).0
    case RemoveCall(k, v, fail) => Remove(bs, env, k, v, fail).0
  }

  ghost predicate History(env: Env, states: seq<seq<Bridge>>, calls: seq<Call>) {
    && |states| == |calls| + 1
    && forall i | 0 <= i < |calls| ::
         AllLocal(states[i]) && InRange(states[i], calls[i]) && states[i + 1] == Exec(states[i], env, calls[i])
  }

  /** The call is known to keep PVIDs apart: it is a removal, its peers keep their
      trunks, or it names no VLAN twice and will not clash. */
  ghost predicate Safe(bs: seq<Bridge>, env: Env, c: Call)
    requires AllLocal(bs) && InRange(bs, c)
  {
    match c
    case EnsureCall(r, vlans) => KeepsTrunks(bs, r, vlans) || (Distinct(vlans) && !WillClash(bs, env, r, vlans))
    case RemoveCall(_, _, _) => true
  }

  lemma SafeKeepsApart(bs: seq<Bridge>, env: Env, c: Call)
    requires PvidsApart(bs, env) && InRange(bs, c) && Safe(bs, env, c)
    ensures PvidsApart(Exec(bs, env, c), env)
  {
    match c
    case EnsureCall(r, vlans) =>
      if KeepsTrunks(bs, r, vlans) { EnsureKeepsApart(bs, env, r, vlans); } else { ClashIff(bs, env, r, vlans); }
    case RemoveCall(k, v, fail) => RemoveKeepsApart(bs, env, k, v, fail);
  }

  lemma {:induction false} RunKeepsApart(env: Env, states: seq<seq<Bridge>>, calls: seq<Call>, n: nat)
    requires History(env, states, calls) && n < |states| && PvidsApart(states[0], env)
    requires forall i | 0 <= i < n :: Safe(states[i], env, calls[i])
    ensures PvidsApart(states[n], env)
  {
    if n > 0 {
      RunKeepsApart(env, states, calls, n - 1);
      SafeKeepsApart(states[n - 1], env, calls[n - 1]);
    }
  }

  /** In a run whose requests name no VLAN twice, PVIDs stay apart all the time exactly
      if every call is safe. */
  lemma RunApartIff(env: Env, states: seq<seq<Bridge>>, calls: seq<Call>)
    requires History(env, states, calls) && PvidsApart(states[0], env)
    requires forall i | 0 <= i < |calls| && calls[i].EnsureCall? :: Distinct(calls[i].vlans)
    ensures (forall i | 0 <= i < |states| :: PvidsApart(states[i], env)) <==>
      forall i | 0 <= i < |calls| :: Safe(states[i], env, calls[i])
  {
    if forall i | 0 <= i < |calls| :: Safe(states[i], env, calls[i]) {
      forall i | 0 <= i < |states| ensures PvidsApart(states[i], env) { RunKeepsApart(env, states, calls, i); }
    }
    if forall i | 0 <= i < |states| :: PvidsApart(states[i], env) {
      forall i | 0 <= i < |calls| ensures Safe(states[i], env, calls[i]) {
        assert PvidsApart(states[i], env) && PvidsApart(states[i + 1], env);
        if calls[i].EnsureCall? { ClashIff(states[i], env, calls[i].r, calls[i].vlans); }
      }
    }
  }

  // ---- Calls that ask for no throw-away PVID ----

  /** None of the VLANs is a throw-away PVID. */
  ghost predicate Placeless(bs: seq<Bridge>, vs: int, vlans: seq<int>) { forall v | v in vlans :: !ArbitraryOn(bs, vs, v) }

  ghost predicate Plain(o: seq<Bridge>, r: nat, vlans: seq<int>) {
    Request(o, r, vlans) && Placeless(o, o[r].vswitch, vlans)
  }

  lemma ServerPvids(o: seq<Bridge>, r: nat, vlans: seq<int>, n: nat, q: int)
    requires Request(o, r, vlans) && n <= |vlans|
    ensures PeerPvid(ServerAt(o, r, vlans, n), r, q) ==> PeerPvid(o, r, q) && ArbitraryOn(o, o[r].vswitch, q)
    ensures ArbitraryOn(MemoryAt(o, r, vlans, n), o[r].vswitch, q) ==> ArbitraryOn(o, o[r].vswitch, q)
  {
    var w := PassWorld(o, r, vlans, n);
    PassWorldInv(o, r, vlans, n);
    if PeerPvid(w.server, r, q) {
      var k :| 0 <= k < |o| && IsPeer(w.server, r, k) && HasPvid(w.server[k].Addl(), q);
      SameSwitches(o, w, r, vlans, k);
      assert IsPeer(o, r, k);
    }
    if ArbitraryOn(w.feed, o[r].vswitch, q) {
      var k :| 0 <= k < |o| && w.feed[k].vswitch == o[r].vswitch && HasPvid(w.feed[k].Addl(), q);
      assert Stripped(o[k], w.feed[k], vlans);
    }
  }

  /** Such a call does not start over. */
  lemma PlainPass(o: seq<Bridge>, env: Env, r: nat, vlans: seq<int>)
    requires Plain(o, r, vlans)
    ensures !Restarts(o, env, r, vlans) && LastPass(o, env, r, vlans) == o && !TagsPvid(o, r, vlans)
    ensures Passable(o, env, r, vlans) <==> forall v | v in vlans :: !Blocked(o, r, v) && !Orphaned(o, env, r, v)
  {
    forall i | 0 <= i < |vlans|
      ensures !InTheWay(o, r, vlans, i) && (EndsAt(o, env, r, vlans, i) <==> Blocked(o, r, vlans[i]) || Orphaned(o, env, r, vlans[i]))
    {
      ServerPvids(o, r, vlans, i + 1, vlans[i]);
    }
    forall v | v in Missing(o[r], vlans) ensures !PeerPvid(ServerAfter(o, r, vlans), r, v) {
      MissingHas(o[r], vlans, v);
      ServerPvids(o, r, vlans, |vlans|, v);
    }
  }

  /** Its PVIDs clash exactly if it succeeds and a PVID that is gone in memory only is
      among the highest free VIDs. */
  lemma PlainClashIff(o: seq<Bridge>, env: Env, r: nat, vlans: seq<int>)
    requires Plain(o, r, vlans) && PvidsApart(o, env)
    ensures !PvidsApart(Ensure(o, env, r, vlans).0, env) <==> Delivers(o, env, r, vlans) && TakesLost(o, env, r, vlans)
  {
    PlainPass(o, env, r, vlans);
    ClashIff(o, env, r, vlans);
    var n := Looked(o, env, r, vlans);
    forall q | HasPvid(o[r].Addl(), q) ensures !PeerPvid(ServerAt(o, r, vlans, n), r, q) {
      ServerPvids(o, r, vlans, n, q);
      NearlyIsApart(o, env, r);
    }
  }

  // ---- Which calls can clash, whatever the orphans ----

  /** The PVIDs of the switch that are gone in memory. */
  ghost function Gone(o: seq<Bridge>, r: nat, vlans: seq<int>): set<int>
    requires r < |o|
  {
    Pvids(o, o[r].vswitch) - Pvids(MemoryAfter(o, r, vlans), o[r].vswitch)
  }

  /** No VLAN is a peer's primary PVID, VIDs suffice without orphans, and fewer PVIDs
      above one that is lost are really gone than trunks are to be opened. */
  ghost predicate CanClash(o: seq<Bridge>, r: nat, vlans: seq<int>, acrossVeas: bool)
    requires r < |o|
  {
    && (forall v | v in vlans :: !Blocked(o, r, v))
    && TrunksToOpen(o, r, vlans, acrossVeas) <= |FreeAfter(o, Env(acrossVeas, map[]), r, vlans)|
    && exists q | q in Lost(o, r, vlans) ::
         |Above(Gone(o, r, vlans) - Lost(o, r, vlans), q)| < TrunksToOpen(o, r, vlans, acrossVeas)
  }

  ghost predicate Clashes(o: seq<Bridge>, env: Env, r: nat, vlans: seq<int>)
    requires r < |o| && AllLocal(o)
  {
    PvidsApart(o, env) && !PvidsApart(Ensure(o, env, r, vlans).0, env)
  }

  lemma LostIsGone(o: seq<Bridge>, r: nat, vlans: seq<int>)
    requires Request(o, r, vlans)
    ensures Lost(o, r, vlans) <= Gone(o, r, vlans)
  {
    forall q | q in Lost(o, r, vlans) ensures q in Gone(o, r, vlans) {
      LostIsPeers(o, r, vlans, q);
      ServerPvids(o, r, vlans, |vlans|, q);
    }
  }

  /** What is gone is free for new trunks. */
  lemma GoneIsFree(o: seq<Bridge>, env: Env, r: nat, vlans: seq<int>)
    requires Plain(o, r, vlans) && PvidsApart(o, env)
    ensures Gone(o, r, vlans) <= FreeAfter(o, env, r, vlans)
  {
    var w, vs := PassWorld(o, r, vlans, |vlans|), o[r].vswitch;
    PassWorldInv(o, r, vlans, |vlans|);
    forall q | q in Gone(o, r, vlans) ensures q in FreeAfter(o, env, r, vlans) {
      var k :| 0 <= k < |o| && o[k].vswitch == vs && HasPvid(o[k].Addl(), q);
      NearlyMeans(o, env, r, k, q);
      UnusedInMemory(o, w, r, vlans, q);
      MissingHas(o[r], vlans, q);
      UsedOnMembers(w.feed, vs, q);
    }
  }

  lemma FewerOrphans(bs: seq<Bridge>, env: Env, vs: int, others: seq<int>)
    ensures |FreeVids(bs, env, vs, others)| <= |FreeVids(bs, Env(env.acrossVeas, map[]), vs, others)|
  {
    SubsetSize(FreeVids(bs, env, vs, others), FreeVids(bs, Env(env.acrossVeas, map[]), vs, others));
  }

  lemma ClashNeeds(o: seq<Bridge>, env: Env, r: nat, vlans: seq<int>)
    requires Plain(o, r, vlans) && Clashes(o, env, r, vlans)
    ensures CanClash(o, r, vlans, env.acrossVeas)
  {
    PlainClashIff(o, env, r, vlans);
    PlainPass(o, env, r, vlans);
    FewerOrphans(MemoryAfter(o, r, vlans), env, o[r].vswitch, Missing(o[r], vlans));
    var q :| q in Lost(o, r, vlans) && |Above(FreeAfter(o, env, r, vlans), q)| < TrunksToOpen(o, r, vlans, env.acrossVeas);
    GoneIsFree(o, env, r, vlans);
    SubsetSize(Above(Gone(o, r, vlans) - Lost(o, r, vlans), q), Above(FreeAfter(o, env, r, vlans), q));
  }

  lemma {:induction false} Between(a: set<int>, b: set<int>, n: nat) returns (s: set<int>)
    requires a <= b && |a| <= n <= |b|
    ensures a <= s <= b && |s| == n
    decreases n - |a|
  {
    if |a| == n {
      s := a;
    } else {
      if x :| x in b - a {
        s := Between(a + {x}, b, n);
      } else {
        NoneBetween(a, b);
      }
    }
  }

  lemma NoneBetween(a: set<int>, b: set<int>)
    requires forall y :: y !in b - a
    ensures |b| <= |a|
  {
    forall y | y in b ensures y in a { assert y !in b - a; }
    SubsetSize(b, a);
  }

  /** The highest of those members for which fewer than n of a set are above. */
  lemma {:induction false} Highest(lost: set<int>, others: set<int>, n: nat, q: int) returns (top: int)
    requires q in lost && |Above(others, q)| < n
    ensures top in lost && |Above(others, top)| < n && forall x | x in lost :: x <= top
    decreases |Above(lost, q)|
  {
    if x :| x in lost && x > q {
      SubsetSize(Above(others, x), Above(others, q));
      assert x in Above(lost, q) && Above(lost, x) <= Above(lost, q) - {x};
      SubsetSize(Above(lost, x), Above(lost, q) - {x});
      top := Highest(lost, others, n, x);
    } else {
      top := q;
    }
  }

  /** VIDs to leave free, so that q is among the n highest: what is gone, what is below
      q, and others only if these do not suffice. */
  lemma LeaveFree(free: set<int>, gone: set<int>, lost: set<int>, q: int, n: nat) returns (s: set<int>)
    requires gone <= free && n <= |free| && q in lost && lost <= gone && |Above(gone - lost, q)| < n
    requires forall x | x in lost :: x <= q
    ensures gone <= s <= free && n <= |s| && |Above(s, q)| < n
  {
    s := gone + set x | x in free && x < q;
    if |s| < n {
      s := Between(s, free, n);
      SubsetSize(Above(s, q), s - {q});
    } else {
      SubsetSize(Above(s, q), Above(gone - lost, q));
    }
  }

  /** A list of the members of a set. */
  lemma {:induction false} Listing(s: set<int>) returns (l: seq<int>)
    ensures forall x :: x in l <==> x in s
    decreases |s|
  {
    if x :| x in s {
      l := Listing(s - {x});
      l := [x] + l;
    } else {
      l := [];
    }
  }

  /** The orphans that leave just `keep` of the free VIDs keep out of everybody's way,
      if nothing that is gone is among them. */
  lemma OrphansFor(o: seq<Bridge>, r: nat, vlans: seq<int>, acrossVeas: bool, keep: set<int>) returns (env: Env)
    requires Plain(o, r, vlans) && PvidsApart(o, Env(acrossVeas, map[]))
    requires Gone(o, r, vlans) <= keep <= FreeAfter(o, Env(acrossVeas, map[]), r, vlans)
    ensures env.acrossVeas == acrossVeas && PvidsApart(o, env) && FreeAfter(o, env, r, vlans) == keep
    ensures forall v | v in vlans :: !Orphaned(o, env, r, v)
  {
    var vs, none := o[r].vswitch, Env(acrossVeas, map[]);
    var free := FreeAfter(o, none, r, vlans);
    var l := Listing(free - keep);
    env := Env(acrossVeas, map[vs := l]);
    assert env.Orphans(vs) == l;
    forall p | p in l ensures p !in vlans && !ArbitraryOn(o, vs, p) { SpareIsUnused(o, none, r, vlans, p); }
    forall j, p | 0 <= j < |o| && HasPvid(o[j].Addl(), p) ensures p !in env.Orphans(o[j].vswitch) {
      if o[j].vswitch == vs { assert ArbitraryOn(o, vs, p); }
    }
  }

  /** What is free and not gone is neither requested nor a PVID of the switch. */
  lemma SpareIsUnused(o: seq<Bridge>, env: Env, r: nat, vlans: seq<int>, p: int)
    requires Request(o, r, vlans) && p in FreeAfter(o, env, r, vlans) && p !in Gone(o, r, vlans)
    ensures p !in vlans && !ArbitraryOn(o, o[r].vswitch, p)
  {
    PickIsGained(o, env, r, vlans, p);
    var bs := MemoryAfter(o, r, vlans);
    assert bs[r] == o[r] && !ArbitraryOn(bs, o[r].vswitch, p);
  }

  lemma Clash(o: seq<Bridge>, r: nat, vlans: seq<int>, acrossVeas: bool) returns (env: Env)
    requires Plain(o, r, vlans) && PvidsApart(o, Env(acrossVeas, map[])) && CanClash(o, r, vlans, acrossVeas)
    ensures env.acrossVeas == acrossVeas && Clashes(o, env, r, vlans)
  {
    var none, n := Env(acrossVeas, map[]), TrunksToOpen(o, r, vlans, acrossVeas);
    var gone, lost := Gone(o, r, vlans), Lost(o, r, vlans);
    GoneIsFree(o, none, r, vlans);
    LostIsGone(o, r, vlans);
    var q :| q in lost && |Above(gone - lost, q)| < n;
    var top := Highest(lost, gone - lost, n, q);
    var keep := LeaveFree(FreeAfter(o, none, r, vlans), gone, lost, top, n);
    env := OrphansFor(o, r, vlans, acrossVeas, keep);
    PlainPass(o, env, r, vlans);
    PlainClashIff(o, env, r, vlans);
  }

  /** So there are orphans for which the PVIDs clash exactly if CanClash holds. */
  lemma SomeOrphansClashIff(o: seq<Bridge>, r: nat, vlans: seq<int>, acrossVeas: bool)
    requires Plain(o, r, vlans) && PvidsApart(o, Env(acrossVeas, map[]))
    ensures CanClash(o, r, vlans, acrossVeas) <==> exists env: Env :: env.acrossVeas == acrossVeas && Clashes(o, env, r, vlans)
  {
    if CanClash(o, r, vlans, acrossVeas) {
      var env := Clash(o, r, vlans, acrossVeas);
    } else {
      forall env: Env | env.acrossVeas == acrossVeas ensures !Clashes(o, env, r, vlans) {
        if Clashes(o, env, r, vlans) { ClashNeeds(o, env, r, vlans); }
      }
    }
  }

  // ---- An example ----

  /** Two VLANs asked for that sit on two trunks of one peer: the trunk taken off
      second stays on the server, and its PVID is handed out again. */
  lemma StaleWrapperClash(env: Env)
    requires !env.acrossVeas && env.orphanMap == map[]
    ensures var req := Bridge(1, 0, false, Sea(Trunk(1, []), []), None);
      var peer := Bridge(2, 0, false, Sea(Trunk(2, []), [Trunk(4093, [10]), Trunk(4094, [20])]), None);
      var o := [req, peer];
      && PvidsApart(o, env)
      && Ensure(o, env, 0, [10, 20]).1 == Done
      && !PvidsApart(Ensure(o, env, 0, [10, 20]).0, env)
  {
    var req, peer := ClashReq([]), ClashPeer([Trunk(4093, [10]), Trunk(4094, [20])]);
    var peer1, peer2 := ClashPeer([Trunk(4094, [20])]), ClashPeer([]);
    ClashTakes(env);
    ClashPlaces(env);
    var t := Ensure([req, peer], env, 0, [10, 20]).0;
    assert t == [ClashReq([Trunk(4094, [10, 20])]), peer1];
    assert t[0].Addl()[0].pvid == 4094 && t[1].Addl()[0].pvid == 4094;
    assert HasPvid(t[0].Addl(), 4094) && HasPvid(t[1].Addl(), 4094);
    assert t[0].vswitch == t[1].vswitch;
  }

  ghost function ClashReq(addl: seq<Trunk>): Bridge { Bridge(1, 0, false, Sea(Trunk(1, []), addl), None) }

  ghost function ClashPeer(addl: seq<Trunk>): Bridge { Bridge(2, 0, false, Sea(Trunk(2, []), addl), None) }

  lemma ClashLocal()
    ensures var peer := ClashPeer([Trunk(4093, [10]), Trunk(4094, [20])]);
      && Local(peer)
      && (forall u :: Supports(peer, u) ==> u in {2, 10, 20})
      && (forall p :: HasPvid(peer.Addl(), p) ==> p in {4093, 4094})
  {
    var addl := [Trunk(4093, [10]), Trunk(4094, [20])];
    forall u ensures Tagged(addl, u) ==> u == 10 || u == 20 {}
    forall p ensures HasPvid(addl, p) ==> p == 4093 || p == 4094 {}
  }

  lemma ClashApart(env: Env)
    requires env.orphanMap == map[]
    ensures PvidsApart([ClashReq([]), ClashPeer([Trunk(4093, [10]), Trunk(4094, [20])])], env)
  {
    ClashLocal();
    assert forall u :: Supports(ClashReq([]), u) ==> u == 1;
    assert forall p :: !HasPvid(ClashReq([]).Addl(), p);
  }

  /** Taking VLAN v off a bridge whose only trunk of that VLAN holds nothing else. */
  lemma ClashRemoves(env: Env, w: World, v: int, addl: seq<Trunk>)
    requires |w.server| == |w.feed| == 2 && w.feed[0] == ClashReq([]) && w.feed[1] == ClashPeer([Trunk(ClashPvid(addl), [v])] + addl)
    requires v > 2 && !Tagged(addl, v) && !HasPvid(addl, v) && ClashPvid(addl) != v && Local(w.feed[1])
    ensures TakeFromPeer(w, env, 0, v) == (w.Post(1, ClashPeer(addl)), Done)
  {
    var all := [Trunk(ClashPvid(addl), [v])] + addl;
    assert all[0].tags == [v];
    assert Tagged(all, v);
    assert FirstPeer(w.feed, 0, v, 1) == 1 && FirstPeer(w.feed, 0, v, 0) == 1;
    RemoveCases(w, env, 1, v);
    assert TrunkWith(all, v) == 0 && all[..0] + all[1..] == addl;
    assert Without(w.feed[1], v) == ClashPeer(addl);
    assert !Removable(ClashPeer(addl), v);
    assert Purge(w.feed[1], v) == ClashPeer(addl);
  }

  function ClashPvid(addl: seq<Trunk>): int { if addl == [] then 4094 else 4093 }

  lemma ClashTakes(env: Env)
    requires !env.acrossVeas && env.orphanMap == map[]
    ensures var req, peer := ClashReq([]), ClashPeer([Trunk(4093, [10]), Trunk(4094, [20])]);
      var peer1, peer2 := ClashPeer([Trunk(4094, [20])]), ClashPeer([]);
      && PvidsApart([req, peer], env)
      && Scan(Fetch([req, peer]), env, 0, [10, 20], 0, []) == Scanned(World([req, peer1], [req, peer2], {1}), [10, 20])
  {
    var req, peer := ClashReq([]), ClashPeer([Trunk(4093, [10]), Trunk(4094, [20])]);
    var peer1, peer2 := ClashPeer([Trunk(4094, [20])]), ClashPeer([]);
    ClashApart(env);
    var w1 := World([req, peer1], [req, peer1], {1});
    ClashFirst(env);
    ClashSecond(env);
    assert [10] + [20] == [10, 20];
  }

  lemma ScanNext(w: World, env: Env, r: nat, vlans: seq<int>, i: nat, added: seq<int>, w1: World)
    requires r < |w.server| == |w.feed| && i < |vlans| && !Supports(w.feed[r], vlans[i])
    requires TakeFromPeer(w, env, r, vlans[i]) == (w1, Done) && !ArbitraryOn(w1.feed, w1.feed[r].vswitch, vlans[i])
    requires vlans[i] !in env.Orphans(w1.feed[r].vswitch)
    ensures Scan(w, env, r, vlans, i, added) == Scan(w1, env, r, vlans, i + 1, added + [vlans[i]])
  {
  }

  lemma ClashFirst(env: Env)
    requires env.orphanMap == map[]
    ensures var peer, peer1 := ClashPeer([Trunk(4093, [10]), Trunk(4094, [20])]), ClashPeer([Trunk(4094, [20])]);
      Scan(Fetch([ClashReq([]), peer]), env, 0, [10, 20], 0, [])
        == Scan(World([ClashReq([]), peer1], [ClashReq([]), peer1], {1}), env, 0, [10, 20], 1, [10])
  {
    var peer, peer1 := ClashPeer([Trunk(4093, [10]), Trunk(4094, [20])]), ClashPeer([Trunk(4094, [20])]);
    var w0, w1 := Fetch([ClashReq([]), peer]), World([ClashReq([]), peer1], [ClashReq([]), peer1], {1});
    assert [Trunk(4093, [10])] + [Trunk(4094, [20])] == peer.Addl();
    ClashApart(env);
    assert Local(w0.feed[1]);
    ClashRemoves(env, w0, 10, [Trunk(4094, [20])]);
    assert w0.Post(1, peer1) == w1;
    assert [] + [10] == [10];
    ScanNext(w0, env, 0, [10, 20], 0, [], w1);
  }

  lemma ClashSecond(env: Env)
    requires env.orphanMap == map[]
    ensures var peer1 := ClashPeer([Trunk(4094, [20])]);
      Scan(World([ClashReq([]), peer1], [ClashReq([]), peer1], {1}), env, 0, [10, 20], 1, [10])
        == Scanned(World([ClashReq([]), peer1], [ClashReq([]), ClashPeer([])], {1}), [10] + [20])
  {
    var peer1 := ClashPeer([Trunk(4094, [20])]);
    var w1 := World([ClashReq([]), peer1], [ClashReq([]), peer1], {1});
    var w2 := World([ClashReq([]), peer1], [ClashReq([]), ClashPeer([])], {1});
    assert [Trunk(4094, [20])] + [] == peer1.Addl();
    assert Local(peer1);
    ClashRemoves(env, w1, 20, []);
    assert w1.Post(1, ClashPeer([])) == w2;
    ScanNext(w1, env, 0, [10, 20], 1, [10], w2);
  }

  lemma ClashPlaces(env: Env)
    requires !env.acrossVeas && env.orphanMap == map[]
    ensures PlaceAll([ClashReq([]), ClashPeer([])], env, 0, [10, 20], [10, 20]) == Some(ClashReq([Trunk(4094, [10, 20])]))
  {
    var req, req1, req2 := ClashReq([]), ClashReq([Trunk(4094, [10])]), ClashReq([Trunk(4094, [10, 20])]);
    var peer := ClashPeer([]);
    assert [req, peer][1..] == [peer] && ListVlans(req) == [1] && ListVlans(peer) == [2];
    assert UsedOn([peer], 0) == [2];
    assert UsedOn([req, peer], 0) == [1, 2];
    assert FreeVid(Reserved([req, peer], env, 0, [10, 20])) == Some(4094);
    assert Counts(req.Addl()) == [] && Counts(req1.Addl()) == [1] && Emptiest([1]) == Some(0);
    assert [10] + [20] == [10, 20] && [10, 20][1..] == [20] && [20][1..] == [];
    assert [req, peer][0 := req1] == [req1, peer] && [req1, peer][0 := req2] == [req2, peer];
    assert req.WithAddl(Place([], None, 10, 4094)) == req1 by { assert [] + [Trunk(4094, [10])] == [Trunk(4094, [10])]; }
    assert req1.WithAddl(Place(req1.Addl(), Some(0), 20, 4094)) == req2;
    assert FindAvailable([], false, false) == None && FindAvailable([1], false, false) == Some(0);
    assert PlaceAll([req, peer], env, 0, [10, 20], [10, 20]) == PlaceAll([req1, peer], env, 0, [20], [10, 20]);
    assert PlaceAll([req1, peer], env, 0, [20], [10, 20]) == PlaceAll([req2, peer], env, 0, [], [10, 20]);
  }
}
