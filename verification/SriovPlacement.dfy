/** Choosing the SR-IOV ports and the Virtual I/O Servers that back a vNIC: servers in
    rotation, ports spread over the cards, the least saturated port first. */
module SriovPlacement {
  import opened Options
  import opened RoundRobin

  datatype Port = Port(card: int, id: int, locCode: string, linkUp: bool, cfgLps: int, cfgMaxLps: int,
                       minGranularity: real, allocatedCapacity: real)

  datatype Adapter = Adapter(sriovMode: bool, running: bool, ports: seq<Port>)

  datatype Vios = Vios(uuid: string, active: bool, vnicCapable: bool, failoverCapable: bool)

  datatype System = System(vnicCapable: bool, failoverCapable: bool, adapters: seq<Adapter>)

  datatype BackDev = BackDev(vios: string, card: int, port: int, capacity: Option<real>)

  datatype Error =
    | SystemNotVnicCapable | VnicFailoverNotSupportedSys
    | NoRunningSharedSriovAdapters
    | NotEnoughActiveVioses | NoVnicCapableVioses | VnicFailoverNotSupportedVios
    | InsufficientSriovCapacity(found: nat)

  // ---- Filters ----

  /** `port_ok`: listed, up if that is asked for, with a logical port to spare and
      enough capacity left. */
  predicate PortOk(p: Port, locCodes: seq<string>, capacity: Option<real>, checkLink: bool) {
    && p.locCode in locCodes
    && (checkLink ==> p.linkUp)
    && p.cfgLps < p.cfgMaxLps
    && p.allocatedCapacity + (if capacity.Some? && capacity.value > p.minGranularity then capacity.value else p.minGranularity) <= 1.0
  }

  function GoodOf(ports: seq<Port>, locCodes: seq<string>, capacity: Option<real>, checkLink: bool): (r: seq<Port>)
    ensures forall p :: p in r <==> p in ports && PortOk(p, locCodes, capacity, checkLink)
  {
    if ports == [] then []
    else (if PortOk(ports[0], locCodes, capacity, checkLink) then [ports[0]] else []) + GoodOf(ports[1..], locCodes, capacity, checkLink)
  }

  /** `_get_good_pport_list` on the adapters that `_get_good_sriovs` lets through. */
  function GoodPorts(adapters: seq<Adapter>, locCodes: seq<string>, capacity: Option<real>, checkLink: bool): (r: seq<Port>)
    ensures forall p :: p in r <==> exists a | a in adapters ::
      a.sriovMode && a.running && p in a.ports && PortOk(p, locCodes, capacity, checkLink)
  {
    if adapters == [] then []
    else
      var a := adapters[0];
      (if a.sriovMode && a.running then GoodOf(a.ports, locCodes, capacity, checkLink) else [])
        + GoodPorts(adapters[1..], locCodes, capacity, checkLink)
  }

  predicate AnyRunning(adapters: seq<Adapter>) { exists a | a in adapters :: a.sriovMode && a.running }

  function Filter(vioses: seq<Vios>, keep: Vios -> bool): (r: seq<Vios>)
    ensures forall v :: v in r <==> v in vioses && keep(v)
  {
    if vioses == [] then [] else (if keep(vioses[0]) then [vioses[0]] else []) + Filter(vioses[1..], keep)
  }

  predicate Capable(v: Vios) { v.active && v.vnicCapable }

  predicate FailoverFit(v: Vios) { Capable(v) && v.failoverCapable }

  predicate AnyOf(vioses: seq<Vios>, keep: Vios -> bool) { exists v | v in vioses :: keep(v) }

  /** What is left of the servers, if `rest` are just those that fit. */
  lemma Remaining(vioses: seq<Vios>, rest: seq<Vios>, fit: Vios -> bool)
    requires forall v :: v in rest <==> v in vioses && fit(v)
    ensures rest != [] <==> AnyOf(vioses, fit)
  {
    if rest != [] { assert rest[0] in rest; }
  }

  /** `_check_and_filter_vioses`: the active, vNIC-capable servers, and only those
      capable of failover if redundancy needs it or there are any. */
  function GoodVioses(vioses: seq<Vios>, redundancy: int): (r: Result<seq<Vios>, Error>)
    ensures r.Ok? ==> r.value != [] && forall v :: v in r.value <==>
      && v in vioses && Capable(v)
      && (redundancy > 1 || AnyOf(vioses, FailoverFit) ==> v.failoverCapable)
    ensures r.Err? ==> match r.error
      case NotEnoughActiveVioses => !AnyOf(vioses, (v: Vios) => v.active)
      case NoVnicCapableVioses => AnyOf(vioses, (v: Vios) => v.active) && !AnyOf(vioses, Capable)
      case VnicFailoverNotSupportedVios => redundancy > 1 && AnyOf(vioses, Capable) && !AnyOf(vioses, FailoverFit)
      case _ => false
    ensures r.Ok? <==> AnyOf(vioses, Capable) && (redundancy > 1 ==> AnyOf(vioses, FailoverFit))
  {
    var active := Filter(vioses, (v: Vios) => v.active);
    Remaining(vioses, active, (v: Vios) => v.active);
    if active == [] then Err(NotEnoughActiveVioses)
    else
      var capable := Filter(active, (v: Vios) => v.vnicCapable);
      Remaining(vioses, capable, Capable);
      if capable == [] then Err(NoVnicCapableVioses)
      else
        var failover := Filter(capable, (v: Vios) => v.failoverCapable);
        Remaining(vioses, failover, FailoverFit);
        var chosen := if redundancy > 1 || failover != [] then failover else capable;
        if chosen == [] then Err(VnicFailoverNotSupportedVios) else Ok(chosen)
  }

  // ---- Which port next ----

  /** Ports of a card in a list. */
  ghost function OnCard(ports: seq<Port>, card: int): nat {
    if ports == [] then 0 else OnCard(ports[..|ports| - 1], card) + if ports[|ports| - 1].card == card then 1 else 0
  }

  ghost predicate Left(rest: seq<Port>, card: int) { exists p | p in rest :: p.card == card }

  /** p is on a card used least among those that have ports left, and there is no less
      saturated port on such a card. */
  ghost predicate Best(used: seq<Port>, rest: seq<Port>, p: Port) {
    && p in rest
    && forall q | q in rest ::
         OnCard(used, p.card) <= OnCard(used, q.card)
         && (OnCard(used, p.card) == OnCard(used, q.card) ==> p.allocatedCapacity <= q.allocatedCapacity)
  }

  function Drop<T>(s: seq<T>, k: nat): (r: seq<T>)
    requires k < |s|
    ensures |r| == |s| - 1
    ensures multiset(s) == multiset(r) + multiset{s[k]}
  {
    assert s == s[..k] + [s[k]] + s[k + 1..];
    s[..k] + s[k + 1..]
  }

  datatype CardUse = CardUse(numUsed: nat, portsLeft: nat)

  /** The table of cards is up to date. */
  ghost predicate Tally(uses: map<int, CardUse>, used: seq<Port>, rest: seq<Port>) {
    && (forall c :: c in uses <==> OnCard(rest, c) > 0)
    && (forall c | c in uses :: uses[c].portsLeft == OnCard(rest, c) && uses[c].numUsed == OnCard(used, c))
  }

  lemma {:induction false} OnCardHas(ports: seq<Port>, card: int)
    ensures OnCard(ports, card) > 0 <==> Left(ports, card)
  {
    if ports != [] {
      OnCardHas(ports[..|ports| - 1], card);
      assert ports == ports[..|ports| - 1] + [ports[|ports| - 1]];
    }
  }

  lemma {:induction false} OnCardSplit(a: seq<Port>, b: seq<Port>, card: int)
    ensures OnCard(a + b, card) == OnCard(a, card) + OnCard(b, card)
  {
    if b == [] {
      assert a + b == a;
    } else {
      OnCardSplit(a, b[..|b| - 1], card);
      assert (a + b)[..|a + b| - 1] == a + b[..|b| - 1];
    }
  }

  lemma OnCardOne(p: Port, card: int)
    ensures OnCard([p], card) == if p.card == card then 1 else 0
  {
    assert OnCard([p][..0], card) == 0;
  }

  lemma OnCardDrop(ports: seq<Port>, k: nat, card: int)
    requires k < |ports|
    ensures OnCard(Drop(ports, k), card) == OnCard(ports, card) - if ports[k].card == card then 1 else 0
  {
    assert ports == ports[..k] + [ports[k]] + ports[k + 1..];
    OnCardSplit(ports[..k] + [ports[k]], ports[k + 1..], card);
    OnCardSplit(ports[..k], [ports[k]], card);
    OnCardSplit(ports[..k], ports[k + 1..], card);
    OnCardOne(ports[k], card);
  }

  method CountCards(ports: seq<Port>) returns (uses: map<int, CardUse>)
    ensures Tally(uses, [], ports)
  {
    uses := map[];
    for i := 0 to |ports|
      invariant Tally(uses, [], ports[..i])
    {
      assert ports[..i + 1][..i] == ports[..i];
      var c := ports[i].card;
      if c !in uses {
        uses := uses[c := CardUse(0, 0)];
      }
      uses := uses[c := uses[c].(portsLeft := uses[c].portsLeft + 1)];
    }
    assert ports[..|ports|] == ports;
  }

  /** The smallest `num_used` of the table, which has just the cards of the ports left. */
  method LeastUses(rest: seq<Port>, uses: map<int, CardUse>) returns (least: nat)
    requires rest != [] && forall p | p in rest :: p.card in uses
    ensures exists p | p in rest :: uses[p.card].numUsed == least
    ensures forall p | p in rest :: least <= uses[p.card].numUsed
  {
    assert rest[0] in rest;
    least := uses[rest[0].card].numUsed;
    for i := 0 to |rest|
      invariant exists p | p in rest :: uses[p.card].numUsed == least
      invariant forall j | 0 <= j < i :: least <= uses[rest[j].card].numUsed
    {
      assert rest[i] in rest;
      if uses[rest[i].card].numUsed < least {
        least := uses[rest[i].card].numUsed;
      }
    }
  }

  /** The least saturated port on a least-used card. */
  method PickPort(rest: seq<Port>, uses: map<int, CardUse>, ghost used: seq<Port>) returns (k: nat)
    requires rest != [] && Tally(uses, used, rest)
    ensures k < |rest| && Best(used, rest, rest[k])
  {
    forall p | p in rest ensures p.card in uses { OnCardHas(rest, p.card); }
    var least := LeastUses(rest, uses);
    var best: Option<nat> := None;
    for i := 0 to |rest|
      invariant best.Some? ==> best.value < i && uses[rest[best.value].card].numUsed == least
      invariant forall j | 0 <= j < i && uses[rest[j].card].numUsed == least ::
        best.Some? && rest[best.value].allocatedCapacity <= rest[j].allocatedCapacity
    {
      if uses[rest[i].card].numUsed == least && (best.None? || rest[i].allocatedCapacity < rest[best.value].allocatedCapacity) {
        best := Some(i);
      }
    }
    k := best.value;
  }

  // ---- Backing devices ----

  /** Port i was the right one to take when it was taken. */
  ghost predicate Picks(all: seq<Port>, used: seq<Port>) {
    forall i | 0 <= i < |used| :: PickedAt(all, used, i)
  }

  ghost predicate PickedAt(all: seq<Port>, used: seq<Port>, i: nat)
    requires i < |used|
  {
    exists rest :: multiset(rest) + multiset(used[..i]) == multiset(all) && Best(used[..i], rest, used[i])
  }

  lemma PicksMore(all: seq<Port>, used: seq<Port>, rest: seq<Port>, p: Port)
    requires Picks(all, used) && multiset(rest) + multiset(used) == multiset(all) && Best(used, rest, p)
    ensures Picks(all, used + [p])
  {
    var used' := used + [p];
    forall i | 0 <= i < |used'| ensures PickedAt(all, used', i) {
      if i < |used| {
        assert PickedAt(all, used, i) && used'[..i] == used[..i];
      } else {
        assert used'[..i] == used;
      }
    }
  }

  /** A hit on a card takes off a port, and with the last port the card. */
  function Hit(uses: map<int, CardUse>, c: int): map<int, CardUse>
    requires c in uses && uses[c].portsLeft > 0
  {
    if uses[c].portsLeft == 1 then uses - {c} else uses[c := CardUse(uses[c].numUsed + 1, uses[c].portsLeft - 1)]
  }

  lemma TallyNext(uses: map<int, CardUse>, used: seq<Port>, rest: seq<Port>, k: nat)
    requires Tally(uses, used, rest) && k < |rest|
    ensures rest[k].card in uses && uses[rest[k].card].portsLeft > 0
    ensures Tally(Hit(uses, rest[k].card), used + [rest[k]], Drop(rest, k))
  {
    var c := rest[k].card;
    OnCardHas(rest, c);
    assert rest[k] in rest;
    forall card
      ensures OnCard(Drop(rest, k), card) == OnCard(rest, card) - if card == c then 1 else 0
      ensures OnCard(used + [rest[k]], card) == OnCard(used, card) + if card == c then 1 else 0
    {
      OnCardDrop(rest, k, card);
      OnCardSplit(used, [rest[k]], card);
      OnCardOne(rest[k], card);
    }
  }

  ghost predicate BackedBy(devs: seq<BackDev>, used: seq<Port>, vioses: seq<Vios>, at: seq<nat>, capacity: Option<real>) {
    && |devs| == |used| == |at|
    && forall i | 0 <= i < |devs| :: at[i] < |vioses| && devs[i] == BackDev(vioses[at[i]].uuid, used[i].card, used[i].id, capacity)
  }

  /** What is checked before the vNIC is touched. */
  predicate Checked(system: System, vioses: seq<Vios>, redundancy: int) {
    && system.vnicCapable && (redundancy > 1 ==> system.failoverCapable) && AnyRunning(system.adapters)
    && GoodVioses(vioses, redundancy).Ok?
  }

  class Vnic {
    var backDevs: seq<BackDev>

    constructor (backDevs: seq<BackDev>)
      ensures this.backDevs == backDevs
    {
      this.backDevs := backDevs;
    }

    /** The inner `_pports_config`, on a vNIC without backing devices. */
    method ConfigurePorts(ports: seq<Port>, vioses: seq<Vios>, redundancy: int, capacity: Option<real>)
      returns (ghost used: seq<Port>, ghost rest: seq<Port>, ghost at: seq<nat>)
      requires backDevs == [] && vioses != []
      modifies this
      ensures BackedBy(backDevs, used, vioses, at, capacity) && Rotates(at, |vioses|)
      ensures multiset(rest) + multiset(used) == multiset(ports) && Picks(ports, used)
      ensures |used| == if redundancy < 0 then 0 else if redundancy < |ports| then redundancy else |ports|
    {
      used, at := [], [];
      var todo := ports;
      var vioIdx: nat := 0;
      var cardUse := CountCards(ports);
      while todo != [] && |backDevs| < redundancy
        invariant BackedBy(backDevs, used, vioses, at, capacity) && Rotates(at, |vioses|)
        invariant vioIdx == if at == [] then 0 else Next(at[|at| - 1], |vioses|)
        invariant multiset(todo) + multiset(used) == multiset(ports) && Picks(ports, used)
        invariant |todo| + |used| == |ports| && (redundancy < 0 ==> used == []) && (redundancy >= 0 ==> |used| <= redundancy)
        invariant Tally(cardUse, used, todo)
        decreases |todo|
      {
        var vio := vioses[vioIdx];
        ghost var here := vioIdx;
        RotatesMore(at, |vioses|, here);
        vioIdx := Next(vioIdx, |vioses|);
        var k := PickPort(todo, cardUse, used);
        var port := todo[k];
        TallyNext(cardUse, used, todo, k);
        PicksMore(ports, used, todo, port);
        cardUse := Hit(cardUse, port.card);
        backDevs := backDevs + [BackDev(vio.uuid, port.card, port.id, capacity)];
        used, at := used + [port], at + [here];
        todo := Drop(todo, k);
      }
      rest := todo;
    }

    /** `set_vnic_back_devs` without redundant ports.  `order` is the shuffled list of
        servers. */
    method SetBackDevs(system: System, locCodes: seq<string>, vioses: seq<Vios>, redundancy: int, capacity: Option<real>, checkLink: bool)
      returns (res: Result<(), Error>, order: seq<Vios>, ghost used: seq<Port>, ghost at: seq<nat>)
      modifies this
      ensures var ports := GoodPorts(system.adapters, locCodes, capacity, checkLink);
        && (res.Ok? ==> GoodVioses(vioses, redundancy).Ok? && multiset(order) == multiset(GoodVioses(vioses, redundancy).value))
        && (res.Ok? ==> redundancy <= |ports| && |backDevs| == if redundancy < 0 then 0 else redundancy)
        && (res.Ok? ==> BackedBy(backDevs, used, order, at, capacity) && Rotates(at, |order|))
        && (res.Ok? ==> multiset(used) <= multiset(ports) && Picks(ports, used))
        && (res.Err? && res.error.InsufficientSriovCapacity? ==>
              |ports| < redundancy && res.error.found == |ports| && backDevs == [])
        && (res.Err? && !res.error.InsufficientSriovCapacity? ==> backDevs == old(backDevs))
      ensures res.Ok? <==>
        Checked(system, vioses, redundancy) && redundancy <= |GoodPorts(system.adapters, locCodes, capacity, checkLink)|
      ensures res.Err? ==> (res.error.InsufficientSriovCapacity? <==> Checked(system, vioses, redundancy))
      ensures res.Err? ==> (backDevs == old(backDevs) <==> old(backDevs) == [] || !Checked(system, vioses, redundancy))
    {
      order, used, at := [], [], [];
      if !system.vnicCapable {
        return Err(SystemNotVnicCapable), order, used, at;
      }
      if redundancy > 1 && !system.failoverCapable {
        return Err(VnicFailoverNotSupportedSys), order, used, at;
      }
      if !AnyRunning(system.adapters) {
        return Err(NoRunningSharedSriovAdapters), order, used, at;
      }
      var good := GoodVioses(vioses, redundancy);
      if good.Err? {
        return Err(good.error), order, used, at;
      }
      order := Shuffle(good.value);
      assert |order| == |multiset(order)|;
      assert |good.value| == |multiset(good.value)|;
      backDevs := [];
      var ports := GoodPorts(system.adapters, locCodes, capacity, checkLink);
      if |ports| < redundancy {
        return Err(InsufficientSriovCapacity(|ports|)), order, used, at;
      }
      ghost var rest;
      used, rest, at := ConfigurePorts(ports, order, redundancy, capacity);
      return Ok(()), order, used, at;
    }
  }

  lemma RotatesMore(at: seq<nat>, n: nat, pos: nat)
    requires n > 0 && Rotates(at, n) && pos < n && (at == [] ==> pos == 0) && (at != [] ==> InTurn(at, n, |at| - 1) && pos == Next(at[|at| - 1], n))
    ensures Rotates(at + [pos], n)
  {
    forall i | 0 <= i < |at| + 1 ensures InTurn(at + [pos], n, i) {
      if i < |at| { assert InTurn(at, n, i); }
    }
  }

  /** `random.shuffle`. */
  method Shuffle(vioses: seq<Vios>) returns (order: seq<Vios>)
    ensures multiset(order) == multiset(vioses)
  {
    order := [];
    var rest := vioses;
    while rest != []
      invariant multiset(order) + multiset(rest) == multiset(vioses)
      decreases |rest|
    {
      var k :| 0 <= k < |rest|;
      order := order + [rest[k]];
      rest := Drop(rest, k);
    }
  }

  /** At most one backing device on each physical port: if no two ports to choose
      from have card and number in common, no two devices have. */
  lemma PortsDistinct(ports: seq<Port>, used: seq<Port>, devs: seq<BackDev>, vioses: seq<Vios>, at: seq<nat>, capacity: Option<real>, i: nat, j: nat)
    requires multiset(used) <= multiset(ports) && BackedBy(devs, used, vioses, at, capacity) && i < j < |devs|
    requires forall a, b | 0 <= a < b < |ports| :: ports[a].card != ports[b].card || ports[a].id != ports[b].id
    ensures devs[i].card != devs[j].card || devs[i].port != devs[j].port
  {
    TwoOfThem(used, i, j);
    assert used[i] in multiset(ports) && used[j] in multiset(ports);
    var a :| 0 <= a < |ports| && ports[a] == used[i];
    var b :| 0 <= b < |ports| && ports[b] == used[j];
    if a == b { OneOfThem(ports, a); }
  }

  lemma TwoOfThem(s: seq<Port>, i: nat, j: nat)
    requires i < j < |s|
    ensures s[i] == s[j] ==> multiset(s)[s[i]] >= 2
  {
    assert s == s[..j] + [s[j]] + s[j + 1..];
    assert s[..j][i] == s[i] && multiset(s) == multiset(s[..j]) + multiset{s[j]} + multiset(s[j + 1..]);
    assert s[i] in multiset(s[..j]);
  }

  lemma OneOfThem(s: seq<Port>, k: nat)
    requires k < |s| && forall a | 0 <= a < |s| && a != k :: s[a] != s[k]
    ensures multiset(s)[s[k]] == 1
  {
    assert s == s[..k] + [s[k]] + s[k + 1..];
    assert multiset(s) == multiset(s[..k]) + multiset{s[k]} + multiset(s[k + 1..]);
    assert s[k] !in s[..k] && s[k] !in s[k + 1..];
    assert s[k] !in multiset(s[..k]) && s[k] !in multiset(s[k + 1..]);
  }

  // ---- Anti-affinity ----

  /** A card is used two or more times beyond another only if the other ran out of
      ports: every one of its ports is in use. */
  lemma {:induction false} CardsEven(all: seq<Port>, used: seq<Port>, a: int, b: int)
    requires Picks(all, used) && multiset(used) <= multiset(all)
    ensures OnCard(used, a) <= OnCard(used, b) + 1 || (forall p: Port :: p.card == b ==> multiset(all)[p] == multiset(used)[p])
    decreases |used|
  {
    if used != [] {
      var n := |used| - 1;
      var before, m := used[..n], used[n];
      assert used == before + [m];
      forall i | 0 <= i < n ensures PickedAt(all, before, i) {
        assert PickedAt(all, used, i) && before[..i] == used[..i];
      }
      CardsEven(all, before, a, b);
      assert PickedAt(all, used, n);
      var rest: seq<Port> :| multiset(rest) + multiset(before) == multiset(all) && Best(before, rest, m);
      OnCardSplit(before, [m], a);
      OnCardSplit(before, [m], b);
      OnCardOne(m, a);
      OnCardOne(m, b);
      if m.card == a && a != b && Left(rest, b) {
        var q :| q in rest && q.card == b;
      } else if m.card == a && a != b {
        forall p: Port | p.card == b ensures multiset(all)[p] == multiset(used)[p] {
          assert p !in rest && p !in multiset(rest);
        }
      }
    }
  }
}
