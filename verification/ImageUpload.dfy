/** The cross-host upload protocol of `get_or_upload_image_lu`.

    Hosts that share a storage pool, and nothing else, agree on who uploads an
    image by listing, creating and deleting named LUs.  Every listing, creation
    and deletion is one atomic step of the system; any of the listings, the
    creations and the upload may raise.  LUs that belong to nobody here come and
    go freely, as long as they are not named like the image or like a marker. */
module LuNames {
  /** Python's order on strings: by code point, shorter first. */
  predicate LexLe(a: string, b: string) {
    a == [] || (b != [] && (a[0] < b[0] || (a[0] == b[0] && LexLe(a[1..], b[1..]))))
  }

  lemma LexReflexive(a: string)
    ensures LexLe(a, a)
  {
  }

  lemma LexTotal(a: string, b: string)
    ensures LexLe(a, b) || LexLe(b, a)
  {
  }

  lemma {:induction false} LexAntisymmetric(a: string, b: string)
    requires LexLe(a, b) && LexLe(b, a)
    ensures a == b
  {
    if a != [] {
      LexAntisymmetric(a[1..], b[1..]);
      assert a == [a[0]] + a[1..] && b == [b[0]] + b[1..];
    }
  }

  lemma LexTransitive(a: string, b: string, c: string)
    requires LexLe(a, b) && LexLe(b, c)
    ensures LexLe(a, c)
  {
  }

  ghost predicate IsLeast(n: string, names: set<string>) {
    n in names && forall m | m in names :: LexLe(n, m)
  }

  lemma {:induction false} LeastExists(names: set<string>)
    requires names != {}
    ensures exists n :: IsLeast(n, names)
    decreases |names|
  {
    var a :| a in names;
    var rest := names - {a};
    LexReflexive(a);
    if rest == {} {
      assert names == {a};
      assert IsLeast(a, names);
    } else {
      LeastExists(rest);
      var b :| IsLeast(b, rest);
      LexTotal(a, b);
      if LexLe(a, b) {
        forall m | m in names ensures LexLe(a, m) {
          if m != a { LexTransitive(a, b, m); }
        }
        assert IsLeast(a, names);
      } else {
        assert IsLeast(b, names);
      }
    }
  }

  /** The first name after an ascending sort. */
  ghost function Least(names: set<string>): (n: string)
    requires names != {}
    ensures IsLeast(n, names)
  {
    LeastExists(names);
    var n :| IsLeast(n, names);
    n
  }

  predicate PartAt(name: string, part: string, i: nat) {
    i + |part| <= |name| && name[i..i + |part|] == part
  }

  predicate Contains(name: string, part: string) {
    exists i | 0 <= i <= |name| :: PartAt(name, part, i)
  }

  predicate EndsWith(name: string, suffix: string) {
    |suffix| <= |name| && name[|name| - |suffix|..] == suffix
  }

  lemma EndingIsContained(name: string, suffix: string)
    requires EndsWith(name, suffix)
    ensures Contains(name, suffix)
  {
    var i := |name| - |suffix|;
    assert PartAt(name, suffix, i);
  }
}

module ImageUpload {
  import opened LuNames

  const PREFIX_LEN := 12

  /** `luname` is the image; host h marks its upload with prefixes[h] + luname. */
  datatype Config = Config(luname: string, prefixes: seq<string>) {
    ghost predicate Valid() {
      && (forall h | 0 <= h < |prefixes| :: |prefixes[h]| == PREFIX_LEN)
      && (forall g, h | 0 <= g < h < |prefixes| :: prefixes[g] != prefixes[h])
    }

    ghost predicate Host(h: int) { 0 <= h < |prefixes| }

    ghost function Marker(h: int): string
      requires Host(h)
    {
      prefixes[h] + luname
    }
  }

  lemma MarkerFacts(c: Config, h: int)
    requires c.Valid() && c.Host(h)
    ensures c.Marker(h) != c.luname
    ensures EndsWith(c.Marker(h), c.luname) && Contains(c.Marker(h), c.luname)
    ensures forall g | c.Host(g) && g != h :: c.Marker(g) != c.Marker(h)
  {
    assert |c.Marker(h)| == |c.luname| + PREFIX_LEN;
    assert c.Marker(h)[PREFIX_LEN..] == c.luname;
    EndingIsContained(c.Marker(h), c.luname);
    forall g | c.Host(g) && g != h ensures c.Marker(g) != c.Marker(h) {
      assert c.Marker(g)[..PREFIX_LEN] == c.prefixes[g];
      assert c.Marker(h)[..PREFIX_LEN] == c.prefixes[h];
    }
  }

  type LuId = nat

  datatype Lu = Lu(name: string, complete: bool)

  /** Where a host is in the loop.  `won` records whether the marker check was
      passed, i.e. whether the host may have started on the image. */
  datatype Pc =
    | Listing
    | CreatingMarker
    | Checking(marker: LuId)
    | Abdicating(marker: LuId)
    | CreatingImage(marker: LuId)
    | Uploading(marker: LuId, image: LuId)
    | DiscardingImage(marker: LuId, image: LuId)
    | Succeeding(marker: LuId, image: LuId)
    | Failing(marker: LuId, won: bool)
    | Returned(image: LuId)
    | Raised
  {
    predicate Marked() { !Listing? && !CreatingMarker? && !Returned? && !Raised? }
    /** Between winning the check and removing the marker. */
    predicate Critical() {
      CreatingImage? || Uploading? || DiscardingImage? || Succeeding? || (Failing? && won)
    }
    predicate Finished() { Returned? || Raised? }
  }

  datatype State = State(pool: map<LuId, Lu>, next: LuId, pcs: seq<Pc>) {
    ghost function Add(name: string): State {
      this.(pool := pool[next := Lu(name, false)], next := next + 1)
    }
    ghost function Delete(id: LuId): State { this.(pool := pool - {id}) }
    ghost function At(h: int, pc: Pc): State
      requires 0 <= h < |pcs|
    {
      this.(pcs := pcs[h := pc])
    }
  }

  // ---- The decisions a host takes on a listing ----

  /** `_find_lus`: the image LUs whose names contain the image name. */
  ghost function FindLus(c: Config, pool: map<LuId, Lu>): set<LuId> {
    set id | id in pool && Contains(pool[id].name, c.luname)
  }

  ghost predicate Uploaded(c: Config, pool: map<LuId, Lu>, id: LuId) {
    FindLus(c, pool) == {id} && pool[id].name == c.luname
  }

  /** `_upload_in_progress`: some marker is visible. */
  ghost predicate UploadInProgress(c: Config, pool: map<LuId, Lu>) {
    exists id | id in FindLus(c, pool) ::
      pool[id].name != c.luname && EndsWith(pool[id].name, c.luname)
  }

  ghost predicate ImageVisible(c: Config, pool: map<LuId, Lu>) {
    exists id | id in FindLus(c, pool) :: pool[id].name == c.luname
  }

  ghost function Names(pool: map<LuId, Lu>, ids: set<LuId>): set<string>
    requires ids <= pool.Keys
  {
    set id | id in ids :: pool[id].name
  }

  /** `_upload_conflict`: the image is already there, or several LUs are visible
      and the alphabetically first one is not this host's marker. */
  ghost predicate UploadConflict(c: Config, pool: map<LuId, Lu>, mkr: string) {
    var lus := FindLus(c, pool);
    if ImageVisible(c, pool) then true
    else if |lus| > 1 then NonEmptyNames(pool, lus); Least(Names(pool, lus)) != mkr
    else false
  }

  lemma NonEmptyNames(pool: map<LuId, Lu>, ids: set<LuId>)
    requires ids <= pool.Keys && |ids| > 0
    ensures Names(pool, ids) != {}
  {
    var id :| id in ids;
    assert pool[id].name in Names(pool, ids);
  }

  // ---- Steps ----

  /** One atomic step of host h. */
  ghost predicate HostStep(c: Config, s: State, h: int, t: State)
    requires 0 <= h < |s.pcs|
  {
    match s.pcs[h]
    case Listing =>
      || t == s.At(h, Raised)
      || (if exists id :: Uploaded(c, s.pool, id) then exists id :: Uploaded(c, s.pool, id) && t == s.At(h, Returned(id))
          else if UploadInProgress(c, s.pool) then t == s
          else t == s.At(h, CreatingMarker))
    case CreatingMarker =>
      || t == s.At(h, Raised)
      || (c.Host(h) && t == s.Add(c.Marker(h)).At(h, Checking(s.next)))
    case Checking(m) =>
      || t == s.At(h, Failing(m, false))
      || (c.Host(h) && t == s.At(h, if UploadConflict(c, s.pool, c.Marker(h)) then Abdicating(m) else CreatingImage(m)))
    case Abdicating(m) => t == s.Delete(m).At(h, Listing)
    case CreatingImage(m) =>
      || t == s.At(h, Failing(m, true))
      || t == s.Add(c.luname).At(h, Uploading(m, s.next))
    case Uploading(m, i) =>
      || t == s.At(h, DiscardingImage(m, i))
      || (i in s.pool && t == s.(pool := s.pool[i := s.pool[i].(complete := true)]).At(h, Succeeding(m, i)))
    case DiscardingImage(m, i) => t == s.Delete(i).At(h, Failing(m, true))
    case Succeeding(m, i) => t == s.Delete(m).At(h, Returned(i))
    case Failing(m, _) => t == s.Delete(m).At(h, Raised)
    case Returned(_) => false
    case Raised => false
  }

  /** LUs the hosts never touch: neither the image nor a marker. */
  ghost predicate Foreign(c: Config, name: string) {
    name != c.luname && forall h | c.Host(h) :: name != c.Marker(h)
  }

  ghost predicate OutsideStep(c: Config, s: State, t: State) {
    || (exists name :: Foreign(c, name) && t == s.Add(name))
    || (exists id :: id in s.pool && Foreign(c, s.pool[id].name) && t == s.Delete(id))
  }

  ghost predicate Next(c: Config, s: State, t: State) {
    (exists h :: 0 <= h < |s.pcs| && HostStep(c, s, h, t)) || OutsideStep(c, s, t)
  }

  /** Nobody has started, and no half-uploaded image or marker of ours is lying
      around; images uploaded earlier may be there. */
  ghost predicate Init(c: Config, s: State) {
    && |s.pcs| == |c.prefixes|
    && (forall h | 0 <= h < |s.pcs| :: s.pcs[h] == Listing)
    && (forall id | id in s.pool ::
          id < s.next && (Foreign(c, s.pool[id].name) || s.pool[id] == Lu(c.luname, true)))
  }

  ghost predicate Run(c: Config, tr: seq<State>) {
    |tr| > 0 && forall i | 0 <= i < |tr| - 1 :: Next(c, tr[i], tr[i + 1])
  }

  // ---- What every step keeps ----

  ghost predicate HostOk(c: Config, s: State, h: int)
    requires 0 <= h < |s.pcs| && c.Host(h)
  {
    var pc := s.pcs[h];
    && (pc.Marked() ==> pc.marker in s.pool && s.pool[pc.marker].name == c.Marker(h))
    && (pc.Uploading? || pc.DiscardingImage? ==> pc.image in s.pool && s.pool[pc.image] == Lu(c.luname, false))
    && (pc.Succeeding? || pc.Returned? ==> pc.image in s.pool && s.pool[pc.image] == Lu(c.luname, true))
  }

  ghost predicate PendingImage(s: State, h: int, id: LuId) {
    0 <= h < |s.pcs| && (s.pcs[h].Uploading? || s.pcs[h].DiscardingImage?) && s.pcs[h].image == id
  }

  ghost predicate HoldsMarker(s: State, h: int, id: LuId) {
    0 <= h < |s.pcs| && s.pcs[h].Marked() && s.pcs[h].marker == id
  }

  /** Every LU is accounted for: foreign, a complete image, an image whose
      uploader is still at it (and so still holds its marker), or a marker in
      the hands of the host it names. */
  ghost predicate LuOk(c: Config, s: State, id: LuId)
    requires id in s.pool
  {
    && id < s.next
    && (s.pool[id].name == c.luname && !s.pool[id].complete ==> exists h :: PendingImage(s, h, id))
    && (forall h | c.Host(h) && s.pool[id].name == c.Marker(h) :: HoldsMarker(s, h, id))
  }

  ghost predicate Inv(c: Config, s: State) {
    && c.Valid()
    && |s.pcs| == |c.prefixes|
    && (forall h | 0 <= h < |s.pcs| :: HostOk(c, s, h))
    && (forall id | id in s.pool :: LuOk(c, s, id))
    && (forall g, h, id | PendingImage(s, g, id) && PendingImage(s, h, id) :: g == h)
  }

  lemma InitInv(c: Config, s: State)
    requires c.Valid() && Init(c, s)
    ensures Inv(c, s)
  {
    forall id | id in s.pool ensures LuOk(c, s, id) {
      forall h | c.Host(h) ensures s.pool[id].name != c.Marker(h) { MarkerFacts(c, h); }
    }
  }

  lemma FreshId(c: Config, s: State)
    requires Inv(c, s)
    ensures s.next !in s.pool
  {
    forall id | id in s.pool ensures id != s.next { assert LuOk(c, s, id); }
  }

  /** Moving host h on without touching the pool. */
  lemma MoveInv(c: Config, s: State, h: int, pc: Pc)
    requires Inv(c, s) && 0 <= h < |s.pcs|
    requires HostOk(c, s.At(h, pc), h)
    requires s.pcs[h].Marked() ==> pc.Marked() && pc.marker == s.pcs[h].marker
    requires forall id :: PendingImage(s, h, id) <==> PendingImage(s.At(h, pc), h, id)
    ensures Inv(c, s.At(h, pc))
  {
    var t := s.At(h, pc);
    forall g | 0 <= g < |t.pcs| ensures HostOk(c, t, g) { assert HostOk(c, s, g); }
    forall id | id in t.pool ensures LuOk(c, t, id) {
      assert LuOk(c, s, id);
      if t.pool[id].name == c.luname && !t.pool[id].complete {
        var g :| PendingImage(s, g, id);
        assert PendingImage(t, g, id);
      }
      forall g | c.Host(g) && t.pool[id].name == c.Marker(g) ensures HoldsMarker(t, g, id) {
        assert HoldsMarker(s, g, id);
      }
    }
    forall g, k, id | PendingImage(t, g, id) && PendingImage(t, k, id) ensures g == k {
      assert PendingImage(s, g, id) && PendingImage(s, k, id);
    }
  }

  /** Creating an LU that host h is answerable for. */
  lemma CreateInv(c: Config, s: State, h: int, name: string, pc: Pc)
    requires Inv(c, s) && 0 <= h < |s.pcs|
    requires (name == c.Marker(h) && !s.pcs[h].Marked() && pc == Checking(s.next))
          || (name == c.luname && s.pcs[h].CreatingImage? && pc == Uploading(s.pcs[h].marker, s.next))
    ensures Inv(c, s.Add(name).At(h, pc))
  {
    MarkerFacts(c, h);
    var t := s.Add(name).At(h, pc);
    FreshId(c, s);
    forall g | 0 <= g < |t.pcs| ensures HostOk(c, t, g) { assert HostOk(c, s, g); }
    forall id | id in t.pool ensures LuOk(c, t, id) {
      if id == s.next {
        if name == c.luname { assert PendingImage(t, h, id); }
        forall g | c.Host(g) && t.pool[id].name == c.Marker(g) ensures HoldsMarker(t, g, id) { MarkerFacts(c, g); }
      } else {
        assert LuOk(c, s, id);
        if t.pool[id].name == c.luname && !t.pool[id].complete {
          var g :| PendingImage(s, g, id);
          assert PendingImage(t, g, id);
        }
        forall g | c.Host(g) && t.pool[id].name == c.Marker(g) ensures HoldsMarker(t, g, id) {
          assert HoldsMarker(s, g, id);
        }
      }
    }
    forall g, k, id | PendingImage(t, g, id) && PendingImage(t, k, id) ensures g == k {
      if id != s.next { assert PendingImage(s, g, id) && PendingImage(s, k, id); }
      else {
        assert HostOk(c, s, g) && HostOk(c, s, k);
      }
    }
  }

  /** Deleting the LU that host h gives up: its marker, or its failed image. */
  lemma DeleteInv(c: Config, s: State, h: int, id: LuId, pc: Pc)
    requires Inv(c, s) && 0 <= h < |s.pcs|
    requires (HoldsMarker(s, h, id) && !s.pcs[h].Uploading? && !s.pcs[h].DiscardingImage? && !pc.Marked()
              && (pc.Returned? ==> s.pcs[h] == Succeeding(id, pc.image)))
          || (s.pcs[h].DiscardingImage? && id == s.pcs[h].image && pc == Failing(s.pcs[h].marker, true))
    ensures Inv(c, s.Delete(id).At(h, pc))
  {
    MarkerFacts(c, h);
    assert HostOk(c, s, h);
    var t := s.Delete(id).At(h, pc);
    forall g | 0 <= g < |t.pcs| ensures HostOk(c, t, g) {
      assert HostOk(c, s, g);
      MarkerFacts(c, g);
      if g != h && PendingImage(s, g, id) { assert PendingImage(s, h, id); }
    }
    forall j | j in t.pool ensures LuOk(c, t, j) {
      assert LuOk(c, s, j);
      if t.pool[j].name == c.luname && !t.pool[j].complete {
        var g :| PendingImage(s, g, j);
        assert PendingImage(t, g, j);
      }
      forall g | c.Host(g) && t.pool[j].name == c.Marker(g) ensures HoldsMarker(t, g, j) {
        assert HoldsMarker(s, g, j);
      }
    }
    forall g, k, j | PendingImage(t, g, j) && PendingImage(t, k, j) ensures g == k {
      assert PendingImage(s, g, j) && PendingImage(s, k, j);
    }
  }

  lemma CompleteInv(c: Config, s: State, h: int)
    requires Inv(c, s) && 0 <= h < |s.pcs| && s.pcs[h].Uploading? && s.pcs[h].image in s.pool
    ensures var i := s.pcs[h].image;
      Inv(c, s.(pool := s.pool[i := s.pool[i].(complete := true)]).At(h, Succeeding(s.pcs[h].marker, i)))
  {
    var i := s.pcs[h].image;
    var t := s.(pool := s.pool[i := s.pool[i].(complete := true)]).At(h, Succeeding(s.pcs[h].marker, i));
    assert PendingImage(s, h, i);
    MarkerFacts(c, h);
    assert HostOk(c, s, h);
    forall g | 0 <= g < |t.pcs| ensures HostOk(c, t, g) {
      assert HostOk(c, s, g);
      MarkerFacts(c, g);
      if g != h && PendingImage(s, g, i) { assert false; }
    }
    forall j | j in t.pool ensures LuOk(c, t, j) {
      assert LuOk(c, s, j);
      if t.pool[j].name == c.luname && !t.pool[j].complete {
        var g :| PendingImage(s, g, j);
        assert PendingImage(t, g, j);
      }
      forall g | c.Host(g) && t.pool[j].name == c.Marker(g) ensures HoldsMarker(t, g, j) {
        assert HoldsMarker(s, g, j);
      }
    }
    forall g, k, j | PendingImage(t, g, j) && PendingImage(t, k, j) ensures g == k {
      assert PendingImage(s, g, j) && PendingImage(s, k, j);
    }
  }

  lemma HostStepInv(c: Config, s: State, h: int, t: State)
    requires Inv(c, s) && 0 <= h < |s.pcs| && HostStep(c, s, h, t)
    ensures Inv(c, t)
  {
    assert HostOk(c, s, h);
    match s.pcs[h]
    case Listing =>
      if t == s.At(h, Raised) || t == s.At(h, CreatingMarker) { MoveInv(c, s, h, t.pcs[h]); }
      else if t != s {
        var id :| Uploaded(c, s.pool, id) && t == s.At(h, Returned(id));
        FoundImageIsComplete(c, s, id);
        MoveInv(c, s, h, Returned(id));
      }
    case CreatingMarker =>
      if t == s.At(h, Raised) { MoveInv(c, s, h, Raised); } else { CreateInv(c, s, h, c.Marker(h), Checking(s.next)); }
    case Checking(_) => MoveInv(c, s, h, t.pcs[h]);
    case Abdicating(m) => DeleteInv(c, s, h, m, Listing);
    case CreatingImage(m) =>
      if t == s.At(h, Failing(m, true)) { MoveInv(c, s, h, Failing(m, true)); }
      else { CreateInv(c, s, h, c.luname, Uploading(m, s.next)); }
    case Uploading(m, i) =>
      if t == s.At(h, DiscardingImage(m, i)) { MoveInv(c, s, h, DiscardingImage(m, i)); } else { CompleteInv(c, s, h); }
    case DiscardingImage(m, i) => DeleteInv(c, s, h, i, Failing(m, true));
    case Succeeding(m, i) => DeleteInv(c, s, h, m, Returned(i));
    case Failing(m, _) => DeleteInv(c, s, h, m, Raised);
  }

  lemma OutsideStepInv(c: Config, s: State, t: State)
    requires Inv(c, s) && OutsideStep(c, s, t)
    ensures Inv(c, t)
  {
    FreshId(c, s);
    forall g | 0 <= g < |t.pcs| ensures HostOk(c, t, g) { assert HostOk(c, s, g); }
    forall id | id in t.pool ensures LuOk(c, t, id) {
      if id in s.pool {
        assert LuOk(c, s, id);
        if t.pool[id].name == c.luname && !t.pool[id].complete {
          var g :| PendingImage(s, g, id);
          assert PendingImage(t, g, id);
        }
        forall g | c.Host(g) && t.pool[id].name == c.Marker(g) ensures HoldsMarker(t, g, id) {
          assert HoldsMarker(s, g, id);
        }
      }
    }
    forall g, k, j | PendingImage(t, g, j) && PendingImage(t, k, j) ensures g == k {
      assert PendingImage(s, g, j) && PendingImage(s, k, j);
    }
  }

  lemma NextInv(c: Config, s: State, t: State)
    requires Inv(c, s) && Next(c, s, t)
    ensures Inv(c, t)
  {
    if OutsideStep(c, s, t) {
      OutsideStepInv(c, s, t);
    } else {
      var h :| 0 <= h < |s.pcs| && HostStep(c, s, h, t);
      HostStepInv(c, s, h, t);
    }
  }

  /** An LU that is the only match of the image name is a finished upload: the
      marker of an unfinished one would have been listed too. */
  lemma FoundImageIsComplete(c: Config, s: State, id: LuId)
    requires Inv(c, s) && Uploaded(c, s.pool, id)
    ensures id in s.pool && s.pool[id] == Lu(c.luname, true)
  {
    assert id in FindLus(c, s.pool);
    assert LuOk(c, s, id);
    forall h | PendingImage(s, h, id) ensures s.pcs[h].marker in FindLus(c, s.pool) && s.pcs[h].marker != id {
      assert HostOk(c, s, h);
      MarkerFacts(c, h);
    }
  }

  // ---- Safety over whole runs ----

  lemma {:induction false} RunInv(c: Config, tr: seq<State>, i: nat)
    requires c.Valid() && Run(c, tr) && Init(c, tr[0]) && i < |tr|
    ensures Inv(c, tr[i])
  {
    if i == 0 {
      InitInv(c, tr[0]);
    } else {
      RunInv(c, tr, i - 1);
      NextInv(c, tr[i - 1], tr[i]);
    }
  }

  /** A step of host g leaves the other hosts where they are, and one that has
      returned an image makes none. */
  lemma HostStepOthers(c: Config, s: State, g: int, t: State)
    requires 0 <= g < |s.pcs| && HostStep(c, s, g, t)
    ensures !s.pcs[g].Returned? && |t.pcs| == |s.pcs| && forall h | 0 <= h < |s.pcs| && h != g :: t.pcs[h] == s.pcs[h]
  {
  }

  /** A host that has returned an image stays returned: no step is left to it. */
  lemma ReturnedStays(c: Config, s: State, t: State, h: int)
    requires Next(c, s, t) && 0 <= h < |s.pcs| && s.pcs[h].Returned?
    ensures |t.pcs| == |s.pcs| && t.pcs[h] == s.pcs[h]
  {
    if !OutsideStep(c, s, t) {
      var g :| 0 <= g < |s.pcs| && HostStep(c, s, g, t);
      HostStepOthers(c, s, g, t);
    }
  }

  /** Whoever returns an image - its own, or one it found - returns an upload
      that has completed, and that image is in the pool from then on. */
  lemma {:induction false} ReturnedImageIsComplete(c: Config, tr: seq<State>, i: nat, j: nat, h: int)
    requires c.Valid() && Run(c, tr) && Init(c, tr[0]) && i <= j < |tr|
    requires 0 <= h < |tr[i].pcs| && tr[i].pcs[h].Returned?
    ensures var id := tr[i].pcs[h].image; id in tr[j].pool && tr[j].pool[id] == Lu(c.luname, true)
    ensures h < |tr[j].pcs| && tr[j].pcs[h] == tr[i].pcs[h]
    decreases j - i
  {
    if i == j {
      RunInv(c, tr, i);
      assert HostOk(c, tr[i], h);
    } else {
      RunInv(c, tr, i);
      ReturnedStays(c, tr[i], tr[i + 1], h);
      ReturnedImageIsComplete(c, tr, i + 1, j, h);
    }
  }

  /** An incomplete image never stands alone: its uploader's marker is listed
      together with it. */
  lemma IncompleteImageHasMarker(c: Config, tr: seq<State>, i: nat, id: LuId)
    requires c.Valid() && Run(c, tr) && Init(c, tr[0]) && i < |tr|
    requires id in tr[i].pool && tr[i].pool[id] == Lu(c.luname, false)
    ensures exists h, m | HoldsMarker(tr[i], h, m) && PendingImage(tr[i], h, id) ::
              m in FindLus(c, tr[i].pool) && c.Host(h) && tr[i].pool[m].name == c.Marker(h) != c.luname
  {
    RunInv(c, tr, i);
    assert LuOk(c, tr[i], id);
    var h :| PendingImage(tr[i], h, id);
    assert HostOk(c, tr[i], h);
    MarkerFacts(c, h);
    assert HoldsMarker(tr[i], h, tr[i].pcs[h].marker);
  }

  /** Once every host has finished, no marker and no unfinished image remain. */
  lemma NothingLeftBehind(c: Config, tr: seq<State>, i: nat)
    requires c.Valid() && Run(c, tr) && Init(c, tr[0]) && i < |tr|
    requires forall h | 0 <= h < |tr[i].pcs| :: tr[i].pcs[h].Finished()
    ensures forall id, h | id in tr[i].pool && c.Host(h) :: tr[i].pool[id].name != c.Marker(h)
    ensures forall id | id in tr[i].pool && tr[i].pool[id].name == c.luname :: tr[i].pool[id].complete
  {
    RunInv(c, tr, i);
    forall id | id in tr[i].pool
      ensures forall h | c.Host(h) :: tr[i].pool[id].name != c.Marker(h)
      ensures tr[i].pool[id].name == c.luname ==> tr[i].pool[id].complete
    {
      assert LuOk(c, tr[i], id);
      forall h ensures !HoldsMarker(tr[i], h, id) && !PendingImage(tr[i], h, id) {}
    }
  }

  // ---- One round of contention ----

  ghost predicate MarkerPresent(s: State) {
    exists h :: 0 <= h < |s.pcs| && s.pcs[h].Marked()
  }

  /** Every contender's marker exists: nobody is about to create one.  At most
      one host is past the check, and its marker sorts before those of all who
      have not taken theirs. */
  ghost predicate RoundInv(c: Config, s: State) {
    && Inv(c, s)
    && (forall h | 0 <= h < |s.pcs| :: !s.pcs[h].CreatingMarker?)
    && (forall g, h | 0 <= g < |s.pcs| && 0 <= h < |s.pcs| && s.pcs[g].Critical() && s.pcs[h].Critical() :: g == h)
    && (forall w, h | 0 <= w < |s.pcs| && 0 <= h < |s.pcs| && s.pcs[w].Critical() && s.pcs[h].Checking? ::
          w != h && LexLe(c.Marker(w), c.Marker(h)))
  }

  /** The check is passed exactly when no image is there and no visible LU
      sorts before this host's marker. */
  lemma CheckPassesIff(c: Config, s: State, h: int)
    requires Inv(c, s) && 0 <= h < |s.pcs| && s.pcs[h].Marked()
    ensures !UploadConflict(c, s.pool, c.Marker(h)) <==>
      && !ImageVisible(c, s.pool)
      && forall id | id in FindLus(c, s.pool) :: LexLe(c.Marker(h), s.pool[id].name)
  {
    var lus := FindLus(c, s.pool);
    var m := s.pcs[h].marker;
    assert HostOk(c, s, h);
    MarkerFacts(c, h);
    assert m in lus;
    LexReflexive(c.Marker(h));
    if |lus| > 1 {
      NonEmptyNames(s.pool, lus);
      var names := Names(s.pool, lus);
      var n := Least(names);
      assert s.pool[m].name in names;
      if forall id | id in lus :: LexLe(c.Marker(h), s.pool[id].name) {
        LexAntisymmetric(n, c.Marker(h));
      } else {
        var id :| id in lus && !LexLe(c.Marker(h), s.pool[id].name);
        assert s.pool[id].name in names;
      }
    } else {
      assert |lus - {m}| == 0;
      assert lus == {m};
    }
  }

  lemma MarkersHoldOffListers(c: Config, s: State, h: int)
    requires Inv(c, s) && 0 <= h < |s.pcs| && s.pcs[h].Marked()
    ensures UploadInProgress(c, s.pool) && forall id :: !Uploaded(c, s.pool, id)
  {
    assert HostOk(c, s, h);
    MarkerFacts(c, h);
    assert s.pcs[h].marker in FindLus(c, s.pool);
  }

  /** What a step may do to the program counters. */
  lemma StepMoves(c: Config, s: State, h: int, t: State)
    requires 0 <= h < |s.pcs| && HostStep(c, s, h, t)
    ensures |t.pcs| == |s.pcs| && t.pcs == s.pcs[h := t.pcs[h]]
    ensures t.pcs[h].Critical() ==> s.pcs[h].Critical() || (s.pcs[h].Checking? && t.pcs[h].CreatingImage?)
    ensures t.pcs[h].Checking? ==> s.pcs[h].CreatingMarker?
    ensures t.pcs[h].CreatingMarker? ==> s.pcs[h].Listing? && !UploadInProgress(c, s.pool)
  {
    if s.pcs[h].Listing? && t != s.At(h, Raised) && t != s.At(h, CreatingMarker) {
      if t != s {
        var id :| Uploaded(c, s.pool, id) && t == s.At(h, Returned(id));
      }
    }
  }

  /** While any marker is left, a step of anybody keeps the round in order. */
  lemma RoundNext(c: Config, s: State, t: State)
    requires RoundInv(c, s) && MarkerPresent(s) && Next(c, s, t)
    ensures RoundInv(c, t)
  {
    NextInv(c, s, t);
    if !OutsideStep(c, s, t) {
      var h :| 0 <= h < |s.pcs| && HostStep(c, s, h, t);
      RoundHostStep(c, s, h, t);
    }
  }

  lemma RoundHostStep(c: Config, s: State, h: int, t: State)
    requires RoundInv(c, s) && MarkerPresent(s) && Inv(c, t)
    requires 0 <= h < |s.pcs| && HostStep(c, s, h, t)
    ensures RoundInv(c, t)
  {
    var k :| 0 <= k < |s.pcs| && s.pcs[k].Marked();
    MarkersHoldOffListers(c, s, k);
    StepMoves(c, s, h, t);
    if s.pcs[h].Checking? && t.pcs[h].CreatingImage? { WinnerIsLeast(c, s, h, t); }
  }

  lemma WinnerIsLeast(c: Config, s: State, h: int, t: State)
    requires RoundInv(c, s) && 0 <= h < |s.pcs| && s.pcs[h].Checking? && HostStep(c, s, h, t) && t.pcs[h].CreatingImage?
    ensures forall g | 0 <= g < |s.pcs| && s.pcs[g].Critical() :: false
    ensures forall g | 0 <= g < |s.pcs| && s.pcs[g].Checking? :: LexLe(c.Marker(h), c.Marker(g))
  {
    CheckPassesIff(c, s, h);
    forall g | 0 <= g < |s.pcs| && s.pcs[g].Marked() ensures LexLe(c.Marker(h), c.Marker(g)) {
      assert HostOk(c, s, g);
      MarkerFacts(c, g);
      assert s.pcs[g].marker in FindLus(c, s.pool);
    }
    forall g | 0 <= g < |s.pcs| && s.pcs[g].Critical() ensures false {
      LexAntisymmetric(c.Marker(g), c.Marker(h));
      MarkerFacts(c, g);
    }
  }

  /** Mutual exclusion for a whole round: start with every contender's marker in
      place and nobody past the check; as long as markers remain, at most one
      host at a time is between winning and removing its marker. */
  lemma {:induction false} RoundExclusion(c: Config, tr: seq<State>, i: nat, g: int, h: int)
    requires Run(c, tr) && i < |tr| && Inv(c, tr[0])
    requires forall k | 0 <= k < |tr[0].pcs| :: !tr[0].pcs[k].CreatingMarker? && !tr[0].pcs[k].Critical()
    requires forall k | 0 <= k < i :: MarkerPresent(tr[k])
    requires 0 <= g < |tr[i].pcs| && 0 <= h < |tr[i].pcs| && tr[i].pcs[g].Critical() && tr[i].pcs[h].Critical()
    ensures g == h
  {
    RoundHolds(c, tr, i);
  }

  lemma {:induction false} RoundHolds(c: Config, tr: seq<State>, i: nat)
    requires Run(c, tr) && i < |tr| && RoundInv(c, tr[0])
    requires forall k | 0 <= k < i :: MarkerPresent(tr[k])
    ensures RoundInv(c, tr[i])
  {
    if i > 0 {
      RoundHolds(c, tr, i - 1);
      RoundNext(c, tr[i - 1], tr[i]);
    }
  }

  ghost predicate BothWon(s: State, w: int, h: int) {
    0 <= w < |s.pcs| && 0 <= h < |s.pcs| && s.pcs[w].CreatingImage? && s.pcs[h].CreatingImage?
  }

  lemma RunExtends(c: Config, tr: seq<State>, t: State)
    requires Run(c, tr) && Next(c, tr[|tr| - 1], t)
    ensures Run(c, tr + [t]) && (tr + [t])[0] == tr[0]
  {
    forall i | 0 <= i < |tr + [t]| - 1 ensures Next(c, (tr + [t])[i], (tr + [t])[i + 1]) {
      if i < |tr| - 1 { assert Next(c, tr[i], tr[i + 1]); }
    }
  }

  /** Hosts w and h decide to create their markers, and w does. */
  lemma FirstMarker(c: Config, w: int, h: int) returns (tr: seq<State>)
    requires c.Valid() && c.Host(w) && c.Host(h) && w != h
    ensures Run(c, tr) && Init(c, tr[0])
    ensures tr[|tr| - 1] == State(map[0 := Lu(c.Marker(w), false)], 1,
        seq(|c.prefixes|, _ => Listing)[w := Checking(0)][h := CreatingMarker])
  {
    var s0 := State(map[], 0, seq(|c.prefixes|, _ => Listing));
    assert FindLus(c, s0.pool) == {};
    var s1 := s0.At(w, CreatingMarker);
    assert HostStep(c, s0, w, s1);
    var s2 := s1.At(h, CreatingMarker);
    assert HostStep(c, s1, h, s2);
    var s3 := s2.Add(c.Marker(w)).At(w, Checking(0));
    assert HostStep(c, s2, w, s3);
    RunExtends(c, [s0], s1);
    RunExtends(c, [s0] + [s1], s2);
    RunExtends(c, [s0] + [s1] + [s2], s3);
    tr := [s0] + [s1] + [s2] + [s3];
    assert s3.pcs == seq(|c.prefixes|, _ => Listing)[w := Checking(0)][h := CreatingMarker];
  }

  /** Host h decides to create its marker before w's is there; w then wins. */
  lemma FirstWinner(c: Config, w: int, h: int) returns (tr: seq<State>)
    requires c.Valid() && c.Host(w) && c.Host(h) && w != h
    ensures Run(c, tr) && Init(c, tr[0]) && Inv(c, tr[|tr| - 1])
    ensures tr[|tr| - 1] == State(map[0 := Lu(c.Marker(w), false)], 1,
        seq(|c.prefixes|, _ => Listing)[w := CreatingImage(0)][h := CreatingMarker])
  {
    tr := FirstMarker(c, w, h);
    var s := tr[|tr| - 1];
    RunInv(c, tr, |tr| - 1);
    LexReflexive(c.Marker(w));
    OnlyMarkerWins(c, s, w);
    var t := s.At(w, CreatingImage(0));
    assert HostStep(c, s, w, t);
    HostStepInv(c, s, w, t);
    RunExtends(c, tr, t);
    tr := tr + [t];
    assert t.pcs == seq(|c.prefixes|, _ => Listing)[w := CreatingImage(0)][h := CreatingMarker];
  }

  lemma OnlyMarkerWins(c: Config, s: State, h: int)
    requires Inv(c, s) && 0 <= h < |s.pcs| && s.pcs[h].Marked()
    requires forall id | id in s.pool :: exists g :: c.Host(g) && s.pool[id].name == c.Marker(g) && LexLe(c.Marker(h), c.Marker(g))
    ensures !UploadConflict(c, s.pool, c.Marker(h))
  {
    forall g | c.Host(g) ensures c.Marker(g) != c.luname { MarkerFacts(c, g); }
    CheckPassesIff(c, s, h);
  }

  /** Outside a round marker order alone does not exclude: of any two hosts, the
      one whose marker sorts first can join the other past the check. */
  lemma ExclusionCanFail(c: Config, w: int, h: int)
    requires c.Valid() && c.Host(w) && c.Host(h) && w != h && LexLe(c.Marker(h), c.Marker(w))
    ensures exists tr :: Run(c, tr) && Init(c, tr[0]) && BothWon(tr[|tr| - 1], w, h)
  {
    var tr := FirstWinner(c, w, h);
    var s := tr[|tr| - 1];
    var s1 := s.Add(c.Marker(h)).At(h, Checking(1));
    assert HostStep(c, s, h, s1);
    RunExtends(c, tr, s1);
    HostStepInv(c, s, h, s1);
    LexReflexive(c.Marker(h));
    OnlyMarkerWins(c, s1, h);
    var s2 := s1.At(h, CreatingImage(1));
    assert HostStep(c, s1, h, s2);
    RunExtends(c, tr + [s1], s2);
    var all := tr + [s1] + [s2];
    assert BothWon(all[|all| - 1], w, h);
  }

  ghost predicate OneCritical(s: State) {
    forall g, h | 0 <= g < |s.pcs| && 0 <= h < |s.pcs| && s.pcs[g].Critical() && s.pcs[h].Critical() :: g == h
  }

  /** So at most one host at a time is past the check in all runs exactly if there
      are no two hosts. */
  lemma ExclusionIff(c: Config)
    requires c.Valid()
    ensures |c.prefixes| < 2 <==>
      forall tr, i: nat | Run(c, tr) && Init(c, tr[0]) && i < |tr| :: OneCritical(tr[i])
  {
    if |c.prefixes| < 2 {
      forall tr, i: nat | Run(c, tr) && Init(c, tr[0]) && i < |tr| ensures OneCritical(tr[i]) {
        RunInv(c, tr, i);
      }
    } else {
      LexTotal(c.Marker(0), c.Marker(1));
      var w, h := if LexLe(c.Marker(1), c.Marker(0)) then 0 else 1, if LexLe(c.Marker(1), c.Marker(0)) then 1 else 0;
      ExclusionCanFail(c, w, h);
      var tr :| Run(c, tr) && Init(c, tr[0]) && BothWon(tr[|tr| - 1], w, h);
      assert !OneCritical(tr[|tr| - 1]);
    }
  }

  /** With host w past the check, host h passes it too exactly if no image is there
      yet and no listed name sorts before h's marker. */
  lemma JoinsIff(c: Config, s: State, w: int, h: int)
    requires Inv(c, s) && 0 <= w < |s.pcs| && 0 <= h < |s.pcs| && s.pcs[w].Critical() && s.pcs[h].Checking?
    ensures HostStep(c, s, h, s.At(h, CreatingImage(s.pcs[h].marker))) <==>
      && (forall id | id in FindLus(c, s.pool) :: s.pool[id].name != c.luname)
      && (forall id | id in FindLus(c, s.pool) :: LexLe(c.Marker(h), s.pool[id].name))
  {
    CheckPassesIff(c, s, h);
    assert s.At(h, CreatingImage(s.pcs[h].marker)).pcs[h] == CreatingImage(s.pcs[h].marker);
    assert s.At(h, Failing(s.pcs[h].marker, false)).pcs[h].Failing?;
    assert s.At(h, Abdicating(s.pcs[h].marker)).pcs[h].Abdicating?;
  }

  // ---- A second image whose name contains the first one's ----

  /** The image is there, and another LU with its name as part of the name. */
  ghost predicate Crowded(c: Config, pool: map<LuId, Lu>) {
    ImageVisible(c, pool) && |FindLus(c, pool)| > 1
  }

  /** With the image there, a listing can end the call exactly if the pool is not
      crowded. */
  lemma ListingReturnsIff(c: Config, s: State, h: int)
    requires 0 <= h < |s.pcs| && s.pcs[h].Listing? && ImageVisible(c, s.pool)
    ensures (exists t :: HostStep(c, s, h, t) && t.pcs[h].Returned?) <==> !Crowded(c, s.pool)
  {
    if !Crowded(c, s.pool) {
      var id :| id in FindLus(c, s.pool) && s.pool[id].name == c.luname;
      assert |FindLus(c, s.pool) - {id}| == 0;
      assert FindLus(c, s.pool) == {id} && Uploaded(c, s.pool, id);
      var t := s.At(h, Returned(id));
      assert HostStep(c, s, h, t) && t.pcs[h].Returned?;
    } else {
      forall t | HostStep(c, s, h, t) ensures !t.pcs[h].Returned? {}
    }
  }

  ghost predicate NotThere(pc: Pc) { !pc.Returned? && !pc.Critical() }

  lemma CrowdedStep(c: Config, s: State, t: State, h: int)
    requires Next(c, s, t) && 0 <= h < |s.pcs| && Crowded(c, s.pool) && NotThere(s.pcs[h])
    ensures h < |t.pcs| && NotThere(t.pcs[h])
  {
    if !OutsideStep(c, s, t) {
      var g :| 0 <= g < |s.pcs| && HostStep(c, s, g, t);
      HostStepOthers(c, s, g, t);
      if g == h { CrowdedHostStep(c, s, h, t); }
    }
  }

  lemma CrowdedHostStep(c: Config, s: State, h: int, t: State)
    requires 0 <= h < |s.pcs| && HostStep(c, s, h, t) && Crowded(c, s.pool) && NotThere(s.pcs[h])
    ensures NotThere(t.pcs[h])
  {
    assert forall id :: !Uploaded(c, s.pool, id);
  }

  ghost predicate CrowdedAt(c: Config, tr: seq<State>, k: nat) {
    k + 1 < |tr| && Crowded(c, tr[k].pool) && Next(c, tr[k], tr[k + 1])
  }

  lemma {:induction false} CrowdedRun(c: Config, tr: seq<State>, i: nat, j: nat, h: int)
    requires i <= j < |tr| && 0 <= h < |tr[i].pcs| && NotThere(tr[i].pcs[h])
    requires forall k: nat | i <= k < j :: CrowdedAt(c, tr, k)
    ensures h < |tr[j].pcs| && NotThere(tr[j].pcs[h])
    decreases j - i
  {
    if i < j {
      CrowdedRun(c, tr, i, j - 1, h);
      assert CrowdedAt(c, tr, j - 1);
      CrowdedStep(c, tr[j - 1], tr[j], h);
    }
  }

  /** While the pool is crowded, nobody who asks for the image gets it: a host that is
      not past the check neither returns the image nor gets past the check. */
  lemma NobodyGetsCrowdedImage(c: Config, tr: seq<State>, i: nat, j: nat, h: int)
    requires Run(c, tr) && i <= j < |tr| && 0 <= h < |tr[i].pcs| && NotThere(tr[i].pcs[h])
    requires forall k | i <= k < j :: Crowded(c, tr[k].pool)
    ensures h < |tr[j].pcs| && NotThere(tr[j].pcs[h])
  {
    forall k: nat | i <= k < j ensures CrowdedAt(c, tr, k) { RunStep(c, tr, k); }
    CrowdedRun(c, tr, i, j, h);
  }

  lemma RunStep(c: Config, tr: seq<State>, k: nat)
    requires Run(c, tr) && k + 1 < |tr|
    ensures Next(c, tr[k], tr[k + 1])
  {
  }

  /** Without a marker in sight it goes round: it creates its marker, abdicates for the
      image, deletes the marker, and the pool is as it was. */
  lemma CrowdedGoesRound(c: Config, s: State, h: int) returns (tr: seq<State>)
    requires Inv(c, s) && 0 <= h < |s.pcs| && s.pcs[h].Listing? && Crowded(c, s.pool) && !UploadInProgress(c, s.pool)
    ensures Run(c, tr) && |tr| == 5 && tr[0] == s && tr[4] == s.(next := s.next + 1)
  {
    var m := s.next;
    FreshId(c, s);
    assert forall id :: !Uploaded(c, s.pool, id);
    var s1 := s.At(h, CreatingMarker);
    assert HostStep(c, s, h, s1);
    var s2 := s1.Add(c.Marker(h)).At(h, Checking(m));
    assert HostStep(c, s1, h, s2);
    StillVisible(c, s.pool, m, c.Marker(h));
    var s3 := s2.At(h, Abdicating(m));
    assert HostStep(c, s2, h, s3);
    var s4 := s3.Delete(m).At(h, Listing);
    assert HostStep(c, s3, h, s4);
    assert s4.pool == s.pool && s4.pcs == s.pcs;
    RunExtends(c, [s], s1);
    RunExtends(c, [s] + [s1], s2);
    RunExtends(c, [s] + [s1] + [s2], s3);
    RunExtends(c, [s] + [s1] + [s2] + [s3], s4);
    tr := [s] + [s1] + [s2] + [s3] + [s4];
  }

  lemma StillVisible(c: Config, pool: map<LuId, Lu>, m: LuId, name: string)
    requires ImageVisible(c, pool) && m !in pool
    ensures ImageVisible(c, pool[m := Lu(name, false)])
  {
    var id :| id in FindLus(c, pool) && pool[id].name == c.luname;
    assert id in FindLus(c, pool[m := Lu(name, false)]);
  }

  /** So it is with a finished image and any other LU whose name contains its name. */
  lemma TwoImagesCrowd(c: Config, pool: map<LuId, Lu>, img: LuId, other: LuId)
    requires img in pool && other in pool && img != other && pool[img].name == c.luname && Contains(pool[other].name, c.luname)
    ensures Crowded(c, pool)
  {
    assert PartAt(c.luname, c.luname, 0);
    assert img in FindLus(c, pool) && other in FindLus(c, pool);
    assert |FindLus(c, pool) - {img}| > 0;
  }
}
