/** Removing logical units from a shared storage pool, together with the image LUs
    whose last linked clone goes away. */
module LuStorage {
  import opened Options

  datatype LuType = Disk | Image | OtherLu

  /** A missing UDID is the empty string. */
  datatype Lu = Lu(name: string, udid: string, luType: LuType, clonedFrom: Option<string>)

  datatype Error = FoundDevMultipleTimes(name: string, count: nat)

  /** A UDID without its two-digit type. */
  function Suffix(udid: string): string { if |udid| <= 2 then "" else udid[2..] }

  /** The image from which the clone was made. */
  predicate ClonedFrom(clone: Lu, image: Lu) { clone.clonedFrom.Some? && Suffix(clone.clonedFrom.value) == Suffix(image.udid) }

  /** `_image_lu_for_clone`. */
  function ImageForClone(lus: seq<Lu>, clone: Lu): (image: Option<Lu>)
    ensures image.Some? ==> image.value in lus && image.value.luType == Image && ClonedFrom(clone, image.value)
    ensures image.None? ==> forall x | x in lus && x.luType == Image :: !ClonedFrom(clone, x)
  {
    if lus == [] then None
    else if lus[0].luType == Image && ClonedFrom(clone, lus[0]) then Some(lus[0])
    else ImageForClone(lus[1..], clone)
  }

  /** `_image_lu_in_use`. */
  function ImageInUse(lus: seq<Lu>, image: Lu): (used: bool)
    ensures used <==> exists d | d in lus :: d.luType == Disk && ClonedFrom(d, image)
  {
    if lus == [] then false
    else (lus[0].luType == Disk && ClonedFrom(lus[0], image)) || ImageInUse(lus[1..], image)
  }

  // ---- What is left of a list ----

  ghost function Count(lus: seq<Lu>, udid: string): nat {
    if lus == [] then 0 else Count(lus[..|lus| - 1], udid) + if lus[|lus| - 1].udid == udid then 1 else 0
  }

  ghost predicate UniqueUdids(lus: seq<Lu>) { forall u :: Count(lus, u) <= 1 }

  ghost function Kept(lus: seq<Lu>, dead: set<string>): seq<Lu> {
    if lus == [] then []
    else
      var rest, x := Kept(lus[..|lus| - 1], dead), lus[|lus| - 1];
      if x.udid in dead then rest else rest + [x]
  }

  lemma {:induction false} KeptHas(lus: seq<Lu>, dead: set<string>, x: Lu)
    ensures x in Kept(lus, dead) <==> x in lus && x.udid !in dead
  {
    if lus != [] {
      KeptHas(lus[..|lus| - 1], dead, x);
      assert lus == lus[..|lus| - 1] + [lus[|lus| - 1]];
    }
  }

  lemma {:induction false} KeptTwice(lus: seq<Lu>, dead: set<string>, u: string)
    ensures Kept(Kept(lus, dead), {u}) == Kept(lus, dead + {u})
  {
    if lus != [] {
      var n := |lus| - 1;
      KeptTwice(lus[..n], dead, u);
      var rest := Kept(lus[..n], dead);
      if lus[n].udid !in dead { assert (rest + [lus[n]])[..|rest|] == rest; }
    }
  }

  lemma {:induction false} KeptNone(lus: seq<Lu>)
    ensures Kept(lus, {}) == lus
  {
    if lus != [] {
      KeptNone(lus[..|lus| - 1]);
      assert lus == lus[..|lus| - 1] + [lus[|lus| - 1]];
    }
  }

  lemma {:induction false} KeptAbsent(lus: seq<Lu>, u: string)
    requires Count(lus, u) == 0
    ensures Kept(lus, {u}) == lus
  {
    if lus != [] {
      KeptAbsent(lus[..|lus| - 1], u);
      assert lus == lus[..|lus| - 1] + [lus[|lus| - 1]];
    }
  }

  lemma {:induction false} KeptCount(lus: seq<Lu>, dead: set<string>, u: string)
    ensures Count(Kept(lus, dead), u) <= Count(lus, u)
  {
    if lus != [] {
      var n := |lus| - 1;
      KeptCount(lus[..n], dead, u);
      var rest := Kept(lus[..n], dead);
      if lus[n].udid !in dead { assert (rest + [lus[n]])[..|rest|] == rest; }
    }
  }

  lemma {:induction false} CountHas(lus: seq<Lu>, u: string)
    ensures Count(lus, u) == 0 <==> forall x | x in lus :: x.udid != u
  {
    if lus != [] {
      CountHas(lus[..|lus| - 1], u);
      assert lus == lus[..|lus| - 1] + [lus[|lus| - 1]];
    }
  }

  lemma {:induction false} SameUdid(lus: seq<Lu>, x: Lu, y: Lu)
    requires x in lus && y in lus && x.udid == y.udid && Count(lus, x.udid) <= 1
    ensures x == y
  {
    var n := |lus| - 1;
    assert lus == lus[..n] + [lus[n]];
    if lus[n].udid == x.udid { CountHas(lus[..n], x.udid); } else { SameUdid(lus[..n], x, y); }
  }

  /** Taking the only LU with the UDID off the list. */
  lemma {:induction false} TakeOut(lus: seq<Lu>, k: nat)
    requires k < |lus| && Count(lus, lus[k].udid) == 1
    ensures lus[..k] + lus[k + 1..] == Kept(lus, {lus[k].udid})
  {
    var n, u := |lus| - 1, lus[k].udid;
    assert lus == lus[..n] + [lus[n]];
    if k == n {
      KeptAbsent(lus[..n], u);
    } else {
      CountHas(lus[..n], u);
      assert lus[..n][k] in lus[..n];
      TakeOut(lus[..n], k);
      assert lus[..n][..k] + lus[..n][k + 1..] + [lus[n]] == lus[..k] + lus[k + 1..];
    }
  }

  // ---- What `_rm_lus` takes off the list ----

  predicate Requested(reqs: seq<Lu>, x: Lu) { exists r | r in reqs :: r.udid != "" && r.udid == x.udid }

  /** A requested disk LU is a clone of x. */
  predicate Backs(reqs: seq<Lu>, x: Lu) { exists r | r in reqs :: r.luType == Disk && ClonedFrom(r, x) }

  /** A disk LU that nobody asked to remove is a clone of x. */
  predicate StillCloned(all: seq<Lu>, reqs: seq<Lu>, x: Lu) {
    exists d | d in all :: d.luType == Disk && ClonedFrom(d, x) && !Requested(reqs, d)
  }

  predicate Doomed(all: seq<Lu>, reqs: seq<Lu>, delImages: bool, x: Lu) {
    Requested(reqs, x) || (delImages && x.luType == Image && Backs(reqs, x) && !StillCloned(all, reqs, x))
  }

  ghost function Remaining(lus: seq<Lu>, all: seq<Lu>, reqs: seq<Lu>, delImages: bool): seq<Lu> {
    if lus == [] then []
    else
      var rest, x := Remaining(lus[..|lus| - 1], all, reqs, delImages), lus[|lus| - 1];
      if Doomed(all, reqs, delImages, x) then rest else rest + [x]
  }

  lemma {:induction false} RemainingHas(lus: seq<Lu>, all: seq<Lu>, reqs: seq<Lu>, delImages: bool, x: Lu)
    ensures x in Remaining(lus, all, reqs, delImages) <==> x in lus && !Doomed(all, reqs, delImages, x)
  {
    if lus != [] {
      RemainingHas(lus[..|lus| - 1], all, reqs, delImages, x);
      assert lus == lus[..|lus| - 1] + [lus[|lus| - 1]];
    }
  }

  lemma {:induction false} KeptIsRemaining(lus: seq<Lu>, dead: set<string>, all: seq<Lu>, reqs: seq<Lu>, delImages: bool)
    requires forall x | x in lus :: x.udid in dead <==> Doomed(all, reqs, delImages, x)
    ensures Kept(lus, dead) == Remaining(lus, all, reqs, delImages)
  {
    if lus != [] {
      assert lus == lus[..|lus| - 1] + [lus[|lus| - 1]];
      KeptIsRemaining(lus[..|lus| - 1], dead, all, reqs, delImages);
    }
  }

  /** Garbage collection of image LUs is exact: one that nobody asked to remove goes
      exactly if a requested disk LU is a clone of it and no clone of it remains. */
  lemma CollectionIsExact(all: seq<Lu>, reqs: seq<Lu>, x: Lu)
    requires x in all && x.luType == Image && !Requested(reqs, x)
    ensures var left := Remaining(all, all, reqs, true);
      x !in left <==> Backs(reqs, x) && !ImageInUse(left, x)
  {
    var left := Remaining(all, all, reqs, true);
    RemainingHas(all, all, reqs, true, x);
    forall d | d in all && d.luType == Disk ensures d in left <==> !Requested(reqs, d) {
      RemainingHas(all, all, reqs, true, d);
    }
    forall d | d in left ensures d in all { RemainingHas(all, all, reqs, true, d); }
  }

  /** Nothing but requested LUs and images goes, and without `del_unused_images` nothing
      but requested LUs. */
  lemma OthersRemain(all: seq<Lu>, reqs: seq<Lu>, delImages: bool, x: Lu)
    requires x in all && !Requested(reqs, x) && (x.luType != Image || !delImages)
    ensures x in Remaining(all, all, reqs, delImages)
  {
    RemainingHas(all, all, reqs, delImages, x);
  }

  /** Image UDIDs differ in more than the type. */
  ghost predicate UniqueImages(lus: seq<Lu>) {
    forall x, y | x in lus && y in lus && x.luType == Image && y.luType == Image && Suffix(x.udid) == Suffix(y.udid) :: x == y
  }

  ghost function Udids(reqs: seq<Lu>): set<string> {
    if reqs == [] then {}
    else
      var before, u := Udids(reqs[..|reqs| - 1]), reqs[|reqs| - 1].udid;
      if u == "" then before else before + {u}
  }

  lemma {:induction false} UdidsHas(reqs: seq<Lu>, x: Lu)
    ensures x.udid in Udids(reqs) <==> Requested(reqs, x)
  {
    if reqs != [] {
      var before, r := reqs[..|reqs| - 1], reqs[|reqs| - 1];
      UdidsHas(before, x);
      assert reqs == before + [r];
    }
  }

  ghost predicate HasImageOf(backing: seq<Option<Lu>>, r: Lu) {
    exists i | 0 <= i < |backing| :: backing[i].Some? && ClonedFrom(r, backing[i].value)
  }

  /** The images found are images of requested disk LUs. */
  ghost predicate FoundOnly(all: seq<Lu>, reqs: seq<Lu>, backing: seq<Option<Lu>>) {
    forall i | 0 <= i < |backing| && backing[i].Some? ::
      backing[i].value in all && backing[i].value.luType == Image && Backs(reqs, backing[i].value)
  }

  /** No image of a requested disk LU was missed that is not going anyway. */
  ghost predicate FoundAll(all: seq<Lu>, reqs: seq<Lu>, backing: seq<Option<Lu>>) {
    forall r, x | r in reqs && r.luType == Disk && x in all && x.luType == Image && ClonedFrom(r, x) ::
      x.udid in Udids(reqs) || HasImageOf(backing, r)
  }

  /** The images found for the requested disk LUs, each in what the removals before it
      left. */
  ghost function Backing(all: seq<Lu>, reqs: seq<Lu>): seq<Option<Lu>> {
    if reqs == [] then []
    else
      var before, r := reqs[..|reqs| - 1], reqs[|reqs| - 1];
      Backing(all, before) + if r.luType == Disk then [ImageForClone(Kept(all, Udids(before)), r)] else []
  }

  lemma BacksMore(reqs: seq<Lu>, r: Lu, x: Lu)
    requires Backs(reqs, x) || (r.luType == Disk && ClonedFrom(r, x))
    ensures Backs(reqs + [r], x)
  {
    if Backs(reqs, x) {
      var q :| q in reqs && q.luType == Disk && ClonedFrom(q, x);
      assert q in reqs + [r];
    } else {
      assert r in reqs + [r];
    }
  }

  lemma FoundOnlyGrows(all: seq<Lu>, reqs: seq<Lu>, backing: seq<Option<Lu>>, r: Lu)
    requires FoundOnly(all, reqs, backing)
    ensures FoundOnly(all, reqs + [r], backing)
    ensures r.luType == Disk ==> FoundOnly(all, reqs + [r], backing + [ImageForClone(Kept(all, Udids(reqs)), r)])
  {
    var b := ImageForClone(Kept(all, Udids(reqs)), r);
    forall i | 0 <= i < |backing| && backing[i].Some? ensures Backs(reqs + [r], backing[i].value) {
      BacksMore(reqs, r, backing[i].value);
    }
    if r.luType == Disk && b.Some? {
      KeptHas(all, Udids(reqs), b.value);
      BacksMore(reqs, r, b.value);
    }
  }

  lemma MoreImages(backing: seq<Option<Lu>>, b: Option<Lu>, r: Lu)
    requires HasImageOf(backing, r) || (b.Some? && ClonedFrom(r, b.value))
    ensures HasImageOf(backing + [b], r)
  {
    if HasImageOf(backing, r) {
      var i :| 0 <= i < |backing| && backing[i].Some? && ClonedFrom(r, backing[i].value);
      assert (backing + [b])[i] == backing[i];
    } else {
      assert (backing + [b])[|backing|] == b;
    }
  }

  lemma UdidsMore(reqs: seq<Lu>, r: Lu)
    ensures Udids(reqs + [r]) == if r.udid == "" then Udids(reqs) else Udids(reqs) + {r.udid}
  {
    assert (reqs + [r])[..|reqs|] == reqs;
  }

  lemma FoundAllGrows(all: seq<Lu>, reqs: seq<Lu>, backing: seq<Option<Lu>>, r: Lu, backing': seq<Option<Lu>>)
    requires FoundAll(all, reqs, backing)
    requires backing' == if r.luType == Disk then backing + [ImageForClone(Kept(all, Udids(reqs)), r)] else backing
    ensures FoundAll(all, reqs + [r], backing')
  {
    UdidsMore(reqs, r);
    var b := ImageForClone(Kept(all, Udids(reqs)), r);
    forall q, x | q in reqs + [r] && q.luType == Disk && x in all && x.luType == Image && ClonedFrom(q, x) && x.udid !in Udids(reqs + [r])
      ensures HasImageOf(backing', q)
    {
      if q in reqs {
        assert HasImageOf(backing, q);
        if r.luType == Disk { MoreImages(backing, b, q); }
      } else {
        KeptHas(all, Udids(reqs), x);
        MoreImages(backing, b, r);
      }
    }
  }

  lemma BackingMore(all: seq<Lu>, reqs: seq<Lu>, r: Lu)
    ensures Backing(all, reqs + [r]) == Backing(all, reqs) + if r.luType == Disk then [ImageForClone(Kept(all, Udids(reqs)), r)] else []
  {
    assert (reqs + [r])[..|reqs|] == reqs;
  }

  lemma {:induction false} BackingFound(all: seq<Lu>, reqs: seq<Lu>)
    ensures FoundOnly(all, reqs, Backing(all, reqs)) && FoundAll(all, reqs, Backing(all, reqs))
  {
    if reqs != [] {
      var before, r := reqs[..|reqs| - 1], reqs[|reqs| - 1];
      assert reqs == before + [r];
      BackingFound(all, before);
      FoundOnlyGrows(all, before, Backing(all, before), r);
      FoundAllGrows(all, before, Backing(all, before), r, Backing(all, reqs));
    }
  }

  lemma RmStep(all: seq<Lu>, dead: set<string>, u: string)
    ensures var left := Kept(all, dead);
      && Kept(left, {u}) == Kept(all, dead + {u}) && Count(left, u) <= Count(all, u)
      && (Count(left, u) == 0 ==> Kept(all, dead + {u}) == left)
  {
    KeptTwice(all, dead, u);
    KeptCount(all, dead, u);
    if Count(Kept(all, dead), u) == 0 { KeptAbsent(Kept(all, dead), u); }
  }

  class LuList {
    var lus: seq<Lu>

    constructor (lus: seq<Lu>)
      ensures this.lus == lus
    {
      this.lus := lus;
    }

    /** `_rm_dev_by_udid`. */
    method RmDevByUdid(dev: Lu) returns (res: Result<Option<Lu>, Error>)
      modifies this
      ensures var n := Count(old(lus), dev.udid);
        && (dev.udid == "" || n == 0 ==> res == Ok(None) && lus == old(lus))
        && (dev.udid != "" && n == 1 ==> res.Ok? && res.value.Some? && res.value.value.udid == dev.udid
                                         && lus == Kept(old(lus), {dev.udid})
                                         && multiset(old(lus)) == multiset(lus) + multiset{res.value.value})
        && (dev.udid != "" && n > 1 ==> res == Err(FoundDevMultipleTimes(dev.name, n)) && lus == old(lus))
    {
      if dev.udid == "" {
        return Ok(None);
      }
      var matches: seq<Lu> := [];
      for i := 0 to |lus|
        invariant |matches| == Count(lus[..i], dev.udid)
        invariant forall m | m in matches :: m in lus && m.udid == dev.udid
      {
        assert lus[..i + 1][..i] == lus[..i];
        if lus[i].udid == dev.udid {
          matches := matches + [lus[i]];
        }
      }
      assert lus[..|lus|] == lus;
      if |matches| == 0 {
        return Ok(None);
      }
      if |matches| > 1 {
        return Err(FoundDevMultipleTimes(dev.name, |matches|));
      }
      assert matches[0] in matches;
      var k := Locate(matches[0]);
      TakeOut(lus, k);
      assert lus == lus[..k] + [lus[k]] + lus[k + 1..];
      lus := lus[..k] + lus[k + 1..];
      return Ok(Some(matches[0]));
    }

    /** The place from which `list.remove` takes x. */
    method Locate(x: Lu) returns (k: nat)
      requires x in lus
      ensures k < |lus| && lus[k] == x && x !in lus[..k]
    {
      k := 0;
      while lus[k] != x
        invariant k < |lus| && x !in lus[..k]
        decreases |lus| - k
      {
        assert lus == lus[..k + 1] + lus[k + 1..];
        k := k + 1;
      }
    }

    /** One removal of `_rm_lus`; a device that is not on the list is no error. */
    method RmOne(dev: Lu, ghost all: seq<Lu>, ghost dead: set<string>) returns (res: Result<(), Error>, removed: seq<Lu>)
      requires lus == Kept(all, dead)
      modifies this
      ensures multiset(old(lus)) == multiset(lus) + multiset(removed)
      ensures res.Ok? ==> lus == Kept(all, if dev.udid == "" then dead else dead + {dev.udid})
      ensures res.Err? ==> !UniqueUdids(all)
    {
      RmStep(all, dead, dev.udid);
      var found := RmDevByUdid(dev);
      if found.Err? {
        return Err(found.error), [];
      }
      return Ok(()), if found.value.Some? then [found.value.value] else [];
    }

    /** One turn of the first loop of `_rm_lus`, after the LUs in `before`. */
    method RmRequest(r: Lu, delImages: bool, ghost all: seq<Lu>, ghost before: seq<Lu>, images: seq<Option<Lu>>)
      returns (res: Result<(), Error>, removed: seq<Lu>, backing: seq<Option<Lu>>)
      requires lus == Kept(all, Udids(before)) && (delImages ==> images == Backing(all, before))
      modifies this
      ensures multiset(old(lus)) == multiset(lus) + multiset(removed)
      ensures delImages ==> backing == Backing(all, before + [r])
      ensures !delImages ==> backing == images
      ensures res.Ok? ==> lus == Kept(all, Udids(before + [r]))
      ensures res.Err? ==> !UniqueUdids(all)
    {
      backing := images;
      if delImages {
        BackingMore(all, before, r);
        if r.luType == Disk {
          backing := backing + [ImageForClone(lus, r)];
        }
      }
      UdidsMore(before, r);
      res, removed := RmOne(r, all, Udids(before));
    }

    /** The first loop of `_rm_lus`: the requested LUs. */
    method RmRequested(reqs: seq<Lu>, delImages: bool)
      returns (res: Result<(), Error>, changes: seq<Lu>, backing: seq<Option<Lu>>)
      modifies this
      ensures multiset(old(lus)) == multiset(lus) + multiset(changes)
      ensures res.Ok? ==> lus == Kept(old(lus), Udids(reqs)) && backing == if delImages then Backing(old(lus), reqs) else []
      ensures res.Err? ==> !UniqueUdids(old(lus))
    {
      changes, backing := [], [];
      ghost var all := lus;
      KeptNone(all);
      ghost var before: seq<Lu> := [];
      for i := 0 to |reqs|
        invariant |before| == i && forall j | 0 <= j < i :: before[j] == reqs[j]
        invariant multiset(all) == multiset(lus) + multiset(changes)
        invariant lus == Kept(all, Udids(before))
        invariant delImages ==> backing == Backing(all, before)
        invariant !delImages ==> backing == []
      {
        var done, removed;
        done, removed, backing := RmRequest(reqs[i], delImages, all, before, backing);
        changes := changes + removed;
        if done.Err? {
          return done, changes, backing;
        }
        before := before + [reqs[i]];
      }
      assert before == reqs;
      return Ok(()), changes, backing;
    }

    /** The second loop: image LUs of the set that are no longer in use, in any order. */
    method RmImages(backing: seq<Option<Lu>>, ghost all: seq<Lu>, ghost dead0: set<string>)
      returns (res: Result<(), Error>, changes: seq<Lu>, ghost dead: set<string>)
      requires lus == Kept(all, dead0)
      requires forall i | 0 <= i < |backing| && backing[i].Some? :: backing[i].value in all && backing[i].value.luType == Image
      modifies this
      ensures multiset(old(lus)) == multiset(lus) + multiset(changes)
      ensures res.Err? ==> !UniqueUdids(all)
      ensures res.Ok? ==> lus == Kept(all, dead)
      ensures UniqueUdids(all) ==> forall x | x in all ::
        x.udid in dead <==> x.udid in dead0 || (Some(x) in backing && x.udid != "" && !ImageInUse(old(lus), x))
    {
      changes, dead := [], dead0;
      var rest := backing;
      while rest != []
        invariant multiset(old(lus)) == multiset(lus) + multiset(changes) && lus == Kept(all, dead)
        invariant forall b | b in rest :: b in backing
        invariant UniqueUdids(all) ==> ImagesGone(all, backing, rest, old(lus), dead0, dead)
        decreases |rest|
      {
        var k :| 0 <= k < |rest|;
        var b := rest[k];
        ghost var rest0, dead1 := rest, dead;
        rest := rest[..k] + rest[k + 1..];
        assert forall y | y in rest0 :: y == b || y in rest;
        if b.Some? {
          var used := ImageInUse(lus, b.value);
          if UniqueUdids(all) { ImagesStep(all, backing, rest0, rest, old(lus), dead0, dead1, b.value); }
          if !used {
            var done, removed := RmOne(b.value, all, dead);
            changes := changes + removed;
            if done.Err? {
              return done, changes, dead;
            }
            if b.value.udid != "" {
              dead := dead + {b.value.udid};
            }
          }
        }
      }
      return Ok(()), changes, dead;
    }

    /** `_rm_lus`: what is removed and what remains make up the list, whatever happens;
        with unique UDIDs nothing is raised and exactly the doomed LUs go. */
    method RmLus(reqs: seq<Lu>, delImages: bool) returns (res: Result<seq<Lu>, Error>, ghost removed: seq<Lu>)
      modifies this
      ensures multiset(old(lus)) == multiset(lus) + multiset(removed) && (res.Ok? ==> res.value == removed)
      ensures res.Err? ==> !UniqueUdids(old(lus))
      ensures UniqueUdids(old(lus)) && UniqueImages(old(lus)) && Count(old(lus), "") == 0 ==>
        lus == Remaining(old(lus), old(lus), reqs, delImages)
    {
      ghost var all := lus;
      var first, changes, backing := RmRequested(reqs, delImages);
      removed := changes;
      if first.Err? {
        return Err(first.error), removed;
      }
      ghost var left := lus;
      BackingFound(all, reqs);
      ghost var dead: set<string>;
      var second: Result<(), Error>, images: seq<Lu>;
      second, images, dead := RmImages(backing, all, Udids(reqs));
      removed := changes + images;
      if second.Err? {
        return Err(second.error), removed;
      }
      if UniqueUdids(all) && UniqueImages(all) && Count(all, "") == 0 {
        DeadIsDoomed(all, reqs, delImages, backing, left, dead);
        KeptIsRemaining(all, dead, all, reqs, delImages);
      }
      return Ok(changes + images), removed;
    }
  }

  /** The images looked at so far (not in `rest`) are gone if they were not in use. */
  ghost predicate ImagesGone(all: seq<Lu>, backing: seq<Option<Lu>>, rest: seq<Option<Lu>>, lus0: seq<Lu>,
                             dead0: set<string>, dead: set<string>)
  {
    && lus0 == Kept(all, dead0) && dead0 <= dead
    && (forall x | x in all && x.udid in dead && x.udid !in dead0 :: Some(x) in backing && x.udid != "" && !ImageInUse(lus0, x))
    && (forall x | x in all && Some(x) in backing && Some(x) !in rest && x.udid != "" && !ImageInUse(lus0, x) :: x.udid in dead)
  }

  /** Removed images leave the disk LUs as they are, so that an image is in use now
      exactly if it was before. */
  lemma ImagesStep(all: seq<Lu>, backing: seq<Option<Lu>>, rest0: seq<Option<Lu>>, rest: seq<Option<Lu>>, lus0: seq<Lu>,
                   dead0: set<string>, dead: set<string>, b: Lu)
    requires UniqueUdids(all) && ImagesGone(all, backing, rest0, lus0, dead0, dead)
    requires forall i | 0 <= i < |backing| && backing[i].Some? :: backing[i].value in all && backing[i].value.luType == Image
    requires Some(b) in backing && forall y | y in rest0 :: y == Some(b) || y in rest
    ensures ImageInUse(Kept(all, dead), b) == ImageInUse(lus0, b)
    ensures ImageInUse(lus0, b) || b.udid == "" ==> ImagesGone(all, backing, rest, lus0, dead0, dead)
    ensures !ImageInUse(lus0, b) && b.udid != "" ==> ImagesGone(all, backing, rest, lus0, dead0, dead + {b.udid})
  {
    forall d | d in all && d.luType == Disk ensures d in Kept(all, dead) <==> d in lus0 {
      KeptHas(all, dead, d);
      KeptHas(all, dead0, d);
      assert Some(d) in backing ==> d.luType == Image;
    }
    forall d | d in Kept(all, dead) ensures d in all { KeptHas(all, dead, d); }
    forall d | d in lus0 ensures d in all { KeptHas(all, dead0, d); }
    forall x | x in all && x.udid == b.udid ensures x == b { SameUdid(all, x, b); }
  }

  lemma DeadIsDoomed(all: seq<Lu>, reqs: seq<Lu>, delImages: bool, backing: seq<Option<Lu>>, left: seq<Lu>, dead: set<string>)
    requires UniqueImages(all) && Count(all, "") == 0
    requires left == Kept(all, Udids(reqs)) && backing == if delImages then Backing(all, reqs) else []
    requires forall x | x in all ::
      x.udid in dead <==> x.udid in Udids(reqs) || (Some(x) in backing && x.udid != "" && !ImageInUse(left, x))
    ensures forall x | x in all :: x.udid in dead <==> Doomed(all, reqs, delImages, x)
  {
    CountHas(all, "");
    BackingFound(all, reqs);
    forall x | x in all ensures x.udid in dead <==> Doomed(all, reqs, delImages, x) {
      UdidsHas(reqs, x);
      assert ImageInUse(left, x) <==> StillCloned(all, reqs, x) by {
        forall d | d in all ensures d in left <==> !Requested(reqs, d) {
          KeptHas(all, Udids(reqs), d);
          UdidsHas(reqs, d);
        }
        forall d | d in left ensures d in all { KeptHas(all, Udids(reqs), d); }
      }
      if delImages && x.luType == Image && Backs(reqs, x) && x.udid !in Udids(reqs) {
        var r :| r in reqs && r.luType == Disk && ClonedFrom(r, x);
        var i :| 0 <= i < |backing| && backing[i].Some? && ClonedFrom(r, backing[i].value);
        assert backing[i].value == x;
      }
    }
  }
}
