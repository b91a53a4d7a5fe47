/** XML elements and their equality, which compares the children of both sides by
    taking a match for each child of one side off a copy of the other's. */
module ElementTrees {
  import opened Options

  datatype Element = Element(tag: string, attrib: map<string, string>, text: Option<string>, children: seq<Element>)

  // ---- Equality up to the order of children ----

  /** p and q are inverse permutations of 0..n. */
  ghost predicate Inverse(p: seq<nat>, q: seq<nat>, n: nat) {
    && |p| == n && |q| == n
    && (forall i | 0 <= i < n :: p[i] < n && q[p[i]] == i)
    && (forall j | 0 <= j < n :: q[j] < n && p[q[j]] == j)
  }

  /** The same tag and text, and the same children in some order, at every level. */
  ghost predicate Same(a: Element, b: Element)
    decreases a
  {
    && a.tag == b.tag && a.text == b.text && |a.children| == |b.children|
    && exists p, q | Inverse(p, q, |a.children|) :: forall i | 0 <= i < |a.children| :: Same(a.children[i], b.children[p[i]])
  }

  /** Child i of the one is the same element as child p[i] of the other. */
  ghost predicate Pairs(s: seq<Element>, t: seq<Element>, p: seq<nat>, q: seq<nat>) {
    |s| == |t| && Inverse(p, q, |s|) && forall i | 0 <= i < |s| :: Same(s[i], t[p[i]])
  }

  ghost predicate SameChildren(s: seq<Element>, t: seq<Element>) { exists p, q :: Pairs(s, t, p, q) }

  lemma SameIs(a: Element, b: Element)
    ensures Same(a, b) <==> a.tag == b.tag && a.text == b.text && SameChildren(a.children, b.children)
  {
    if Same(a, b) {
      var p, q :| Inverse(p, q, |a.children|) && forall i | 0 <= i < |a.children| :: Same(a.children[i], b.children[p[i]]);
      assert Pairs(a.children, b.children, p, q);
    }
    if SameChildren(a.children, b.children) {
      var p, q :| Pairs(a.children, b.children, p, q);
      assert Inverse(p, q, |a.children|);
    }
  }

  lemma {:induction false} SameReflexive(a: Element)
    ensures Same(a, a)
  {
    var n := |a.children|;
    var id: seq<nat> := seq(n, i => i);
    forall i | 0 <= i < n ensures Same(a.children[i], a.children[i]) { SameReflexive(a.children[i]); }
    assert Pairs(a.children, a.children, id, id);
    SameIs(a, a);
  }

  lemma {:induction false} SameSymmetric(a: Element, b: Element)
    requires Same(a, b)
    ensures Same(b, a)
    decreases a
  {
    SameIs(a, b);
    var p, q :| Pairs(a.children, b.children, p, q);
    forall j | 0 <= j < |q| ensures Same(b.children[j], a.children[q[j]]) {
      SameSymmetric(a.children[q[j]], b.children[p[q[j]]]);
    }
    assert Pairs(b.children, a.children, q, p);
    SameIs(b, a);
  }

  lemma Compose(p: seq<nat>, q: seq<nat>, p': seq<nat>, q': seq<nat>, n: nat) returns (pp: seq<nat>, qq: seq<nat>)
    requires Inverse(p, q, n) && Inverse(p', q', n)
    ensures Inverse(pp, qq, n) && forall i | 0 <= i < n :: pp[i] == p'[p[i]]
  {
    pp := seq(n, i requires 0 <= i < n => p'[p[i]]);
    qq := seq(n, j requires 0 <= j < n => q[q'[j]]);
    forall j | 0 <= j < n ensures qq[j] < n && pp[qq[j]] == j { assert p[q[q'[j]]] == q'[j]; }
  }

  lemma {:induction false} SameTransitive(a: Element, b: Element, c: Element)
    requires Same(a, b) && Same(b, c)
    ensures Same(a, c)
    decreases a
  {
    SameIs(a, b);
    SameIs(b, c);
    var p, q :| Pairs(a.children, b.children, p, q);
    var p', q' :| Pairs(b.children, c.children, p', q');
    var pp, qq := Compose(p, q, p', q', |a.children|);
    forall i | 0 <= i < |a.children| ensures Same(a.children[i], c.children[pp[i]]) {
      SameTransitive(a.children[i], b.children[p[i]], c.children[p'[p[i]]]);
    }
    assert Pairs(a.children, c.children, pp, qq);
    SameIs(a, c);
  }

  /** Attributes do not matter. */
  lemma AttributesAreIgnored(a: Element, attrib: map<string, string>)
    ensures Same(a, a.(attrib := attrib))
  {
    SameReflexive(a);
    SameIs(a, a);
    SameIs(a, a.(attrib := attrib));
  }

  // ---- The greedy choice is safe ----

  function Without(t: seq<Element>, j: nat): (r: seq<Element>)
    requires j < |t|
    ensures |r| == |t| - 1
    ensures forall i | 0 <= i < |r| :: r[i] == t[if i < j then i else i + 1]
  {
    t[..j] + t[j + 1..]
  }

  /** Where index k goes when index j is taken out. */
  function Down(k: nat, j: nat): nat
    requires k != j
  {
    if k < j then k else k - 1
  }

  function Up(k: nat, j: nat): nat { if k < j then k else k + 1 }

  lemma DropFirst(p: seq<nat>, q: seq<nat>, n: nat) returns (p': seq<nat>, q': seq<nat>)
    requires Inverse(p, q, n + 1)
    ensures Inverse(p', q', n) && forall i | 0 <= i < n :: p[i + 1] != p[0] && p'[i] == Down(p[i + 1], p[0])
  {
    var j := p[0];
    forall i | 0 < i <= n ensures p[i] != j { assert q[p[i]] == i; }
    forall k | 0 <= k <= n && k != j ensures q[k] > 0 { assert p[q[k]] == k; }
    p' := seq(n, i requires 0 <= i < n => Down(p[i + 1], j));
    q' := seq(n, k requires 0 <= k < n => q[Up(k, j)] - 1);
    forall i | 0 <= i < n ensures p'[i] < n && q'[p'[i]] == i { assert q[p[i + 1]] == i + 1; }
    forall k | 0 <= k < n ensures q'[k] < n && p'[q'[k]] == k { assert p[q[Up(k, j)]] == Up(k, j); }
  }

  lemma AddFirst(p: seq<nat>, q: seq<nat>, n: nat, j: nat) returns (p': seq<nat>, q': seq<nat>)
    requires Inverse(p, q, n) && j <= n
    ensures Inverse(p', q', n + 1) && p'[0] == j && forall i | 0 <= i < n :: p'[i + 1] == Up(p[i], j)
  {
    p' := [j] + seq(n, i requires 0 <= i < n => Up(p[i], j));
    q' := seq(n + 1, k requires 0 <= k < n + 1 => if k == j then 0 else q[Down(k, j)] + 1);
    forall i | 0 <= i < n + 1 ensures p'[i] < n + 1 && q'[p'[i]] == i {
      if i > 0 { assert q[p[i - 1]] == i - 1; }
    }
    forall k | 0 <= k < n + 1 ensures q'[k] < n + 1 && p'[q'[k]] == k {
      if k != j { assert p[q[Down(k, j)]] == Down(k, j); }
    }
  }

  /** A pairing that gives child 0 to child j leaves a pairing of the others. */
  lemma TakeOff(s: seq<Element>, t: seq<Element>, p: seq<nat>, q: seq<nat>)
    requires Pairs(s, t, p, q) && s != []
    ensures SameChildren(s[1..], Without(t, p[0]))
  {
    var p', q' := DropFirst(p, q, |s| - 1);
    var r := Without(t, p[0]);
    forall i | 0 <= i < |s| - 1 ensures Same(s[1..][i], r[p'[i]]) {
      assert s[1..][i] == s[i + 1] && r[p'[i]] == t[p[i + 1]];
    }
    assert Pairs(s[1..], r, p', q');
  }

  lemma PutBack(s: seq<Element>, t: seq<Element>, j: nat)
    requires s != [] && j < |t| && Same(s[0], t[j]) && SameChildren(s[1..], Without(t, j))
    ensures SameChildren(s, t)
  {
    var r := Without(t, j);
    var p, q :| Pairs(s[1..], r, p, q);
    var p', q' := AddFirst(p, q, |s| - 1, j);
    forall i | 0 <= i < |s| ensures Same(s[i], t[p'[i]]) {
      if i > 0 { assert s[1..][i - 1] == s[i] && r[p[i - 1]] == t[p'[i]]; }
    }
    assert Pairs(s, t, p', q');
  }

  /** Exchange: any match for child 0 will do. */
  lemma Exchange(s: seq<Element>, t: seq<Element>, j: nat, p: seq<nat>, q: seq<nat>) returns (p': seq<nat>, q': seq<nat>)
    requires Pairs(s, t, p, q) && s != [] && j < |t| && Same(s[0], t[j])
    ensures Pairs(s, t, p', q') && p'[0] == j
  {
    var i, k := q[j], p[0];
    if i == 0 { return p, q; }
    p', q' := p[0 := j][i := k], q[j := 0][k := i];
    SameSymmetric(s[0], t[j]);
    SameTransitive(s[i], t[j], s[0]);
    SameTransitive(s[i], s[0], t[k]);
    assert Inverse(p', q', |s|);
  }

  lemma GreedyIsSafe(s: seq<Element>, t: seq<Element>, j: nat)
    requires s != [] && j < |t| && Same(s[0], t[j])
    ensures SameChildren(s, t) <==> SameChildren(s[1..], Without(t, j))
  {
    if SameChildren(s, t) {
      var p, q :| Pairs(s, t, p, q);
      var p', q' := Exchange(s, t, j, p, q);
      TakeOff(s, t, p', q');
    }
    if SameChildren(s[1..], Without(t, j)) { PutBack(s, t, j); }
  }

  lemma NoMatch(s: seq<Element>, t: seq<Element>)
    requires s != [] && forall j | 0 <= j < |t| :: !Same(s[0], t[j])
    ensures !SameChildren(s, t)
  {
  }

  // ---- `_element_equality` ----

  function Height(e: Element): nat { 1 + HeightOf(e.children) }

  function HeightOf(s: seq<Element>): (h: nat)
    ensures forall e | e in s :: Height(e) <= h
  {
    if s == [] then 0
    else
      var h, rest := Height(s[0]), HeightOf(s[1..]);
      if h > rest then h else rest
  }

  function Max(a: nat, b: nat): nat { if a > b then a else b }

  method Equality(one: Element, two: Element) returns (equal: bool)
    ensures equal <==> Same(one, two)
    decreases Max(Height(one), Height(two)), 2
  {
    SameIs(one, two);
    var ones, twos := one.children, two.children;
    if |ones| != |twos| {
      return false;
    }
    if one.text != two.text {
      return false;
    }
    if one.tag != two.tag {
      return false;
    }
    var bound := Max(HeightOf(one.children), HeightOf(two.children));
    var i := 0;
    while i < |ones|
      invariant 0 <= i <= |ones| && |twos| == |ones| - i
      invariant forall e | e in twos :: e in two.children
      invariant SameChildren(ones[i..], twos) <==> SameChildren(one.children, two.children)
    {
      assert ones[i..][0] == ones[i] && ones[i..][1..] == ones[i + 1..];
      assert ones[i] in one.children;
      var found := FindEquivalent(ones[i], twos, bound);
      if found.None? {
        NoMatch(ones[i..], twos);
        return false;
      }
      GreedyIsSafe(ones[i..], twos, found.value);
      twos := RemoveFirst(twos, found.value, ones[i], bound);
      i := i + 1;
    }
    assert ones[i..] == [] && Pairs([], twos, [], []);
    return true;
  }

  /** `find_equivalent`: the first element of the list that equals `elem`. */
  method FindEquivalent(elem: Element, list: seq<Element>, ghost bound: nat) returns (found: Option<nat>)
    requires Height(elem) <= bound && forall e | e in list :: Height(e) <= bound
    ensures found.None? ==> forall j | 0 <= j < |list| :: !Same(elem, list[j])
    ensures found.Some? ==> found.value < |list| && Same(elem, list[found.value])
    ensures found.Some? ==> forall j | 0 <= j < found.value :: !Same(elem, list[j])
    decreases bound, 3
  {
    for i := 0 to |list|
      invariant forall j | 0 <= j < i :: !Same(elem, list[j])
    {
      var equal := Equality(list[i], elem);
      if Same(elem, list[i]) { SameSymmetric(elem, list[i]); }
      if equal {
        SameSymmetric(list[i], elem);
        return Some(i);
      }
    }
    return None;
  }

  /** `list.remove(found)` drops the first element that is or equals the found one:
      that is the found one itself. */
  method RemoveFirst(list: seq<Element>, at: nat, ghost elem: Element, ghost bound: nat) returns (rest: seq<Element>)
    requires at < |list| && Same(elem, list[at]) && forall j | 0 <= j < at :: !Same(elem, list[j])
    requires forall e | e in list :: Height(e) <= bound
    ensures rest == Without(list, at)
    decreases bound, 3
  {
    for i := 0 to at + 1
      invariant i <= at
    {
      var equal := i == at;
      if !equal {
        equal := Equality(list[i], list[at]);
      }
      if equal {
        if i < at {
          SameSymmetric(list[i], list[at]);
          SameTransitive(elem, list[at], list[i]);
        }
        return list[..i] + list[i + 1..];
      }
    }
  }
}
