/** The child list of an element: `inject`, which puts a child where an ordering of
    tags wants it, and `ElementList`, which treats the children of one tag as a list
    of strings. */
module ElementLists {
  import opened Options
  import opened ElementTrees

  // ---- Children of one tag, and the others ----

  function OfTag(s: seq<Element>, tag: string): seq<Element> {
    if s == [] then [] else OfTag(s[..|s| - 1], tag) + if s[|s| - 1].tag == tag then [s[|s| - 1]] else []
  }

  ghost function Others(s: seq<Element>, tag: string): seq<Element> {
    if s == [] then [] else Others(s[..|s| - 1], tag) + if s[|s| - 1].tag == tag then [] else [s[|s| - 1]]
  }

  lemma {:induction false} SplitTag(a: seq<Element>, b: seq<Element>, tag: string)
    ensures OfTag(a + b, tag) == OfTag(a, tag) + OfTag(b, tag)
  {
    if b == [] {
      assert a + b == a;
    } else {
      var rest := b[..|b| - 1];
      SplitTag(a, rest, tag);
      assert (a + b)[..|a + b| - 1] == a + rest;
      assert OfTag(a + b, tag) == OfTag(a + rest, tag) + if b[|b| - 1].tag == tag then [b[|b| - 1]] else [];
    }
  }

  lemma {:induction false} SplitOthers(a: seq<Element>, b: seq<Element>, tag: string)
    ensures Others(a + b, tag) == Others(a, tag) + Others(b, tag)
  {
    if b == [] {
      assert a + b == a;
    } else {
      var rest := b[..|b| - 1];
      SplitOthers(a, rest, tag);
      assert (a + b)[..|a + b| - 1] == a + rest;
      assert Others(a + b, tag) == Others(a + rest, tag) + if b[|b| - 1].tag == tag then [] else [b[|b| - 1]];
    }
  }

  lemma OneTag(e: Element, tag: string)
    ensures e.tag == tag ==> OfTag([e], tag) == [e] && Others([e], tag) == []
    ensures e.tag != tag ==> OfTag([e], tag) == [] && Others([e], tag) == [e]
  {
    var s := [e];
    assert OfTag(s[..|s| - 1], tag) == [] && Others(s[..|s| - 1], tag) == [];
  }

  /** A child e of the tag between a and b. */
  lemma Between(a: seq<Element>, e: Element, b: seq<Element>, tag: string)
    requires e.tag == tag
    ensures OfTag(a + [e] + b, tag) == OfTag(a, tag) + [e] + OfTag(b, tag)
    ensures Others(a + [e] + b, tag) == Others(a, tag) + Others(b, tag)
  {
    OneTag(e, tag);
    SplitTag(a + [e], b, tag);
    SplitTag(a, [e], tag);
    SplitOthers(a + [e], b, tag);
    SplitOthers(a, [e], tag);
    assert Others(a, tag) + [] == Others(a, tag);
  }

  lemma Joined(a: seq<Element>, b: seq<Element>, tag: string)
    ensures OfTag(a + b, tag) == OfTag(a, tag) + OfTag(b, tag) && Others(a + b, tag) == Others(a, tag) + Others(b, tag)
  {
    SplitTag(a, b, tag);
    SplitOthers(a, b, tag);
  }

  lemma {:induction false} NoneOfTag(s: seq<Element>, tag: string)
    requires forall i | 0 <= i < |s| :: s[i].tag != tag
    ensures OfTag(s, tag) == []
  {
    if s != [] { NoneOfTag(s[..|s| - 1], tag); }
  }

  // ---- `inject` ----

  /** The index of the last child with the tag. */
  function LastOf(s: seq<Element>, tag: string): (k: Option<nat>)
    ensures k.Some? ==> k.value < |s| && s[k.value].tag == tag && forall j | k.value < j < |s| :: s[j].tag != tag
    ensures k.None? ==> forall j | 0 <= j < |s| :: s[j].tag != tag
  {
    if s == [] then None
    else if s[|s| - 1].tag == tag then Some(|s| - 1)
    else LastOf(s[..|s| - 1], tag)
  }

  /** `list.index`, or the length. */
  function IndexOf<T(==)>(s: seq<T>, x: T): (k: nat)
    ensures k <= |s| && (k < |s| <==> x in s) && (k < |s| ==> s[k] == x) && forall i | 0 <= i < k :: s[i] != x
  {
    if s == [] || s[0] == x then 0
    else
      var k := 1 + IndexOf(s[1..], x);
      assert forall i | 1 <= i < k :: s[i] == s[1..][i - 1];
      k
  }

  /** The tags that go before this one. */
  function Pres(order: seq<string>, tag: string): seq<string> { order[..IndexOf(order, tag)] }

  /** The first child that does not go before, or the length. */
  function FirstAfter(s: seq<Element>, pres: seq<string>): (k: nat)
    ensures k <= |s| && (forall j | 0 <= j < k :: s[j].tag in pres) && (k < |s| ==> s[k].tag !in pres)
  {
    if s == [] || s[0].tag !in pres then 0
    else
      var k := 1 + FirstAfter(s[1..], pres);
      assert forall j | 1 <= j < k :: s[j] == s[1..][j - 1];
      k
  }

  function Injected(s: seq<Element>, sub: Element, order: seq<string>, replace: bool): seq<Element> {
    var last := LastOf(s, sub.tag);
    if last.Some? then
      if replace then s[last.value := sub] else s[..last.value + 1] + [sub] + s[last.value + 1..]
    else if sub.tag !in order then s + [sub]
    else
      var k := FirstAfter(s, Pres(order, sub.tag));
      s[..k] + [sub] + s[k..]
  }

  /** The children of other tags stay as they are; among those of its own tag the new
      child is the last one, in addition or in place of the last one. */
  ghost predicate AmongItsOwn(s: seq<Element>, r: seq<Element>, sub: Element, replace: bool) {
    var own := OfTag(s, sub.tag);
    && Others(r, sub.tag) == Others(s, sub.tag)
    && OfTag(r, sub.tag) == (if replace && own != [] then own[..|own| - 1] else own) + [sub]
  }

  lemma ReplacesLast(a: seq<Element>, e: Element, b: seq<Element>, sub: Element)
    requires e.tag == sub.tag && OfTag(b, sub.tag) == []
    ensures AmongItsOwn(a + [e] + b, a + [sub] + b, sub, true)
  {
    Between(a, e, b, sub.tag);
    Between(a, sub, b, sub.tag);
    assert OfTag(a + [e] + b, sub.tag) == OfTag(a, sub.tag) + [e];
  }

  lemma InsertsBefore(a: seq<Element>, b: seq<Element>, sub: Element, replace: bool)
    requires OfTag(b, sub.tag) == [] && (replace ==> OfTag(a, sub.tag) == [])
    ensures AmongItsOwn(a + b, a + [sub] + b, sub, replace)
  {
    var own := OfTag(a, sub.tag);
    assert OfTag(a + b, sub.tag) == own && Others(a + b, sub.tag) == Others(a, sub.tag) + Others(b, sub.tag) by {
      Joined(a, b, sub.tag);
    }
    Between(a, sub, b, sub.tag);
    assert own + [sub] + [] == own + [sub];
  }

  lemma InjectReplaces(s: seq<Element>, sub: Element, k: nat)
    requires LastOf(s, sub.tag) == Some(k)
    ensures AmongItsOwn(s, s[k := sub], sub, true)
  {
    NoneOfTag(s[k + 1..], sub.tag);
    ReplacesLast(s[..k], s[k], s[k + 1..], sub);
    assert s == s[..k] + [s[k]] + s[k + 1..] && s[k := sub] == s[..k] + [sub] + s[k + 1..];
  }

  lemma InjectInserts(s: seq<Element>, sub: Element, k: nat, replace: bool)
    requires k <= |s| && forall j | k <= j < |s| :: s[j].tag != sub.tag
    requires replace ==> forall j | 0 <= j < |s| :: s[j].tag != sub.tag
    ensures AmongItsOwn(s, s[..k] + [sub] + s[k..], sub, replace)
  {
    NoneOfTag(s[k..], sub.tag);
    if replace { NoneOfTag(s[..k], sub.tag); }
    InsertsBefore(s[..k], s[k..], sub, replace);
    assert s == s[..k] + s[k..];
  }

  lemma InjectAmong(s: seq<Element>, sub: Element, order: seq<string>, replace: bool)
    ensures AmongItsOwn(s, Injected(s, sub, order, replace), sub, replace)
  {
    var last := LastOf(s, sub.tag);
    if last.Some? && replace {
      InjectReplaces(s, sub, last.value);
    } else {
      var k := if last.Some? then last.value + 1
               else if sub.tag in order then FirstAfter(s, Pres(order, sub.tag)) else |s|;
      InjectInserts(s, sub, k, replace);
      assert s[..|s|] + [sub] + s[|s|..] == s + [sub];
    }
  }

  // ---- The order of the children ----

  /** Children whose tags are in the ordering follow it; others may stand anywhere. */
  ghost predicate InOrder(s: seq<Element>, order: seq<string>) {
    forall i, j | 0 <= i < j < |s| && s[i].tag in order && s[j].tag in order :: IndexOf(order, s[i].tag) <= IndexOf(order, s[j].tag)
  }

  /** A child of an unknown tag stands before one that the new child has to follow. */
  ghost predicate Astray(s: seq<Element>, pres: seq<string>, order: seq<string>) {
    exists i, j | 0 <= i < j < |s| :: s[i].tag !in order && s[j].tag in pres
  }

  lemma InPres(order: seq<string>, tag: string, other: string)
    requires tag in order
    ensures other in Pres(order, tag) <==> other in order && IndexOf(order, other) < IndexOf(order, tag)
  {
    var k := IndexOf(order, other);
    if other in order && k < IndexOf(order, tag) {
      assert Pres(order, tag)[k] == other;
    }
  }

  lemma OwnTagKeepsOrder(s: seq<Element>, sub: Element, order: seq<string>, replace: bool)
    requires InOrder(s, order) && LastOf(s, sub.tag).Some?
    ensures InOrder(Injected(s, sub, order, replace), order)
  {
    var k, r := LastOf(s, sub.tag).value, Injected(s, sub, order, replace);
    if !replace {
      forall i, j | 0 <= i < j < |r| && r[i].tag in order && r[j].tag in order
        ensures IndexOf(order, r[i].tag) <= IndexOf(order, r[j].tag)
      {
        var i', j' := if i <= k then i else i - 1, if j <= k then j else j - 1;
        assert r[i].tag == s[i'].tag && r[j].tag == s[j'].tag;
      }
    }
  }

  lemma NewTagKeepsOrder(s: seq<Element>, sub: Element, order: seq<string>, k: nat)
    requires InOrder(s, order) && sub.tag in order && k <= |s|
    requires forall j | 0 <= j < k :: s[j].tag in Pres(order, sub.tag)
    requires forall j | k <= j < |s| :: s[j].tag !in Pres(order, sub.tag)
    ensures InOrder(s[..k] + [sub] + s[k..], order)
  {
    var r := s[..k] + [sub] + s[k..];
    forall i, j | 0 <= i < j < |r| && r[i].tag in order && r[j].tag in order
      ensures IndexOf(order, r[i].tag) <= IndexOf(order, r[j].tag)
    {
      if j == k {
        InPres(order, sub.tag, s[i].tag);
      } else if i == k {
        InPres(order, sub.tag, s[j - 1].tag);
      } else {
        var i', j' := if i < k then i else i - 1, if j < k then j else j - 1;
        assert r[i] == s[i'] && r[j] == s[j'];
      }
    }
  }

  lemma NewTagMisplaced(s: seq<Element>, sub: Element, order: seq<string>, k: nat, j: nat)
    requires sub.tag in order && k <= j < |s| && s[j].tag in Pres(order, sub.tag)
    ensures !InOrder(s[..k] + [sub] + s[k..], order)
  {
    var r := s[..k] + [sub] + s[k..];
    InPres(order, sub.tag, s[j].tag);
    assert r[k] == sub && r[j + 1] == s[j];
  }

  /** `inject` keeps children in order, except for exactly one case: the tag is a new
      one of the ordering, and a child of an unknown tag stands before one that the
      new child has to follow. */
  lemma InjectKeepsOrder(s: seq<Element>, sub: Element, order: seq<string>, replace: bool)
    requires InOrder(s, order)
    ensures InOrder(Injected(s, sub, order, replace), order) <==>
      LastOf(s, sub.tag).Some? || sub.tag !in order || !Astray(s, Pres(order, sub.tag), order)
  {
    var pres := Pres(order, sub.tag);
    if LastOf(s, sub.tag).Some? {
      OwnTagKeepsOrder(s, sub, order, replace);
    } else if sub.tag in order {
      var k := FirstAfter(s, pres);
      if exists j | k <= j < |s| :: s[j].tag in pres {
        var j :| k <= j < |s| && s[j].tag in pres;
        NewTagMisplaced(s, sub, order, k, j);
        InPres(order, sub.tag, s[k].tag);
        InPres(order, sub.tag, s[j].tag);
        assert s[k].tag !in order;
      } else {
        NewTagKeepsOrder(s, sub, order, k);
        forall i, j | 0 <= i < j < |s| && s[j].tag in pres ensures s[i].tag in order {
          InPres(order, sub.tag, s[i].tag);
        }
      }
    }
  }

  class Parent {
    var children: seq<Element>

    constructor (children: seq<Element>)
      ensures this.children == children
    {
      this.children := children;
    }

    method Inject(sub: Element, order: seq<string>, replace: bool)
      modifies this
      ensures children == Injected(old(children), sub, order, replace)
    {
      if |children| == 0 {
        children := [sub];
        return;
      }
      var last: Option<nat> := None;
      for i := 0 to |children|
        invariant last == LastOf(children[..i], sub.tag)
      {
        assert children[..i + 1][..i] == children[..i];
        if children[i].tag == sub.tag {
          last := Some(i);
        }
      }
      assert children[..|children|] == children;
      if last.Some? {
        var k := last.value;
        children := if replace then children[k := sub] else children[..k + 1] + [sub] + children[k + 1..];
        return;
      }
      if sub.tag !in order {
        children := children + [sub];
        return;
      }
      var pres := Pres(order, sub.tag);
      ghost var k0 := FirstAfter(children, pres);
      var k := 0;
      while k < |children| && children[k].tag in pres
        invariant 0 <= k <= k0
      {
        k := k + 1;
      }
      children := children[..k] + [sub] + children[k..];
    }
  }

  // ---- `ElementList` ----

  /** A new element's text: the empty string leaves it without one. */
  function TextOf(val: string): Option<string> { if val == "" then None else Some(val) }

  function Texts(s: seq<Element>): (r: seq<Option<string>>)
    ensures |r| == |s| && forall i | 0 <= i < |s| :: r[i] == s[i].text
  {
    if s == [] then [] else Texts(s[..|s| - 1]) + [s[|s| - 1].text]
  }

  datatype ListError = IndexError | ValueError

  /** An index as Python takes it: negative ones count from the end. */
  function PyIndex(i: int, n: nat): Option<nat> {
    if 0 <= i < n then Some(i) else if i < 0 <= n + i then Some(n + i) else None
  }

  function Drop<T>(s: seq<T>, k: nat): seq<T>
    requires k < |s|
  {
    s[..k] + s[k + 1..]
  }

  lemma SetText(s: seq<Element>, p: nat, tag: string, k: nat, e: Element)
    requires p < |s| && s[p].tag == tag == e.tag && |OfTag(s[..p], tag)| == k
    ensures k < |OfTag(s, tag)| && OfTag(s[p := e], tag) == OfTag(s, tag)[k := e] && Others(s[p := e], tag) == Others(s, tag)
  {
    var a, b := s[..p], s[p + 1..];
    assert s == a + [s[p]] + b && s[p := e] == a + [e] + b;
    Between(a, s[p], b, tag);
    Between(a, e, b, tag);
    Replaced(OfTag(a, tag), s[p], e, OfTag(b, tag));
  }

  lemma Replaced(a: seq<Element>, d: Element, e: Element, b: seq<Element>)
    ensures (a + [d] + b)[|a| := e] == a + [e] + b
  {
  }

  lemma DropElem(s: seq<Element>, p: nat, tag: string, k: nat)
    requires p < |s| && s[p].tag == tag && |OfTag(s[..p], tag)| == k
    ensures k < |OfTag(s, tag)| && OfTag(Drop(s, p), tag) == Drop(OfTag(s, tag), k) && Others(Drop(s, p), tag) == Others(s, tag)
  {
    Between(s[..p], s[p], s[p + 1..], tag);
    Joined(s[..p], s[p + 1..], tag);
    assert s == s[..p] + [s[p]] + s[p + 1..];
  }

  class ElementList {
    const root: Parent
    const tag: string
    const order: seq<string>

    constructor (root: Parent, tag: string, order: seq<string>)
      ensures this.root == root && this.tag == tag && this.order == order
    {
      this.root, this.tag, this.order := root, tag, order;
    }

    function Values(): seq<Option<string>>
      reads root
    {
      Texts(OfTag(root.children, tag))
    }

    ghost function Rest(): seq<Element>
      reads root
    {
      Others(root.children, tag)
    }

    /** Where the children with the tag are. */
    method FindElems() returns (at: seq<nat>)
      ensures |at| == |OfTag(root.children, tag)|
      ensures forall k | 0 <= k < |at| :: at[k] < |root.children| && root.children[at[k]].tag == tag
                                          && |OfTag(root.children[..at[k]], tag)| == k
    {
      at := [];
      var s := root.children;
      for i := 0 to |s|
        invariant |at| == |OfTag(s[..i], tag)|
        invariant forall k | 0 <= k < |at| :: at[k] < |s| && s[at[k]].tag == tag && |OfTag(s[..at[k]], tag)| == k
      {
        assert s[..i + 1][..i] == s[..i];
        if s[i].tag == tag {
          at := at + [i];
        }
      }
      assert s[..|s|] == s;
    }

    method Append(val: string)
      modifies root
      ensures Values() == old(Values()) + [TextOf(val)] && Rest() == old(Rest())
      ensures root.children == Injected(old(root.children), Element(tag, map[], TextOf(val), []), order, false)
    {
      var sub := Element(tag, map[], TextOf(val), []);
      InjectAmong(root.children, sub, order, false);
      root.Inject(sub, order, false);
    }

    method Extend(vals: seq<string>)
      modifies root
      ensures |Values()| == |old(Values())| + |vals| && Values()[..|old(Values())|] == old(Values())
      ensures forall i | 0 <= i < |vals| :: Values()[|old(Values())| + i] == TextOf(vals[i])
      ensures Rest() == old(Rest())
    {
      ghost var n := |Values()|;
      for i := 0 to |vals|
        invariant |Values()| == n + i && Values()[..n] == old(Values()) && Rest() == old(Rest())
        invariant forall j | 0 <= j < i :: Values()[n + j] == TextOf(vals[j])
      {
        Append(vals[i]);
      }
    }

    method SetItem(i: int, val: string) returns (res: Result<(), ListError>)
      modifies root
      ensures var k := PyIndex(i, |old(Values())|);
        && Rest() == old(Rest())
        && (k.Some? ==> res == Ok(()) && Values() == old(Values())[k.value := Some(val)])
        && (k.None? ==> res == Err(IndexError) && root.children == old(root.children))
    {
      var at := FindElems();
      var k := PyIndex(i, |at|);
      if k.None? {
        return Err(IndexError);
      }
      var p, s := at[k.value], root.children;
      root.children := s[p := s[p].(text := Some(val))];
      SetText(s, p, tag, k.value, s[p].(text := Some(val)));
      return Ok(());
    }

    method DelItem(i: int) returns (res: Result<(), ListError>)
      modifies root
      ensures var k := PyIndex(i, |old(Values())|);
        && Rest() == old(Rest())
        && (k.Some? ==> res == Ok(()) && Values() == Drop(old(Values()), k.value))
        && (k.None? ==> res == Err(IndexError) && root.children == old(root.children))
    {
      var at := FindElems();
      var k := PyIndex(i, |at|);
      if k.None? {
        return Err(IndexError);
      }
      var p, s := at[k.value], root.children;
      root.children := Drop(s, p);
      DropElem(s, p, tag, k.value);
      return Ok(());
    }

    method Remove(val: Option<string>) returns (res: Result<(), ListError>)
      modifies root
      ensures Rest() == old(Rest())
      ensures val in old(Values()) ==> res == Ok(()) && Values() == Drop(old(Values()), IndexOf(old(Values()), val))
      ensures val !in old(Values()) ==> res == Err(ValueError) && root.children == old(root.children)
    {
      var k := IndexOf(Values(), val);
      if k == |Values()| {
        return Err(ValueError);
      }
      res := DelItem(k);
    }

    method Clear()
      modifies root
      ensures Values() == [] && Rest() == old(Rest())
    {
      var vals := Values();
      for i := 0 to |vals|
        invariant Values() == vals[i..] && Rest() == old(Rest())
      {
        assert vals[i..][0] == vals[i];
        var removed := Remove(vals[i]);
        assert IndexOf(vals[i..], vals[i]) == 0;
        assert Drop(vals[i..], 0) == vals[i + 1..];
      }
    }
  }
}
