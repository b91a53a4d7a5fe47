/** Going round a list of n things, as two of the allocators do. */
module RoundRobin {
  function Next(pos: nat, n: nat): (r: nat)
    requires pos < n
    ensures r == if pos + 1 == n then 0 else pos + 1
  {
    (pos + 1) % n
  }

  ghost predicate InTurn(at: seq<nat>, n: nat, i: nat)
    requires i < |at|
  {
    && at[i] < n
    && (i == 0 ==> at[i] == 0)
    && (i > 0 ==> at[i - 1] < n && at[i] == Next(at[i - 1], n))
  }

  /** Position 0 first, and then always the next one. */
  ghost predicate Rotates(at: seq<nat>, n: nat) { forall i | 0 <= i < |at| :: InTurn(at, n, i) }

  lemma RotatesShorter(at: seq<nat>, n: nat, j: nat)
    requires Rotates(at, n) && j <= |at|
    ensures Rotates(at[..j], n)
  {
    forall i | 0 <= i < j ensures InTurn(at[..j], n, i) { assert InTurn(at, n, i); }
  }

  ghost function Turns(at: seq<nat>, k: nat): nat {
    if at == [] then 0 else Turns(at[..|at| - 1], k) + if at[|at| - 1] == k then 1 else 0
  }

  /** Every position had c turns, those before the coming one had one more. */
  lemma {:induction false} TurnsOf(at: seq<nat>, n: nat) returns (c: nat)
    requires n > 0 && Rotates(at, n)
    ensures at != [] ==> at[|at| - 1] < n
    ensures var coming := if at == [] then 0 else Next(at[|at| - 1], n);
      forall k | 0 <= k < n :: Turns(at, k) == c + if k < coming then 1 else 0
  {
    if at == [] {
      c := 0;
    } else {
      var m := |at| - 1;
      RotatesShorter(at, n, m);
      c := TurnsOf(at[..m], n);
      assert InTurn(at, n, m);
      if at[m] == n - 1 { c := c + 1; }
    }
  }

  /** Turns are even, after every step. */
  lemma TurnsEven(at: seq<nat>, n: nat, j: nat, k: nat, l: nat)
    requires Rotates(at, n) && j <= |at| && k < n && l < n
    ensures Turns(at[..j], k) <= Turns(at[..j], l) + 1
  {
    RotatesShorter(at, n, j);
    var c := TurnsOf(at[..j], n);
  }
}
