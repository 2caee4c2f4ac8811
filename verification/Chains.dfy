/** How something spreads from name to name, step by step: what a set that only grows holds is exactly what some
    chain of hand-overs, each at a later step than the one before, leads to. */
module Chains {
  /** The names of a chain, and after how many steps each of them has it.  The first has it from outside; every
      other one takes it over from the one before, at the step just done. */
  ghost predicate IsChain(source: (nat, string) -> bool, carries: (nat, string, string) -> bool,
                          names: seq<string>, at: seq<nat>, k: nat) {
    && |names| == |at| > 0 && at[|at| - 1] <= k && source(at[0], names[0])
    && forall j: nat | j + 1 < |at| :: at[j] < at[j + 1] && carries(at[j + 1] - 1, names[j], names[j + 1])
  }

  /** After `k` steps some chain has led to the name. */
  ghost predicate Spreads(source: (nat, string) -> bool, carries: (nat, string, string) -> bool, k: nat, x: string) {
    exists names: seq<string>, at: seq<nat> :: IsChain(source, carries, names, at, k) && names[|names| - 1] == x
  }

  lemma SpreadsFirst(source: (nat, string) -> bool, carries: (nat, string, string) -> bool, x: string)
    ensures Spreads(source, carries, 0, x) <==> source(0, x)
  {
    if source(0, x) {
      assert IsChain(source, carries, [x], [0], 0);
    }
    if names: seq<string>, at: seq<nat> :| IsChain(source, carries, names, at, 0) && names[|names| - 1] == x {
      var j := |at| - 2;
      assert j >= 0 ==> at[j] < at[j + 1];
    }
  }

  lemma ChainLonger(source: (nat, string) -> bool, carries: (nat, string, string) -> bool, names: seq<string>,
                    at: seq<nat>, k: nat, x: string)
    requires IsChain(source, carries, names, at, k) && carries(k, names[|names| - 1], x)
    ensures IsChain(source, carries, names + [x], at + [k + 1], k + 1)
  {
  }

  lemma ChainShorter(source: (nat, string) -> bool, carries: (nat, string, string) -> bool, names: seq<string>,
                     at: seq<nat>, k: nat)
    requires IsChain(source, carries, names, at, k + 1) && |at| > 1 && at[|at| - 1] == k + 1
    ensures IsChain(source, carries, names[..|names| - 1], at[..|at| - 1], k)
    ensures carries(k, names[|names| - 2], names[|names| - 1])
  {
    var j: nat := |at| - 2;
    assert at[j] < at[j + 1] && carries(at[j + 1] - 1, names[j], names[j + 1]);
  }

  /** One more step: what had it keeps it, and others get it from outside or from one that had it. */
  lemma SpreadsNext(source: (nat, string) -> bool, carries: (nat, string, string) -> bool, k: nat, x: string)
    ensures Spreads(source, carries, k + 1, x) <==>
            || Spreads(source, carries, k, x) || source(k + 1, x)
            || exists y :: Spreads(source, carries, k, y) && carries(k, y, x)
  {
    if names: seq<string>, at: seq<nat> :| IsChain(source, carries, names, at, k) && names[|names| - 1] == x {
      assert IsChain(source, carries, names, at, k + 1);
    } else if source(k + 1, x) {
      assert IsChain(source, carries, [x], [k + 1], k + 1);
    } else if y :| Spreads(source, carries, k, y) && carries(k, y, x) {
      var names: seq<string>, at: seq<nat> :| IsChain(source, carries, names, at, k) && names[|names| - 1] == y;
      ChainLonger(source, carries, names, at, k, x);
    }
    var next := k + 1;
    if names: seq<string>, at: seq<nat> :| IsChain(source, carries, names, at, next) && names[|names| - 1] == x {
      if at[|at| - 1] <= k {
        assert IsChain(source, carries, names, at, k);
      } else if |at| > 1 {
        ChainShorter(source, carries, names, at, k);
      }
    }
  }
}
