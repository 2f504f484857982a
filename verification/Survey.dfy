/** The liveness fixpoint of the reachability survey: which functions of a crate can be reached by calls. */
module Survey {
  import opened Wrappers

  type Symbol = string

  /** One call site: whether it is inside the surveyed crate, and the function around it. */
  datatype Hit = Hit(inside: bool, caller: Option<Symbol>)

  type CallSites = map<Symbol, seq<Hit>>

  predicate CalledFromOutside(sites: CallSites, s: Symbol) {
    s in sites && exists h :: h in sites[s] && !h.inside
  }

  predicate IsRoot(sites: CallSites, own: set<Symbol>, s: Symbol) {
    CalledFromOutside(sites, s) || (s == "main" && s in own)
  }

  predicate CalledFrom(sites: CallSites, s: Symbol, caller: Symbol) {
    s in sites && Hit(true, Some(caller)) in sites[s]
  }

  /** A chain of calls inside the crate, from a symbol with a call site outside it, or from its own `main`,
      to `s`. */
  ghost predicate IsChain(sites: CallSites, own: set<Symbol>, chain: seq<Symbol>, s: Symbol) {
    && chain != [] && chain[|chain| - 1] == s
    && ((chain[0] == "main" && "main" in own)
        || (chain[0] in sites && exists i :: 0 <= i < |sites[chain[0]]| && !sites[chain[0]][i].inside))
    && forall k | 0 <= k < |chain| - 1 :: CalledFrom(sites, chain[k + 1], chain[k])
  }

  ghost predicate Reachable(sites: CallSites, own: set<Symbol>, s: Symbol) {
    exists chain :: IsChain(sites, own, chain, s)
  }

  lemma RootIsReachable(sites: CallSites, own: set<Symbol>, s: Symbol)
    requires IsRoot(sites, own, s)
    ensures Reachable(sites, own, s)
  {
    if CalledFromOutside(sites, s) {
      var h :| h in sites[s] && !h.inside;
      var i :| 0 <= i < |sites[s]| && sites[s][i] == h;
    }
    assert IsChain(sites, own, [s], s);
  }

  lemma CalleeIsReachable(sites: CallSites, own: set<Symbol>, caller: Symbol, s: Symbol)
    requires Reachable(sites, own, caller) && CalledFrom(sites, s, caller)
    ensures Reachable(sites, own, s)
  {
    var chain :| IsChain(sites, own, chain, caller);
    var longer := chain + [s];
    forall k | 0 <= k < |longer| - 1
      ensures CalledFrom(sites, longer[k + 1], longer[k])
    {
      if k < |chain| - 1 {
        assert CalledFrom(sites, chain[k + 1], chain[k]);
      }
    }
    assert IsChain(sites, own, longer, s);
  }

  predicate HasLiveCaller(hits: seq<Hit>, live: set<Symbol>) {
    exists h :: h in hits && h.inside && h.caller.Some? && h.caller.value in live
  }

  /** Closed under the step the loop takes. */
  ghost predicate Closed(sites: CallSites, own: set<Symbol>, live: set<Symbol>) {
    && (forall s | IsRoot(sites, own, s) :: s in live)
    && (forall s | s in sites && HasLiveCaller(sites[s], live) :: s in live)
  }

  lemma {:induction false} ChainStaysInside(sites: CallSites, own: set<Symbol>, live: set<Symbol>, chain: seq<Symbol>, s: Symbol)
    requires Closed(sites, own, live) && IsChain(sites, own, chain, s)
    ensures s in live
    decreases |chain|
  {
    if |chain| > 1 {
      var caller := chain[|chain| - 2];
      assert CalledFrom(sites, chain[|chain| - 2 + 1], caller);
      ChainStaysInside(sites, own, live, chain[..|chain| - 1], caller);
      var h := Hit(true, Some(caller));
      assert h in sites[s] && h.caller.value in live;
    }
  }

  /** The reachable symbols are the least closed set. */
  lemma ReachableIsLeast(sites: CallSites, own: set<Symbol>, live: set<Symbol>)
    requires Closed(sites, own, live)
    ensures forall s | Reachable(sites, own, s) :: s in live
  {
    forall s | Reachable(sites, own, s)
      ensures s in live
    {
      var chain :| IsChain(sites, own, chain, s);
      ChainStaysInside(sites, own, live, chain, s);
    }
  }

  /** The symbols not yet live are all that can still be added. */
  lemma AddingShrinks(sites: CallSites, before: set<Symbol>, live: set<Symbol>)
    requires before < live <= before + sites.Keys
    ensures |sites.Keys - live| < |sites.Keys - before|
  {
    var s :| s in live && s !in before;
    assert s in sites.Keys - before && s !in sites.Keys - live;
    assert sites.Keys - live <= (sites.Keys - before) - {s};
    FewerOf(sites.Keys - live, (sites.Keys - before) - {s});
  }

  lemma {:induction false} FewerOf<T>(xs: set<T>, ys: set<T>)
    requires xs <= ys
    ensures |xs| <= |ys|
  {
    if x :| x in xs {
      FewerOf(xs - {x}, ys - {x});
    }
  }

  ghost predicate Sound(sites: CallSites, own: set<Symbol>, live: set<Symbol>) {
    forall s | s in live :: Reachable(sites, own, s)
  }

  lemma AddingIsSound(sites: CallSites, own: set<Symbol>, live: set<Symbol>, s: Symbol)
    requires Sound(sites, own, live) && s in sites && HasLiveCaller(sites[s], live)
    ensures Sound(sites, own, live + {s})
  {
    var h :| h in sites[s] && h.inside && h.caller.Some? && h.caller.value in live;
    CalleeIsReachable(sites, own, h.caller.value, s);
  }

  /** `s` is live already or has no live caller. */
  predicate UpToDate(sites: CallSites, live: set<Symbol>, s: Symbol) {
    s in live || s !in sites || !HasLiveCaller(sites[s], live)
  }

  /** One scan of the dictionary, its keys taken in the given order. */
  method Scan(sites: CallSites, ghost own: set<Symbol>, order: seq<Symbol>, live0: set<Symbol>)
    returns (live: set<Symbol>, changed: bool)
    requires Sound(sites, own, live0) && forall s | s in order :: s in sites
    ensures Sound(sites, own, live) && live0 <= live <= live0 + sites.Keys && (changed ==> live0 < live)
    ensures !changed ==> live == live0 && forall k | 0 <= k < |order| :: UpToDate(sites, live, order[k])
  {
    live, changed := live0, false;
    for i := 0 to |order|
      invariant Sound(sites, own, live) && live0 <= live <= live0 + sites.Keys && (changed ==> live0 < live)
      invariant !changed ==> live == live0 && forall k | 0 <= k < i :: UpToDate(sites, live, order[k])
    {
      var s := order[i];
      if s !in live && HasLiveCaller(sites[s], live) {
        AddingIsSound(sites, own, live, s);
        live, changed := live + {s}, true;
      }
    }
  }

  function Roots(sites: CallSites, own: set<Symbol>): (roots: set<Symbol>)
    ensures forall s :: s in roots <==> IsRoot(sites, own, s)
  {
    (set s | s in sites && CalledFromOutside(sites, s)) + ({"main"} * own)
  }

  lemma RootsAreSound(sites: CallSites, own: set<Symbol>)
    ensures Sound(sites, own, Roots(sites, own))
  {
    forall s | s in Roots(sites, own)
      ensures Reachable(sites, own, s)
    {
      RootIsReachable(sites, own, s);
    }
  }

  lemma FixpointIsExact(sites: CallSites, own: set<Symbol>, live: set<Symbol>)
    requires Roots(sites, own) <= live && Sound(sites, own, live)
    requires forall s | s in sites :: UpToDate(sites, live, s)
    ensures forall s :: s in live <==> Reachable(sites, own, s)
  {
    assert Closed(sites, own, live);
    ReachableIsLeast(sites, own, live);
  }

  /** `order` lists the keys of `sites` in whatever order the dictionary is scanned. The result is
      exactly the symbols that a chain of calls reaches from outside the crate or from `main`. */
  method FindLive(sites: CallSites, own: set<Symbol>, order: seq<Symbol>) returns (live: set<Symbol>)
    requires forall s :: s in order <==> s in sites
    ensures forall s :: s in live <==> Reachable(sites, own, s)
  {
    live := Roots(sites, own);
    RootsAreSound(sites, own);
    ghost var roots := live;
    var changed := true;
    while changed
      invariant roots <= live && Sound(sites, own, live)
      invariant !changed ==> forall s | s in sites :: UpToDate(sites, live, s)
      decreases |sites.Keys - live|, changed
    {
      ghost var before := live;
      live, changed := Scan(sites, own, order, live);
      if changed {
        AddingShrinks(sites, before, live);
      }
      assert !changed ==> forall s | s in order :: UpToDate(sites, live, s);
    }
    FixpointIsExact(sites, own, live);
  }

  /** So the scanning order never matters. */
  lemma ScanOrderIsIrrelevant(sites: CallSites, own: set<Symbol>, a: set<Symbol>, b: set<Symbol>)
    requires forall s :: s in a <==> Reachable(sites, own, s)
    requires forall s :: s in b <==> Reachable(sites, own, s)
    ensures a == b && Closed(sites, own, a)
  {
    forall s | s in sites && HasLiveCaller(sites[s], a)
      ensures s in a
    {
      var h :| h in sites[s] && h.inside && h.caller.Some? && h.caller.value in a;
      CalleeIsReachable(sites, own, h.caller.value, s);
    }
    forall s | IsRoot(sites, own, s)
      ensures s in a
    {
      RootIsReachable(sites, own, s);
    }
  }
}
