/** The transport fallback ladder: the order rungs are tried in, the per-network memory of the rung
    that worked, and the staggered race between rungs. Times are milliseconds from the race's start. */
module Ladder {
  import opened Wrappers

  type Port = p: int | 0 <= p < 65536

  datatype Rung = Quic(port: Port) | TlsTcp(port: Port)

  const FRONT_DOOR_PORT: Port := 443
  const STAGGER_DELAY: nat := 250

  predicate Distinct<T(==)>(xs: seq<T>) {
    forall i, j | 0 <= i < j < |xs| :: xs[i] != xs[j]
  }

  // ---- The ladder ----

  /** Four rungs, two when the edge is on the front-door port, and never one twice. */
  method DefaultLadder(edgePort: Port) returns (rungs: seq<Rung>)
    ensures Distinct(rungs) && [Quic(edgePort), TlsTcp(edgePort)] <= rungs
    ensures rungs == FullLadder(edgePort)
  {
    rungs := [Quic(edgePort), TlsTcp(edgePort)];
    var front := [Quic(FRONT_DOOR_PORT), TlsTcp(FRONT_DOOR_PORT)];
    for i := 0 to 2
      invariant Distinct(rungs)
      invariant rungs == [Quic(edgePort), TlsTcp(edgePort)]
                         + if edgePort == FRONT_DOOR_PORT then [] else front[..i]
    {
      if front[i] !in rungs {
        rungs := rungs + [front[i]];
      }
    }
  }

  function FullLadder(edgePort: Port): seq<Rung> {
    [Quic(edgePort), TlsTcp(edgePort)]
    + if edgePort == FRONT_DOOR_PORT then [] else [Quic(FRONT_DOOR_PORT), TlsTcp(FRONT_DOOR_PORT)]
  }

  /** QUIC before TLS-TCP, the edge's own port before the front door. */
  lemma TheRungs(edgePort: Port)
    ensures FullLadder(edgePort)
            == if edgePort == 443 then [Quic(443), TlsTcp(443)]
               else [Quic(edgePort), TlsTcp(edgePort), Quic(443), TlsTcp(443)]
  {
  }

  /** With TCP forced exactly the TCP rungs stay, in order. */
  method FilteredLadder(forceTcp: bool, edgePort: Port) returns (rungs: seq<Rung>)
    ensures Distinct(rungs) && rungs != []
    ensures forall r :: r in rungs <==> r in FullLadder(edgePort) && (forceTcp ==> r.TlsTcp?)
    ensures TlsTcp(edgePort) in rungs && TlsTcp(FRONT_DOOR_PORT) in rungs
    ensures rungs == if !forceTcp then FullLadder(edgePort)
                     else if edgePort == 443 then [TlsTcp(443)]
                     else [TlsTcp(edgePort), TlsTcp(443)]
  {
    var full := DefaultLadder(edgePort);
    if !forceTcp { return full; }
    rungs := [];
    for i := 0 to |full|
      invariant Distinct(rungs)
      invariant forall r :: r in rungs <==> r in full[..i] && r.TlsTcp?
      invariant rungs == [[], [], [TlsTcp(edgePort)], [TlsTcp(edgePort)], [TlsTcp(edgePort), TlsTcp(443)]][i]
    {
      assert full[..i + 1] == full[..i] + [full[i]];
      if full[i].TlsTcp? {
        rungs := rungs + [full[i]];
      }
    }
    assert full[..|full|] == full;
  }

  // ---- The cache and the order of attempts ----

  type Memory = map<string, Rung>

  /** The rung tried first: the remembered one while it is still on the ladder. */
  function Head(memory: Memory, network: string, ladder: seq<Rung>): Rung
    requires ladder != []
  {
    if network in memory && memory[network] in ladder then memory[network] else ladder[0]
  }

  function Without(rungs: seq<Rung>, head: Rung): seq<Rung> {
    if rungs == [] then []
    else if rungs[0] == head then Without(rungs[1..], head)
    else [rungs[0]] + Without(rungs[1..], head)
  }

  function Order(memory: Memory, network: string, ladder: seq<Rung>): seq<Rung> {
    if ladder == [] then [] else [Head(memory, network, ladder)] + Without(ladder, Head(memory, network, ladder))
  }

  class LadderCache {
    var byNetwork: Memory

    constructor ()
      ensures byNetwork == map[]
    {
      byNetwork := map[];
    }

    function Remembered(network: string): (r: Option<Rung>)
      reads this
      ensures r.Some? <==> network in byNetwork
      ensures r.Some? ==> r.value == byNetwork[network]
    {
      if network in byNetwork then Some(byNetwork[network]) else None
    }

    method Remember(network: string, rung: Rung)
      modifies this
      ensures byNetwork == old(byNetwork)[network := rung]
    {
      byNetwork := byNetwork[network := rung];
    }

    method AttemptOrder(network: string, ladder: seq<Rung>) returns (order: seq<Rung>)
      ensures order == Order(byNetwork, network, ladder)
      ensures network in byNetwork && byNetwork[network] in ladder ==> order != [] && order[0] == byNetwork[network]
      ensures !(network in byNetwork && byNetwork[network] in ladder) && ladder != [] ==> order != [] && order[0] == ladder[0]
    {
      order := [];
      var cached := Remembered(network);
      if cached.Some? && cached.value in ladder {
        order := [cached.value];
      }
      assert ladder[0..] == ladder;
      for i := 0 to |ladder|
        invariant Filled(order, ladder[i..]) == Order(byNetwork, network, ladder)
      {
        FilledStep(order, ladder[i..]);
        assert ladder[i..][1..] == ladder[i + 1..];
        if order == [] || ladder[i] != order[0] {
          order := order + [ladder[i]];
        }
      }
    }
  }

  /** What appending the rest of the ladder, but not the first rung again, makes of a partial order. */
  function Filled(order: seq<Rung>, rest: seq<Rung>): seq<Rung> {
    if order != [] then order + Without(rest, order[0])
    else if rest == [] then []
    else [rest[0]] + Without(rest, rest[0])
  }

  lemma FilledStep(order: seq<Rung>, rest: seq<Rung>)
    requires rest != []
    ensures Filled(order, rest)
            == Filled(if order == [] || rest[0] != order[0] then order + [rest[0]] else order, rest[1..])
  {
    if order == [] {
      assert order + [rest[0]] == [rest[0]];
    } else if rest[0] != order[0] {
      assert (order + [rest[0]])[0] == order[0];
      Assoc(order, [rest[0]], Without(rest[1..], order[0]));
    }
  }

  lemma {:induction false} WithoutCounts(rungs: seq<Rung>, head: Rung)
    ensures multiset(Without(rungs, head)) == multiset(rungs)[head := 0]
  {
    if rungs != [] {
      WithoutCounts(rungs[1..], head);
      assert rungs == [rungs[0]] + rungs[1..];
    }
  }

  /** The order is a permutation of the ladder exactly when the rung tried first is on it once. */
  lemma OrderPermutesIff(memory: Memory, network: string, ladder: seq<Rung>)
    ensures multiset(Order(memory, network, ladder)) == multiset(ladder)
            <==> ladder == [] || multiset(ladder)[Head(memory, network, ladder)] == 1
    ensures forall r :: r in Order(memory, network, ladder) <==> r in ladder
  {
    if ladder != [] {
      var head := Head(memory, network, ladder);
      WithoutCounts(ladder, head);
      var order := Order(memory, network, ladder);
      assert multiset(order) == multiset(ladder)[head := 1];
      forall r
        ensures r in order <==> r in ladder
      {
        assert r in order <==> r in multiset(order);
        assert r in ladder <==> r in multiset(ladder);
      }
    }
  }

  /** The remembered rung comes first while it is on the ladder, and else the ladder's own first. */
  lemma RememberedComesFirst(memory: Memory, network: string, ladder: seq<Rung>)
    requires ladder != []
    ensures Order(memory, network, ladder) != []
    ensures Order(memory, network, ladder)[0]
            == if network in memory && memory[network] in ladder then memory[network] else ladder[0]
  {
  }

  lemma {:induction false} WithoutIsCut(rungs: seq<Rung>, h: nat)
    requires Distinct(rungs) && h < |rungs|
    ensures Without(rungs, rungs[h]) == rungs[..h] + rungs[h + 1..]
  {
    if h == 0 {
      WithoutAbsent(rungs[1..], rungs[0]);
      assert rungs[..0] + rungs[1..] == rungs[1..];
    } else {
      WithoutIsCut(rungs[1..], h - 1);
      assert rungs[1..][..h - 1] == rungs[1..h] && rungs[1..][h..] == rungs[h + 1..];
      assert [rungs[0]] + (rungs[1..h] + rungs[h + 1..]) == rungs[..h] + rungs[h + 1..];
    }
  }

  /** Of a duplicate-free ladder the other rungs follow in its own order: those before the first one tried,
      then those after it. */
  lemma OthersKeepTheirOrder(memory: Memory, network: string, ladder: seq<Rung>, h: nat)
    requires Distinct(ladder) && h < |ladder| && ladder[h] == Order(memory, network, ladder)[0]
    ensures Order(memory, network, ladder) == [ladder[h]] + ladder[..h] + ladder[h + 1..]
  {
    WithoutIsCut(ladder, h);
    Assoc([ladder[h]], ladder[..h], ladder[h + 1..]);
  }

  lemma {:induction false} DistinctCounts(rungs: seq<Rung>, r: Rung)
    requires Distinct(rungs)
    ensures multiset(rungs)[r] == if r in rungs then 1 else 0
  {
    if rungs != [] {
      assert rungs == [rungs[0]] + rungs[1..];
      DistinctCounts(rungs[1..], r);
    }
  }

  /** So every duplicate-free ladder is tried as a permutation, each rung once. */
  lemma DistinctLadderIsPermuted(memory: Memory, network: string, ladder: seq<Rung>)
    requires Distinct(ladder)
    ensures multiset(Order(memory, network, ladder)) == multiset(ladder)
  {
    if ladder != [] {
      DistinctCounts(ladder, Head(memory, network, ladder));
    }
    OrderPermutesIff(memory, network, ladder);
  }

  /** An unknown network, or a remembered rung that has left the ladder, changes nothing. */
  lemma ForgottenOrderIsTheLadder(memory: Memory, network: string, ladder: seq<Rung>)
    requires Distinct(ladder) && (network !in memory || memory[network] !in ladder)
    ensures Order(memory, network, ladder) == ladder
  {
    if ladder != [] {
      WithoutAbsent(ladder[1..], ladder[0]);
    }
  }

  lemma {:induction false} WithoutAbsent(rungs: seq<Rung>, head: Rung)
    requires head !in rungs
    ensures Without(rungs, head) == rungs
  {
    if rungs != [] {
      WithoutAbsent(rungs[1..], head);
    }
  }

  /** A ladder that names its first rung twice is not permuted: the second mention is dropped. */
  lemma RepeatedRungIsDropped(network: string)
    ensures Order(map[], network, [Quic(1), Quic(1)]) == [Quic(1)]
  {
    assert Without([Quic(1), Quic(1)], Quic(1)) == Without([Quic(1)], Quic(1));
    assert Without([Quic(1)], Quic(1)) == Without([], Quic(1));
  }

  // ---- The race ----

  /** What dialing one rung will do, and how long it takes from its start. */
  datatype Dial<T> = Connects(after: nat, conn: T) | Fails(after: nat) | Hangs

  function Offset(i: nat): nat {
    STAGGER_DELAY * i
  }

  /** Positions start a quarter of a second apart. */
  lemma StaggerIsAQuarterSecond(i: nat)
    ensures Offset(i) == 250 * i
  {
  }

  /** When the rung at position i completes. */
  function Due<T>(dials: seq<Dial<T>>, i: nat): nat
    requires i < |dials| && !dials[i].Hangs?
  {
    Offset(i) + dials[i].after
  }

  /** `Stuck` is a race that never returns. */
  datatype Ending<T> = Connected(position: nat, conn: T, at: nat) | Exhausted(at: nat) | Stuck

  /** The rung that connects first wins; without one the race ends with the last failure. */
  ghost predicate IsEnding<T>(dials: seq<Dial<T>>, e: Ending<T>) {
    match e
    case Connected(i, conn, at) =>
      && i < |dials| && dials[i].Connects? && dials[i].conn == conn && at == Due(dials, i)
      && forall j | 0 <= j < |dials| && dials[j].Connects? :: at <= Due(dials, j)
    case Exhausted(at) =>
      && (forall j | 0 <= j < |dials| :: dials[j].Fails? && Due(dials, j) <= at)
      && (if dials == [] then at == 0 else exists j | 0 <= j < |dials| :: dials[j].Fails? && Due(dials, j) == at)
    case Stuck =>
      && (forall j | 0 <= j < |dials| :: !dials[j].Connects?)
      && exists j | 0 <= j < |dials| :: dials[j].Hangs?
  }

  /** The dials fix how and when the race ends; only which of several simultaneous winners is open. */
  lemma EndingIsDetermined<T>(dials: seq<Dial<T>>, a: Ending<T>, b: Ending<T>)
    requires IsEnding(dials, a) && IsEnding(dials, b)
    ensures a.Connected? <==> b.Connected?
    ensures a.Exhausted? <==> b.Exhausted?
    ensures !a.Stuck? ==> a.at == b.at
    ensures a.Connected? && a.position != b.position ==> Due(dials, a.position) == Due(dials, b.position)
  {
  }

  /** `dials[i]` is what the i-th dial of this race will do. Positions that complete at the same
      instant may be polled in either order. */
  method ConnectViaLadder<T>(cache: LadderCache, network: string, ladder: seq<Rung>, dials: seq<Dial<T>>)
    returns (order: seq<Rung>, ending: Ending<T>)
    requires |dials| == |Order(cache.byNetwork, network, ladder)|
    modifies cache
    ensures order == Order(old(cache.byNetwork), network, ladder)
    ensures IsEnding(dials, ending)
    ensures cache.byNetwork == match ending
                               case Connected(i, _, _) => old(cache.byNetwork)[network := order[i]]
                               case _ => old(cache.byNetwork)
  {
    order := cache.AttemptOrder(network, ladder);
    var pending: set<nat> := Positions(|dials|);
    var clock := 0;
    while exists i :: i in pending && !dials[i].Hangs?
      invariant cache.byNetwork == old(cache.byNetwork)
      invariant forall i | i in pending :: i < |dials|
      invariant forall i | 0 <= i < |dials| && i !in pending :: dials[i].Fails? && Due(dials, i) <= clock
      invariant forall i | i in pending && !dials[i].Hangs? :: clock <= Due(dials, i)
      invariant |dials| > 0 && (forall i | 0 <= i < |dials| :: i !in pending) ==> exists j | 0 <= j < |dials| :: dials[j].Fails? && Due(dials, j) == clock
      invariant dials == [] ==> clock == 0
      decreases |pending|
    {
      EarliestExists(dials, pending);
      var i :| i in pending && IsEarliest(dials, pending, i);
      pending, clock := pending - {i}, Due(dials, i);
      if dials[i].Connects? {
        cache.Remember(network, order[i]);
        return order, Connected(i, dials[i].conn, clock);
      }
    }
    assert forall i | 0 <= i < |dials| && dials[i].Hangs? :: i in pending;
    if pending == {} {
      ending := Exhausted(clock);
    } else {
      ending := Stuck;
    }
  }

  function Positions(n: nat): (s: set<nat>)
    ensures forall i: nat :: i in s <==> i < n
  {
    if n == 0 then {} else Positions(n - 1) + {n - 1}
  }

  predicate IsEarliest<T>(dials: seq<Dial<T>>, pending: set<nat>, i: nat)
    requires forall k | k in pending :: k < |dials|
  {
    i in pending && !dials[i].Hangs? && forall j | j in pending && !dials[j].Hangs? :: Due(dials, i) <= Due(dials, j)
  }

  lemma {:induction false} EarliestExists<T>(dials: seq<Dial<T>>, pending: set<nat>)
    requires forall k | k in pending :: k < |dials|
    requires exists i :: i in pending && !dials[i].Hangs?
    ensures exists i :: i in pending && IsEarliest(dials, pending, i)
    decreases |pending|
  {
    var i :| i in pending && !dials[i].Hangs?;
    if j :| j in pending && !dials[j].Hangs? && Due(dials, j) < Due(dials, i) {
      EarliestExists(dials, pending - {i});
      var k :| k in pending - {i} && IsEarliest(dials, pending - {i}, k);
      assert IsEarliest(dials, pending, k);
    } else {
      assert IsEarliest(dials, pending, i);
    }
  }
}
