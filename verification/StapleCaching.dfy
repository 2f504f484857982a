/** The soft-state staple cache (channel.rs) refines the plain set of all staples presented. */
module StapleCaching {
  import opened Bytes
  import opened SignedObjects
  import opened Codecs

  /** Whether a staple carries the signature of an operator key. */
  type Check = (Key, SignedStaple) -> bool

  function StapleCheck(verify: Verifier): Check {
    (operator: Key, s: SignedStaple) => verify(operator, SigningBytes(MembershipStaple(s.staple)), s.signature)
  }

  type Member = (Key, Key)
  type Cache = map<Member, SignedStaple>

  function MemberOf(s: SignedStaple): Member {
    (s.staple.channel, s.staple.holder)
  }

  predicate IsValid(check: Check, operator: Key, s: SignedStaple, now: u64) {
    now < s.staple.expiresAt && check(operator, s)
  }

  // ---- One call, as a function of the cache ----

  function AfterRefresh(check: Check, cache: Cache, operator: Key, s: SignedStaple, now: u64): Cache {
    if !IsValid(check, operator, s, now) then cache
    else if MemberOf(s) in cache && cache[MemberOf(s)].staple.expiresAt >= s.staple.expiresAt then cache
    else cache[MemberOf(s) := s]
  }

  predicate Admits(check: Check, cache: Cache, operator: Key, member: Member, now: u64) {
    member in cache && IsValid(check, operator, cache[member], now)
  }

  function AfterAsk(check: Check, cache: Cache, operator: Key, member: Member, now: u64): Cache {
    if Admits(check, cache, operator, member, now) then cache else cache - {member}
  }

  class StapleCache {
    const check: Check
    var staples: Cache

    constructor (verify: Verifier)
      ensures check == StapleCheck(verify) && staples == map[]
    {
      check := StapleCheck(verify);
      staples := map[];
    }

    method Refresh(operator: Key, s: SignedStaple, now: u64) returns (held: bool)
      modifies this`staples
      ensures staples == AfterRefresh(check, old(staples), operator, s, now)
      ensures held <==> now < s.staple.expiresAt && check(operator, s)
      ensures staples == if held && !(MemberOf(s) in old(staples) && old(staples)[MemberOf(s)].staple.expiresAt >= s.staple.expiresAt)
                         then old(staples)[(s.staple.channel, s.staple.holder) := s] else old(staples)
      ensures held ==> MemberOf(s) in staples && staples[MemberOf(s)].staple.expiresAt >= s.staple.expiresAt
    {
      if !IsValid(check, operator, s, now) {
        return false;
      }
      var key := MemberOf(s);
      if key in staples && staples[key].staple.expiresAt >= s.staple.expiresAt {
        return true;
      }
      staples := staples[key := s];
      return true;
    }

    method IsMember(operator: Key, channel: Key, holder: Key, now: u64) returns (admitted: bool)
      modifies this`staples
      ensures admitted <==> Admits(check, old(staples), operator, (channel, holder), now)
      ensures staples == AfterAsk(check, old(staples), operator, (channel, holder), now)
    {
      var key := (channel, holder);
      if key in staples {
        if IsValid(check, operator, staples[key], now) {
          return true;
        }
        staples := staples - {key};
        return false;
      }
      assert staples - {key} == staples;
      return false;
    }
  }

  // ---- Whole runs ----

  datatype Event =
    | Refreshed(s: SignedStaple, now: u64)
    | Asked(member: Member, now: u64)

  /** Runs under one operator key per channel. */
  type Operators = Key -> Key

  function Step(check: Check, operators: Operators, cache: Cache, e: Event): Cache {
    match e
    case Refreshed(s, now) => AfterRefresh(check, cache, operators(s.staple.channel), s, now)
    case Asked(member, now) => AfterAsk(check, cache, operators(member.0), member, now)
  }

  function Run(check: Check, operators: Operators, events: seq<Event>): Cache {
    if events == [] then map[]
    else Step(check, operators, Run(check, operators, events[..|events| - 1]), events[|events| - 1])
  }

  /** All staples ever presented, authentic or not. */
  function Presented(events: seq<Event>): set<SignedStaple> {
    if events == [] then {}
    else
      var last := events[|events| - 1];
      Presented(events[..|events| - 1]) + (if last.Refreshed? then {last.s} else {})
  }

  predicate ClockIsMonotone(events: seq<Event>, now: u64) {
    && (forall i, j | 0 <= i < j < |events| :: events[i].now <= events[j].now)
    && (forall i | 0 <= i < |events| :: events[i].now <= now)
  }

  /** The reference: some authentic staple for the pair is still unexpired. */
  ghost predicate Stapled(check: Check, operators: Operators, seen: set<SignedStaple>, member: Member, now: u64) {
    exists s :: s in seen && MemberOf(s) == member && IsValid(check, operators(member.0), s, now)
  }

  /** The cache holds presented, authentic staples, and for each pair one that outlasts every
      authentic staple still unexpired at `now`. */
  ghost predicate Refines(check: Check, operators: Operators, seen: set<SignedStaple>, cache: Cache, now: u64) {
    && (forall m | m in cache :: cache[m] in seen && MemberOf(cache[m]) == m && check(operators(m.0), cache[m]))
    && (forall s | s in seen && IsValid(check, operators(s.staple.channel), s, now) ::
         MemberOf(s) in cache && cache[MemberOf(s)].staple.expiresAt >= s.staple.expiresAt)
  }

  lemma StepKeepsRefinement(check: Check, operators: Operators, seen: set<SignedStaple>, cache: Cache, before: u64, e: Event)
    requires Refines(check, operators, seen, cache, before) && before <= e.now
    ensures Refines(check, operators, if e.Refreshed? then seen + {e.s} else seen, Step(check, operators, cache, e), e.now)
  {
  }

  lemma {:induction false} RunRefines(check: Check, operators: Operators, events: seq<Event>, now: u64)
    requires ClockIsMonotone(events, now)
    ensures Refines(check, operators, Presented(events), Run(check, operators, events), now)
  {
    if events != [] {
      var n := |events| - 1;
      RunRefines(check, operators, events[..n], events[n].now);
      StepKeepsRefinement(check, operators, Presented(events[..n]), Run(check, operators, events[..n]), events[n].now, events[n]);
    }
  }

  /** `is_member` agrees with the set of all staples presented: the order of gossip, domination
      and eviction never change an answer. */
  lemma MembershipIsExact(check: Check, operators: Operators, events: seq<Event>, member: Member, now: u64)
    requires ClockIsMonotone(events, now)
    ensures Admits(check, Run(check, operators, events), operators(member.0), member, now)
        <==> Stapled(check, operators, Presented(events), member, now)
  {
    RunRefines(check, operators, events, now);
  }

  /** The same with the check spelled out: a member is admitted exactly when some staple presented for it, not
      yet at its expiry, carries a signature that verifies under the operator's key over the staple's
      preimage. A forged signature admits nobody. */
  lemma OnlySignedStaplesAdmit(verify: Verifier, operators: Operators, events: seq<Event>, member: Member, now: u64)
    requires ClockIsMonotone(events, now)
    ensures Admits(StapleCheck(verify), Run(StapleCheck(verify), operators, events), operators(member.0), member, now)
            <==> exists s :: && s in Presented(events) && s.staple.channel == member.0 && s.staple.holder == member.1
                             && now < s.staple.expiresAt
                             && verify(operators(member.0), SigningBytes(MembershipStaple(s.staple)), s.signature)
  {
    var check := StapleCheck(verify);
    MembershipIsExact(check, operators, events, member, now);
    forall s: SignedStaple
      ensures check(operators(member.0), s)
              == verify(operators(member.0), SigningBytes(MembershipStaple(s.staple)), s.signature)
    {
    }
  }

  /** Two nodes that saw the same staples, in any order and with any questions in between, agree. */
  lemma GossipOrderIsIrrelevant(check: Check, operators: Operators, a: seq<Event>, b: seq<Event>, member: Member, now: u64)
    requires ClockIsMonotone(a, now) && ClockIsMonotone(b, now) && Presented(a) == Presented(b)
    ensures Admits(check, Run(check, operators, a), operators(member.0), member, now)
         == Admits(check, Run(check, operators, b), operators(member.0), member, now)
  {
    MembershipIsExact(check, operators, a, member, now);
    MembershipIsExact(check, operators, b, member, now);
  }

  // ---- Calls under any key, at any clock ----

  /** From `now` on, every answer under the channel's own key agrees with the set of staples. */
  ghost predicate Exact(check: Check, operators: Operators, seen: set<SignedStaple>, cache: Cache, now: u64) {
    forall member: Member, t: u64 | now <= t ::
      Admits(check, cache, operators(member.0), member, t) <==> Stapled(check, operators, seen, member, t)
  }

  lemma RefinesIsExact(check: Check, operators: Operators, seen: set<SignedStaple>, cache: Cache, now: u64)
    requires Refines(check, operators, seen, cache, now)
    ensures Exact(check, operators, seen, cache, now)
  {
    forall member: Member, t: u64 | now <= t
      ensures Admits(check, cache, operators(member.0), member, t) <==> Stapled(check, operators, seen, member, t)
    {
      if Stapled(check, operators, seen, member, t) {
        var s :| s in seen && MemberOf(s) == member && IsValid(check, operators(member.0), s, t);
        assert IsValid(check, operators(s.staple.channel), s, now);
      }
    }
  }

  /** A question under any key, at any clock, leaves the later answers right exactly when it does not
      refuse a staple that is good under the channel's own key now. */
  lemma AskIsHarmlessIff(check: Check, operators: Operators, seen: set<SignedStaple>, cache: Cache, now: u64,
                         other: Key, member: Member, clock: u64)
    requires Refines(check, operators, seen, cache, now)
    ensures var after := AfterAsk(check, cache, other, member, clock);
            var harmless := Admits(check, cache, operators(member.0), member, now) ==> Admits(check, cache, other, member, clock);
            && (Refines(check, operators, seen, after, now) <==> harmless)
            && (Exact(check, operators, seen, after, now) <==> harmless)
  {
    var after := AfterAsk(check, cache, other, member, clock);
    RefinesIsExact(check, operators, seen, cache, now);
    if Admits(check, cache, operators(member.0), member, now) && !Admits(check, cache, other, member, clock) {
      assert !Admits(check, after, operators(member.0), member, now);
      assert Stapled(check, operators, seen, member, now);
    } else {
      assert Refines(check, operators, seen, after, now);
      RefinesIsExact(check, operators, seen, after, now);
    }
  }

  /** The cache already holds a staple for the pair that lasts at least as long. */
  predicate Dominated(cache: Cache, s: SignedStaple) {
    MemberOf(s) in cache && cache[MemberOf(s)].staple.expiresAt >= s.staple.expiresAt
  }

  /** A refresh under any key, at any clock, keeps the refinement exactly when what it takes in is
      authentic, and what it refuses is not good now, unless the cache holds a longer staple anyway. */
  lemma RefreshRefinesIff(check: Check, operators: Operators, seen: set<SignedStaple>, cache: Cache, now: u64,
                          other: Key, s: SignedStaple, clock: u64)
    requires Refines(check, operators, seen, cache, now)
    ensures var own := operators(s.staple.channel);
            Refines(check, operators, seen + {s}, AfterRefresh(check, cache, other, s, clock), now)
            <==> Dominated(cache, s) || if IsValid(check, other, s, clock) then check(own, s) else !IsValid(check, own, s, now)
  {
    var own, m := operators(s.staple.channel), MemberOf(s);
    var after := AfterRefresh(check, cache, other, s, clock);
    if !Dominated(cache, s) {
      assert s in seen + {s};
      if IsValid(check, other, s, clock) {
        assert after == cache[m := s] && after[m] == s;
        if check(own, s) {
          AuthenticRefreshRefines(check, operators, seen, cache, now, s);
        }
      } else {
        assert after == cache;
      }
    }
  }

  lemma AuthenticRefreshRefines(check: Check, operators: Operators, seen: set<SignedStaple>, cache: Cache, now: u64, s: SignedStaple)
    requires Refines(check, operators, seen, cache, now) && !Dominated(cache, s) && check(operators(s.staple.channel), s)
    ensures Refines(check, operators, seen + {s}, cache[MemberOf(s) := s], now)
  {
  }

  /** A refused refresh leaves all later answers right exactly when the staple is not good now or the
      cache holds one that lasts at least as long: a clock that runs ahead can lose a good staple. */
  lemma RefusedRefreshIsHarmlessIff(check: Check, operators: Operators, seen: set<SignedStaple>, cache: Cache, now: u64,
                                    other: Key, s: SignedStaple, clock: u64)
    requires Refines(check, operators, seen, cache, now) && !IsValid(check, other, s, clock)
    ensures Exact(check, operators, seen + {s}, AfterRefresh(check, cache, other, s, clock), now)
            <==> Dominated(cache, s) || !IsValid(check, operators(s.staple.channel), s, now)
  {
    var own, m := operators(s.staple.channel), MemberOf(s);
    RefreshRefinesIff(check, operators, seen, cache, now, other, s, clock);
    if Dominated(cache, s) || !IsValid(check, own, s, now) {
      RefinesIsExact(check, operators, seen + {s}, cache, now);
    } else {
      var last: u64 := s.staple.expiresAt - 1;
      assert IsValid(check, own, s, last) && s in seen + {s};
      assert Stapled(check, operators, seen + {s}, m, last);
      assert !Admits(check, cache, own, m, last);
    }
  }

  /** Taking a staple in leaves all later answers right exactly when it is authentic or the staple it
      replaces, if any, is not good now. */
  lemma AcceptedRefreshIsHarmlessIff(check: Check, operators: Operators, seen: set<SignedStaple>, cache: Cache, now: u64,
                                     other: Key, s: SignedStaple, clock: u64)
    requires Refines(check, operators, seen, cache, now) && IsValid(check, other, s, clock) && !Dominated(cache, s)
    ensures var own := operators(s.staple.channel);
            Exact(check, operators, seen + {s}, AfterRefresh(check, cache, other, s, clock), now)
            <==> check(own, s) || !Admits(check, cache, own, MemberOf(s), now)
  {
    var own, m := operators(s.staple.channel), MemberOf(s);
    var after := cache[m := s];
    RefinesIsExact(check, operators, seen, cache, now);
    if check(own, s) {
      RefreshRefinesIff(check, operators, seen, cache, now, other, s, clock);
      RefinesIsExact(check, operators, seen + {s}, after, now);
    } else if Admits(check, cache, own, m, now) {
      assert Stapled(check, operators, seen, m, now);
      var good :| good in seen && MemberOf(good) == m && IsValid(check, operators(m.0), good, now);
      assert good in seen + {s} && Stapled(check, operators, seen + {s}, m, now);
      assert !Admits(check, after, own, m, now);
    } else {
      InauthenticStapleAddsNothing(check, operators, seen, cache, now, s);
    }
  }

  lemma InauthenticStapleAddsNothing(check: Check, operators: Operators, seen: set<SignedStaple>, cache: Cache, now: u64, s: SignedStaple)
    requires Exact(check, operators, seen, cache, now) && !check(operators(s.staple.channel), s)
    requires !Admits(check, cache, operators(s.staple.channel), MemberOf(s), now)
    ensures Exact(check, operators, seen + {s}, cache[MemberOf(s) := s], now)
  {
    var m, after := MemberOf(s), cache[MemberOf(s) := s];
    forall member: Member, t: u64 | now <= t
      ensures Admits(check, after, operators(member.0), member, t) <==> Stapled(check, operators, seen + {s}, member, t)
    {
      assert Stapled(check, operators, seen + {s}, member, t) <==> Stapled(check, operators, seen, member, t) by {
        if Stapled(check, operators, seen, member, t) {
          var x :| x in seen && MemberOf(x) == member && IsValid(check, operators(member.0), x, t);
          assert x in seen + {s};
        }
      }
      assert Admits(check, cache, operators(member.0), member, t) <==> Stapled(check, operators, seen, member, t);
      assert member == m ==> !Admits(check, cache, operators(m.0), m, t);
    }
  }

  /** So for any key and clock, a refresh leaves all later answers right exactly when the cache holds a
      longer staple, or takes in what is authentic or replaces nothing good, or refuses nothing good. */
  lemma RefreshIsHarmlessIff(check: Check, operators: Operators, seen: set<SignedStaple>, cache: Cache, now: u64,
                             other: Key, s: SignedStaple, clock: u64)
    requires Refines(check, operators, seen, cache, now)
    ensures var own := operators(s.staple.channel);
            Exact(check, operators, seen + {s}, AfterRefresh(check, cache, other, s, clock), now)
            <==> || Dominated(cache, s)
                 || if IsValid(check, other, s, clock) then check(own, s) || !Admits(check, cache, own, MemberOf(s), now)
                    else !IsValid(check, own, s, now)
  {
    if !IsValid(check, other, s, clock) {
      RefusedRefreshIsHarmlessIff(check, operators, seen, cache, now, other, s, clock);
    } else if !Dominated(cache, s) {
      AcceptedRefreshIsHarmlessIff(check, operators, seen, cache, now, other, s, clock);
    } else {
      RefreshRefinesIff(check, operators, seen, cache, now, other, s, clock);
      RefinesIsExact(check, operators, seen + {s}, cache, now);
    }
  }

  /** An inauthentic staple that was taken in under a foreign key replaces a good one at once, and then
      stands in the way of every good one that does not outlast it: the good one is reported as held and
      not taken in, and the member refused. */
  lemma InauthenticStapleShadows(check: Check, operators: Operators, cache: Cache, other: Key, s: SignedStaple, clock: u64,
                                 good: SignedStaple, now: u64)
    requires IsValid(check, other, s, clock) && !Dominated(cache, s) && !check(operators(s.staple.channel), s)
    requires MemberOf(good) == MemberOf(s) && IsValid(check, operators(good.staple.channel), good, now)
    requires good.staple.expiresAt <= s.staple.expiresAt
    ensures var own, m := operators(s.staple.channel), MemberOf(s);
            var poisoned := AfterRefresh(check, cache, other, s, clock);
            && !Admits(check, poisoned, own, m, now)
            && AfterRefresh(check, poisoned, own, good, now) == poisoned
            && Stapled(check, operators, {s, good}, m, now)
  {
    assert good in {s, good};
  }

  /** Such staples exist: whenever a staple is good under the channel's key now but not under another key
      or a later clock, asking under those evicts it and presenting it under those loses it. */
  lemma ForeignKeyOrLateClockLoses(check: Check, operators: Operators, s: SignedStaple, now: u64, other: Key, clock: u64)
    requires IsValid(check, operators(s.staple.channel), s, now) && !IsValid(check, other, s, clock)
    ensures var own, m := operators(s.staple.channel), MemberOf(s);
            var cache := AfterRefresh(check, map[], own, s, now);
            && Admits(check, cache, own, m, now)
            && !Admits(check, AfterAsk(check, cache, other, m, clock), own, m, now)
            && !Admits(check, AfterRefresh(check, map[], other, s, clock), own, m, now)
  {
  }
}
