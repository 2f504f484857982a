/** The race between the direct path and the edge relay. Times are milliseconds; an attempt that never
    finishes is `None`. The runtime is taken to poll at every instant. */
module DirectOrRelay {
  import opened Wrappers

  const DIRECT_HEAD_START: nat := 75

  /** How long an attempt runs, and its response unless it fails. */
  datatype Attempt<T> = Attempt(after: nat, result: Option<T>)

  /** What a call returned, when, and whether it opened a relay stream on the edge connection. */
  datatype Outcome<T> = Outcome(usedDirect: bool, response: Option<T>, at: nat, touchedRelay: bool)

  /** An attempt under `tokio::time::timeout`, which lets the attempt win a tie. */
  function Timed<T>(attempt: Option<Attempt<T>>, deadline: nat): (r: Attempt<T>)
    ensures r.after <= deadline
    ensures attempt.Some? && attempt.value.after <= deadline ==> r == attempt.value
    ensures attempt.None? || attempt.value.after > deadline ==> r == Attempt(deadline, None)
    ensures r.result.Some? ==> attempt == Some(r)
  {
    if attempt.Some? && attempt.value.after <= deadline then attempt.value else Attempt(deadline, None)
  }

  /** The direct path answers no later than the relay does. */
  predicate DirectWins<T>(direct: Option<Attempt<T>>, relay: Attempt<T>) {
    direct.Some? && direct.value.result.Some? && direct.value.after <= DIRECT_HEAD_START + relay.after
  }

  /** What the race must return: the first direct success if the relay has not finished by then, and
      otherwise whatever the relay returns. */
  ghost predicate Raced<T>(direct: Option<Attempt<T>>, relay: Attempt<T>, o: Outcome<T>) {
    if DirectWins(direct, relay) then
      && o.usedDirect && o.response == direct.value.result && o.at == direct.value.after
      && (o.touchedRelay <==> o.at > DIRECT_HEAD_START)
    else
      !o.usedDirect && o.response == relay.result && o.at == DIRECT_HEAD_START + relay.after && o.touchedRelay
  }

  /** Polling as `select` does, the direct future first; after a direct failure the relay future that
      is already in flight is awaited. */
  method Race<T>(direct: Option<Attempt<T>>, relay: Attempt<T>) returns (o: Outcome<T>)
    ensures Raced(direct, relay, o)
  {
    var clock, directFailed, touched := 0, false, false;
    while true
      invariant clock <= DIRECT_HEAD_START + relay.after
      invariant touched <==> clock > DIRECT_HEAD_START
      invariant direct.Some? && direct.value.after < clock ==> directFailed
      invariant directFailed ==> direct.Some? && direct.value.result.None?
      decreases DIRECT_HEAD_START + relay.after - clock
    {
      if !directFailed && direct.Some? && direct.value.after <= clock {
        if direct.value.result.Some? {
          return Outcome(true, direct.value.result, clock, touched);
        }
        directFailed := true;
      }
      if clock >= DIRECT_HEAD_START {
        touched := true;
        if clock == DIRECT_HEAD_START + relay.after {
          return Outcome(false, relay.result, clock, touched);
        }
      }
      clock := clock + 1;
    }
  }

  /** `candidate` says whether a direct endpoint is advertised, and `direct` and `relay` what trying each
      path would do. */
  method P2pOrRelay<T>(candidate: bool, direct: Option<Attempt<T>>, relay: Option<Attempt<T>>, timeout: nat)
    returns (o: Outcome<T>)
    ensures o.at <= timeout + if candidate then DIRECT_HEAD_START else 0
    ensures Timed(relay, timeout).result.Some? ==> o.response.Some?
    ensures candidate ==> Raced(direct, Timed(relay, timeout), o)
    ensures candidate && direct.Some? && direct.value.result.Some? && direct.value.after <= RelayEnd(relay, timeout) ==>
              o == Outcome(true, direct.value.result, direct.value.after, direct.value.after > 75)
    ensures candidate && !o.usedDirect ==> o.at == RelayEnd(relay, timeout)
    ensures !candidate ==> o == Outcome(false, Timed(relay, timeout).result, Timed(relay, timeout).after, true)
  {
    if !candidate {
      var r := Timed(relay, timeout);
      return Outcome(false, r.result, r.after, true);
    }
    o := Race(direct, Timed(relay, timeout));
  }

  /** When the relay attempt is over, 75 ms after the start at the earliest and `timeout` later at the latest. */
  function RelayEnd<T>(relay: Option<Attempt<T>>, timeout: nat): nat {
    75 + if relay.Some? && relay.value.after <= timeout then relay.value.after else timeout
  }

  /** The race in plain numbers: a direct success not after the relay's end, else the relay's own response if
      it came in time, else none. */
  lemma RaceInPlainNumbers<T>(direct: Option<Attempt<T>>, relay: Option<Attempt<T>>, timeout: nat, o: Outcome<T>)
    requires Raced(direct, Timed(relay, timeout), o)
    ensures if direct.Some? && direct.value.result.Some? && direct.value.after <= RelayEnd(relay, timeout) then
              o == Outcome(true, direct.value.result, direct.value.after, direct.value.after > 75)
            else if relay.Some? && relay.value.after <= timeout then
              o == Outcome(false, relay.value.result, 75 + relay.value.after, true)
            else
              o == Outcome(false, None, 75 + timeout, true)
  {
  }

  /** What the call promises whatever the direct path does. */
  lemma RaceIsSafe<T>(direct: Option<Attempt<T>>, relay: Option<Attempt<T>>, timeout: nat, o: Outcome<T>)
    requires Raced(direct, Timed(relay, timeout), o)
    ensures o.at <= DIRECT_HEAD_START + timeout
    ensures o.usedDirect <==> DirectWins(direct, Timed(relay, timeout))
    ensures o.usedDirect ==> o.response.Some? && direct == Some(Attempt(o.at, o.response))
    ensures o.response.None? <==>
              !DirectWins(direct, Timed(relay, timeout)) && (relay.None? || relay.value.result.None? || relay.value.after > timeout)
  {
  }

  /** The race is never later than trying the paths one after the other, but for the head start. */
  lemma RaceBeatsFallback<T>(direct: Attempt<T>, relay: Attempt<T>, o: Outcome<T>)
    requires Raced(Some(direct), relay, o)
    ensures direct.result.None? ==> o.at <= direct.after + relay.after + DIRECT_HEAD_START
    ensures direct.result.None? && direct.after >= DIRECT_HEAD_START ==> o.at <= direct.after + relay.after
  {
  }

  /** The endpoint query answers with a candidate, none, or not in time; then the race runs. The times
      of `direct` and `relay` count from the end of the query. */
  method TunnelAuto<T>(query: Option<Attempt<bool>>, direct: Option<Attempt<T>>, relay: Option<Attempt<T>>, timeout: nat)
    returns (o: Outcome<T>)
    ensures o.at <= 2 * timeout + DIRECT_HEAD_START
    ensures Timed(relay, timeout).result.Some? ==> o.response.Some?
    ensures o.usedDirect <==> Timed(query, timeout).result == Some(true) && DirectWins(direct, Timed(relay, timeout))
    ensures o.usedDirect ==> o.response.Some? && o.response == direct.value.result
    ensures !o.usedDirect ==> o.response == Timed(relay, timeout).result
  {
    var asked := Timed(query, timeout);
    var raced := P2pOrRelay(asked.result == Some(true), direct, relay, timeout);
    o := raced.(at := asked.after + raced.at);
  }
}
