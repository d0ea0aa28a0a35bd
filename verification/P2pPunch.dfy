/** The NAT introduction over whole runs: whose addresses a session holds, and when it is punched. */
module P2pPunch {
  import opened Ids
  import opened Wrappers
  import opened P2p

  /** The session's target accepts, naming its initiator. */
  predicate Accepts(b: Broker, e: Event, token: Token) {
    && e.Accept? && e.token == token && token in b.sessions
    && b.sessions[token].target == e.sender && b.sessions[token].initiator == e.other
  }

  /** A request for a session under the token that is granted. */
  predicate Begins(e: Event, token: Token) {
    e.Request? && e.token == token && token != "" && e.other != e.sender && e.authenticated
  }

  /** Since it was requested, the session has been accepted or lost its link: it may be punched. */
  predicate Readied(trace: seq<Event>, token: Token) {
    if trace == [] then false
    else
      var before, e := trace[..|trace| - 1], trace[|trace| - 1];
      if Begins(e, token) then false
      else if Accepts(Run(before), e, token) || e == LinkLost(token) then true
      else Readied(before, token)
  }

  /** The local and the remote address of every NAT request for the session, in order, since it could
      be punched and last lost its link. */
  function Ends(trace: seq<Event>, token: Token): seq<(Address, Address)> {
    if trace == [] then []
    else
      var before, e := trace[..|trace| - 1], trace[|trace| - 1];
      if Begins(e, token) || e == LinkLost(token) then []
      else if e.NatRequest? && e.token == token && Readied(before, token)
      then Ends(before, token) + [(e.local, e.remote)]
      else Ends(before, token)
  }

  /** The last of these events was a NAT request that found the other end known. */
  predicate Met(trace: seq<Event>, token: Token) {
    if trace == [] then false
    else
      var before, e := trace[..|trace| - 1], trace[|trace| - 1];
      if Begins(e, token) || e == LinkLost(token) || Accepts(Run(before), e, token) then false
      else if e.NatRequest? && e.token == token && Readied(before, token) then |Ends(before, token)| >= 1
      else Met(before, token)
  }

  ghost predicate Follows(s: Session, ready: bool, ends: seq<(Address, Address)>, met: bool) {
    && (s.state == Awaiting <==> !ready)
    && (s.state == Punched <==> met)
    && s.aInternal == (if |ends| >= 1 then Some(ends[0].0) else None)
    && s.aExternal == (if |ends| >= 1 then Some(ends[0].1) else None)
    && s.bInternal == (if |ends| >= 2 then Some(ends[1].0) else None)
    && s.bExternal == (if |ends| >= 2 then Some(ends[1].1) else None)
    && (!ready ==> ends == []) && (met ==> ready && |ends| >= 2)
  }

  /** What the next event makes of the three. */
  lemma OneMore(trace: seq<Event>, e: Event)
    ensures (trace + [e])[..|trace|] == trace && (trace + [e])[|trace|] == e
  {}

  lemma SessionNext(b: Broker, e: Event, token: Token, ready: bool, ends: seq<(Address, Address)>, met: bool)
    requires token in Step(b, e).sessions && token != ""
    requires token in b.sessions ==> Follows(b.sessions[token], ready, ends, met)
    ensures var s := Step(b, e).sessions[token];
            if Begins(e, token) then Follows(s, false, [], false)
            else if e == LinkLost(token) then Follows(s, true, [], false)
            else if Accepts(b, e, token) then Follows(s, true, ends, false)
            else if e.NatRequest? && e.token == token && ready then
              Follows(s, true, ends + [(e.local, e.remote)], |ends| >= 1)
            else Follows(s, ready, ends, met)
  {
    hide PackPair, EndedPairs, Ended, Tracked;
  }

  lemma ProgressNext(trace: seq<Event>, e: Event, token: Token)
    requires token in Run(trace).sessions ==>
               Follows(Run(trace).sessions[token], Readied(trace, token), Ends(trace, token), Met(trace, token))
    requires token in Step(Run(trace), e).sessions && token != ""
    ensures var more := trace + [e];
            Follows(Step(Run(trace), e).sessions[token], Readied(more, token), Ends(more, token), Met(more, token))
  {
    hide Run, Follows, Step;
    OneMore(trace, e);
    SessionNext(Run(trace), e, token, Readied(trace, token), Ends(trace, token), Met(trace, token));
  }

  lemma {:induction false} TokensNamed(trace: seq<Event>)
    ensures "" !in Run(trace).sessions
    decreases |trace|
  {
    hide PackPair, EndedPairs, Ended, Tracked;
    if trace != [] { TokensNamed(trace[..|trace| - 1]); }
  }

  /** In every run: a live session waits until it is accepted; then the first two NAT requests for it
      give its four addresses, each in its place; and it is punched once both ends are known. */
  lemma {:induction false} PunchExactly(trace: seq<Event>, token: Token)
    requires token in Run(trace).sessions
    ensures Follows(Run(trace).sessions[token], Readied(trace, token), Ends(trace, token), Met(trace, token))
    decreases |trace|
  {
    hide Step, Readied, Ends, Met, Follows;
    TokensNamed(trace);
    if trace != [] {
      var front, e := trace[..|trace| - 1], trace[|trace| - 1];
      assert front + [e] == trace;
      if token in Run(front).sessions { PunchExactly(front, token); }
      ProgressNext(front, e, token);
    }
  }

  /** The second NAT request of a session ready to be punched. */
  lemma SecondEndPunches(
      trace: seq<Event>, token: Token, first: (Address, Address), local: Address, remote: Address)
    requires token in Run(trace).sessions && Readied(trace, token) && Ends(trace, token) == [first]
    ensures var after := Run(trace + [NatRequest(local, remote, token)]);
            && token in after.sessions
            && var s := after.sessions[token];
               && s.state == Punched && s.aInternal == Some(first.0) && s.aExternal == Some(first.1)
               && s.bInternal == Some(local) && s.bExternal == Some(remote)
  {
    hide Run, Follows, Readied, Ends, Met;
    var e := NatRequest(local, remote, token);
    RunStep(trace, e);
    SecondEndCounts(trace, token, first, e);
    StaysLive(Run(trace), e, token);
    PunchExactly(trace + [e], token);
    FollowsBoth(Run(trace + [e]).sessions[token], Ends(trace + [e], token));
  }

  lemma StaysLive(b: Broker, e: Event, token: Token)
    requires e.NatRequest? && token in b.sessions
    ensures token in Step(b, e).sessions
  {}

  lemma SecondEndCounts(trace: seq<Event>, token: Token, first: (Address, Address), e: Event)
    requires Readied(trace, token) && Ends(trace, token) == [first] && e.NatRequest? && e.token == token
    ensures var more := trace + [e];
            Readied(more, token) && Ends(more, token) == [first, (e.local, e.remote)] && Met(more, token)
  {
    hide Run;
    assert (trace + [e])[..|trace|] == trace;
  }

  lemma FollowsBoth(s: Session, ends: seq<(Address, Address)>)
    requires Follows(s, true, ends, true) && |ends| == 2
    ensures s.state == Punched && s.aInternal == Some(ends[0].0) && s.aExternal == Some(ends[0].1)
    ensures s.bInternal == Some(ends[1].0) && s.bExternal == Some(ends[1].1)
  {}

  /** A NAT request for the session leads to an introduction. */
  predicate Introduces(b: Broker, token: Token) {
    && token != "" && token in b.sessions
    && var s := b.sessions[token];
       s.state != Awaiting && s.aInternal.Some? && s.aExternal.Some? && (s.bInternal.None? || s.bExternal.Some?)
  }

  /** In every run that is exactly when the session may be punched and its first end is known. */
  lemma IntroducedIff(trace: seq<Event>, token: Token)
    requires token in Run(trace).sessions
    ensures Introduces(Run(trace), token) <==> Readied(trace, token) && |Ends(trace, token)| >= 1
  {
    hide Run, Readied, Ends, Met;
    TokensNamed(trace);
    PunchExactly(trace, token);
  }
}
