/**
  * One-time console tokens: issued for a machine, valid for 90 seconds, gone once redeemed,
  * swept in the background. Time is in milliseconds.
  */
module ConsoleTokens {
  import opened Basics
  import Names

  datatype Entry = Entry(vmName: string, expiresAt: int)

  const LIFETIME := 90000

  datatype Redemption = MissingToken | Refused | Opens(vmName: string)

  type Tokens = map<string, Entry>

  function Look(tokens: Tokens, token: string): Option<Entry> {
    if token in tokens then Some(tokens[token]) else None
  }

  /** The entry, while it can still be redeemed. */
  function Live(entry: Option<Entry>, now: int): Option<Entry> {
    if entry.Some? && now < entry.value.expiresAt then entry else None
  }

  function Issued(tokens: Tokens, token: string, vmName: string, now: int): Tokens {
    if Names.ValidName(vmName) then tokens[token := Entry(vmName, now + LIFETIME)] else tokens
  }

  function Redeemed(tokens: Tokens, token: string, now: int): (Tokens, Redemption) {
    if token == "" then (tokens, MissingToken)
    else
      var entry := Live(Look(tokens, token), now);
      if entry.None? then (tokens, Refused) else (tokens - {token}, Opens(entry.value.vmName))
  }

  function Swept(tokens: Tokens, now: int): Tokens {
    map t | t in tokens && now <= tokens[t].expiresAt :: tokens[t]
  }

  class Console {
    var tokens: Tokens

    constructor ()
      ensures tokens == map[]
    {
      tokens := map[];
    }

    method Issue(token: string, vmName: string, now: int) returns (issued: bool)
      modifies this
      ensures issued == Names.ValidName(vmName)
      ensures tokens == Issued(old(tokens), token, vmName, now)
    {
      if !Names.ValidName(vmName) {
        return false;
      }
      tokens := tokens[token := Entry(vmName, now + LIFETIME)];
      return true;
    }

    method Redeem(token: string, now: int) returns (r: Redemption)
      modifies this
      ensures (tokens, r) == Redeemed(old(tokens), token, now)
      ensures r == MissingToken <==> token == ""
      ensures tokens == if r.Opens? then old(tokens) - {token} else old(tokens)
    {
      if token == "" {
        return MissingToken;
      }
      if token in tokens && now < tokens[token].expiresAt {
        var vmName := tokens[token].vmName;
        tokens := tokens - {token};
        return Opens(vmName);
      }
      return Refused;
    }

    method Sweep(now: int)
      modifies this
      ensures tokens == Swept(old(tokens), now)
      ensures forall t :: t in tokens <==> t in old(tokens) && !(now > old(tokens)[t].expiresAt)
    {
      var rest := tokens.Keys;
      while rest != {}
        invariant rest <= tokens.Keys <= old(tokens).Keys
        invariant forall t :: t in tokens ==> tokens[t] == old(tokens)[t]
        invariant forall t :: t in tokens && t !in rest ==> now <= tokens[t].expiresAt
        invariant forall t :: t in old(tokens) && t !in tokens ==> now > old(tokens)[t].expiresAt
        decreases |rest|
      {
        var t :| t in rest;
        rest := rest - {t};
        if now > tokens[t].expiresAt {
          tokens := tokens - {t};
        }
      }
    }
  }

  // ---------------------------------------------------------------------------
  // Runs

  datatype Event =
    | Issue(token: string, vmName: string, at: int)
    | Redeem(token: string, at: int)
    | Sweep(at: int)

  function After(tokens: Tokens, event: Event): Tokens {
    match event
    case Issue(token, vmName, now) => Issued(tokens, token, vmName, now)
    case Redeem(token, now) => Redeemed(tokens, token, now).0
    case Sweep(now) => Swept(tokens, now)
  }

  function Run(events: seq<Event>): Tokens {
    if events == [] then map[] else After(Run(events[..|events| - 1]), events[|events| - 1])
  }

  ghost predicate Ordered(events: seq<Event>, now: int) {
    && (forall i, j :: 0 <= i < j < |events| ==> events[i].at <= events[j].at)
    && (forall i :: 0 <= i < |events| ==> events[i].at <= now)
  }

  predicate Issues(event: Event, token: string) {
    event.Issue? && event.token == token && Names.ValidName(event.vmName)
  }

  predicate Mentions(event: Event, token: string) {
    Issues(event, token) || (event.Redeem? && event.token == token)
  }

  /** What the history says of a token: its latest issue, unless a redemption followed. */
  function Standing(events: seq<Event>, token: string): Option<Entry> {
    if events == [] then None
    else
      var last := events[|events| - 1];
      if Issues(last, token) then Some(Entry(last.vmName, last.at + LIFETIME))
      else if Mentions(last, token) then None
      else Standing(events[..|events| - 1], token)
  }

  /** One event moves the stored entry as it moves the standing one, as far as later moments
    * can tell. */
  lemma EventKeepsStanding(tokens: Tokens, event: Event, token: string, standing: Option<Entry>, now: int)
    requires token != "" && event.at <= now
    requires Live(Look(tokens, token), event.at) == Live(standing, event.at)
    ensures Live(Look(After(tokens, event), token), now)
         == Live(if Issues(event, token) then Some(Entry(event.vmName, event.at + LIFETIME))
                 else if Mentions(event, token) then None else standing, now)
  {
  }

  lemma {:induction false} StoredIsStanding(events: seq<Event>, token: string, now: int)
    requires token != "" && Ordered(events, now)
    ensures Live(Look(Run(events), token), now) == Live(Standing(events, token), now)
    decreases |events|
  {
    if events != [] {
      var before, last := events[..|events| - 1], events[|events| - 1];
      StoredIsStanding(before, token, last.at);
      EventKeepsStanding(Run(before), last, token, Standing(before, token), now);
    }
  }

  /** The i-th event is the latest to mention the token, and issues it. */
  ghost predicate LatestIssue(events: seq<Event>, token: string, i: int) {
    && 0 <= i < |events| && Issues(events[i], token)
    && forall k :: i < k < |events| ==> !Mentions(events[k], token)
  }

  function Granted(event: Event): Entry
    requires event.Issue?
  {
    Entry(event.vmName, event.at + LIFETIME)
  }

  lemma {:induction false} LatestIssueStands(events: seq<Event>, token: string, i: int)
    requires LatestIssue(events, token, i)
    ensures Standing(events, token) == Some(Granted(events[i]))
    decreases |events|
  {
    if i < |events| - 1 {
      assert !Mentions(events[|events| - 1], token);
      LatestIssueStands(events[..|events| - 1], token, i);
    }
  }

  lemma {:induction false} StandingIssue(events: seq<Event>, token: string) returns (i: int)
    requires Standing(events, token).Some?
    ensures LatestIssue(events, token, i) && Standing(events, token).value == Granted(events[i])
    decreases |events|
  {
    i := |events| - 1;
    if !Issues(events[i], token) {
      i := StandingIssue(events[..i], token);
    }
  }

  /** Whatever happened before, a redemption opens a machine's console exactly when the latest
    * mention of the token is its issue for this machine, less than 90 seconds ago. */
  lemma {:induction false} RedemptionIff(events: seq<Event>, token: string, vmName: string, now: int)
    requires Ordered(events, now)
    ensures Redeemed(Run(events), token, now).1 == Opens(vmName) <==>
      (token != "" && exists i :: LatestIssue(events, token, i) && OpensFor(events[i], vmName, now))
  {
    if token != "" {
      StoredIsStanding(events, token, now);
      if i :| LatestIssue(events, token, i) && OpensFor(events[i], vmName, now) {
        LatestIssueStands(events, token, i);
      }
      if Standing(events, token).Some? {
        var i := StandingIssue(events, token);
      }
    }
  }

  predicate OpensFor(event: Event, vmName: string, now: int) {
    event.Issue? && event.vmName == vmName && now < event.at + 90000
  }

  /** A token opens at most one console per issue: between two redemptions lies another issue. */
  lemma RedeemedOncePerIssue(events: seq<Event>, i: nat, j: nat, token: string)
    requires i < j < |events| && Ordered(events, events[|events| - 1].at)
    requires events[i].Redeem? && events[j].Redeem? && events[i].token == events[j].token == token
    requires Redeemed(Run(events[..j]), token, events[j].at).1.Opens?
    ensures exists k :: i < k < j && Issues(events[k], token)
  {
    var before := events[..j];
    RedemptionIff(before, token, Redeemed(Run(before), token, events[j].at).1.vmName, events[j].at);
    var k :| LatestIssue(before, token, k);
    assert Mentions(before[i], token) && Issues(events[k], token);
  }

  // ---------------------------------------------------------------------------
  // The sweep

  function Answers(tokens: Tokens, events: seq<Event>): seq<Redemption>
    decreases |events|
  {
    if events == [] then []
    else
      (if events[0].Redeem? then [Redeemed(tokens, events[0].token, events[0].at).1] else [])
      + Answers(After(tokens, events[0]), events[1..])
  }

  function WithoutSweeps(events: seq<Event>): seq<Event> {
    if events == [] then []
    else (if events[0].Sweep? then [] else [events[0]]) + WithoutSweeps(events[1..])
  }

  /** No moment from now on can tell the two tables apart. */
  ghost predicate SameLive(swept: Tokens, kept: Tokens, now: int) {
    forall token :: Live(Look(swept, token), now) == Live(Look(kept, token), now)
  }

  lemma SweepKeepsLive(tokens: Tokens, now: int)
    ensures SameLive(Swept(tokens, now), tokens, now)
  {
  }

  lemma SameAfter(swept: Tokens, kept: Tokens, event: Event)
    requires SameLive(swept, kept, event.at) && !event.Sweep?
    ensures SameLive(After(swept, event), After(kept, event), event.at)
    ensures event.Redeem? ==>
      Redeemed(swept, event.token, event.at).1 == Redeemed(kept, event.token, event.at).1
  {
    if event.Redeem? {
      assert Live(Look(swept, event.token), event.at) == Live(Look(kept, event.token), event.at);
    }
    forall token ensures
      Live(Look(After(swept, event), token), event.at) == Live(Look(After(kept, event), token), event.at)
    {
      assert Live(Look(swept, token), event.at) == Live(Look(kept, token), event.at);
    }
  }

  lemma FirstAnswer(tokens: Tokens, event: Event, rest: seq<Event>)
    ensures Answers(tokens, [event] + rest)
         == (if event.Redeem? then [Redeemed(tokens, event.token, event.at).1] else [])
          + Answers(After(tokens, event), rest)
  {
    assert ([event] + rest)[1..] == rest;
  }

  lemma {:induction false} SameAnswers(swept: Tokens, kept: Tokens, events: seq<Event>, now: int)
    requires Ordered(events, now) && (events != [] ==> SameLive(swept, kept, events[0].at))
    ensures Answers(swept, events) == Answers(kept, WithoutSweeps(events))
    decreases |events|
  {
    if events != [] {
      var event, rest := events[0], events[1..];
      var swept', kept' := After(swept, event), if event.Sweep? then kept else After(kept, event);
      if event.Sweep? {
        SweepKeepsLive(swept, event.at);
        assert WithoutSweeps(events) == WithoutSweeps(rest);
      } else {
        SameAfter(swept, kept, event);
        FirstAnswer(kept, event, WithoutSweeps(rest));
        assert WithoutSweeps(events) == [event] + WithoutSweeps(rest);
      }
      if rest != [] {
        assert rest[0] == events[1];
        SameLiveLater(swept', kept', event.at, rest[0].at);
      }
      SameAnswers(swept', kept', rest, now);
    }
  }

  lemma SameLiveLater(swept: Tokens, kept: Tokens, now: int, later: int)
    requires now <= later && SameLive(swept, kept, now)
    ensures SameLive(swept, kept, later)
  {
    forall token ensures Live(Look(swept, token), later) == Live(Look(kept, token), later) {
      assert Live(Look(swept, token), now) == Live(Look(kept, token), now);
    }
  }

  /** Wherever sweeps fall in a run, its redemptions have the outcomes they have without them. */
  lemma SweepUnobservable(events: seq<Event>, now: int)
    requires Ordered(events, now)
    ensures Answers(map[], events) == Answers(map[], WithoutSweeps(events))
  {
    SameAnswers(map[], map[], events, now);
  }
}
