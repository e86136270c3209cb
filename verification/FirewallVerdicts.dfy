/**
  * What the table of chains decides: packets of one card, of none, and between two cards of one
  * host, after any requests.
  */
module FirewallVerdicts {
  import opened Basics
  import opened Names
  import opened FirewallRules
  import opened FirewallTable

  // ---------------------------------------------------------------------------
  // The verdict of the shared chain

  /** Jumps in order; a chain that falls through returns; the policy accepts. */
  function ForwardDecision(cover: Cover, order: seq<string>, chains: map<string, seq<Line>>, p: Packet): Decision
    requires forall c :: c in order ==> c in chains
  {
    if order == [] then Accept
    else
      var d := ChainDecision(cover, chains[order[0]], p);
      if d != Fallthrough then d else ForwardDecision(cover, order[1..], chains, p)
  }

  ghost predicate Touches(mac: string, p: Packet) { p.saddr == mac || p.daddr == mac }

  /** Chains that fall through do not matter; the only one that may decide, decides. */
  lemma {:induction false} OnlyOneDecides(
      cover: Cover, order: seq<string>, chains: map<string, seq<Line>>, mine: string, p: Packet)
    requires forall c :: c in order ==> c in chains
    requires forall c :: c in order && c != mine ==> ChainDecision(cover, chains[c], p) == Fallthrough
    ensures ForwardDecision(cover, order, chains, p)
         == if mine in order && ChainDecision(cover, chains[mine], p) != Fallthrough
            then ChainDecision(cover, chains[mine], p) else Accept
  {
    if order != [] {
      OnlyOneDecides(cover, order[1..], chains, mine, p);
      assert order == [order[0]] + order[1..];
    }
  }

  /** No two machines share a MAC; cards of one machine may still share a chain. */
  ghost predicate OneMachinePerMac(requests: seq<Request>) {
    forall r, s :: r in requests && s in requests && r.card.mac == s.card.mac ==> r.card.vm == s.card.vm
  }

  /** Of all managed MACs the packet touches this one only. */
  ghost predicate TouchesOnly(requests: seq<Request>, mac: string, p: Packet) {
    Touches(mac, p) && forall r :: r in requests && r.card.mac != mac ==> !Touches(r.card.mac, p)
  }

  /** Of the requests whose rules have reached their chains, the last one for a chain. */
  lemma LastExists(requests: seq<Request>, i: nat) returns (k: nat)
    requires AllValid(requests) && Took(requests, i)
    ensures LastFor(requests, k) && requests[k].Chain() == requests[i].Chain()
  {
    k := i;
    var j := i + 1;
    while j < |requests|
      invariant i < j <= |requests| && i <= k < j && Took(requests, k) && requests[k].Chain() == requests[i].Chain()
      invariant forall l :: k < l < j && Took(requests, l) ==> requests[l].Chain() != requests[i].Chain()
    {
      if Took(requests, j) && requests[j].Chain() == requests[i].Chain() { k := j; }
      j := j + 1;
    }
  }

  /** A chain decides only packets that involve the card of the last request that reached it. */
  lemma ChainDecides(cover: Cover, requests: seq<Request>, chain: string, p: Packet) returns (k: nat)
    requires AllValid(requests) && chain in After(requests).chains
    ensures ChainDecision(cover, After(requests).chains[chain], p) == Fallthrough
      || (LastFor(requests, k) && requests[k].Chain() == chain && Touches(requests[k].card.mac, p))
  {
    TableAfter(requests);
    k := 0;
    if j: nat :| Took(requests, j) && requests[j].Chain() == chain {
      k := LastExists(requests, j);
      if !Touches(requests[k].card.mac, p) {
        OtherPacketsFallThrough(cover, requests[k].rules, requests[k].card.mac, p);
      }
    }
  }

  lemma JumpsHaveChains(requests: seq<Request>, order: seq<string>)
    requires AllValid(requests) && forall c :: c in order ==> c in After(requests).forward
    ensures forall c :: c in order ==> c in After(requests).chains
  {
    TableAfter(requests);
  }

  /** Request i was made for the card of request j, was the last to reach its chain, and the
    * shared chain jumps there. */
  ghost predicate Governs(requests: seq<Request>, j: nat, i: int)
    requires AllValid(requests) && j < |requests|
  {
    && LastFor(requests, i) && requests[i].Chain() == requests[j].Chain()
    && requests[i].card.mac == requests[j].card.mac && Jumped(requests, requests[i].Chain())
  }

  lemma OtherChain(cover: Cover, requests: seq<Request>, j: nat, chain: string, p: Packet)
    requires AllValid(requests) && OneMachinePerMac(requests) && j < |requests|
    requires TouchesOnly(requests, requests[j].card.mac, p)
    requires chain in After(requests).forward && chain in After(requests).chains
    ensures ChainDecision(cover, After(requests).chains[chain], p) == Fallthrough
      || exists i :: Governs(requests, j, i) && requests[i].Chain() == chain
  {
    var k := ChainDecides(cover, requests, chain, p);
    TableAfter(requests);
    if ChainDecision(cover, After(requests).chains[chain], p) != Fallthrough {
      assert requests[k] in requests && requests[j] in requests;
      assert Governs(requests, j, k);
    }
  }

  function VerdictOf(d: Decision): Decision { if d == Fallthrough then Accept else d }

  /** A packet that touches exactly one managed MAC, after any applies and in whatever order the
    * jumps stand: the last rules that reached this card's chain decide if they were made for this
    * card and the jump is there; otherwise the packet is accepted. */
  lemma OneCardDecides(cover: Cover, requests: seq<Request>, order: seq<string>, j: nat, p: Packet)
    requires AllValid(requests) && OneMachinePerMac(requests)
    requires forall c :: c in order <==> c in After(requests).forward
    requires j < |requests| && TouchesOnly(requests, requests[j].card.mac, p)
    ensures forall c :: c in order ==> c in After(requests).chains
    ensures forall i :: Governs(requests, j, i) ==>
      ForwardDecision(cover, order, After(requests).chains, p)
        == VerdictOf(ChainDecision(cover, Compile(requests[i].rules, requests[i].card.mac), p))
    ensures (forall i :: !Governs(requests, j, i)) ==>
      ForwardDecision(cover, order, After(requests).chains, p) == Accept
  {
    var t, mine := After(requests), requests[j].Chain();
    TableAfter(requests);
    JumpsHaveChains(requests, order);
    forall c | c in order
      ensures ChainDecision(cover, t.chains[c], p) == Fallthrough || (c == mine && exists i :: Governs(requests, j, i))
    {
      OtherChain(cover, requests, j, c, p);
    }
    OnlyOneDecides(cover, order, t.chains, mine, p);
    forall i | Governs(requests, j, i)
      ensures mine in order && t.chains[mine] == Compile(requests[i].rules, requests[i].card.mac)
    {
    }
  }

  /** Request k is the last one for its card whose rules have reached the chain. */
  ghost predicate LastForCard(requests: seq<Request>, k: int)
    requires AllValid(requests)
  {
    Took(requests, k) && forall j :: k < j && Took(requests, j) ==> requests[j].card.mac != requests[k].card.mac
  }

  /** Later rules for the same chain, made for another card, have reached it. */
  ghost predicate Replaced(requests: seq<Request>, k: nat)
    requires AllValid(requests) && k < |requests|
  {
    exists j :: k < j && Took(requests, j) && requests[j].Chain() == requests[k].Chain()
      && requests[j].card.mac != requests[k].card.mac
  }

  /** The rules are still there, and packets get to them. */
  ghost predicate InForce(requests: seq<Request>, k: nat)
    requires AllValid(requests) && k < |requests|
  {
    !Replaced(requests, k) && Jumped(requests, requests[k].Chain())
  }

  lemma ReplacedByLast(requests: seq<Request>, k: nat, i: nat)
    requires AllValid(requests) && LastForCard(requests, k)
    requires LastFor(requests, i) && requests[i].Chain() == requests[k].Chain()
    ensures Replaced(requests, k) <==> requests[i].card.mac != requests[k].card.mac
    ensures !Replaced(requests, k) ==> i == k
  {
    assert i >= k;
  }

  lemma GovernsIff(requests: seq<Request>, k: nat, i: int)
    requires AllValid(requests) && LastForCard(requests, k)
    ensures Governs(requests, k, i) <==> InForce(requests, k) && i == k
  {
    if LastFor(requests, i) && requests[i].Chain() == requests[k].Chain() {
      ReplacedByLast(requests, k, i);
    }
    var last := LastExists(requests, k);
    ReplacedByLast(requests, k, last);
  }

  /** A card keeps the rules that last reached its chain exactly while no later ones of another
    * MAC reach it, and they are in force exactly if some request has added the jump: then packets
    * that touch this card only get the verdict of those rules, and otherwise all are accepted. */
  lemma CardDecides(cover: Cover, requests: seq<Request>, order: seq<string>, k: nat, p: Packet)
    requires AllValid(requests) && OneMachinePerMac(requests)
    requires forall c :: c in order <==> c in After(requests).forward
    requires LastForCard(requests, k) && TouchesOnly(requests, requests[k].card.mac, p)
    ensures forall c :: c in order ==> c in After(requests).chains
    ensures ForwardDecision(cover, order, After(requests).chains, p) ==
      if InForce(requests, k)
      then VerdictOf(ChainDecision(cover, Compile(requests[k].rules, requests[k].card.mac), p)) else Accept
  {
    OneCardDecides(cover, requests, order, k, p);
    forall i ensures Governs(requests, k, i) <==> InForce(requests, k) && i == k { GovernsIff(requests, k, i); }
  }

  /** So a packet that the card's rules drop is dropped exactly if the rules are in force. */
  lemma DroppedIff(cover: Cover, requests: seq<Request>, order: seq<string>, k: nat, p: Packet)
    requires AllValid(requests) && OneMachinePerMac(requests)
    requires forall c :: c in order <==> c in After(requests).forward
    requires LastForCard(requests, k) && TouchesOnly(requests, requests[k].card.mac, p)
    requires ChainDecision(cover, Compile(requests[k].rules, requests[k].card.mac), p) == Drop
    ensures forall c :: c in order ==> c in After(requests).chains
    ensures ForwardDecision(cover, order, After(requests).chains, p) == Drop <==> InForce(requests, k)
  {
    CardDecides(cover, requests, order, k, p);
  }

  /** A packet that touches no managed MAC is accepted. */
  lemma UnmanagedAccepted(cover: Cover, requests: seq<Request>, order: seq<string>, p: Packet)
    requires AllValid(requests)
    requires forall c :: c in order <==> c in After(requests).forward
    requires forall r :: r in requests ==> !Touches(r.card.mac, p)
    ensures forall c :: c in order ==> c in After(requests).chains
    ensures ForwardDecision(cover, order, After(requests).chains, p) == Accept
  {
    var t := After(requests);
    JumpsHaveChains(requests, order);
    forall c | c in order ensures ChainDecision(cover, t.chains[c], p) == Fallthrough {
      var k := ChainDecides(cover, requests, c, p);
    }
    OnlyOneDecides(cover, order, t.chains, "", p);
  }

  // ---------------------------------------------------------------------------
  // Packets between machines of one host

  ghost predicate SomeDecides(cover: Cover, order: seq<string>, chains: map<string, seq<Line>>, p: Packet, d: Decision)
    requires forall c :: c in order ==> c in chains
  {
    exists c :: c in order && ChainDecision(cover, chains[c], p) == d
  }

  /** Where no two chains disagree, the verdict is drop exactly if some chain drops. */
  lemma {:induction false} AgreedVerdict(cover: Cover, order: seq<string>, chains: map<string, seq<Line>>, p: Packet)
    requires forall c :: c in order ==> c in chains
    requires !(SomeDecides(cover, order, chains, p, Accept) && SomeDecides(cover, order, chains, p, Drop))
    ensures ForwardDecision(cover, order, chains, p)
         == if SomeDecides(cover, order, chains, p, Drop) then Drop else Accept
  {
    if order != [] {
      var rest := order[1..];
      assert order == [order[0]] + rest;
      assert forall d :: SomeDecides(cover, rest, chains, p, d) ==> SomeDecides(cover, order, chains, p, d);
      AgreedVerdict(cover, rest, chains, p);
      assert order[0] in order;
    }
  }

  lemma Fronted(forward: seq<string>, c: string) returns (order: seq<string>)
    requires c in forward
    ensures multiset(order) == multiset(forward) && order != [] && order[0] == c
  {
    var i :| 0 <= i < |forward| && forward[i] == c;
    order := [c] + (forward[..i] + forward[i + 1..]);
    assert forward == forward[..i] + [c] + forward[i + 1..];
  }

  ghost predicate OrderMatters(cover: Cover, forward: seq<string>, chains: map<string, seq<Line>>, p: Packet)
    requires forall c :: c in forward ==> c in chains
  {
    exists order :: multiset(order) == multiset(forward)
      && ForwardDecision(cover, Within(order, forward, chains), chains, p) != ForwardDecision(cover, forward, chains, p)
  }

  function Within(order: seq<string>, forward: seq<string>, chains: map<string, seq<Line>>): (r: seq<string>)
    requires multiset(order) == multiset(forward) && forall c :: c in forward ==> c in chains
    ensures r == order && forall c :: c in r ==> c in chains
  {
    assert forall c :: c in order ==> c in multiset(forward);
    order
  }

  /** For a packet that touches several managed MACs the order of the jumps matters exactly when
    * one chain accepts the packet and another drops it. */
  lemma OrderMattersIff(cover: Cover, forward: seq<string>, chains: map<string, seq<Line>>, p: Packet)
    requires forall c :: c in forward ==> c in chains
    ensures OrderMatters(cover, forward, chains, p) <==>
      SomeDecides(cover, forward, chains, p, Accept) && SomeDecides(cover, forward, chains, p, Drop)
  {
    if SomeDecides(cover, forward, chains, p, Accept) && SomeDecides(cover, forward, chains, p, Drop) {
      var now := ForwardDecision(cover, forward, chains, p);
      var c :| c in forward && ChainDecision(cover, chains[c], p) == if now == Drop then Accept else Drop;
      var order := Fronted(forward, c);
      assert ForwardDecision(cover, Within(order, forward, chains), chains, p) == ChainDecision(cover, chains[c], p);
    } else {
      forall order | multiset(order) == multiset(forward)
        ensures ForwardDecision(cover, Within(order, forward, chains), chains, p)
             == ForwardDecision(cover, forward, chains, p)
      {
        SameChains(cover, order, forward, chains, p);
      }
    }
  }

  lemma SameChains(cover: Cover, order: seq<string>, forward: seq<string>, chains: map<string, seq<Line>>, p: Packet)
    requires multiset(order) == multiset(forward) && forall c :: c in forward ==> c in chains
    requires !(SomeDecides(cover, forward, chains, p, Accept) && SomeDecides(cover, forward, chains, p, Drop))
    ensures ForwardDecision(cover, Within(order, forward, chains), chains, p)
         == ForwardDecision(cover, forward, chains, p)
  {
    var same := Within(order, forward, chains);
    assert forall c :: c in order <==> c in multiset(order);
    assert forall c :: c in forward <==> c in multiset(forward);
    assert forall d :: SomeDecides(cover, same, chains, p, d) <==> SomeDecides(cover, forward, chains, p, d);
    AgreedVerdict(cover, same, chains, p);
    AgreedVerdict(cover, forward, chains, p);
  }

  /** What the rules that last reached a card's chain make of a packet, nothing if not in force. */
  ghost function CardDecision(cover: Cover, requests: seq<Request>, k: nat, direction: Direction, p: Packet): Decision
    requires AllValid(requests) && k < |requests|
  {
    if InForce(requests, k) then DirectionDecision(cover, requests[k].card.mac, requests[k].rules, direction, p)
    else Fallthrough
  }

  /** The packet leaves through one card, with request a its last, and enters through another one. */
  ghost predicate Between(requests: seq<Request>, a: nat, b: nat, p: Packet)
    requires AllValid(requests)
  {
    && LastForCard(requests, a) && LastForCard(requests, b) && p.saddr != p.daddr
    && requests[a].card.mac == p.saddr && requests[b].card.mac == p.daddr
  }

  /** The decision of a card whose rules are in force is that of its chain. */
  lemma CardHasChain(cover: Cover, requests: seq<Request>, k: nat, direction: Direction, p: Packet)
    requires AllValid(requests) && LastForCard(requests, k) && InForce(requests, k)
    requires PassesOnly(requests[k].card.mac, direction, p)
    ensures var t, c := After(requests), requests[k].Chain();
      && c in t.forward && c in t.chains
      && ChainDecision(cover, t.chains[c], p) == CardDecision(cover, requests, k, direction, p)
  {
    var i := LastExists(requests, k);
    ReplacedByLast(requests, k, i);
    TableAfter(requests);
    OneDirectionDecides(cover, requests[k].card.mac, requests[k].rules, direction, p);
  }

  lemma CardsOnlyDecide(cover: Cover, requests: seq<Request>, a: nat, b: nat, p: Packet, c: string)
    requires AllValid(requests) && OneMachinePerMac(requests) && Between(requests, a, b, p)
    requires c in After(requests).forward
    ensures c in After(requests).chains
    ensures ChainDecision(cover, After(requests).chains[c], p) == Fallthrough
      || (c == requests[a].Chain() && InForce(requests, a))
      || (c == requests[b].Chain() && InForce(requests, b))
  {
    JumpsHaveChains(requests, [c]);
    ForwardAfter(requests, c);
    var k := ChainDecides(cover, requests, c, p);
    if ChainDecision(cover, After(requests).chains[c], p) != Fallthrough {
      InForceByLast(requests, if requests[k].card.mac == p.saddr then a else b, k);
    }
  }

  lemma InForceByLast(requests: seq<Request>, n: nat, k: nat)
    requires AllValid(requests) && OneMachinePerMac(requests) && LastForCard(requests, n) && LastFor(requests, k)
    requires requests[k].card.mac == requests[n].card.mac && Jumped(requests, requests[k].Chain())
    ensures requests[k].Chain() == requests[n].Chain() && InForce(requests, n)
  {
    assert requests[k] in requests && requests[n] in requests;
    ReplacedByLast(requests, n, k);
  }

  /** The chains that decide a packet between two cards are those of the two cards. */
  lemma SomeDecidesBetween(cover: Cover, requests: seq<Request>, a: nat, b: nat, p: Packet, d: Decision)
    requires AllValid(requests) && OneMachinePerMac(requests) && Between(requests, a, b, p) && d != Fallthrough
    ensures forall c :: c in After(requests).forward ==> c in After(requests).chains
    ensures SomeDecides(cover, After(requests).forward, After(requests).chains, p, d) <==>
      d == CardDecision(cover, requests, a, Out, p) || d == CardDecision(cover, requests, b, In, p)
  {
    var t := After(requests);
    TableAfter(requests);
    if InForce(requests, a) { CardHasChain(cover, requests, a, Out, p); }
    if InForce(requests, b) { CardHasChain(cover, requests, b, In, p); }
    if c :| c in t.forward && ChainDecision(cover, t.chains[c], p) == d {
      CardsOnlyDecide(cover, requests, a, b, p, c);
    }
  }

  /** For a packet between two cards of one host the order of the jumps matters exactly
    * when one of sender's outbound and receiver's inbound rules accepts it and
    * the other drops it; otherwise it is dropped exactly if one of them drops it. */
  lemma BetweenCardsIff(cover: Cover, requests: seq<Request>, a: nat, b: nat, p: Packet)
    requires AllValid(requests) && OneMachinePerMac(requests) && Between(requests, a, b, p)
    ensures forall c :: c in After(requests).forward ==> c in After(requests).chains
    ensures var t := After(requests);
      var sent, received := CardDecision(cover, requests, a, Out, p), CardDecision(cover, requests, b, In, p);
      if (sent == Accept && received == Drop) || (sent == Drop && received == Accept)
      then OrderMatters(cover, t.forward, t.chains, p)
      else
        && !OrderMatters(cover, t.forward, t.chains, p)
        && ForwardDecision(cover, t.forward, t.chains, p) == if Drop in {sent, received} then Drop else Accept
  {
    var t := After(requests);
    TableAfter(requests);
    SomeDecidesBetween(cover, requests, a, b, p, Accept);
    SomeDecidesBetween(cover, requests, a, b, p, Drop);
    OrderMattersIff(cover, t.forward, t.chains, p);
    if !OrderMatters(cover, t.forward, t.chains, p) {
      AgreedVerdict(cover, t.forward, t.chains, p);
    }
  }

  /** c occurs, and before any d. */
  predicate ComesFirst(order: seq<string>, c: string, d: string) {
    order != [] && (order[0] == c || (order[0] != d && ComesFirst(order[1..], c, d)))
  }

  lemma {:induction false} ComesFirstSnoc(order: seq<string>, last: string, c: string, d: string)
    ensures ComesFirst(order + [last], c, d) <==>
      if c in order || d in order then ComesFirst(order, c, d) else last == c
  {
    if order == [] {
      assert [] + [last] == [last];
    } else {
      assert (order + [last])[1..] == order[1..] + [last];
      assert order == [order[0]] + order[1..];
      ComesFirstSnoc(order[1..], last, c, d);
    }
  }

  /** The chains of the requests that have added their jump or found it. */
  ghost function JoinedOf(requests: seq<Request>): seq<string>
    requires AllValid(requests)
  {
    if requests == [] then []
    else
      var n := |requests| - 1;
      JoinedOf(requests[..n]) + if Joined(requests, n) then [requests[n].Chain()] else []
  }

  ghost predicate SameFirsts(joined: seq<string>, forward: seq<string>, c: string, d: string) {
    (forall x :: x in joined <==> x in forward) && (ComesFirst(forward, c, d) <==> ComesFirst(joined, c, d))
  }

  lemma FirstsSnoc(joined: seq<string>, forward: seq<string>, last: string, c: string, d: string)
    requires SameFirsts(joined, forward, c, d)
    ensures SameFirsts(joined + [last], forward + [last], c, d)
    ensures last in forward ==> SameFirsts(joined + [last], forward, c, d)
  {
    ComesFirstSnoc(joined, last, c, d);
    ComesFirstSnoc(forward, last, c, d);
    if last in forward { OneOccurs(forward, c, d); }
  }

  lemma {:induction false} OneOccurs(order: seq<string>, c: string, d: string)
    ensures ComesFirst(order, c, d) ==> c in order
  {
    if order != [] {
      assert order == [order[0]] + order[1..];
      OneOccurs(order[1..], c, d);
    }
  }

  lemma JumpApplied(t: Table, chain: string, mac: string, rules: seq<Rule>, nft: Nft)
    ensures ApplyTo(t, chain, mac, rules, nft).forward
         == if nft.jump && (chain in t.chains || nft.infra) && !(nft.list && chain in t.forward)
            then t.forward + [chain] else t.forward
  {
  }

  lemma JoinedGrows(init: seq<Request>, last: Request)
    requires AllValid(init + [last]) && AllValid(init)
    ensures var before, after := After(init).forward, After(init + [last]).forward;
      if Joined(init + [last], |init|)
      then after == before + [last.Chain()] || (last.Chain() in before && after == before)
      else after == before
  {
    AfterSnoc(init, last);
    JumpApplied(After(init), last.Chain(), last.card.mac, last.rules, last.nft);
    NewestTook(init, last);
    ChainsAfter(init, last.Chain());
    MadeSnoc(init, last, last.Chain());
  }

  /** The jumps stand in the order in which they were first added. */
  lemma {:induction false} ForwardOrder(requests: seq<Request>, c: string, d: string)
    requires AllValid(requests)
    ensures SameFirsts(JoinedOf(requests), After(requests).forward, c, d)
  {
    if requests != [] {
      var init, last := requests[..|requests| - 1], requests[|requests| - 1];
      assert requests == init + [last];
      ForwardOrder(init, c, d);
      JoinedGrows(init, last);
      FirstsSnoc(JoinedOf(init), After(init).forward, last.Chain(), c, d);
      assert JoinedOf(init) + [] == JoinedOf(init);
    }
  }

  /** The first decision, if it is one, else the second. */
  function Then(first: Decision, second: Decision): Decision { if first == Fallthrough then second else first }

  /** Of two chains that may decide, the one that comes first is asked first. */
  lemma {:induction false} TwoDecide(
      cover: Cover, order: seq<string>, chains: map<string, seq<Line>>, c: string, d: string, p: Packet)
    requires c != d && c in order && d in order && forall x :: x in order ==> x in chains
    requires forall x :: x in order && x != c && x != d ==> ChainDecision(cover, chains[x], p) == Fallthrough
    ensures var dc, dd := ChainDecision(cover, chains[c], p), ChainDecision(cover, chains[d], p);
      ForwardDecision(cover, order, chains, p)
        == VerdictOf(if ComesFirst(order, c, d) then Then(dc, dd) else Then(dd, dc))
  {
    var rest := order[1..];
    assert order == [order[0]] + rest;
    if order[0] != c && order[0] != d {
      TwoDecide(cover, rest, chains, c, d, p);
    } else {
      var other := if order[0] == c then d else c;
      if ChainDecision(cover, chains[order[0]], p) == Fallthrough {
        OnlyOneDecides(cover, rest, chains, other, p);
      }
    }
  }

  lemma ChainsDiffer(requests: seq<Request>, a: nat, b: nat, p: Packet)
    requires AllValid(requests) && Between(requests, a, b, p) && InForce(requests, a) && InForce(requests, b)
    ensures requests[a].Chain() != requests[b].Chain()
  {
    if requests[a].Chain() == requests[b].Chain() {
      var i := LastExists(requests, a);
      ReplacedByLast(requests, a, i);
      ReplacedByLast(requests, b, i);
    }
  }

  /** The verdict on a packet between two cards of one host: the rules of the card whose jump was
    * added first are asked first, whatever was applied later. */
  lemma FirstAppliedDecides(cover: Cover, requests: seq<Request>, a: nat, b: nat, p: Packet)
    requires AllValid(requests) && OneMachinePerMac(requests) && Between(requests, a, b, p)
    ensures forall c :: c in After(requests).forward ==> c in After(requests).chains
    ensures var sent, received := CardDecision(cover, requests, a, Out, p), CardDecision(cover, requests, b, In, p);
      ForwardDecision(cover, After(requests).forward, After(requests).chains, p) == VerdictOf(
        if ComesFirst(JoinedOf(requests), requests[a].Chain(), requests[b].Chain())
        then Then(sent, received) else Then(received, sent))
  {
    var t, c, d := After(requests), requests[a].Chain(), requests[b].Chain();
    TableAfter(requests);
    ForwardOrder(requests, c, d);
    if InForce(requests, a) { CardHasChain(cover, requests, a, Out, p); }
    if InForce(requests, b) { CardHasChain(cover, requests, b, In, p); }
    forall x | x in t.forward ensures ChainDecision(cover, t.chains[x], p) == Fallthrough
      || (x == c && InForce(requests, a)) || (x == d && InForce(requests, b))
    {
      CardsOnlyDecide(cover, requests, a, b, p, x);
    }
    if InForce(requests, a) && InForce(requests, b) {
      ChainsDiffer(requests, a, b, p);
      TwoDecide(cover, t.forward, t.chains, c, d, p);
    } else {
      OnlyOneDecides(cover, t.forward, t.chains, if InForce(requests, a) then c else d, p);
    }
  }

  // ---------------------------------------------------------------------------
  // Both failures occur

  function Every(direction: Direction, action: Action): seq<Rule> {
    [Rule(direction, action, OtherProtocol, 0, 0, NoCidr)]
  }

  lemma EveryDecides(cover: Cover, mac: string, direction: Direction, action: Action, p: Packet)
    requires direction != OtherDirection && action != OtherAction && PassesOnly(mac, direction, p)
    ensures DirectionDecision(cover, mac, Every(direction, action), direction, p)
         == if action == ToAccept then Accept else Drop
  {
    var own := Directed(Every(direction, action), direction);
    assert own == Every(direction, action);
    assert Applies(cover, mac, own[0], p);
  }

  /** Two requests, for two cards, all commands carried out. */
  function Pair(first: Card, rules: seq<Rule>, second: Card, rules': seq<Rule>): seq<Request> {
    [Request(first, rules, ALL_WORK), Request(second, rules', ALL_WORK)]
  }

  lemma PairWorks(first: Card, rules: seq<Rule>, second: Card, rules': seq<Rule>)
    requires ValidCard(first) && ValidCard(second)
    ensures var requests := Pair(first, rules, second, rules');
      && AllValid(requests) && Took(requests, 0) && Took(requests, 1) && Joined(requests, 0) && Joined(requests, 1)
      && JoinedOf(requests) == [requests[0].Chain(), requests[1].Chain()]
  {
    var requests := Pair(first, rules, second, rules');
    var one := requests[..1];
    assert requests == one + [requests[1]] && one == [] + [requests[0]] && requests[..2] == requests;
    MadeSnoc([], requests[0], requests[0].Chain());
    MadeSnoc(one, requests[1], requests[1].Chain());
    JoinedSnoc([], requests[0]);
    JoinedSnoc(one, requests[1]);
  }

  lemma JoinedSnoc(init: seq<Request>, last: Request)
    requires AllValid(init + [last]) && AllValid(init)
    ensures JoinedOf(init + [last]) == JoinedOf(init) + if Joined(init + [last], |init|) then [last.Chain()] else []
  {
    assert (init + [last])[..|init|] == init;
  }

  /** The card's rules drop the packet, and it is accepted. */
  ghost predicate Escapes(cover: Cover, requests: seq<Request>, k: nat, p: Packet)
    requires AllValid(requests) && k < |requests|
  {
    && LastForCard(requests, k) && Touches(requests[k].card.mac, p)
    && ChainDecision(cover, Compile(requests[k].rules, requests[k].card.mac), p) == Drop
    && (forall c :: c in After(requests).forward ==> c in After(requests).chains)
    && ForwardDecision(cover, After(requests).forward, After(requests).chains, p) == Accept
  }

  lemma PairReplaced(first: Card, rules: seq<Rule>, second: Card, rules': seq<Rule>)
    requires ValidCard(first) && ValidCard(second) && first.vm == second.vm
    requires first.mac != second.mac && first.mac[12..] == second.mac[12..]
    ensures var requests := Pair(first, rules, second, rules');
      && AllValid(requests) && OneMachinePerMac(requests) && LastForCard(requests, 0) && Replaced(requests, 0)
  {
    var requests := Pair(first, rules, second, rules');
    PairWorks(first, rules, second, rules');
    ChainsCollide(first.vm, first.mac, second.vm, second.mac);
    assert requests[1].Chain() == requests[0].Chain();
  }

  /** For any two cards of one machine with MACs of one ending: what the first one's rules drop is
    * accepted once the second one's are applied. */
  lemma ReplacementOccurs(cover: Cover, first: Card, second: Card)
    requires ValidCard(first) && ValidCard(second) && first.vm == second.vm
    requires first.mac != second.mac && first.mac[12..] == second.mac[12..]
    ensures var requests := Pair(first, Every(In, ToDrop), second, Every(In, ToDrop));
      Replaced(requests, 0) && Escapes(cover, requests, 0, Packet("", first.mac, None, None))
  {
    var requests := Pair(first, Every(In, ToDrop), second, Every(In, ToDrop));
    var p := Packet("", first.mac, None, None);
    PairReplaced(first, Every(In, ToDrop), second, Every(In, ToDrop));
    CardDecides(cover, requests, After(requests).forward, 0, p);
    EveryDecides(cover, first.mac, In, ToDrop, p);
    OneDirectionDecides(cover, first.mac, Every(In, ToDrop), In, p);
  }

  lemma PairInForce(sender: Card, rules: seq<Rule>, receiver: Card, rules': seq<Rule>)
    requires ValidCard(sender) && ValidCard(receiver) && sender.vm != receiver.vm && sender.mac != receiver.mac
    ensures var requests := Pair(sender, rules, receiver, rules');
      && AllValid(requests) && OneMachinePerMac(requests) && InForce(requests, 0) && InForce(requests, 1)
      && Between(requests, 0, 1, Packet(sender.mac, receiver.mac, None, None))
      && ComesFirst(JoinedOf(requests), requests[0].Chain(), requests[1].Chain())
  {
    PairWorks(sender, rules, receiver, rules');
    ChainsCollide(sender.vm, sender.mac, receiver.vm, receiver.mac);
  }

  /** For any two cards of two machines: what the sender's rules let out is accepted though the
    * receiver's rules, applied later, drop everything, only because of the order of the jumps. */
  lemma BypassOccurs(cover: Cover, sender: Card, receiver: Card)
    requires ValidCard(sender) && ValidCard(receiver) && sender.vm != receiver.vm && sender.mac != receiver.mac
    ensures var requests := Pair(sender, Every(Out, ToAccept), receiver, Every(In, ToDrop));
      var p := Packet(sender.mac, receiver.mac, None, None);
      && Between(requests, 0, 1, p) && Escapes(cover, requests, 1, p)
      && OrderMatters(cover, After(requests).forward, After(requests).chains, p)
  {
    var requests := Pair(sender, Every(Out, ToAccept), receiver, Every(In, ToDrop));
    var p := Packet(sender.mac, receiver.mac, None, None);
    PairInForce(sender, Every(Out, ToAccept), receiver, Every(In, ToDrop));
    EveryDecides(cover, sender.mac, Out, ToAccept, p);
    EveryDecides(cover, receiver.mac, In, ToDrop, p);
    OneDirectionDecides(cover, receiver.mac, Every(In, ToDrop), In, p);
    BetweenCardsIff(cover, requests, 0, 1, p);
    FirstAppliedDecides(cover, requests, 0, 1, p);
  }

  function Mac(fourth: char, last: char): string { "52:54:00:0" + [fourth] + ":00:0" + [last] }

  lemma MacValid(fourth: char, last: char)
    requires HexDigit(fourth) && HexDigit(last)
    ensures ValidMac(Mac(fourth, last))
    ensures Mac(fourth, last)[10] == fourth && Mac(fourth, last)[12..] == "00:0" + [last]
  {
  }

  /** There are such cards. */
  lemma SuchCards()
    ensures ValidCard(Card("vm1", Mac('0', '1'))) && ValidCard(Card("vm1", Mac('1', '1')))
    ensures ValidCard(Card("vm2", Mac('0', '2')))
    ensures Mac('0', '1') != Mac('1', '1') && Mac('0', '1')[12..] == Mac('1', '1')[12..]
    ensures Mac('0', '1') != Mac('0', '2')
  {
    MacValid('0', '1');
    MacValid('1', '1');
    MacValid('0', '2');
    assert Mac('0', '1')[12..][4] != Mac('0', '2')[12..][4];
  }
}
