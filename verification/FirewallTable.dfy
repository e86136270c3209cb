/**
  * The bridge filter table of a host: one chain per network card, reached by jumps from one
  * shared chain. Each apply ensures the chain, adds the jump unless the listing already shows
  * it, and replaces the lines of the chain.
  */
module FirewallTable {
  import opened Basics
  import opened Names
  import opened FirewallRules

  // ---------------------------------------------------------------------------
  // Chain names

  /** The chain of a card: the machine name and the last five characters of the MAC. */
  function ChainName(vm: string, mac: string): string
    requires ValidMac(mac)
  {
    "vcp-" + vm + "-" + mac[12..]
  }

  /** A chain name of the agent: its only colon is the third character from the end. */
  ghost predicate ChainShape(c: string) {
    |c| >= 5 && c[|c| - 3] == ':'
    && (forall i :: 0 <= i < |c| && i != |c| - 3 ==> c[i] != ':')
    && (forall i :: 0 <= i < |c| ==> c[i] != ' ' && c[i] != '\n')
  }

  lemma ChainNameShape(vm: string, mac: string)
    requires ValidName(vm) && ValidMac(mac)
    ensures ChainShape(ChainName(vm, mac))
  {
    var c, n := ChainName(vm, mac), |vm|;
    assert |c| == n + 10;
    assert mac[14] == ':' && c[n + 7] == mac[14];
    forall i | 0 <= i < |c| && i != n + 7 ensures c[i] != ':' && c[i] != ' ' && c[i] != '\n' {
      if i < 4 {
        assert c[i] == "vcp-"[i];
      } else if i < n + 4 {
        assert c[i] == vm[i - 4] && vm[i - 4] in vm;
      } else if i > n + 4 {
        assert c[i] == mac[i - (n + 5) + 12] && HexDigit(mac[i - (n + 5) + 12]);
      }
    }
  }

  /** No chain name is a proper prefix of another. */
  lemma PrefixExact(c: string, d: string)
    requires ChainShape(c) && ChainShape(d) && c <= d
    ensures c == d
  {
    assert d[|c| - 3] == ':';
    assert |c| == |d|;
  }

  /** Two cards share a chain exactly when they belong to one machine and their MACs end in the
    * same five characters. */
  lemma ChainsCollide(vm: string, mac: string, vm': string, mac': string)
    requires ValidMac(mac) && ValidMac(mac')
    ensures ChainName(vm, mac) == ChainName(vm', mac') <==> vm == vm' && mac[12..] == mac'[12..]
  {
    var c, c' := ChainName(vm, mac), ChainName(vm', mac');
    if c == c' {
      assert c[|c| - 5..] == mac[12..] && c'[|c'| - 5..] == mac'[12..];
      assert c[4..|c| - 6] == vm && c'[4..|c'| - 6] == vm';
    }
  }

  // ---------------------------------------------------------------------------
  // The substring test on the listing

  /** strings.Contains. */
  method Contains(text: string, needle: string) returns (found: bool)
    ensures found == Occurs(text, needle)
  {
    var i := 0;
    while i + |needle| <= |text|
      invariant 0 <= i <= |text| + 1
      invariant forall j :: 0 <= j < i ==> !MatchAt(text, needle, j)
    {
      if text[i..i + |needle|] == needle {
        assert MatchAt(text, needle, i);
        return true;
      }
      i := i + 1;
    }
    return false;
  }

  function JumpTo(chain: string): string { "jump " + chain }

  function JumpLine(chain: string): string { "\t\t" + JumpTo(chain) }

  function JumpLines(forward: seq<string>): seq<string> {
    if forward == [] then [] else [JumpLine(forward[0])] + JumpLines(forward[1..])
  }

  /** What nft prints for the shared chain, given the lines around the jumps. */
  function Listing(head: seq<string>, forward: seq<string>, tail: seq<string>): string {
    Lines(head + JumpLines(forward) + tail)
  }

  /** A line of the listing that is no jump. */
  ghost predicate NoJump(line: string) { OneLine(line) && !Occurs(line, "jump ") }

  lemma NoBreakInMatch(text: string, needle: string, i: int, k: int)
    requires OneLine(needle) && MatchAt(text, needle, i) && 0 <= k < |text| && text[k] == '\n'
    ensures k < i || i + |needle| <= k
  {
    if i <= k < i + |needle| {
      CharAt(text, needle, i, k);
    }
  }

  /** A match in a concatenation that lies within one part is a match in that part. */
  lemma MatchInPart(a: string, b: string, needle: string, i: int)
    ensures i + |needle| <= |a| ==> (MatchAt(a + b, needle, i) <==> MatchAt(a, needle, i))
    ensures i >= |a| ==> (MatchAt(a + b, needle, i) <==> MatchAt(b, needle, i - |a|))
  {
    if 0 <= i && i + |needle| <= |a| {
      assert (a + b)[i..i + |needle|] == a[i..i + |needle|];
    }
    if |a| <= i <= |a + b| - |needle| {
      assert (a + b)[i..i + |needle|] == b[i - |a|..i - |a| + |needle|];
    }
  }

  lemma OccursInLine(line: string, rest: string, needle: string)
    requires OneLine(needle) && needle != "" && OneLine(line)
    ensures Occurs(line + "\n" + rest, needle) <==> Occurs(line, needle) || Occurs(rest, needle)
  {
    var first := line + "\n";
    var text := first + rest;
    forall i | MatchAt(line, needle, i) ensures MatchAt(text, needle, i) {
      MatchInPart(line, "\n", needle, i);
      MatchInPart(first, rest, needle, i);
    }
    forall i | MatchAt(rest, needle, i) ensures MatchAt(text, needle, |first| + i) {
      MatchInPart(first, rest, needle, |first| + i);
    }
    forall i | MatchAt(text, needle, i) ensures MatchAt(line, needle, i) || MatchAt(rest, needle, i - |first|) {
      NoBreakInMatch(text, needle, i, |line|);
      MatchInPart(first, rest, needle, i);
      MatchInPart(line, "\n", needle, i);
    }
  }

  lemma {:induction false} OccursInText(lines: seq<string>, needle: string)
    requires OneLine(needle) && needle != "" && forall l :: l in lines ==> OneLine(l)
    ensures Occurs(Lines(lines), needle) <==> exists l :: l in lines && Occurs(l, needle)
  {
    if lines != [] {
      assert lines == [lines[0]] + lines[1..];
      OccursInLine(lines[0], Lines(lines[1..]), needle);
      OccursInText(lines[1..], needle);
    }
  }

  /** On a jump line the test finds exactly the prefixes of the target: the only blank of the
    * line fixes where the match begins. */
  lemma OccursInJumpLine(chain: string, target: string)
    requires ChainShape(chain) && ChainShape(target)
    ensures Occurs(JumpLine(target), JumpTo(chain)) <==> chain == target
  {
    var line, needle := JumpLine(target), JumpTo(chain);
    assert line[2..] == JumpTo(target);
    if chain == target {
      assert line[2..2 + |needle|] == needle;
      assert MatchAt(line, needle, 2);
    }
    forall i | MatchAt(line, needle, i) ensures chain == target {
      assert needle[4] == ' ' && line[i..i + |needle|][4] == line[i + 4];
      assert line[4] == 'm' && line[5] == 'p' && line[6] == ' ' && line[i + 4] == ' ';
      assert forall k :: 7 <= k < |line| ==> line[k] == target[k - 7];
      assert i == 2;
      assert line[2..2 + |needle|][5..] == line[7..7 + |chain|] && needle[5..] == chain;
      assert target[..|chain|] == line[7..7 + |chain|];
      PrefixExact(chain, target);
    }
  }

  lemma NoJumpNoMatch(line: string, chain: string)
    requires NoJump(line)
    ensures !Occurs(line, JumpTo(chain))
  {
    forall i | MatchAt(line, JumpTo(chain), i) ensures MatchAt(line, "jump ", i) {
      assert line[i..i + 5] == line[i..i + |JumpTo(chain)|][..5];
    }
  }

  lemma JumpLineOneLine(chain: string)
    requires ChainShape(chain)
    ensures OneLine(JumpLine(chain))
  {
    var line := JumpLine(chain);
    forall i | 0 <= i < |line| ensures line[i] != '\n' {
      if i >= 7 { assert line[i] == chain[i - 7]; }
    }
  }

  lemma {:induction false} JumpLinesShape(forward: seq<string>)
    requires forall c :: c in forward ==> ChainShape(c)
    ensures forall l :: l in JumpLines(forward) <==> exists c :: c in forward && l == JumpLine(c)
    ensures forall l :: l in JumpLines(forward) ==> OneLine(l)
  {
    if forward != [] {
      JumpLinesShape(forward[1..]);
      assert forward == [forward[0]] + forward[1..];
      JumpLineOneLine(forward[0]);
    }
  }

  /** The substring test is exact: the listing contains the jump iff the shared chain has it. */
  lemma ListingShowsJumps(head: seq<string>, forward: seq<string>, tail: seq<string>, chain: string)
    requires ChainShape(chain) && forall c :: c in forward ==> ChainShape(c)
    requires forall l :: l in head + tail ==> NoJump(l)
    ensures Occurs(Listing(head, forward, tail), JumpTo(chain)) <==> chain in forward
  {
    var lines := head + JumpLines(forward) + tail;
    JumpLinesShape(forward);
    assert forall l :: l in lines <==> l in head + tail || l in JumpLines(forward);
    forall l | l in head + tail ensures !Occurs(l, JumpTo(chain)) { NoJumpNoMatch(l, chain); }
    assert OneLine(JumpTo(chain));
    OccursInText(lines, JumpTo(chain));
    forall c | c in forward ensures Occurs(JumpLine(c), JumpTo(chain)) <==> chain == c {
      OccursInJumpLine(chain, c);
    }
    if chain in forward { assert JumpLine(chain) in JumpLines(forward) && JumpLine(chain) in lines; }
  }

  // ---------------------------------------------------------------------------
  // The table

  datatype Table = Table(forward: seq<string>, chains: map<string, seq<Line>>)

  const EMPTY_TABLE := Table([], map[])

  /** Which of the four commands of an apply the packet filter carries out, where the table itself
    * does not stand against it: making the chain, listing the jumps, adding the jump, the script. */
  datatype Nft = Nft(infra: bool, list: bool, jump: bool, script: bool)

  const ALL_WORK := Nft(true, true, true, true)

  function WithChain(t: Table, chain: string, nft: Nft): Table {
    if nft.infra && chain !in t.chains then t.(chains := t.chains[chain := []]) else t
  }

  /** A jump needs its chain; a listing that fails shows no jump. */
  function WithJump(t: Table, chain: string, nft: Nft): Table {
    if (nft.list && chain in t.forward) || !nft.jump || chain !in t.chains then t
    else t.(forward := t.forward + [chain])
  }

  /** The script flushes the chain first, so it is refused without one, and then changes nothing. */
  function WithLines(t: Table, chain: string, lines: seq<Line>, nft: Nft): Table {
    if nft.script && chain in t.chains then t.(chains := t.chains[chain := lines]) else t
  }

  function ApplyTo(t: Table, chain: string, mac: string, rules: seq<Rule>, nft: Nft): Table {
    WithLines(WithJump(WithChain(t, chain, nft), chain, nft), chain, Compile(rules, mac), nft)
  }

  datatype Card = Card(vm: string, mac: string)

  predicate ValidCard(c: Card) { ValidName(c.vm) && ValidMac(c.mac) }

  function ApplyAll(t: Table, vm: string, macs: seq<string>, rules: seq<Rule>, nfts: seq<Nft>): Table
    requires |nfts| == |macs| && forall m :: m in macs ==> ValidMac(m)
    decreases macs
  {
    if macs == [] then t
    else ApplyAll(ApplyTo(t, ChainName(vm, macs[0]), macs[0], rules, nfts[0]), vm, macs[1..], rules, nfts[1..])
  }

  class Filter {
    const head: seq<string>
    const tail: seq<string>
    var forward: seq<string>
    var chains: map<string, seq<Line>>

    constructor (head: seq<string>, tail: seq<string>)
      requires forall l :: l in head + tail ==> NoJump(l)
      ensures Valid() && Contents() == EMPTY_TABLE
    {
      this.head, this.tail := head, tail;
      forward, chains := [], map[];
    }

    /** Only the agent writes to the table. */
    ghost predicate Valid()
      reads this
    {
      && (forall c :: c in forward ==> ChainShape(c)) && (forall c :: c in chains ==> ChainShape(c))
      && (forall l :: l in head + tail ==> NoJump(l))
    }

    ghost function Contents(): Table
      reads this
    {
      Table(forward, chains)
    }

    method List(nft: Nft) returns (text: string)
      ensures text == if nft.list then Listing(head, forward, tail) else ""
    {
      text := if nft.list then Listing(head, forward, tail) else "";
    }

    /** The jump is added unless the listing shows it. */
    method EnsureJump(chain: string, nft: Nft)
      requires Valid() && ChainShape(chain)
      modifies this
      ensures Valid() && Contents() == WithJump(old(Contents()), chain, nft)
    {
      var listing := List(nft);
      var present := Contains(listing, "jump " + chain);
      ListingShowsJumps(head, forward, tail, chain);
      if !present && nft.jump && chain in chains {
        forward := forward + [chain];
      }
    }

    /** Only a script that is refused makes the apply fail. */
    method Apply(chain: string, mac: string, rules: seq<Rule>, nft: Nft) returns (ok: bool)
      requires Valid() && ChainShape(chain)
      modifies this
      ensures Valid() && Contents() == ApplyTo(old(Contents()), chain, mac, rules, nft)
      ensures ok == (nft.script && chain in chains)
    {
      if nft.infra && chain !in chains {
        chains := chains[chain := []];
      }
      EnsureJump(chain, nft);
      var script := Script(rules, mac);
      ok := nft.script && chain in chains;
      if ok {
        chains := chains[chain := script];
      }
    }

    /** handleApplyFirewall: the same rules for every card of the machine, failures logged only. */
    method ApplyToCards(vm: string, macs: seq<string>, rules: seq<Rule>, nfts: seq<Nft>)
      requires Valid() && ValidName(vm) && |nfts| == |macs| && forall m :: m in macs ==> ValidMac(m)
      modifies this
      ensures Valid() && Contents() == ApplyAll(old(Contents()), vm, macs, rules, nfts)
    {
      assert macs[0..] == macs && nfts[0..] == nfts;
      for i := 0 to |macs|
        invariant Valid()
        invariant ApplyAll(Contents(), vm, macs[i..], rules, nfts[i..])
               == ApplyAll(old(Contents()), vm, macs, rules, nfts)
      {
        ChainNameShape(vm, macs[i]);
        assert macs[i..][1..] == macs[i + 1..] && nfts[i..][1..] == nfts[i + 1..];
        var ok := Apply(ChainName(vm, macs[i]), macs[i], rules, nfts[i]);
      }
    }

    method FlushChain(chain: string)
      requires Valid()
      modifies this
      ensures Valid() && Contents() == Emptied(old(Contents()), chain)
    {
      if chain in chains {
        chains := chains[chain := []];
      }
    }

    /** A chain with a jump to it stays. */
    method DeleteChain(chain: string)
      requires Valid()
      modifies this
      ensures Valid() && Contents() == Deleted(old(Contents()), chain)
    {
      if chain !in forward {
        chains := chains - {chain};
      }
    }

    /** What a deletion does with the machine's rules: it names a chain after the machine alone,
      * which no apply ever makes, so all rules stay. */
    method Flush(vm: string)
      requires Valid() && ValidName(vm)
      modifies this
      ensures Valid() && Contents() == old(Contents())
    {
      NoBareChain(vm);
      FlushChain("vcp-" + vm);
      DeleteChain("vcp-" + vm);
    }
  }

  function Emptied(t: Table, chain: string): Table {
    if chain in t.chains then t.(chains := t.chains[chain := []]) else t
  }

  function Deleted(t: Table, chain: string): Table {
    if chain in t.forward then t else t.(chains := t.chains - {chain})
  }

  lemma NoBareChain(vm: string)
    requires ValidName(vm)
    ensures !ChainShape("vcp-" + vm)
  {
    var c := "vcp-" + vm;
    forall i | 0 <= i < |c| ensures c[i] != ':' {
      if i < 4 { assert c[i] == "vcp-"[i]; } else { assert c[i] == vm[i - 4] && vm[i - 4] in vm; }
    }
  }

  // ---------------------------------------------------------------------------
  // Sequences of applies

  datatype Request = Request(card: Card, rules: seq<Rule>, nft: Nft) {
    function Chain(): string
      requires ValidCard(card)
    {
      ChainName(card.vm, card.mac)
    }
  }

  ghost predicate AllValid(requests: seq<Request>) { forall r :: r in requests ==> ValidCard(r.card) }

  /** The table after the requests, the last one applied last. */
  function After(requests: seq<Request>): Table
    requires AllValid(requests)
  {
    if requests == [] then EMPTY_TABLE
    else
      var last := requests[|requests| - 1];
      ApplyTo(After(requests[..|requests| - 1]), last.Chain(), last.card.mac, last.rules, last.nft)
  }

  function CardRequests(vm: string, macs: seq<string>, rules: seq<Rule>, nfts: seq<Nft>): (r: seq<Request>)
    requires |nfts| == |macs|
    ensures |r| == |macs|
    ensures forall i :: 0 <= i < |macs| ==> r[i] == Request(Card(vm, macs[i]), rules, nfts[i])
  {
    if macs == [] then []
    else [Request(Card(vm, macs[0]), rules, nfts[0])] + CardRequests(vm, macs[1..], rules, nfts[1..])
  }

  lemma AfterSnoc(requests: seq<Request>, last: Request)
    requires AllValid(requests) && ValidCard(last.card)
    ensures AllValid(requests + [last])
    ensures After(requests + [last]) == ApplyTo(After(requests), last.Chain(), last.card.mac, last.rules, last.nft)
  {
    assert (requests + [last])[..|requests|] == requests;
  }

  /** Applying rules to all cards of a machine is one request for each card, in order. */
  lemma {:induction false} ApplyAllRequests(
      requests: seq<Request>, vm: string, macs: seq<string>, rules: seq<Rule>, nfts: seq<Nft>)
    requires AllValid(requests) && ValidName(vm) && |nfts| == |macs| && forall m :: m in macs ==> ValidMac(m)
    ensures AllValid(requests + CardRequests(vm, macs, rules, nfts))
    ensures After(requests + CardRequests(vm, macs, rules, nfts)) == ApplyAll(After(requests), vm, macs, rules, nfts)
    decreases macs
  {
    if macs == [] {
      assert requests + [] == requests;
    } else {
      var first := Request(Card(vm, macs[0]), rules, nfts[0]);
      AfterSnoc(requests, first);
      Grouped(requests, [first], CardRequests(vm, macs[1..], rules, nfts[1..]));
      ApplyAllRequests(requests + [first], vm, macs[1..], rules, nfts[1..]);
    }
  }

  /** Some request has made the chain. */
  ghost predicate Made(requests: seq<Request>, chain: string)
    requires AllValid(requests)
  {
    exists i :: 0 <= i < |requests| && requests[i].Chain() == chain && requests[i].nft.infra
  }

  /** The rules of request i have reached their chain. */
  ghost predicate Took(requests: seq<Request>, i: int)
    requires AllValid(requests)
  {
    0 <= i < |requests| && requests[i].nft.script && Made(requests[..i + 1], requests[i].Chain())
  }

  /** Request i has added the jump to its chain, or found it. */
  ghost predicate Joined(requests: seq<Request>, i: int)
    requires AllValid(requests)
  {
    0 <= i < |requests| && requests[i].nft.jump && Made(requests[..i + 1], requests[i].Chain())
  }

  /** Some request has added the jump to the chain. */
  ghost predicate Jumped(requests: seq<Request>, chain: string)
    requires AllValid(requests)
  {
    exists i :: Joined(requests, i) && requests[i].Chain() == chain
  }

  /** Request i is the last one whose rules have reached its chain. */
  ghost predicate LastFor(requests: seq<Request>, i: int)
    requires AllValid(requests)
  {
    Took(requests, i) && forall j :: i < j && Took(requests, j) ==> requests[j].Chain() != requests[i].Chain()
  }

  lemma MadeSnoc(init: seq<Request>, last: Request, chain: string)
    requires AllValid(init + [last]) && AllValid(init)
    ensures Made(init + [last], chain) <==> Made(init, chain) || (last.Chain() == chain && last.nft.infra)
  {
    var requests := init + [last];
    assert requests[|init|] == last && forall i :: 0 <= i < |init| ==> requests[i] == init[i];
  }

  /** What came earlier is not changed by one more request. */
  lemma EarlierSame(init: seq<Request>, last: Request, i: int)
    requires AllValid(init + [last]) && AllValid(init) && i < |init|
    ensures Took(init + [last], i) <==> Took(init, i)
    ensures Joined(init + [last], i) <==> Joined(init, i)
  {
    if 0 <= i {
      assert (init + [last])[..i + 1] == init[..i + 1] && (init + [last])[i] == init[i];
    }
  }

  lemma NewestTook(init: seq<Request>, last: Request)
    requires AllValid(init + [last]) && AllValid(init)
    ensures Took(init + [last], |init|) <==> last.nft.script && Made(init + [last], last.Chain())
    ensures Joined(init + [last], |init|) <==> last.nft.jump && Made(init + [last], last.Chain())
  {
    assert (init + [last])[..|init| + 1] == init + [last] && (init + [last])[|init|] == last;
  }

  lemma JumpedSnoc(init: seq<Request>, last: Request, chain: string)
    requires AllValid(init + [last]) && AllValid(init)
    ensures Jumped(init + [last], chain) <==>
      Jumped(init, chain) || (last.Chain() == chain && last.nft.jump && Made(init + [last], chain))
  {
    var requests := init + [last];
    NewestTook(init, last);
    forall i | 0 <= i < |init| ensures Joined(requests, i) <==> Joined(init, i) { EarlierSame(init, last, i); }
    forall i | 0 <= i < |init| ensures requests[i] == init[i] {}
    assert requests[|init|] == last;
    if Jumped(init, chain) {
      var i :| Joined(init, i) && init[i].Chain() == chain;
      assert Joined(requests, i) && requests[i].Chain() == chain;
    }
  }

  lemma {:induction false} ChainsAfter(requests: seq<Request>, chain: string)
    requires AllValid(requests)
    ensures chain in After(requests).chains <==> Made(requests, chain)
  {
    if requests != [] {
      var init, last := requests[..|requests| - 1], requests[|requests| - 1];
      assert requests == init + [last];
      ChainsAfter(init, chain);
      MadeSnoc(init, last, chain);
    }
  }

  lemma {:induction false} ForwardAfter(requests: seq<Request>, chain: string)
    requires AllValid(requests)
    ensures chain in After(requests).forward <==> Jumped(requests, chain)
  {
    if requests != [] {
      var init, last := requests[..|requests| - 1], requests[|requests| - 1];
      assert requests == init + [last];
      ForwardAfter(init, chain);
      JumpedSnoc(init, last, chain);
      ChainsAfter(init, chain);
      MadeSnoc(init, last, chain);
    }
  }

  lemma {:induction false} ForwardDistinct(requests: seq<Request>)
    requires AllValid(requests) && forall r :: r in requests ==> r.nft.list
    ensures Distinct(After(requests).forward)
  {
    if requests != [] { ForwardDistinct(requests[..|requests| - 1]); }
  }

  function LinesIn(t: Table, chain: string): seq<Line> { if chain in t.chains then t.chains[chain] else [] }

  /** The lines of a chain: those of the last request whose rules have reached it, if any. */
  ghost predicate Holds(requests: seq<Request>, chain: string, lines: seq<Line>)
    requires AllValid(requests)
  {
    && (forall i :: LastFor(requests, i) && requests[i].Chain() == chain ==>
          lines == Compile(requests[i].rules, requests[i].card.mac))
    && ((forall i :: Took(requests, i) ==> requests[i].Chain() != chain) ==> lines == [])
  }

  lemma HoldsNew(init: seq<Request>, last: Request)
    requires AllValid(init + [last]) && AllValid(init) && Took(init + [last], |init|)
    ensures Holds(init + [last], last.Chain(), Compile(last.rules, last.card.mac))
  {
    assert (init + [last])[|init|] == last;
  }

  lemma LastForInit(init: seq<Request>, last: Request, i: int)
    requires AllValid(init + [last]) && AllValid(init) && LastFor(init + [last], i) && i < |init|
    ensures LastFor(init, i) && init[i] == (init + [last])[i]
  {
    EarlierSame(init, last, i);
    forall j | i < j && Took(init, j) ensures init[j].Chain() != init[i].Chain() {
      EarlierSame(init, last, j);
      assert (init + [last])[j] == init[j];
    }
  }

  lemma HoldsKept(init: seq<Request>, last: Request, chain: string, lines: seq<Line>)
    requires AllValid(init + [last]) && AllValid(init) && Holds(init, chain, lines)
    requires Took(init + [last], |init|) ==> last.Chain() != chain
    ensures Holds(init + [last], chain, lines)
  {
    var requests := init + [last];
    assert requests[|init|] == last;
    forall i | LastFor(requests, i) && requests[i].Chain() == chain
      ensures lines == Compile(requests[i].rules, requests[i].card.mac)
    {
      LastForInit(init, last, i);
    }
    if i :| Took(init, i) && init[i].Chain() == chain {
      EarlierSame(init, last, i);
      assert requests[i] == init[i];
    }
  }

  lemma LinesApplied(t: Table, chain: string, mac: string, rules: seq<Rule>, nft: Nft, c: string)
    ensures LinesIn(ApplyTo(t, chain, mac, rules, nft), c)
         == if c == chain && nft.script && (chain in t.chains || nft.infra) then Compile(rules, mac) else LinesIn(t, c)
  {
  }

  lemma LinesSnoc(init: seq<Request>, last: Request, chain: string)
    requires AllValid(init + [last]) && AllValid(init)
    ensures LinesIn(After(init + [last]), chain)
         == if Took(init + [last], |init|) && last.Chain() == chain then Compile(last.rules, last.card.mac)
            else LinesIn(After(init), chain)
  {
    AfterSnoc(init, last);
    NewestTook(init, last);
    ChainsAfter(init, last.Chain());
    MadeSnoc(init, last, last.Chain());
    LinesApplied(After(init), last.Chain(), last.card.mac, last.rules, last.nft, chain);
  }

  lemma {:induction false} LinesAfter(requests: seq<Request>, chain: string)
    requires AllValid(requests)
    ensures Holds(requests, chain, LinesIn(After(requests), chain))
  {
    if requests != [] {
      var init, last := requests[..|requests| - 1], requests[|requests| - 1];
      assert requests == init + [last];
      LinesAfter(init, chain);
      LinesSnoc(init, last, chain);
      if Took(init + [last], |init|) && last.Chain() == chain {
        HoldsNew(init, last);
      } else {
        HoldsKept(init, last, chain, LinesIn(After(init), chain));
      }
    }
  }

  /** After any requests: the chains are those that some request has made, the shared chain jumps
    * to those to which some request has added the jump, once while no listing fails, and each
    * chain holds the rules of the last request that reached it, and nothing else. */
  lemma TableAfter(requests: seq<Request>)
    requires AllValid(requests)
    ensures var t := After(requests);
      && (forall c :: c in t.chains <==> Made(requests, c))
      && (forall c :: c in t.forward <==> Jumped(requests, c))
      && (forall c :: c in t.forward ==> c in t.chains)
      && ((forall r :: r in requests ==> r.nft.list) ==> Distinct(t.forward))
      && (forall c :: c in t.chains ==> Holds(requests, c, t.chains[c]))
  {
    var t := After(requests);
    forall c ensures c in t.chains <==> Made(requests, c) { ChainsAfter(requests, c); }
    forall c ensures c in t.forward <==> Jumped(requests, c) { ForwardAfter(requests, c); }
    forall c | Jumped(requests, c) ensures Made(requests, c) { JumpedMade(requests, c); }
    forall c | c in t.chains ensures Holds(requests, c, t.chains[c]) { LinesAfter(requests, c); }
    if forall r :: r in requests ==> r.nft.list { ForwardDistinct(requests); }
  }

  lemma JumpedMade(requests: seq<Request>, chain: string)
    requires AllValid(requests) && Jumped(requests, chain)
    ensures Made(requests, chain)
  {
    var i :| Joined(requests, i) && requests[i].Chain() == chain;
    var j :| 0 <= j < i + 1 && requests[..i + 1][j].Chain() == chain && requests[..i + 1][j].nft.infra;
    assert requests[j].Chain() == chain;
  }
}
