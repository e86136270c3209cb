/**
  * The firewall compiler: a rule list for one network card becomes a list of match lines for
  * one chain of a bridge filter, with implicit drops at the end.
  */
module FirewallRules {
  import opened Basics

  /** The texts of a rule as far as the compiler tells them apart. */
  datatype Direction = In | Out | OtherDirection

  datatype Action = ToAccept | ToDrop | OtherAction

  datatype Protocol = Tcp | Udp | Icmp | OtherProtocol

  datatype Cidr = NoCidr | AllIpv4 | Range(text: string)

  datatype Rule = Rule(direction: Direction, action: Action, protocol: Protocol, portFrom: int, portTo: int, cidr: Cidr)

  /** The parts of a line, each a match, the last one a verdict. */
  datatype Part =
    | EtherDaddr(mac: string) | EtherSaddr(mac: string)
    | IpSaddr(cidr: string) | IpDaddr(cidr: string)
    | Transport(protocol: Protocol) | Dport(port: int) | DportRange(low: int, high: int)
    | IpProtocolIcmp
    | Verdict(action: Action)

  type Line = seq<Part>

  datatype Ip = Ip(src: int, dst: int, icmp: bool)

  datatype L4 = L4(protocol: Protocol, dport: int)

  datatype Packet = Packet(saddr: string, daddr: string, ip: Option<Ip>, l4: Option<L4>)

  /** Which addresses a CIDR text covers. */
  type Cover = (string, int) -> bool

  datatype Decision = Accept | Drop | Fallthrough

  // ---------------------------------------------------------------------------
  // What lines and chains mean to the packet filter

  predicate PartHolds(cover: Cover, part: Part, p: Packet) {
    match part
    case EtherDaddr(mac) => p.daddr == mac
    case EtherSaddr(mac) => p.saddr == mac
    case IpSaddr(cidr) => p.ip.Some? && cover(cidr, p.ip.value.src)
    case IpDaddr(cidr) => p.ip.Some? && cover(cidr, p.ip.value.dst)
    case Transport(protocol) => p.l4.Some? && p.l4.value.protocol == protocol
    case Dport(port) => p.l4.Some? && p.l4.value.dport == port
    case DportRange(low, high) => p.l4.Some? && low <= p.l4.value.dport <= high
    case IpProtocolIcmp => p.ip.Some? && p.ip.value.icmp
    case Verdict(_) => true
  }

  predicate LineMatches(cover: Cover, line: Line, p: Packet) {
    forall part :: part in line ==> PartHolds(cover, part, p)
  }

  function LineDecision(line: Line): Decision {
    if line == [] || !line[|line| - 1].Verdict? then Fallthrough
    else if line[|line| - 1].action == ToAccept then Accept else Drop
  }

  /** The first matching line decides. */
  function ChainDecision(cover: Cover, chain: seq<Line>, p: Packet): Decision {
    if chain == [] then Fallthrough
    else if LineMatches(cover, chain[0], p) then LineDecision(chain[0])
    else ChainDecision(cover, chain[1..], p)
  }

  // ---------------------------------------------------------------------------
  // What a rule list means for a network card

  /** The directions in which a packet passes the card. */
  predicate Passes(mac: string, direction: Direction, p: Packet) {
    (direction == In && p.daddr == mac) || (direction == Out && p.saddr == mac)
  }

  /** The address at the far end: the source of inbound, the destination of outbound packets. */
  function Remote(direction: Direction, ip: Ip): int { if direction == In then ip.src else ip.dst }

  predicate InRange(cover: Cover, r: Rule, p: Packet) {
    r.cidr.Range? ==> (p.ip.Some? && cover(r.cidr.text, Remote(r.direction, p.ip.value)))
  }

  predicate ServiceMatches(r: Rule, p: Packet) {
    if r.protocol in {Tcp, Udp} then
      p.l4.Some? && p.l4.value.protocol == r.protocol
      && (r.portFrom > 0 ==> r.portFrom <= p.l4.value.dport <= if r.portTo > 0 then r.portTo else r.portFrom)
    else r.protocol == Icmp ==> p.ip.Some? && p.ip.value.icmp
  }

  /** Explicit rules accept or drop what comes in or goes out; others never apply. */
  predicate Applies(cover: Cover, mac: string, r: Rule, p: Packet) {
    && r.direction in {In, Out} && r.action in {ToAccept, ToDrop}
    && Passes(mac, r.direction, p) && InRange(cover, r, p) && ServiceMatches(r, p)
  }

  /** Rule i is the first one that applies. */
  ghost predicate Decides(cover: Cover, mac: string, rules: seq<Rule>, p: Packet, i: int) {
    0 <= i < |rules| && Applies(cover, mac, rules[i], p)
    && forall j :: 0 <= j < i ==> !Applies(cover, mac, rules[j], p)
  }

  ghost predicate Guarded(mac: string, rules: seq<Rule>, p: Packet) {
    exists r :: r in rules && Passes(mac, r.direction, p)
  }

  // ---------------------------------------------------------------------------
  // buildRule and the script of Apply

  /** The compiler skips unknown directions and actions. */
  predicate Usable(r: Rule) { r.direction != OtherDirection && r.action != OtherAction }

  function PortPart(r: Rule): Line {
    if r.portFrom <= 0 then []
    else if r.portTo > 0 && r.portTo != r.portFrom then [DportRange(r.portFrom, r.portTo)]
    else [Dport(r.portFrom)]
  }

  function ProtocolParts(r: Rule): Line {
    if r.protocol in {Tcp, Udp} then [Transport(r.protocol)] + PortPart(r)
    else if r.protocol == Icmp then [IpProtocolIcmp] else []
  }

  function CidrParts(r: Rule): Line {
    if !r.cidr.Range? then []
    else if r.direction == In then [IpSaddr(r.cidr.text)] else [IpDaddr(r.cidr.text)]
  }

  function EtherPart(direction: Direction, mac: string): Part {
    if direction == In then EtherDaddr(mac) else EtherSaddr(mac)
  }

  /** The line of a rule, empty for a rule that is not usable. */
  function RuleLine(r: Rule, mac: string): Line {
    if !Usable(r) then [] else [EtherPart(r.direction, mac)] + CidrParts(r) + ProtocolParts(r) + [Verdict(r.action)]
  }

  function LinesOf(line: Line): seq<Line> { if line == [] then [] else [line] }

  function RuleLines(rules: seq<Rule>, mac: string): seq<Line> {
    if rules == [] then [] else LinesOf(RuleLine(rules[0], mac)) + RuleLines(rules[1..], mac)
  }

  predicate HasDirection(rules: seq<Rule>, direction: Direction) { exists r :: r in rules && r.direction == direction }

  function DropLine(direction: Direction, mac: string): Line { [EtherPart(direction, mac), Verdict(ToDrop)] }

  function DropLines(rules: seq<Rule>, mac: string): seq<Line> {
    (if HasDirection(rules, In) then [DropLine(In, mac)] else [])
    + if HasDirection(rules, Out) then [DropLine(Out, mac)] else []
  }

  function Compile(rules: seq<Rule>, mac: string): seq<Line> { RuleLines(rules, mac) + DropLines(rules, mac) }

  method BuildRule(r: Rule, mac: string) returns (parts: Line)
    ensures parts == RuleLine(r, mac)
    ensures parts != [] <==> r.direction in {In, Out} && r.action in {ToAccept, ToDrop}
  {
    parts := [];
    if r.direction != In && r.direction != Out { return; }
    if r.action != ToAccept && r.action != ToDrop { return; }
    if r.direction == In {
      parts := parts + [EtherDaddr(mac)];
    } else {
      parts := parts + [EtherSaddr(mac)];
    }
    assert parts == [EtherPart(r.direction, mac)];
    if r.cidr != NoCidr && r.cidr != AllIpv4 {
      if r.direction == In {
        parts := parts + [IpSaddr(r.cidr.text)];
      } else {
        parts := parts + [IpDaddr(r.cidr.text)];
      }
    }
    assert parts == [EtherPart(r.direction, mac)] + CidrParts(r);
    parts := AddProtocol(r, parts);
    parts := parts + [Verdict(r.action)];
  }

  method AddProtocol(r: Rule, start: Line) returns (parts: Line)
    ensures parts == start + ProtocolParts(r)
  {
    parts := start;
    if r.protocol == Tcp || r.protocol == Udp {
      parts := parts + [Transport(r.protocol)];
      if r.portFrom > 0 {
        if r.portTo > 0 && r.portTo != r.portFrom {
          parts := parts + [DportRange(r.portFrom, r.portTo)];
        } else {
          parts := parts + [Dport(r.portFrom)];
        }
      }
    } else if r.protocol == Icmp {
      parts := parts + [IpProtocolIcmp];
    }
  }

  lemma {:induction false} RuleLinesSnoc(rules: seq<Rule>, last: Rule, mac: string)
    ensures RuleLines(rules + [last], mac) == RuleLines(rules, mac) + LinesOf(RuleLine(last, mac))
  {
    var line := LinesOf(RuleLine(last, mac));
    if rules == [] {
      assert rules + [last] == [last];
      assert line + RuleLines([], mac) == RuleLines([], mac) + line;
    } else {
      assert (rules + [last])[1..] == rules[1..] + [last];
      RuleLinesSnoc(rules[1..], last, mac);
      var first := LinesOf(RuleLine(rules[0], mac));
      Grouped(first, RuleLines(rules[1..], mac), line);
    }
  }

  lemma RuleLinesStep(rules: seq<Rule>, i: nat, mac: string)
    requires i < |rules|
    ensures RuleLines(rules[..i + 1], mac) == RuleLines(rules[..i], mac) + LinesOf(RuleLine(rules[i], mac))
  {
    assert rules[..i + 1] == rules[..i] + [rules[i]];
    RuleLinesSnoc(rules[..i], rules[i], mac);
  }

  method AddRules(rules: seq<Rule>, mac: string) returns (script: seq<Line>)
    ensures script == RuleLines(rules, mac)
  {
    script := [];
    for i := 0 to |rules|
      invariant script == RuleLines(rules[..i], mac)
    {
      RuleLinesStep(rules, i, mac);
      var line := BuildRule(rules[i], mac);
      if line != [] {
        script := script + [line];
      }
    }
    assert rules[..|rules|] == rules;
  }

  method FindDirections(rules: seq<Rule>) returns (hasIn: bool, hasOut: bool)
    ensures hasIn == HasDirection(rules, In) && hasOut == HasDirection(rules, Out)
  {
    hasIn, hasOut := false, false;
    for i := 0 to |rules|
      invariant hasIn == exists j :: 0 <= j < i && rules[j].direction == In
      invariant hasOut == exists j :: 0 <= j < i && rules[j].direction == Out
    {
      if rules[i].direction == In { hasIn := true; }
      if rules[i].direction == Out { hasOut := true; }
    }
  }

  /** The lines the apply script adds after flushing the chain. */
  method Script(rules: seq<Rule>, mac: string) returns (script: seq<Line>)
    ensures script == Compile(rules, mac)
  {
    script := AddRules(rules, mac);
    var hasIn, hasOut := FindDirections(rules);
    if hasIn {
      script := script + [[EtherDaddr(mac), Verdict(ToDrop)]];
    }
    if hasOut {
      script := script + [[EtherSaddr(mac), Verdict(ToDrop)]];
    }
  }

  // ---------------------------------------------------------------------------
  // Compilation preserves meaning

  lemma CidrPartsMean(cover: Cover, r: Rule, p: Packet)
    ensures r.direction != OtherDirection ==> (LineMatches(cover, CidrParts(r), p) <==> InRange(cover, r, p))
  {
    if r.cidr.Range? { assert CidrParts(r)[0] in CidrParts(r); }
  }

  lemma ProtocolPartsMean(cover: Cover, r: Rule, p: Packet)
    ensures LineMatches(cover, ProtocolParts(r), p) <==> ServiceMatches(r, p)
  {
    var parts := ProtocolParts(r);
    if r.protocol in {Tcp, Udp} {
      assert parts[0] in parts;
      if r.portFrom > 0 { assert parts == [parts[0], parts[1]] && parts[1] in parts; }
    } else if r.protocol == Icmp {
      assert parts[0] in parts;
    }
  }

  lemma LineMatchesConcat(cover: Cover, a: Line, b: Line, p: Packet)
    ensures LineMatches(cover, a + b, p) <==> LineMatches(cover, a, p) && LineMatches(cover, b, p)
  {
    assert forall part :: part in a + b <==> part in a || part in b;
  }

  /** The line of a usable rule matches exactly the packets the rule applies to. */
  lemma RuleLineMeans(cover: Cover, r: Rule, mac: string, p: Packet)
    requires Usable(r)
    ensures LineMatches(cover, RuleLine(r, mac), p) <==> Applies(cover, mac, r, p)
    ensures LineDecision(RuleLine(r, mac)) == if r.action == ToAccept then Accept else Drop
  {
    var ether, verdict := [EtherPart(r.direction, mac)], [Verdict(r.action)];
    LineMatchesConcat(cover, ether + CidrParts(r) + ProtocolParts(r), verdict, p);
    LineMatchesConcat(cover, ether + CidrParts(r), ProtocolParts(r), p);
    LineMatchesConcat(cover, ether, CidrParts(r), p);
    CidrPartsMean(cover, r, p);
    ProtocolPartsMean(cover, r, p);
    assert LineMatches(cover, ether, p) <==> Passes(mac, r.direction, p) by { assert ether[0] in ether; }
    assert LineMatches(cover, verdict, p);
  }

  lemma DropLinesMean(cover: Cover, rules: seq<Rule>, mac: string, p: Packet)
    ensures ChainDecision(cover, DropLines(rules, mac), p) == if Guarded(mac, rules, p) then Drop else Fallthrough
  {
    assert Guarded(mac, rules, p)
      <==> (HasDirection(rules, In) && p.daddr == mac) || (HasDirection(rules, Out) && p.saddr == mac);
    DropLineMeans(cover, In, mac, p);
    DropLineMeans(cover, Out, mac, p);
    var lines := DropLines(rules, mac);
    if |lines| == 2 { assert lines[1..] == [DropLine(Out, mac)]; }
    assert |lines| > 0 ==> ChainDecision(cover, lines[|lines|..], p) == Fallthrough;
  }

  lemma DropLineMeans(cover: Cover, direction: Direction, mac: string, p: Packet)
    requires direction != OtherDirection
    ensures LineMatches(cover, DropLine(direction, mac), p) <==> Passes(mac, direction, p)
  {
    var line := DropLine(direction, mac);
    assert line[0] in line;
  }

  function ActionOf(r: Rule): Decision { if r.action == ToAccept then Accept else Drop }

  /** The decision of the first rule that applies. */
  function RulesDecision(cover: Cover, mac: string, rules: seq<Rule>, p: Packet): Option<Decision> {
    if rules == [] then None
    else if Applies(cover, mac, rules[0], p) then Some(ActionOf(rules[0]))
    else RulesDecision(cover, mac, rules[1..], p)
  }

  lemma ChainCons(cover: Cover, line: Line, rest: seq<Line>, p: Packet)
    ensures ChainDecision(cover, [line] + rest, p)
         == if LineMatches(cover, line, p) then LineDecision(line) else ChainDecision(cover, rest, p)
  {
    assert ([line] + rest)[1..] == rest;
  }

  lemma FirstRuleMeans(cover: Cover, r: Rule, mac: string, rest: seq<Line>, p: Packet)
    ensures ChainDecision(cover, LinesOf(RuleLine(r, mac)) + rest, p)
         == if Applies(cover, mac, r, p) then ActionOf(r) else ChainDecision(cover, rest, p)
  {
    if Usable(r) {
      RuleLineMeans(cover, r, mac, p);
      ChainCons(cover, RuleLine(r, mac), rest, p);
    } else {
      assert [] + rest == rest;
    }
  }

  lemma Grouped<T>(a: seq<T>, b: seq<T>, c: seq<T>)
    ensures (a + b) + c == a + (b + c)
  {
  }

  lemma {:induction false} RuleLinesMean(cover: Cover, rules: seq<Rule>, mac: string, tail: seq<Line>, p: Packet)
    ensures ChainDecision(cover, RuleLines(rules, mac) + tail, p)
         == match RulesDecision(cover, mac, rules, p) case Some(d) => d case None => ChainDecision(cover, tail, p)
  {
    if rules == [] {
      assert RuleLines(rules, mac) + tail == tail;
    } else {
      var first := LinesOf(RuleLine(rules[0], mac));
      var rest := RuleLines(rules[1..], mac);
      RuleLinesMean(cover, rules[1..], mac, tail, p);
      FirstRuleMeans(cover, rules[0], mac, rest + tail, p);
      Grouped(first, rest, tail);
    }
  }

  lemma {:induction false} RulesDecisionFirst(cover: Cover, mac: string, rules: seq<Rule>, p: Packet)
    ensures forall i :: Decides(cover, mac, rules, p, i)
              ==> RulesDecision(cover, mac, rules, p) == Some(ActionOf(rules[i]))
    ensures (forall i :: !Decides(cover, mac, rules, p, i)) ==> RulesDecision(cover, mac, rules, p) == None
  {
    if rules != [] {
      if Applies(cover, mac, rules[0], p) {
        assert Decides(cover, mac, rules, p, 0);
      } else {
        DecidesShift(cover, mac, rules, p);
        RulesDecisionFirst(cover, mac, rules[1..], p);
      }
    }
  }

  lemma DecidesShift(cover: Cover, mac: string, rules: seq<Rule>, p: Packet)
    requires rules != [] && !Applies(cover, mac, rules[0], p)
    ensures forall i :: Decides(cover, mac, rules, p, i) ==> i > 0 && Decides(cover, mac, rules[1..], p, i - 1)
    ensures forall i :: Decides(cover, mac, rules[1..], p, i) ==> Decides(cover, mac, rules, p, i + 1)
  {
    var rest := rules[1..];
    forall i | Decides(cover, mac, rules, p, i) ensures i > 0 && Decides(cover, mac, rest, p, i - 1) {
      assert forall j :: 0 <= j < |rest| ==> rest[j] == rules[j + 1];
    }
    forall i | Decides(cover, mac, rest, p, i) ensures Decides(cover, mac, rules, p, i + 1) {
      assert forall j :: 0 < j < |rules| ==> rules[j] == rest[j - 1];
    }
  }

  /** For every rule list and every packet the chain decides as the rules mean: the first rule
    * that applies; else drop if any rule, usable or not, has a direction in which the packet
    * passes the card; else nothing. */
  lemma CompilePreservesMeaning(cover: Cover, rules: seq<Rule>, mac: string, p: Packet)
    ensures forall i :: Decides(cover, mac, rules, p, i)
              ==> ChainDecision(cover, Compile(rules, mac), p) == ActionOf(rules[i])
    ensures (forall i :: !Decides(cover, mac, rules, p, i))
              ==> ChainDecision(cover, Compile(rules, mac), p) == if Guarded(mac, rules, p) then Drop else Fallthrough
  {
    RuleLinesMean(cover, rules, mac, DropLines(rules, mac), p);
    RulesDecisionFirst(cover, mac, rules, p);
    DropLinesMean(cover, rules, mac, p);
  }

  /** A rule that accepts or drops what comes in or goes out decides the packets that it matches,
    * unless an earlier one does: an accepting rule accepts them, a dropping one drops them. */
  lemma ExplicitRuleDecides(cover: Cover, rules: seq<Rule>, mac: string, p: Packet, i: nat)
    requires i < |rules| && rules[i].direction in {In, Out} && rules[i].action in {ToAccept, ToDrop}
    requires Passes(mac, rules[i].direction, p) && InRange(cover, rules[i], p) && ServiceMatches(rules[i], p)
    requires forall j :: 0 <= j < i && rules[j].direction in {In, Out} && rules[j].action in {ToAccept, ToDrop} ==>
      !(Passes(mac, rules[j].direction, p) && InRange(cover, rules[j], p) && ServiceMatches(rules[j], p))
    ensures ChainDecision(cover, Compile(rules, mac), p) == if rules[i].action == ToAccept then Accept else Drop
  {
    assert Decides(cover, mac, rules, p, i);
    CompilePreservesMeaning(cover, rules, mac, p);
  }

  /** Only an accepting rule that matches the packet makes the chain accept it. */
  lemma AcceptedByRule(cover: Cover, rules: seq<Rule>, mac: string, p: Packet) returns (i: nat)
    requires ChainDecision(cover, Compile(rules, mac), p) == Accept
    ensures i < |rules| && rules[i].direction in {In, Out} && rules[i].action == ToAccept
    ensures Passes(mac, rules[i].direction, p) && InRange(cover, rules[i], p) && ServiceMatches(rules[i], p)
  {
    CompilePreservesMeaning(cover, rules, mac, p);
    i :| Decides(cover, mac, rules, p, i);
  }

  /** The rules add one line each, in their order; one that neither accepts nor drops, or is for
    * neither direction, adds none. */
  lemma {:induction false} OthersAddNoLine(rules: seq<Rule>, last: Rule, mac: string)
    ensures last.direction == OtherDirection || last.action == OtherAction ==>
      RuleLines(rules + [last], mac) == RuleLines(rules, mac)
    ensures last.direction != OtherDirection && last.action != OtherAction ==>
      |RuleLines(rules + [last], mac)| == |RuleLines(rules, mac)| + 1
  {
    RuleLinesSnoc(rules, last, mac);
  }

  /** A packet that neither enters nor leaves through the card is never decided by its chain. */
  lemma OtherPacketsFallThrough(cover: Cover, rules: seq<Rule>, mac: string, p: Packet)
    requires p.saddr != mac && p.daddr != mac
    ensures ChainDecision(cover, Compile(rules, mac), p) == Fallthrough
  {
    CompilePreservesMeaning(cover, rules, mac, p);
  }

  // ---------------------------------------------------------------------------
  // One direction of a card

  /** The rules of one direction, in their order. */
  function Directed(rules: seq<Rule>, direction: Direction): (r: seq<Rule>)
    ensures forall rule :: rule in r <==> rule in rules && rule.direction == direction
  {
    if rules == [] then []
    else (if rules[0].direction == direction then [rules[0]] else []) + Directed(rules[1..], direction)
  }

  /** What the rules of one direction make of a packet that passes the card in it: the first that
    * applies decides, else the packet is dropped, unless there are none. */
  function DirectionDecision(cover: Cover, mac: string, rules: seq<Rule>, direction: Direction, p: Packet): Decision {
    var own := Directed(rules, direction);
    match RulesDecision(cover, mac, own, p)
    case Some(d) => d
    case None => if own == [] then Fallthrough else Drop
  }

  /** The packet passes the card in this direction only. */
  predicate PassesOnly(mac: string, direction: Direction, p: Packet) {
    forall d :: Passes(mac, d, p) <==> d == direction
  }

  lemma {:induction false} DirectedDecides(
      cover: Cover, mac: string, rules: seq<Rule>, direction: Direction, p: Packet)
    requires PassesOnly(mac, direction, p)
    ensures RulesDecision(cover, mac, Directed(rules, direction), p) == RulesDecision(cover, mac, rules, p)
  {
    if rules != [] {
      DirectedDecides(cover, mac, rules[1..], direction, p);
      assert Passes(mac, rules[0].direction, p) <==> rules[0].direction == direction;
      var rest := Directed(rules[1..], direction);
      assert ([rules[0]] + rest)[1..] == rest && [] + rest == rest;
    }
  }

  /** For a packet that only enters or only leaves through the card, the rules of this direction
    * alone decide. */
  lemma OneDirectionDecides(cover: Cover, mac: string, rules: seq<Rule>, direction: Direction, p: Packet)
    requires PassesOnly(mac, direction, p)
    ensures ChainDecision(cover, Compile(rules, mac), p) == DirectionDecision(cover, mac, rules, direction, p)
  {
    RuleLinesMean(cover, rules, mac, DropLines(rules, mac), p);
    DropLinesMean(cover, rules, mac, p);
    DirectedDecides(cover, mac, rules, direction, p);
    var own := Directed(rules, direction);
    if own != [] {
      assert own[0] in own && Passes(mac, own[0].direction, p);
    }
    if r :| r in rules && Passes(mac, r.direction, p) {
      assert r in own;
    }
  }

  // ---------------------------------------------------------------------------
  // The order of the list

  /** A stored rule; the panel sends a machine's rules in ascending order of priority. */
  datatype Stored = Stored(rule: Rule, priority: int)

  function RulesOf(stored: seq<Stored>): (rules: seq<Rule>)
    ensures |rules| == |stored| && forall i :: 0 <= i < |rules| ==> rules[i] == stored[i].rule
  {
    seq(|stored|, i requires 0 <= i < |stored| => stored[i].rule)
  }

  ghost predicate Ascending(stored: seq<Stored>) {
    forall i, j :: 0 <= i < j < |stored| ==> stored[i].priority <= stored[j].priority
  }

  /** Of the rules that apply, those before or level with rule k take the same action. */
  ghost predicate Prevails(cover: Cover, mac: string, stored: seq<Stored>, p: Packet, k: nat) {
    && k < |stored| && Applies(cover, mac, stored[k].rule, p)
    && forall j :: 0 <= j < |stored| && Applies(cover, mac, stored[j].rule, p) ==>
         stored[k].priority < stored[j].priority
         || (stored[k].priority == stored[j].priority && stored[k].rule.action == stored[j].rule.action)
  }

  lemma {:induction false} FirstThatApplies(cover: Cover, mac: string, rules: seq<Rule>, p: Packet, k: nat)
      returns (i: nat)
    requires k < |rules| && exists j :: 0 <= j <= k && Applies(cover, mac, rules[j], p)
    ensures i <= k && Decides(cover, mac, rules, p, i)
  {
    if k > 0 && exists j :: 0 <= j <= k - 1 && Applies(cover, mac, rules[j], p) {
      i := FirstThatApplies(cover, mac, rules, p, k - 1);
    } else {
      i := k;
    }
  }

  /** The applicable rule of lowest priority decides, in whatever order the database returns
    * rules of one priority, if those of that priority agree. */
  lemma LowestPriorityDecides(cover: Cover, stored: seq<Stored>, mac: string, p: Packet, k: nat)
    requires Ascending(stored) && Prevails(cover, mac, stored, p, k)
    ensures ChainDecision(cover, Compile(RulesOf(stored), mac), p) == ActionOf(stored[k].rule)
  {
    var rules := RulesOf(stored);
    assert Applies(cover, mac, rules[k], p);
    var i := FirstThatApplies(cover, mac, rules, p, k);
    CompilePreservesMeaning(cover, rules, mac, p);
    assert Applies(cover, mac, stored[i].rule, p);
  }
}
