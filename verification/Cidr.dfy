/**
  * Address pools: the panel expands an IPv4 network in prefix notation (section 3.1 of
  * RFC 4632) into the addresses of its hosts, with the shifts and masks of 32-bit words.
  */
module Cidr {
  import opened Basics
  import opened Names

  const WORDS := 0x1_0000_0000

  // ---------------------------------------------------------------------------
  // Words, bit by bit

  function Shl(x: nat, k: nat): nat { if k == 0 then x else 2 * Shl(x, k - 1) }

  function Shr(x: nat, k: nat): nat { if k == 0 then x else Shr(x / 2, k - 1) }

  function And(a: nat, b: nat, width: nat): nat {
    if width == 0 then 0 else (if a % 2 == 1 && b % 2 == 1 then 1 else 0) + 2 * And(a / 2, b / 2, width - 1)
  }

  function Or(a: nat, b: nat, width: nat): nat {
    if width == 0 then 0 else (if a % 2 == 1 || b % 2 == 1 then 1 else 0) + 2 * Or(a / 2, b / 2, width - 1)
  }

  /** The complement of a word. */
  function Not(x: nat): nat
    requires x < WORDS
  {
    WORDS - 1 - x
  }

  function Word(x: nat): (r: nat)
    ensures r < WORDS
  {
    x % WORDS
  }

  lemma WordSmall(x: nat)
    requires x < WORDS
    ensures Word(x) == x
  {
  }

  /** The k lowest bits. */
  function Low(x: nat, k: nat): nat { if k == 0 then 0 else x % 2 + 2 * Low(x / 2, k - 1) }

  lemma {:induction false} SplitWord(x: nat, k: nat)
    ensures x == Shl(Shr(x, k), k) + Low(x, k) && Low(x, k) < Pow2(k)
  {
    if k > 0 { SplitWord(x / 2, k - 1); }
  }

  lemma {:induction false} JoinWord(high: nat, low: nat, k: nat)
    requires low < Pow2(k)
    ensures Shr(Shl(high, k) + low, k) == high && Low(Shl(high, k) + low, k) == low
  {
    if k > 0 {
      assert (Shl(high, k) + low) / 2 == Shl(high, k - 1) + low / 2;
      JoinWord(high, low / 2, k - 1);
    }
  }

  lemma {:induction false} AndOnes(x: nat, width: nat)
    requires x < Pow2(width)
    ensures And(x, Pow2(width) - 1, width) == x
  {
    if width > 0 {
      assert (Pow2(width) - 1) / 2 == Pow2(width - 1) - 1;
      AndOnes(x / 2, width - 1);
    }
  }

  /** Masking the k lowest bits away. */
  lemma {:induction false} AndHigh(x: nat, k: nat, width: nat)
    requires x < Pow2(width) && k <= width
    ensures Pow2(k) <= Pow2(width) && And(x, Pow2(width) - Pow2(k), width) == Shl(Shr(x, k), k)
  {
    if k == 0 {
      AndOnes(x, width);
    } else {
      AndHigh(x / 2, k - 1, width - 1);
    }
  }

  /** Masking all but the k lowest bits away. */
  lemma {:induction false} AndLow(x: nat, k: nat, width: nat)
    requires k <= width
    ensures And(x, Pow2(k) - 1, width) == Low(x, k)
  {
    if k == 0 {
      AndZero(x, width);
    } else {
      assert (Pow2(k) - 1) / 2 == Pow2(k - 1) - 1;
      AndLow(x / 2, k - 1, width - 1);
    }
  }

  lemma {:induction false} AndZero(x: nat, width: nat)
    ensures And(x, 0, width) == 0
  {
    if width > 0 { AndZero(x / 2, width - 1); }
  }

  lemma {:induction false} OrZero(x: nat, width: nat)
    requires x < Pow2(width)
    ensures Or(x, 0, width) == x
  {
    if width > 0 { OrZero(x / 2, width - 1); }
  }

  /** Or-ing into bits that are clear adds. */
  lemma {:induction false} OrBelow(high: nat, low: nat, k: nat, width: nat)
    requires low < Pow2(k) && k <= width && Shl(high, k) < Pow2(width)
    ensures Or(Shl(high, k), low, width) == Shl(high, k) + low
  {
    if k == 0 {
      OrZero(high, width);
    } else {
      OrBelow(high, low / 2, k - 1, width - 1);
    }
  }

  lemma {:induction false} ShlAdds(x: nat, y: nat, k: nat)
    ensures Shl(x, k) + Shl(y, k) == Shl(x + y, k)
  {
    if k > 0 { ShlAdds(x, y, k - 1); }
  }

  lemma {:induction false} ShlMonotonic(x: nat, y: nat, k: nat)
    requires x <= y
    ensures Shl(x, k) <= Shl(y, k)
  {
    if k > 0 { ShlMonotonic(x, y, k - 1); }
  }

  lemma {:induction false} ShlPow2(j: nat, k: nat)
    ensures Shl(Pow2(j), k) == Pow2(j + k)
  {
    if k > 0 { ShlPow2(j, k - 1); }
  }

  lemma {:induction false} ShrBound(x: nat, j: nat, k: nat)
    requires x < Pow2(j + k)
    ensures Shr(x, k) < Pow2(j)
  {
    if k > 0 { ShrBound(x / 2, j, k - 1); }
  }

  lemma Shl8(x: nat)
    ensures Shl(x, 8) == 256 * x
  {
    assert Shl(x, 1) == 2 * x;
    assert Shl(x, 3) == 8 * x;
    assert Shl(x, 5) == 32 * x;
    assert Shl(x, 7) == 128 * x;
  }

  lemma Shr4(x: nat)
    ensures Shr(x, 4) == x / 16
  {
    assert Shr(x / 8, 1) == x / 16;
    assert Shr(x / 2, 3) == Shr(x / 8, 1);
  }

  lemma Shr8(x: nat)
    ensures Shr(x, 8) == x / 256
  {
    Shr4(x);
    Shr4(x / 16);
    ShrShr(x, 4, 4);
  }

  lemma {:induction false} ShlShl(x: nat, j: nat, k: nat)
    ensures Shl(Shl(x, j), k) == Shl(x, j + k)
  {
    if k > 0 { ShlShl(x, j, k - 1); }
  }

  lemma {:induction false} ShrShr(x: nat, j: nat, k: nat)
    ensures Shr(Shr(x, j), k) == Shr(x, j + k)
  {
    if j > 0 { ShrShr(x / 2, j - 1, k); }
  }

  lemma Shl16And24(x: nat)
    ensures Shl(x, 16) == 0x1_0000 * x && Shl(x, 24) == 0x100_0000 * x
  {
    Shl8(x);
    ShlShl(x, 8, 8);
    Shl8(256 * x);
    ShlShl(x, 16, 8);
    Shl8(0x1_0000 * x);
  }

  lemma Shr16And24(x: nat)
    ensures Shr(x, 16) == x / 256 / 256 && Shr(x, 24) == x / 256 / 256 / 256
  {
    Shr8(x);
    ShrShr(x, 8, 8);
    Shr8(x / 256);
    ShrShr(x, 16, 8);
    Shr8(x / 256 / 256);
  }

  lemma BytePowers()
    ensures Pow2(8) == 0x100 && Pow2(16) == 0x1_0000 && Pow2(24) == 0x100_0000 && Pow2(32) == WORDS
  {
    ShlPow2(0, 8);
    Shl8(1);
    ShlPow2(8, 8);
    Shl8(0x100);
    ShlPow2(16, 8);
    Shl8(0x1_0000);
    ShlPow2(24, 8);
    Shl8(0x100_0000);
  }

  lemma Low8(x: nat)
    ensures Low(x, 8) == x % 256
  {
    SplitWord(x, 8);
    BytePowers();
    Shl8(Shr(x, 8));
    Remainder256(Shr(x, 8), Low(x, 8));
  }

  lemma Remainder256(high: nat, low: nat)
    requires low < 256
    ensures (256 * high + low) % 256 == low
  {
  }

  lemma {:induction false} ShrIs(x: nat, k: nat)
    ensures Shr(x, k) == x / Pow2(k)
  {
    if k > 0 {
      ShrIs(x / 2, k - 1);
      DivideTwice(x, Pow2(k - 1));
    }
  }

  lemma {:induction false} ShlIs(x: nat, k: nat)
    ensures Shl(x, k) == x * Pow2(k)
  {
    if k > 0 {
      ShlIs(x, k - 1);
      assert 2 * (x * Pow2(k - 1)) == x * (2 * Pow2(k - 1));
    }
  }

  lemma LowIs(x: nat, k: nat)
    ensures Low(x, k) == x % Pow2(k)
  {
    SplitWord(x, k);
    ShrIs(x, k);
    ShlIs(x / Pow2(k), k);
  }

  // ---------------------------------------------------------------------------
  // Octets

  /** The four octets of a word, from the highest. */
  function Quad(ip: nat): seq<nat> {
    [Shr(ip, 24), And(Shr(ip, 16), 255, 32), And(Shr(ip, 8), 255, 32), And(ip, 255, 32)]
  }

  /** Four octets, shifted and or-ed into one word. */
  function FromQuad(o: seq<nat>): nat
    requires |o| == 4
  {
    FromOctets(o[0], o[1], o[2], o[3])
  }

  function FromOctets(a: nat, b: nat, c: nat, d: nat): nat {
    Word(Or(Or(Or(Shl(a, 24), Shl(b, 16), 32), Shl(c, 8), 32), d, 32))
  }

  predicate ValidQuad(o: seq<nat>) { |o| == 4 && o[0] < 256 && o[1] < 256 && o[2] < 256 && o[3] < 256 }

  lemma And255(x: nat)
    ensures And(x, 255, 32) == x % 256
  {
    BytePowers();
    AndLow(x, 8, 32);
    Low8(x);
  }

  lemma QuadDivides(ip: nat)
    ensures Quad(ip) == [ip / 256 / 256 / 256, ip / 256 / 256 % 256, ip / 256 % 256, ip % 256]
  {
    Shr16And24(ip);
    Shr8(ip);
    And255(ip / 256 / 256);
    And255(ip / 256);
    And255(ip);
  }

  lemma OrTop(a: nat, b: nat)
    requires a < 256 && b < 256
    ensures Or(Shl(a, 24), Shl(b, 16), 32) == Shl(256 * a + b, 16)
  {
    Shl16And24(a);
    Shl16And24(b);
    Shl16And24(256 * a + b);
    BytePowers();
    OrBelow(a, Shl(b, 16), 24, 32);
  }

  lemma OrMiddle(high: nat, c: nat)
    requires high < 0x1_0000 && c < 256
    ensures Or(Shl(high, 16), Shl(c, 8), 32) == Shl(256 * high + c, 8)
  {
    Shl16And24(high);
    Shl8(c);
    Shl8(256 * high + c);
    BytePowers();
    OrBelow(high, Shl(c, 8), 16, 32);
  }

  lemma OrBottom(high: nat, d: nat)
    requires high < 0x100_0000 && d < 256
    ensures Or(Shl(high, 8), d, 32) == 256 * high + d
  {
    Shl8(high);
    BytePowers();
    OrBelow(high, d, 8, 32);
  }

  /** Shifting and or-ing gives the number with the octets as its digits. */
  lemma FromOctetsValue(a: nat, b: nat, c: nat, d: nat)
    requires a < 256 && b < 256 && c < 256 && d < 256
    ensures FromOctets(a, b, c, d) == 256 * (256 * (256 * a + b) + c) + d
  {
    var h := 256 * a + b;
    calc {
      FromOctets(a, b, c, d);
      { OrTop(a, b); }
      Word(Or(Or(Shl(h, 16), Shl(c, 8), 32), d, 32));
      { OrMiddle(h, c); }
      Word(Or(Shl(256 * h + c, 8), d, 32));
      { OrBottom(256 * h + c, d); }
      Word(256 * (256 * h + c) + d);
      { WordSmall(256 * (256 * h + c) + d); }
      256 * (256 * h + c) + d;
    }
  }

  lemma QuadValue(ip: nat)
    requires ip < WORDS
    ensures ValidQuad(Quad(ip)) && FromQuad(Quad(ip)) == ip
  {
    var h := ip / 256 / 256;
    QuadDivides(ip);
    FromOctetsValue(h / 256, h % 256, ip / 256 % 256, ip % 256);
  }

  lemma ValueQuad(a: nat, b: nat, c: nat, d: nat)
    requires a < 256 && b < 256 && c < 256 && d < 256
    ensures Quad(256 * (256 * (256 * a + b) + c) + d) == [a, b, c, d]
  {
    var h := 256 * a + b;
    var m := 256 * h + c;
    QuadDivides(256 * m + d);
    assert (256 * m + d) / 256 == m && m / 256 == h && h / 256 == a;
  }

  /** Words and quadruples of octets correspond one to one. */
  lemma QuadRoundTrip(o: seq<nat>)
    requires ValidQuad(o)
    ensures Quad(FromQuad(o)) == o
  {
    FromOctetsValue(o[0], o[1], o[2], o[3]);
    ValueQuad(o[0], o[1], o[2], o[3]);
  }

  // ---------------------------------------------------------------------------
  // Dotted text

  function Joined(q: seq<nat>): string
    requires |q| == 4
  {
    Decimal(q[0]) + "." + (Decimal(q[1]) + "." + (Decimal(q[2]) + "." + Decimal(q[3])))
  }

  function Dotted(ip: nat): string { Joined(Quad(ip)) }

  lemma DecimalPlain(n: nat)
    ensures '.' !in Decimal(n)
  {
    DecimalDigits(n);
  }

  lemma JoinedInjective(a: nat, x: string, b: nat, y: string)
    requires Decimal(a) + "." + x == Decimal(b) + "." + y
    ensures a == b && x == y
  {
    DecimalPlain(a);
    DecimalPlain(b);
    FirstSeparator(Decimal(a), x, Decimal(b), y, '.');
    DecimalInjective(a, b);
  }

  /** Different words have different dotted texts. */
  lemma DottedInjective(ip: nat, ip': nat)
    requires ip < WORDS && ip' < WORDS && Dotted(ip) == Dotted(ip')
    ensures ip == ip'
  {
    var q, r := Quad(ip), Quad(ip');
    JoinedInjective(q[0], Decimal(q[1]) + "." + (Decimal(q[2]) + "." + Decimal(q[3])),
      r[0], Decimal(r[1]) + "." + (Decimal(r[2]) + "." + Decimal(r[3])));
    JoinedInjective(q[1], Decimal(q[2]) + "." + Decimal(q[3]), r[1], Decimal(r[2]) + "." + Decimal(r[3]));
    JoinedInjective(q[2], Decimal(q[3]), r[2], Decimal(r[3]));
    DecimalInjective(q[3], r[3]);
    QuadValue(ip);
    QuadValue(ip');
  }

  // A reader of dotted texts, apart from how they are written

  /** The parts between the dots. */
  function Groups(s: string): (groups: seq<string>)
    ensures groups != []
  {
    if s == [] then [""]
    else
      var rest := Groups(s[1..]);
      if s[0] == '.' then [""] + rest else [[s[0]] + rest[0]] + rest[1..]
  }

  /** The word that a dotted text names: four numerals below 256, the first one the highest. */
  function Address(s: string): Option<nat> {
    var g := Groups(s);
    if |g| == 4 && (forall i :: 0 <= i < 4 ==> Numeral(g[i]) && Value(g[i]) < 256)
    then Some(256 * (256 * (256 * Value(g[0]) + Value(g[1])) + Value(g[2])) + Value(g[3])) else None
  }

  lemma {:induction false} GroupsPlain(a: string)
    requires '.' !in a
    ensures Groups(a) == [a]
  {
    if a != [] {
      GroupsPlain(a[1..]);
      assert [a[0]] + a[1..] == a;
    }
  }

  lemma {:induction false} GroupsCons(a: string, x: string)
    requires '.' !in a
    ensures Groups(a + "." + x) == [a] + Groups(x)
  {
    var s := a + "." + x;
    if a == [] {
      assert s[0] == '.' && s[1..] == x;
    } else {
      GroupsCons(a[1..], x);
      assert s[0] == a[0] && s[1..] == a[1..] + "." + x;
      assert [a[0]] + a[1..] == a && ([a[1..]] + Groups(x))[1..] == Groups(x);
    }
  }

  lemma GroupsOfJoined(q: seq<nat>)
    requires |q| == 4
    ensures Groups(Joined(q)) == [Decimal(q[0]), Decimal(q[1]), Decimal(q[2]), Decimal(q[3])]
  {
    var a, b, c, d := Decimal(q[0]), Decimal(q[1]), Decimal(q[2]), Decimal(q[3]);
    DecimalPlain(q[0]);
    DecimalPlain(q[1]);
    DecimalPlain(q[2]);
    DecimalPlain(q[3]);
    GroupsPlain(d);
    GroupsCons(c, d);
    GroupsCons(b, c + "." + d);
    GroupsCons(a, b + "." + (c + "." + d));
    assert [a] + ([b] + ([c] + [d])) == [a, b, c, d];
    assert Joined(q) == a + "." + (b + "." + (c + "." + d));
  }

  lemma SpelledAddress(s: string, q: seq<nat>)
    requires ValidQuad(q) && Groups(s) == [Decimal(q[0]), Decimal(q[1]), Decimal(q[2]), Decimal(q[3])]
    ensures Address(s) == Some(Number(q))
  {
    DecimalSpells(q[0]);
    DecimalSpells(q[1]);
    DecimalSpells(q[2]);
    DecimalSpells(q[3]);
  }

  /** Reading a written address gives it back. */
  lemma DottedReads(ip: nat)
    requires ip < WORDS
    ensures Address(Dotted(ip)) == Some(ip)
  {
    QuadNumber(ip);
    JoinedReads(Quad(ip));
  }

  lemma JoinedReads(q: seq<nat>)
    requires ValidQuad(q)
    ensures Address(Joined(q)) == Some(Number(q))
  {
    GroupsOfJoined(q);
    SpelledAddress(Joined(q), q);
  }

  /** The number with these octets as its digits. */
  function Number(q: seq<nat>): nat
    requires |q| == 4
  {
    256 * (256 * (256 * q[0] + q[1]) + q[2]) + q[3]
  }

  lemma QuadNumber(ip: nat)
    requires ip < WORDS
    ensures ValidQuad(Quad(ip)) && Number(Quad(ip)) == ip
  {
    var q := Quad(ip);
    QuadValue(ip);
    FromOctetsValue(q[0], q[1], q[2], q[3]);
  }

  lemma NumberQuad(q: seq<nat>)
    requires ValidQuad(q)
    ensures Quad(Number(q)) == q
  {
    ValueQuad(q[0], q[1], q[2], q[3]);
  }

  /** Groups with a dot between them. */
  function Dots(groups: seq<string>): string
    requires groups != []
  {
    if |groups| == 1 then groups[0] else groups[0] + "." + Dots(groups[1..])
  }

  lemma {:induction false} DotsOfGroups(s: string)
    ensures Dots(Groups(s)) == s
  {
    if s != [] {
      var rest := Groups(s[1..]);
      DotsOfGroups(s[1..]);
      assert s == [s[0]] + s[1..];
      if s[0] == '.' {
        assert ([""] + rest)[1..] == rest;
        assert Dots([""] + rest) == "" + "." + Dots(rest);
      } else {
        DotsGrow(s[0], rest);
      }
    }
  }

  lemma DotsGrow(c: char, rest: seq<string>)
    requires rest != []
    ensures Dots([[c] + rest[0]] + rest[1..]) == [c] + Dots(rest)
  {
    assert ([[c] + rest[0]] + rest[1..])[1..] == rest[1..];
  }

  lemma FourDots(g: seq<string>)
    requires |g| == 4
    ensures Dots(g) == g[0] + "." + (g[1] + "." + (g[2] + "." + g[3]))
  {
    var h := g[1..];
    var i := h[1..];
    assert Dots(g) == g[0] + "." + Dots(h) && Dots(h) == g[1] + "." + Dots(i);
    assert i[1..] == [g[3]];
    assert Dots(i) == g[2] + "." + Dots([g[3]]);
  }

  lemma AddressParts(s: string) returns (q: seq<nat>)
    requires Address(s).Some?
    ensures ValidQuad(q) && s == Joined(q)
    ensures Address(s).value == Number(q)
  {
    var g := Groups(s);
    q := [Value(g[0]), Value(g[1]), Value(g[2]), Value(g[3])];
    DotsOfGroups(s);
    FourDots(g);
    NumeralIsDecimal(g[0]);
    NumeralIsDecimal(g[1]);
    NumeralIsDecimal(g[2]);
    NumeralIsDecimal(g[3]);
  }

  /** A text is what is written for a word exactly if it reads as this word. */
  lemma DottedIff(s: string, ip: nat)
    requires ip < WORDS
    ensures s == Dotted(ip) <==> Address(s) == Some(ip)
  {
    DottedReads(ip);
    if Address(s) == Some(ip) {
      var q := AddressParts(s);
      NumberQuad(q);
    }
  }

  // ---------------------------------------------------------------------------
  // expandCidr

  /** The base address with its k host bits masked away. */
  function Network(base: nat, k: nat): nat
    requires Pow2(k) <= WORDS
  {
    Word(And(base, Not(Pow2(k) - 1), 32))
  }

  /** A word with the prefix of the base whose k host bits are neither all zero (the network)
    * nor all one (the broadcast address). */
  ghost predicate HostOf(ip: nat, base: nat, k: nat) {
    ip < WORDS && ip / Pow2(k) == base / Pow2(k) && 0 < ip % Pow2(k) < Pow2(k) - 1
  }

  lemma NetworkPrefix(base: nat, k: nat)
    requires base < WORDS && k <= 32
    ensures Pow2(k) <= WORDS && Network(base, k) == Shl(Shr(base, k), k) && Network(base, k) + Pow2(k) <= WORDS
  {
    BytePowers();
    AndHigh(base, k, 32);
    PrefixRoom(base, k);
    WordSmall(Shl(Shr(base, k), k));
  }

  /** The network's own address: the base rounded down to a multiple of its size. */
  lemma NetworkValue(base: nat, k: nat)
    requires base < WORDS && k <= 32 && Pow2(k) <= WORDS
    ensures Network(base, k) == base - base % Pow2(k)
  {
    NetworkPrefix(base, k);
    SplitWord(base, k);
    LowIs(base, k);
  }

  lemma PrefixRoom(base: nat, k: nat)
    requires base < WORDS && k <= 32
    ensures Shl(Shr(base, k), k) + Pow2(k) <= WORDS
  {
    BytePowers();
    ShrBound(base, 32 - k, k);
    ShlPow2(0, k);
    ShlPow2(32 - k, k);
    ShlAdds(Shr(base, k), 1, k);
    ShlMonotonic(Shr(base, k) + 1, Pow2(32 - k), k);
  }

  lemma HostsFit(base: nat, k: nat)
    requires base < WORDS && k <= 32 && Pow2(k) <= WORDS
    ensures Network(base, k) + Pow2(k) <= WORDS
  {
    NetworkPrefix(base, k);
  }

  /** The loop's range is exactly the hosts of the network, none past the last word. */
  lemma HostIff(base: nat, k: nat, ip: nat)
    requires base < WORDS && k <= 32 && Pow2(k) <= WORDS
    ensures Network(base, k) < ip < Network(base, k) + Pow2(k) - 1 <==> HostOf(ip, base, k)
  {
    var network := Network(base, k);
    NetworkPrefix(base, k);
    SplitWord(ip, k);
    ShrIs(base, k);
    ShrIs(ip, k);
    LowIs(ip, k);
    if network <= ip < network + Pow2(k) {
      JoinWord(Shr(base, k), ip - network, k);
    }
  }

  datatype CidrError = PrefixOutOfRange | BadOctet

  /** f of `count` numbers from `first` on. */
  function Range<T>(f: nat -> T, first: nat, count: nat): seq<T> {
    seq(count, j requires 0 <= j => f(first + j))
  }

  lemma RangeSnoc<T>(f: nat -> T, first: nat, count: nat)
    ensures Range(f, first, count + 1) == Range(f, first, count) + [f(first + count)]
  {
  }

  lemma RangeHas<T>(f: nat -> T, first: nat, count: nat, i: nat)
    requires first <= i < first + count
    ensures f(i) in Range(f, first, count)
  {
    assert Range(f, first, count)[i - first] == f(i);
  }

  lemma RangeOnly<T>(f: nat -> T, first: nat, count: nat, x: T) returns (i: nat)
    requires x in Range(f, first, count)
    ensures first <= i < first + count && x == f(i)
  {
    var j :| 0 <= j < count && Range(f, first, count)[j] == x;
    i := first + j;
  }

  /** The host addresses in order. */
  function Addresses(base: nat, k: nat): seq<string>
    requires 2 <= k && Pow2(k) <= WORDS
  {
    Range(Dotted, Network(base, k) + 1, Pow2(k) - 2)
  }

  lemma HostSizes(prefix: nat)
    requires 22 <= prefix <= 30
    ensures 4 <= Pow2(32 - prefix) <= WORDS
  {
    NetworkPrefix(0, 32 - prefix);
    assert Pow2(32 - prefix) == 2 * Pow2(31 - prefix) == 4 * Pow2(30 - prefix);
  }

  /** Entry j reads as the first number plus j. */
  ghost predicate ReadsUpFrom(ips: seq<string>, first: nat) {
    forall j :: 0 <= j < |ips| ==> Address(ips[j]) == Some(first + j)
  }

  /** The texts name the hosts of the network in increasing order: entry j reads as the network's
    * address, the word of the octets rounded down to a multiple of 2^(32-prefix), plus j + 1. */
  ghost predicate HostsInOrder(ips: seq<string>, octets: seq<nat>, prefix: nat)
    requires |octets| == 4 && prefix <= 32
  {
    var word := 256 * (256 * (256 * octets[0] + octets[1]) + octets[2]) + octets[3];
    && |ips| == Pow2(32 - prefix) - 2
    && word % Pow2(32 - prefix) <= word && ReadsUpFrom(ips, word - word % Pow2(32 - prefix) + 1)
  }

  lemma RangeAt<T>(f: nat -> T, first: nat, count: nat, j: nat)
    requires j < count
    ensures |Range(f, first, count)| == count && Range(f, first, count)[j] == f(first + j)
  {
  }

  lemma RangeReads(first: nat, count: nat)
    requires first + count <= WORDS
    ensures |Range(Dotted, first, count)| == count && ReadsUpFrom(Range(Dotted, first, count), first)
  {
    forall j | 0 <= j < count ensures Address(Range(Dotted, first, count)[j]) == Some(first + j) {
      RangeAt(Dotted, first, count, j);
      DottedReads(first + j);
    }
  }

  lemma FirstHost(base: nat, k: nat)
    requires base < WORDS && 2 <= k <= 10 && Pow2(k) <= WORDS
    ensures 2 <= Pow2(k) && base % Pow2(k) <= base
    ensures |Addresses(base, k)| == Pow2(k) - 2 && ReadsUpFrom(Addresses(base, k), base - base % Pow2(k) + 1)
  {
    HostsFit(base, k);
    NetworkValue(base, k);
    RangeReads(Network(base, k) + 1, Pow2(k) - 2);
  }

  lemma AddressesInOrder(octets: seq<nat>, prefix: nat)
    requires |octets| == 4 && (forall o :: o in octets ==> o <= 255) && 22 <= prefix <= 30
    requires Pow2(32 - prefix) <= WORDS
    ensures FromQuad(octets) < WORDS && HostsInOrder(Addresses(FromQuad(octets), 32 - prefix), octets, prefix)
  {
    WordOf(octets);
    FirstHost(FromQuad(octets), 32 - prefix);
  }

  lemma WordOf(octets: seq<nat>)
    requires |octets| == 4 && forall o :: o in octets ==> o <= 255
    ensures FromQuad(octets) == 256 * (256 * (256 * octets[0] + octets[1]) + octets[2]) + octets[3] < WORDS
  {
    assert octets[0] in octets && octets[1] in octets && octets[2] in octets && octets[3] in octets;
    FromOctetsValue(octets[0], octets[1], octets[2], octets[3]);
  }

  method ExpandCidr(octets: seq<nat>, prefix: nat) returns (r: Result<seq<string>, CidrError>)
    requires |octets| == 4
    ensures prefix < 22 || prefix > 30 ==> r == Err(PrefixOutOfRange)
    ensures 22 <= prefix <= 30 && (exists o :: o in octets && o > 255) ==> r == Err(BadOctet)
    ensures 22 <= prefix <= 30 && (forall o :: o in octets ==> o <= 255) ==>
      && Pow2(32 - prefix) <= WORDS && r == Ok(Addresses(FromQuad(octets), 32 - prefix))
      && HostsInOrder(r.value, octets, prefix)
  {
    if prefix < 22 || prefix > 30 {
      return Err(PrefixOutOfRange);
    }
    if exists o :: o in octets && o > 255 {
      return Err(BadOctet);
    }
    HostSizes(prefix);
    AddressesInOrder(octets, prefix);
    var ips := Expand(FromQuad(octets), 32 - prefix);
    return Ok(ips);
  }

  method Expand(base: nat, k: nat) returns (ips: seq<string>)
    requires base < WORDS && 2 <= k <= 10 && Pow2(k) <= WORDS
    ensures ips == Addresses(base, k)
  {
    HostsFit(base, k);
    ips := Enumerate(Network(base, k), Pow2(k));
  }

  method Enumerate(network: nat, size: nat) returns (ips: seq<string>)
    requires 2 <= size && network + size <= WORDS
    ensures ips == Range(Dotted, network + 1, size - 2)
  {
    ips := [];
    for i := 1 to size - 1
      invariant ips == Range(Dotted, network + 1, i - 1)
    {
      RangeSnoc(Dotted, network + 1, i - 1);
      WordSmall(network + i);
      ips := ips + [Dotted(Word(network + i))];
    }
  }

  ghost predicate HostAddress(address: string, base: nat, k: nat) {
    exists ip: nat :: HostOf(ip, base, k) && Address(address) == Some(ip)
  }

  lemma AddressOfHost(base: nat, k: nat, address: string) returns (ip: nat)
    requires base < WORDS && 2 <= k <= 10 && Pow2(k) <= WORDS
    requires address in Addresses(base, k)
    ensures HostOf(ip, base, k) && address == Dotted(ip)
  {
    ip := RangeOnly(Dotted, Network(base, k) + 1, Pow2(k) - 2, address);
    HostIff(base, k, ip);
  }

  lemma HostHasAddress(base: nat, k: nat, ip: nat)
    requires base < WORDS && 2 <= k <= 10 && Pow2(k) <= WORDS
    requires HostOf(ip, base, k)
    ensures Dotted(ip) in Addresses(base, k)
  {
    HostInRange(base, k, ip);
    RangeHas(Dotted, Network(base, k) + 1, Pow2(k) - 2, ip);
  }

  lemma HostInRange(base: nat, k: nat, ip: nat)
    requires base < WORDS && 2 <= k <= 10 && Pow2(k) <= WORDS && HostOf(ip, base, k)
    ensures 2 <= Pow2(k) && Network(base, k) + 1 <= ip < Network(base, k) + 1 + (Pow2(k) - 2)
  {
    HostIff(base, k, ip);
  }

  /** A text is among the addresses exactly when it reads as a host of the network. */
  lemma AddressesIff(base: nat, k: nat, address: string)
    requires base < WORDS && 2 <= k <= 10 && Pow2(k) <= WORDS
    ensures address in Addresses(base, k) <==> HostAddress(address, base, k)
  {
    if address in Addresses(base, k) {
      var ip := AddressOfHost(base, k, address);
      DottedIff(address, ip);
    }
    if ip: nat :| HostOf(ip, base, k) && Address(address) == Some(ip) {
      DottedIff(address, ip);
      HostHasAddress(base, k, ip);
    }
  }

  lemma DottedDiffer(ip: nat, ip': nat)
    requires ip < ip' < WORDS
    ensures Dotted(ip) != Dotted(ip')
  {
    if Dotted(ip) == Dotted(ip') { DottedInjective(ip, ip'); }
  }

  ghost predicate Injective<T(!new)>(f: nat -> T) {
    forall x: nat, y: nat :: x < y < WORDS ==> f(x) != f(y)
  }

  lemma DottedIsInjective()
    ensures Injective(Dotted)
  {
    forall x: nat, y: nat | x < y < WORDS ensures Dotted(x) != Dotted(y) {
      DottedDiffer(x, y);
    }
  }

  lemma RangeDistinct<T(!new)>(f: nat -> T, first: nat, count: nat)
    requires Injective(f) && first + count <= WORDS
    ensures Distinct(Range(f, first, count))
  {
    forall i, j | 0 <= i < j < count ensures Range(f, first, count)[i] != Range(f, first, count)[j] {
      assert f(first + i) != f(first + j);
    }
  }

  /** There are 2^k - 2 addresses, no two of them equal. */
  lemma AddressesDistinct(base: nat, k: nat)
    requires base < WORDS && 2 <= k <= 10 && Pow2(k) <= WORDS
    ensures Distinct(Addresses(base, k)) && |Addresses(base, k)| == Pow2(k) - 2
  {
    HostsFit(base, k);
    DottedIsInjective();
    RangeDistinct(Dotted, Network(base, k) + 1, Pow2(k) - 2);
  }

  // ---------------------------------------------------------------------------
  // createPool

  datatype Pool = Pool(networkId: nat, octets: seq<nat>, prefix: nat, gateway: string)

  datatype PoolError = NoNetwork | BadCidr(error: CidrError)

  function Without(addresses: seq<string>, gateway: string): (r: seq<string>)
    ensures forall a :: a in r <==> a in addresses && a != gateway
  {
    if addresses == [] then []
    else (if addresses[0] == gateway then [] else [addresses[0]]) + Without(addresses[1..], gateway)
  }

  class Pools {
    var networks: set<nat>
    var pools: map<nat, Pool>
    /** The pool of each known address; the address is unique over all pools. */
    var addresses: map<string, nat>

    constructor (networks: set<nat>)
    {
      this.networks := networks;
      pools, addresses := map[], map[];
    }

    /** Adds the addresses that no pool has yet. */
    method CreateMany(ips: seq<string>, pool: nat)
      modifies this`addresses
      ensures addresses.Keys == old(addresses).Keys + (set a | a in ips)
      ensures forall a :: a in addresses ==> addresses[a] == if a in old(addresses) then old(addresses)[a] else pool
    {
      for i := 0 to |ips|
        invariant addresses.Keys == old(addresses).Keys + (set a | a in ips[..i])
        invariant forall a :: a in addresses ==> addresses[a] == if a in old(addresses) then old(addresses)[a] else pool
      {
        if ips[i] !in addresses {
          addresses := addresses[ips[i] := pool];
        }
      }
    }

    method CreatePool(id: nat, networkId: nat, octets: seq<nat>, prefix: nat, gateway: string)
      returns (r: Result<nat, PoolError>)
      requires |octets| == 4
      requires id !in pools && id !in addresses.Values
      modifies this`pools, this`addresses
      ensures r == if networkId !in networks then Err(NoNetwork)
        else if prefix < 22 || prefix > 30 then Err(BadCidr(PrefixOutOfRange))
        else if exists o :: o in octets && o > 255 then Err(BadCidr(BadOctet))
        else Ok(id)
      ensures r.Err? ==> pools == old(pools) && addresses == old(addresses)
      ensures r.Ok? ==> pools == old(pools)[id := Pool(networkId, octets, prefix, gateway)]
      ensures r.Ok? ==> forall a :: a in old(addresses) ==> a in addresses && addresses[a] == old(addresses)[a]
      ensures r.Ok? ==> forall a :: a in addresses && a !in old(addresses) ==> addresses[a] == id
      ensures r.Ok? ==> forall a :: a in addresses && a !in old(addresses) <==>
        NewAddress(a, FromQuad(octets), 32 - prefix, gateway, old(addresses))
    {
      if networkId !in networks {
        return Err(NoNetwork);
      }
      var expanded := ExpandCidr(octets, prefix);
      if expanded.Err? {
        return Err(BadCidr(expanded.error));
      }
      var ips := Without(expanded.value, gateway);
      forall a ensures a in expanded.value <==> HostAddress(a, FromQuad(octets), 32 - prefix) {
        AddressesIff(FromQuad(octets), 32 - prefix, a);
      }
      pools := pools[id := Pool(networkId, octets, prefix, gateway)];
      CreateMany(ips, id);
      return Ok(id);
    }
  }

  /** A host's address that is not the gateway's and not in a pool yet. */
  ghost predicate NewAddress(address: string, base: nat, k: nat, gateway: string, taken: map<string, nat>) {
    HostAddress(address, base, k) && address != gateway && address !in taken
  }
}
