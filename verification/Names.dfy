/** Names and addresses the agent accepts, and the disk naming convention. */
module Names {

  predicate NameChar(c: char) { 'a' <= c <= 'z' || '0' <= c <= '9' || c == '-' }

  /** ^[a-z0-9][a-z0-9-]{2,62}$ */
  predicate ValidName(name: string) {
    3 <= |name| <= 63 && name[0] != '-' && forall c :: c in name ==> NameChar(c)
  }

  predicate HexDigit(c: char) { '0' <= c <= '9' || 'a' <= c <= 'f' || 'A' <= c <= 'F' }

  /** Six pairs of hexadecimal digits, separated by colons. */
  predicate ValidMac(mac: string) {
    |mac| == 17 && forall i :: 0 <= i < 17 ==> if (i + 1) % 3 == 0 then mac[i] == ':' else HexDigit(mac[i])
  }

  predicate ValidBridge(name: string) {
    0 < |name| <= 15 && forall c :: c in name ==> c !in " /\\'\"`$;"
  }

  lemma NamePattern(name: string)
    ensures ValidName(name) <==>
      && 3 <= |name| <= 63
      && forall i :: 0 <= i < |name| ==>
           'a' <= name[i] <= 'z' || '0' <= name[i] <= '9' || (name[i] == '-' && i > 0)
  {
    if ValidName(name) {
      assert forall i :: 0 <= i < |name| ==> name[i] in name;
    }
  }

  lemma MacPattern(mac: string)
    ensures ValidMac(mac) <==>
      && |mac| == 17
      && forall i :: 0 <= i < 17 ==>
           if i in {2, 5, 8, 11, 14} then mac[i] == ':' else mac[i] in "0123456789abcdefABCDEF"
  {
    forall c: char ensures HexDigit(c) <==> c in "0123456789abcdefABCDEF" { HexDigitIn(c); }
  }

  lemma HexDigitIn(c: char)
    ensures HexDigit(c) <==> c in "0123456789abcdefABCDEF"
  {
    if '0' <= c <= '9' {
      assert "0123456789abcdefABCDEF"[c as int - '0' as int] == c;
    } else if 'a' <= c <= 'f' {
      assert "0123456789abcdefABCDEF"[c as int - 'a' as int + 10] == c;
    } else if 'A' <= c <= 'F' {
      assert "0123456789abcdefABCDEF"[c as int - 'A' as int + 16] == c;
    }
  }

  const MAX_DISKS := 8

  function Digit(i: nat): char
    requires i < 10
  {
    "0123456789"[i]
  }

  function Decimal(n: nat): (s: string)
    ensures |s| >= 1 && (n >= 10 ==> |s| >= 2)
  {
    if n < 10 then [Digit(n)] else Decimal(n / 10) + [Digit(n % 10)]
  }

  lemma {:induction false} DecimalDigits(n: nat)
    ensures forall c :: c in Decimal(n) ==> '0' <= c <= '9'
  {
    if n >= 10 { DecimalDigits(n / 10); }
  }

  lemma {:induction false} DecimalInjective(m: nat, n: nat)
    requires Decimal(m) == Decimal(n)
    ensures m == n
  {
    if m >= 10 {
      LastDigit(Decimal(m / 10), m % 10, Decimal(n / 10), n % 10);
      DecimalInjective(m / 10, n / 10);
    }
  }

  lemma LastDigit(s: string, d: nat, t: string, e: nat)
    requires d < 10 && e < 10 && s + [Digit(d)] == t + [Digit(e)]
    ensures s == t && d == e
  {
    var w := s + [Digit(d)];
    assert w[|s|] == Digit(d) && w[|t|] == Digit(e);
    assert w[..|s|] == s && w[..|t|] == t;
  }

  // A reader of numerals, apart from how they are written

  predicate Digits(s: string) { forall i :: 0 <= i < |s| ==> '0' <= s[i] <= '9' }

  /** The number that a text of digits spells, the highest digit first. */
  function Value(s: string): nat
    requires Digits(s)
  {
    if s == [] then 0
    else
      var init, last := s[..|s| - 1], s[|s| - 1];
      10 * Value(init) + (last as int - '0' as int)
  }

  /** Digits without a leading zero. */
  predicate Numeral(s: string) { s != [] && Digits(s) && (|s| > 1 ==> s[0] != '0') }

  lemma DigitValue(i: nat)
    requires i < 10
    ensures '0' <= Digit(i) <= '9' && Digit(i) as int - '0' as int == i
  {
  }

  lemma ValueSnoc(s: string, c: char)
    requires Digits(s) && '0' <= c <= '9'
    ensures Digits(s + [c]) && Value(s + [c]) == 10 * Value(s) + (c as int - '0' as int)
  {
    assert (s + [c])[..|s|] == s;
  }

  lemma SpellsDigit(d: nat)
    requires d < 10
    ensures Spells([Digit(d)], d)
  {
    DigitValue(d);
    assert [Digit(d)][..0] == [];
  }

  lemma SpellsSnoc(s: string, n: nat, d: nat)
    requires Spells(s, n) && n > 0 && d < 10
    ensures Spells(s + [Digit(d)], 10 * n + d)
  {
    DigitValue(d);
    ValueSnoc(s, Digit(d));
    assert (s + [Digit(d)])[0] == s[0];
    assert s[0] != '0' by { LeadingZero(s); }
  }

  /** The text is the numeral of the number. */
  predicate Spells(s: string, n: nat) { Numeral(s) && Value(s) == n }

  lemma LeadingZero(s: string)
    requires Numeral(s) && Value(s) > 0
    ensures s[0] != '0'
  {
    if |s| == 1 { assert s[..0] == []; }
  }

  /** What is written for a number is its numeral. */
  lemma {:induction false} DecimalSpells(n: nat)
    ensures Spells(Decimal(n), n)
  {
    if n < 10 {
      SpellsDigit(n);
    } else {
      DecimalSpells(n / 10);
      SpellsSnoc(Decimal(n / 10), n / 10, n % 10);
    }
  }

  lemma {:induction false} ValuePositive(s: string)
    requires s != [] && Digits(s) && s[0] != '0'
    ensures Value(s) > 0
  {
    if |s| > 1 { ValuePositive(s[..|s| - 1]); }
  }

  lemma DigitOf(c: char) returns (d: nat)
    requires '0' <= c <= '9'
    ensures d < 10 && Digit(d) == c && d == c as int - '0' as int
  {
    d := c as int - '0' as int;
    DigitValue(d);
  }

  /** A numeral of more than one digit: one of fewer digits, and a digit. */
  lemma NumeralParts(s: string) returns (init: string, d: nat)
    requires Numeral(s) && |s| > 1
    ensures d < 10 && s == init + [Digit(d)] && |init| < |s|
    ensures Numeral(init) && Value(init) > 0 && Value(s) == 10 * Value(init) + d
  {
    init := s[..|s| - 1];
    d := DigitOf(s[|s| - 1]);
    ValuePositive(init);
  }

  lemma OneDigit(s: string)
    requires Numeral(s) && |s| == 1
    ensures Decimal(Value(s)) == s
  {
    var d := DigitOf(s[0]);
    assert Value(s[..0]) == 0;
    assert Value(s) == d;
  }

  lemma {:induction false} NumeralIsDecimal(s: string)
    requires Numeral(s)
    ensures Decimal(Value(s)) == s
    decreases |s|
  {
    if |s| == 1 {
      OneDigit(s);
    } else {
      var init, d := NumeralParts(s);
      NumeralIsDecimal(init);
      DecimalSnoc(Value(init), d);
    }
  }

  lemma DecimalSnoc(high: nat, d: nat)
    requires high > 0 && d < 10
    ensures Decimal(10 * high + d) == Decimal(high) + [Digit(d)]
  {
    assert (10 * high + d) / 10 == high && (10 * high + d) % 10 == d;
  }

  /** A text is what is written for a number exactly if it is a numeral that spells it. */
  lemma DecimalIff(s: string, n: nat)
    ensures s == Decimal(n) <==> Spells(s, n)
  {
    DecimalSpells(n);
    if Numeral(s) { NumeralIsDecimal(s); }
  }

  /** The panel's name for disk i of a machine; the agent deletes by the same convention. */
  function DiskName(vm: string, i: nat): string { vm + "-disk" + Decimal(i) }

  lemma DiskNameText(vm: string, i: nat)
    ensures var digits := DiskName(vm, i)[|vm| + 5..];
      DiskName(vm, i)[..|vm| + 5] == vm + "-disk" && Spells(digits, i)
  {
    DecimalSpells(i);
    assert DiskName(vm, i)[|vm| + 5..] == Decimal(i);
  }

  /** The digits end where the name of the convention has its k. */
  lemma DiskNameEnd(vm: string, i: nat)
    ensures var s, n := DiskName(vm, i), |Decimal(i)|;
      && s[|s| - n - 1] == 'k' && (forall j :: |s| - n <= j < |s| ==> '0' <= s[j] <= '9')
      && s[..|s| - n - 5] == vm && s[|s| - n..] == Decimal(i)
  {
    var s, n := DiskName(vm, i), |Decimal(i)|;
    DecimalDigits(i);
    assert s[|s| - n..] == Decimal(i);
    assert forall j :: |s| - n <= j < |s| ==> s[j] == Decimal(i)[j - (|s| - n)];
    assert s[..|s| - n - 5] == vm;
  }

  /** Two disk names agree only for the same machine and the same disk. */
  lemma DiskNameInjective(vm: string, i: nat, vm': string, i': nat)
    requires DiskName(vm, i) == DiskName(vm', i')
    ensures vm == vm' && i == i'
  {
    DiskNameEnd(vm, i);
    DiskNameEnd(vm', i');
    DecimalInjective(i, i');
  }

  /** The panel admits names of up to 63 characters, the agent checks disk names by the same
    * rule: a convention disk name passes exactly when the machine name has at most 57. */
  lemma DiskNameValid(vm: string, i: nat)
    requires ValidName(vm) && i < 10
    ensures ValidName(DiskName(vm, i)) <==> |vm| <= 57
  {
    var s := DiskName(vm, i);
    assert s[0] == vm[0];
    DecimalDigits(i);
    assert forall c :: c in s ==> c in vm || c in "-disk" || c in Decimal(i);
  }
}
