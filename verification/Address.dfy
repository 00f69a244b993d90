/**
 Dotted-quad addresses (`Ipv4Addr` in protocol.rs): printing, parsing with the standard library's
 `u8` syntax, and the two byte orders.
 */
module Address {
  import opened Common

  type Octet = n: nat | n < 256

  datatype Ipv4Addr = Ipv4Addr(a: Octet, b: Octet, c: Octet, d: Octet)

  datatype Parsed = Ok(addr: Ipv4Addr) | InvalidAddress | Panic

  // ----- one octet -----

  predicate IsDigit(c: char) {
    '0' <= c <= '9'
  }

  function Value(c: char): (r: nat)
    requires IsDigit(c)
    ensures r < 10 && "0123456789"[r] == c
  {
    c as int - '0' as int
  }

  function Digit(n: nat): (c: char)
    requires n < 10
    ensures IsDigit(c) && Value(c) == n
  {
    (n + '0' as int) as char
  }

  /** `{}` of a `u8`: no leading zeros. */
  function Print8(n: Octet): (s: string)
    ensures 1 <= |s| <= 3 && forall i :: 0 <= i < |s| ==> IsDigit(s[i])
  {
    if n < 10 then [Digit(n)]
    else if n < 100 then [Digit(n / 10), Digit(n % 10)]
    else [Digit(n / 100), Digit(n / 10 % 10), Digit(n % 10)]
  }

  /** Decimal digits with an overflow check after every digit. */
  function Digits(s: string, acc: Octet): Option<Octet>
    decreases |s|
  {
    if s == [] then Some(acc)
    else if !IsDigit(s[0]) then None
    else if acc * 10 + Value(s[0]) > 255 then None
    else Digits(s[1..], acc * 10 + Value(s[0]))
  }

  /** `str::parse::<u8>`: an optional plus sign, then at least one digit, and no overflow. */
  function Parse8(s: string): Option<Octet> {
    if s == [] then None
    else if s[0] == '+' then (if |s| == 1 then None else Digits(s[1..], 0))
    else Digits(s, 0)
  }

  lemma Parse8Print8(n: Octet)
    ensures Parse8(Print8(n)) == Some(n)
  {
    var s := Print8(n);
    assert s[0] != '+';
    if n < 10 {
      assert s[1..] == [];
      assert Digits(s[1..], n) == Some(n);
    } else if n < 100 {
      assert s[1..][1..] == [];
      assert Digits(s[1..][1..], n) == Some(n);
      assert Digits(s[1..], n / 10) == Some(n);
      assert n / 10 * 10 + n % 10 == n;
    } else {
      assert s[1..][1..][1..] == [];
      assert n / 100 * 10 + n / 10 % 10 == n / 10;
      assert Digits(s[1..][1..][1..], n) == Some(n);
      assert Digits(s[1..][1..], n / 10) == Some(n);
      assert Digits(s[1..], n / 100) == Some(n);
    }
  }

  predicate AllDigits(s: string) {
    forall i :: 0 <= i < |s| ==> IsDigit(s[i])
  }

  /** The decimal value of a list of digits. */
  function Decimal(s: string): nat
    requires AllDigits(s)
  {
    if s == [] then 0 else 10 * Decimal(s[..|s| - 1]) + Value(s[|s| - 1])
  }

  function Power10(n: nat): (r: nat)
    ensures r >= 1
  {
    if n == 0 then 1 else 10 * Power10(n - 1)
  }

  lemma {:induction false} DecimalCons(s: string)
    requires s != [] && AllDigits(s)
    ensures Decimal(s) == Value(s[0]) * Power10(|s| - 1) + Decimal(s[1..])
    decreases |s|
  {
    if |s| == 1 {
      assert s[..0] == [] && s[1..] == [];
      assert Power10(0) == 1;
    } else {
      var init := s[..|s| - 1];
      DecimalCons(init);
      assert s[1..][..|s| - 2] == init[1..];
      assert 10 * (Value(s[0]) * Power10(|s| - 2)) == Value(s[0]) * Power10(|s| - 1);
    }
  }

  lemma {:induction false} DigitsMeaning(s: string, acc: Octet)
    ensures Digits(s, acc).Some? <==> AllDigits(s) && acc * Power10(|s|) + Decimal(s) <= 255
    ensures Digits(s, acc).Some? ==> Digits(s, acc).value == acc * Power10(|s|) + Decimal(s)
    decreases |s|
  {
    if s != [] && IsDigit(s[0]) {
      var next := acc * 10 + Value(s[0]);
      if AllDigits(s) {
        DecimalCons(s);
        Shifted(acc, Value(s[0]), Power10(|s| - 1));
        if next > 255 {
          assert next * Power10(|s| - 1) >= next;
        }
      }
      if next <= 255 {
        DigitsMeaning(s[1..], next);
        assert AllDigits(s[1..]) ==> AllDigits(s) by {
          assert forall i :: 1 <= i < |s| ==> s[i] == s[1..][i - 1];
        }
      }
    }
  }

  lemma Shifted(acc: nat, d: nat, p: nat)
    ensures acc * (10 * p) + d * p == (acc * 10 + d) * p
  {
  }

  /** The digits after an optional plus sign. */
  function Unsigned(s: string): string {
    if s != [] && s[0] == '+' then s[1..] else s
  }

  /** What is accepted as an octet: an optional plus sign and then a non-empty list of digits whose
      decimal value is at most 255; and it is read as that value. */
  lemma Parse8Meaning(s: string)
    ensures Parse8(s).Some? <==> Unsigned(s) != [] && AllDigits(Unsigned(s)) && Decimal(Unsigned(s)) <= 255
    ensures Parse8(s).Some? ==> Parse8(s).value == Decimal(Unsigned(s))
  {
    DigitsMeaning(Unsigned(s), 0);
  }

  /** What is printed for an octet: its decimal digits, without leading zeros. */
  lemma Print8Meaning(n: Octet)
    ensures AllDigits(Print8(n)) && Decimal(Print8(n)) == n && (|Print8(n)| > 1 ==> Print8(n)[0] != '0')
  {
    Parse8Print8(n);
    Parse8Meaning(Print8(n));
  }

  // ----- splitting at dots -----

  function FindDot(s: string): (i: nat)
    ensures i <= |s| && (i < |s| ==> s[i] == '.')
    ensures forall j :: 0 <= j < i ==> s[j] != '.'
    decreases |s|
  {
    if s == [] || s[0] == '.' then 0 else 1 + FindDot(s[1..])
  }

  /** `s.split('.')`. */
  function Split(s: string): (r: seq<string>)
    ensures |r| >= 1
    decreases |s|
  {
    var i := FindDot(s);
    if i == |s| then [s] else [s[..i]] + Split(s[i + 1..])
  }

  lemma {:induction false} FindDotAfter(p: string, s: string)
    requires forall j :: 0 <= j < |p| ==> p[j] != '.'
    ensures FindDot(p + ['.'] + s) == |p|
    decreases |p|
  {
    var t := p + ['.'] + s;
    if p != [] {
      assert t[1..] == p[1..] + ['.'] + s;
      FindDotAfter(p[1..], s);
    }
  }

  lemma SplitCons(p: string, s: string)
    requires forall j :: 0 <= j < |p| ==> p[j] != '.'
    ensures Split(p + ['.'] + s) == [p] + Split(s)
  {
    var t := p + ['.'] + s;
    FindDotAfter(p, s);
    assert t[..|p|] == p && t[|p| + 1..] == s;
  }

  lemma {:induction false} NoDot(p: string)
    requires forall j :: 0 <= j < |p| ==> p[j] != '.'
    ensures FindDot(p) == |p|
    decreases |p|
  {
    if p != [] {
      NoDot(p[1..]);
    }
  }

  /** The parts with a dot between any two. */
  function Join(parts: seq<string>): string
    requires parts != []
  {
    if |parts| == 1 then parts[0] else parts[0] + ['.'] + Join(parts[1..])
  }

  /** The parts are what lies between the dots, empty ones included. */
  lemma {:induction false} SplitMeaning(s: string)
    ensures Join(Split(s)) == s
    ensures forall i, j :: 0 <= i < |Split(s)| && 0 <= j < |Split(s)[i]| ==> Split(s)[i][j] != '.'
    decreases |s|
  {
    var i := FindDot(s);
    if i < |s| {
      SplitMeaning(s[i + 1..]);
      assert s == s[..i] + ['.'] + s[i + 1..];
      assert Split(s)[1..] == Split(s[i + 1..]);
    }
  }

  // ----- whole addresses -----

  /** The first three octets of `x`, each followed by a dot, and then `rest`. */
  function Dotted(x: Ipv4Addr, rest: string): string {
    Print8(x.a) + ['.'] + (Print8(x.b) + ['.'] + (Print8(x.c) + ['.'] + rest))
  }

  function Print(x: Ipv4Addr): string {
    Dotted(x, Print8(x.d))
  }

  /** The number of leading parts that are octets. */
  function GoodParts(parts: seq<string>): nat {
    if parts == [] || Parse8(parts[0]).None? then 0 else 1 + GoodParts(parts[1..])
  }

  lemma {:induction false} GoodPartsMeaning(parts: seq<string>)
    ensures GoodParts(parts) <= |parts|
    ensures forall i :: 0 <= i < GoodParts(parts) ==> Parse8(parts[i]).Some?
    ensures GoodParts(parts) < |parts| ==> Parse8(parts[GoodParts(parts)]).None?
    decreases |parts|
  {
    if parts != [] && Parse8(parts[0]).Some? {
      GoodPartsMeaning(parts[1..]);
    }
  }

  /** Part `i` exists and is an octet. */
  predicate GoodAt(parts: seq<string>, i: nat) {
    i < |parts| && Parse8(parts[i]).Some?
  }

  function FromParts(parts: seq<string>): Parsed {
    if !(GoodAt(parts, 0) && GoodAt(parts, 1) && GoodAt(parts, 2) && GoodAt(parts, 3)) then InvalidAddress
    else if GoodAt(parts, 4) then Panic
    else Ok(Ipv4Addr(Parse8(parts[0]).value, Parse8(parts[1]).value, Parse8(parts[2]).value, Parse8(parts[3]).value))
  }

  function FromStr(s: string): Parsed {
    FromParts(Split(s))
  }

  /** The parse loop: octets are stored as long as they parse, and the array is indexed before the
      count is checked, so a fifth octet is out of bounds. */
  method Parse(s: string) returns (r: Parsed)
    ensures r == FromStr(s)
    ensures r.InvalidAddress? <==> GoodParts(Split(s)) < 4
    ensures r.Panic? <==> GoodParts(Split(s)) >= 5
  {
    var parts := Split(s);
    GoodPartsMeaning(parts);
    var octets: seq<Octet> := [0, 0, 0, 0];
    var idx: nat := 0;
    while idx < |parts| && Parse8(parts[idx]).Some?
      invariant idx <= 4 && idx <= GoodParts(parts) && |octets| == 4
      invariant forall i :: 0 <= i < idx ==> GoodAt(parts, i) && octets[i] == Parse8(parts[i]).value
      decreases |parts| - idx
    {
      if idx == 4 {
        assert GoodAt(parts, 4);
        return Panic;
      }
      octets := octets[idx := Parse8(parts[idx]).value];
      idx := idx + 1;
    }
    assert idx == GoodParts(parts);
    if idx < 4 {
      assert !GoodAt(parts, idx);
      return InvalidAddress;
    }
    assert octets[0] == Parse8(parts[0]).value && octets[1] == Parse8(parts[1]).value;
    assert octets[2] == Parse8(parts[2]).value && octets[3] == Parse8(parts[3]).value;
    return Ok(Ipv4Addr(octets[0], octets[1], octets[2], octets[3]));
  }

  lemma SplitDotted(x: Ipv4Addr, rest: string)
    ensures Split(Dotted(x, rest)) == [Print8(x.a)] + ([Print8(x.b)] + ([Print8(x.c)] + Split(rest)))
  {
    var c := Print8(x.c) + ['.'] + rest;
    SplitCons(Print8(x.c), rest);
    SplitCons(Print8(x.b), c);
    SplitCons(Print8(x.a), Print8(x.b) + ['.'] + c);
  }

  lemma ParseOctets(x: Ipv4Addr)
    ensures Parse8(Print8(x.a)) == Some(x.a) && Parse8(Print8(x.b)) == Some(x.b)
    ensures Parse8(Print8(x.c)) == Some(x.c) && Parse8(Print8(x.d)) == Some(x.d)
  {
    Parse8Print8(x.a);
    Parse8Print8(x.b);
    Parse8Print8(x.c);
    Parse8Print8(x.d);
  }

  /** Parsing what was printed gives the same address back. */
  lemma PrintParseRoundTrip(x: Ipv4Addr)
    ensures FromStr(Print(x)) == Ok(x)
  {
    SplitDotted(x, Print8(x.d));
    NoDot(Print8(x.d));
    ParseOctets(x);
  }

  /** The exact condition under which a string is accepted: four octets first, and then either the
      end or something that is not an octet, which is ignored. */
  lemma AcceptsIff(s: string)
    ensures FromStr(s).Ok? <==> GoodParts(Split(s)) == 4
    ensures FromStr(s).Panic? <==> GoodParts(Split(s)) >= 5
  {
    var parts := Split(s);
    GoodPartsMeaning(parts);
    var n := GoodParts(parts);
    assert n < 4 ==> !GoodAt(parts, n);
    assert n == 4 ==> !GoodAt(parts, 4);
  }

  /** A trailing part that is not an octet is accepted, and a fifth octet panics, whatever the
      address in front. */
  lemma FifthPart(x: Ipv4Addr, p: string)
    requires forall j :: 0 <= j < |p| ==> p[j] != '.'
    ensures FromStr(Dotted(x, Print8(x.d) + ['.'] + p)) == if Parse8(p).Some? then Panic else Ok(x)
  {
    var rest := Print8(x.d) + ['.'] + p;
    NoDot(p);
    SplitCons(Print8(x.d), p);
    assert Split(rest) == [Print8(x.d), p];
    SplitDotted(x, rest);
    FromFive(Split(Dotted(x, rest)), x, p);
  }

  /** Every address with a fifth octet behind it panics. */
  lemma FifthOctetPanics(x: Ipv4Addr, y: Octet)
    ensures FromStr(Dotted(x, Print8(x.d) + ['.'] + Print8(y))) == Panic
  {
    Parse8Print8(y);
    FifthPart(x, Print8(y));
  }

  lemma FromFive(parts: seq<string>, x: Ipv4Addr, p: string)
    requires parts == [Print8(x.a), Print8(x.b), Print8(x.c), Print8(x.d), p]
    ensures FromParts(parts) == if Parse8(p).Some? then Panic else Ok(x)
  {
    ParseOctets(x);
  }

  // ----- byte order -----

  /** `u32::from_le_bytes(octets)`: the first octet is the low byte. */
  function ToU32Be(x: Ipv4Addr): nat {
    x.a + 256 * x.b + 65536 * x.c + 16777216 * x.d
  }

  /** `u32::from_be_bytes(octets)`: the first octet is the high byte. */
  function ToU32Le(x: Ipv4Addr): nat {
    16777216 * x.a + 65536 * x.b + 256 * x.c + x.d
  }

  function FromBe(w: nat): Ipv4Addr {
    Ipv4Addr(w % 256, w / 256 % 256, w / 65536 % 256, w / 16777216 % 256)
  }

  /** `from_be` undoes `to_u32_be`, and conversely on every 32-bit word. */
  lemma ByteOrderRoundTrip(x: Ipv4Addr, w: nat)
    requires w < 0x1_0000_0000
    ensures FromBe(ToU32Be(x)) == x
    ensures ToU32Be(FromBe(w)) == w
    ensures ToU32Be(x) < 0x1_0000_0000 && ToU32Le(x) == ToU32Be(Ipv4Addr(x.d, x.c, x.b, x.a))
  {
    var v := ToU32Be(x);
    assert v / 256 == x.b + 256 * x.c + 65536 * x.d;
    assert v / 65536 == x.c + 256 * x.d;
    assert v / 16777216 == x.d;
    assert w / 65536 == w / 256 / 256 && w / 16777216 == w / 256 / 256 / 256;
  }

  /** Which octet each byte of the two words is, from the low byte up. */
  lemma WordOctets(x: Ipv4Addr)
    ensures var w := ToU32Be(x);
            w % 256 == x.a && w / 256 % 256 == x.b && w / 65536 % 256 == x.c && w / 16777216 == x.d
    ensures var w := ToU32Le(x);
            w % 256 == x.d && w / 256 % 256 == x.c && w / 65536 % 256 == x.b && w / 16777216 == x.a
  {
    FourBytes(x.a, x.b, x.c, x.d, ToU32Be(x));
    FourBytes(x.d, x.c, x.b, x.a, ToU32Le(x));
  }

  lemma FourBytes(a: Octet, b: Octet, c: Octet, d: Octet, w: nat)
    requires w == a + 256 * b + 65536 * c + 16777216 * d
    ensures w % 256 == a && w / 256 % 256 == b && w / 65536 % 256 == c && w / 16777216 == d
  {
    assert w / 256 == b + 256 * c + 65536 * d;
    assert w / 65536 == c + 256 * d;
  }
}
