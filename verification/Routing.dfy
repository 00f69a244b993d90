/**
 Route matching (`Route` in protocol.rs) and route selection (`Ipv4Sender::process`).  Addresses
 are 32-bit words with the first octet in the low byte, as `to_u32_be` builds them; the mask takes
 the low `cidr` bits.  Arithmetic is that of a release build, where a shift by 32 is a shift by 0.
 */
module Routing {
  import opened Common
  import opened Words

  datatype Route = Route(ip: nat, mask: nat, nic: nat, cidr: nat)

  /** A 32-bit shift takes its amount modulo 32. */
  function ShiftAmount(cidr: nat): nat
    requires cidr <= 32
  {
    if cidr == 32 then 0 else cidr
  }

  /** `Route::new`; its assertion admits every cidr up to 32. */
  function NewRoute(ip: nat, cidr: nat, nic: nat): Option<Route> {
    if cidr <= 32 then Some(Route(ip, Pow2(ShiftAmount(cidr)) - 1, nic, cidr)) else None
  }

  predicate Matches(r: Route, ip: nat) {
    And(Xor(r.ip, ip), r.mask) == 0
  }

  // ----- what a match means -----

  lemma MatchIsLowBits(r: Route, ip: nat, k: nat)
    requires r.mask == Pow2(k) - 1
    ensures Matches(r, ip) <==> Low(r.ip, k) == Low(ip, k)
  {
    LowMask(Xor(r.ip, ip), k);
    XorLow(r.ip, ip, k);
  }

  /** For every cidr up to 31 a route matches exactly the addresses that agree with it modulo
      2^cidr; a /32 route, whose shift wraps to an empty mask, matches every address. */
  lemma MatchMeaning(ip: nat, cidr: nat, nic: nat, addr: nat)
    requires cidr <= 32
    ensures cidr <= 31 ==> (Matches(NewRoute(ip, cidr, nic).value, addr) <==> ip % Pow2(cidr) == addr % Pow2(cidr))
    ensures cidr == 32 ==> Matches(NewRoute(ip, cidr, nic).value, addr)
  {
    var r := NewRoute(ip, cidr, nic).value;
    MatchIsLowBits(r, addr, ShiftAmount(cidr));
    LowAgree(ip, addr, cidr);
  }

  lemma {:induction false} LowPrefix(a: nat, b: nat, j: nat, k: nat)
    requires j <= k && Low(a, k) == Low(b, k)
    ensures Low(a, j) == Low(b, j)
    decreases j
  {
    if j > 0 {
      LowPrefix(a / 2, b / 2, j - 1, k - 1);
    }
  }

  /** Matches nest: two routes that match one address agree on the shorter mask. */
  lemma MatchesNest(a: Route, b: Route, j: nat, k: nat, addr: nat)
    requires a.mask == Pow2(j) - 1 && b.mask == Pow2(k) - 1 && j <= k
    requires Matches(a, addr) && Matches(b, addr)
    ensures Matches(a, b.ip)
  {
    MatchIsLowBits(a, addr, j);
    MatchIsLowBits(b, addr, k);
    LowPrefix(b.ip, addr, j, k);
    MatchIsLowBits(a, b.ip, j);
  }

  // ----- comparison with CIDR prefixes -----

  /** Bit `j` of an address in network order: bit 0 is the top bit of the first octet. */
  predicate NetworkBit(a: nat, j: nat) {
    Bit(a, Mirror(j))
  }

  /** Section 3.1 of RFC 4632: the first `cidr` bits in network order agree. */
  ghost predicate SamePrefix(a: nat, b: nat, cidr: nat) {
    forall j :: 0 <= j < cidr ==> NetworkBit(a, j) == NetworkBit(b, j)
  }

  ghost predicate SameBits(a: nat, b: nat, k: nat) {
    forall i: nat :: i < k ==> Bit(a, i) == Bit(b, i)
  }

  lemma {:induction false} LowBits(a: nat, b: nat, k: nat)
    ensures Low(a, k) == Low(b, k) <==> SameBits(a, b, k)
    decreases k
  {
    if k > 0 {
      LowBits(a / 2, b / 2, k - 1);
      if SameBits(a, b, k) {
        assert Bit(a, 0) == Bit(b, 0);
        forall i: nat | i < k - 1 ensures Bit(a / 2, i) == Bit(b / 2, i) {
          assert Bit(a, i + 1) == Bit(b, i + 1);
        }
      }
      if Low(a, k) == Low(b, k) {
        forall i: nat | i < k ensures Bit(a, i) == Bit(b, i) {
          if i > 0 {
            assert Bit(a / 2, i - 1) == Bit(b / 2, i - 1);
          }
        }
      }
    }
  }

  /** The place of a bit in the other order, within its octet. */
  function Mirror(i: nat): nat {
    8 * (i / 8) + (7 - i % 8)
  }

  lemma MirrorTwice(i: nat, octets: nat)
    ensures Mirror(Mirror(i)) == i
    ensures i < 8 * octets ==> Mirror(i) < 8 * octets
  {
    var q, r := i / 8, i % 8;
    assert i == 8 * q + r && Mirror(i) == 8 * q + (7 - r);
    assert (8 * q + (7 - r)) / 8 == q && (8 * q + (7 - r)) % 8 == 7 - r;
  }

  /** At whole octets the low bits are the CIDR prefix. */
  lemma WholeOctetsArePrefix(a: nat, b: nat, octets: nat)
    ensures SamePrefix(a, b, 8 * octets) <==> Low(a, 8 * octets) == Low(b, 8 * octets)
  {
    var k := 8 * octets;
    LowBits(a, b, k);
    if SamePrefix(a, b, k) {
      forall i: nat | i < k ensures Bit(a, i) == Bit(b, i) {
        MirrorTwice(i, octets);
        assert NetworkBit(a, Mirror(i)) == NetworkBit(b, Mirror(i));
      }
    }
    if Low(a, k) == Low(b, k) {
      forall j | 0 <= j < k ensures NetworkBit(a, j) == NetworkBit(b, j) {
        MirrorTwice(j, octets);
        assert Bit(a, Mirror(j)) == Bit(b, Mirror(j));
      }
    }
  }

  lemma {:induction false} LowOfPow2(p: nat, k: nat)
    requires k <= p
    ensures Low(Pow2(p), k) == 0
    decreases k
  {
    if k > 0 {
      assert Pow2(p) / 2 == Pow2(p - 1) && Pow2(p) % 2 == 0;
      LowOfPow2(p - 1, k - 1);
    }
  }

  /** The top bit of the octet a prefix ends in, or of the last octet for /32. */
  function EndBit(cidr: nat): nat
    requires cidr <= 32
  {
    if cidr == 32 then 31 else 8 * (cidr / 8) + 7
  }

  /** That bit is in the prefix and not under the mask. */
  lemma EndBitInPrefix(cidr: nat) returns (j: nat)
    requires cidr <= 32 && (cidr % 8 != 0 || cidr == 32)
    ensures j < cidr && Mirror(j) == EndBit(cidr) && ShiftAmount(cidr) <= EndBit(cidr)
  {
    var q := if cidr == 32 then 3 else cidr / 8;
    j := 8 * q;
    assert EndBit(cidr) == 8 * q + 7 && j / 8 == q && j % 8 == 0;
  }

  /** Away from whole octets the mask is not the prefix: the code's mask takes the low bits of
      the partial octet where the prefix has its high bits. */
  lemma PartialOctetDiffers(cidr: nat, nic: nat)
    requires cidr <= 32 && (cidr % 8 != 0 || cidr == 32)
    ensures Matches(NewRoute(0, cidr, nic).value, Pow2(EndBit(cidr)))
    ensures !SamePrefix(0, Pow2(EndBit(cidr)), cidr)
  {
    var j := EndBitInPrefix(cidr);
    var p, k := EndBit(cidr), ShiftAmount(cidr);
    MatchIsLowBits(NewRoute(0, cidr, nic).value, Pow2(p), k);
    LowZero(k);
    LowOfPow2(p, k);
    ZeroBits(p);
    Pow2Bit(p, p);
    assert NetworkBit(0, j) != NetworkBit(Pow2(p), j);
  }

  const U32: nat := 0x1_0000_0000

  lemma EndBitInWord(cidr: nat)
    requires cidr <= 32
    ensures Pow2(EndBit(cidr)) < U32
  {
    assert Pow2(8) == 0x100;
    assert Pow2(16) == 0x1_0000;
    assert Pow2(24) == 0x100_0000;
    assert Pow2(31) == 0x8000_0000;
    Pow2Mono(EndBit(cidr), 31);
  }

  /** Route matching is CIDR prefix matching, for every 32-bit network and address, exactly for the
      cidrs 0, 8, 16 and 24. */
  lemma MatchIsCidrIff(cidr: nat, nic: nat)
    requires cidr <= 32
    ensures (forall ip: nat, addr: nat :: ip < U32 && addr < U32 ==>
            (Matches(NewRoute(ip, cidr, nic).value, addr) <==> SamePrefix(ip, addr, cidr)))
            <==> cidr in {0, 8, 16, 24}
  {
    if cidr in {0, 8, 16, 24} {
      forall ip: nat, addr: nat
        ensures Matches(NewRoute(ip, cidr, nic).value, addr) <==> SamePrefix(ip, addr, cidr)
      {
        MatchIsLowBits(NewRoute(ip, cidr, nic).value, addr, cidr);
        WholeOctetsArePrefix(ip, addr, cidr / 8);
      }
    } else {
      PartialOctetDiffers(cidr, nic);
      EndBitInWord(cidr);
    }
  }

  // ----- selection -----

  /** `i` is the earliest matching route of the largest positive cidr. */
  ghost predicate Longest(routes: seq<Route>, dst: nat, i: nat) {
    && i < |routes| && Matches(routes[i], dst) && routes[i].cidr > 0
    && (forall j :: 0 <= j < |routes| && Matches(routes[j], dst) ==> routes[j].cidr <= routes[i].cidr)
    && (forall j :: 0 <= j < i && Matches(routes[j], dst) ==> routes[j].cidr < routes[i].cidr)
  }

  /** No route matches with a positive cidr. */
  ghost predicate NoneLongest(routes: seq<Route>, dst: nat) {
    forall j :: 0 <= j < |routes| && Matches(routes[j], dst) ==> routes[j].cidr == 0
  }

  datatype Best = Best(cidr: nat, nic: Option<nat>)

  function Scan(routes: seq<Route>, dst: nat): Best {
    if routes == [] then Best(0, None)
    else
      var b := Scan(routes[..|routes| - 1], dst);
      var r := routes[|routes| - 1];
      if Matches(r, dst) && r.cidr > b.cidr then Best(r.cidr, Some(r.nic)) else b
  }

  function Selected(routes: seq<Route>, dst: nat): nat {
    var b := Scan(routes, dst);
    if b.nic.Some? then b.nic.value else 0
  }

  /** What the scan holds after a table: nothing and cidr 0 if no route matches with a positive
      cidr, and otherwise the earliest longest match. */
  lemma {:induction false} ScanMeaning(routes: seq<Route>, dst: nat) returns (i: nat)
    ensures Scan(routes, dst).nic.None? ==> Scan(routes, dst).cidr == 0 && NoneLongest(routes, dst)
    ensures Scan(routes, dst).nic.Some? ==>
              Longest(routes, dst, i) && Scan(routes, dst) == Best(routes[i].cidr, Some(routes[i].nic))
    decreases |routes|
  {
    i := 0;
    if routes != [] {
      var init := routes[..|routes| - 1];
      var last := |routes| - 1;
      i := ScanMeaning(init, dst);
      var b := Scan(init, dst);
      assert forall j :: 0 <= j < last ==> routes[j] == init[j];
      if Matches(routes[last], dst) && routes[last].cidr > b.cidr {
        i := last;
      }
    }
  }

  /** The selection loop: the nic of the earliest longest match, or nic 0 when only cidr-0 routes
      or none match. */
  method Select(routes: seq<Route>, dst: nat) returns (nic: nat)
    ensures nic == Selected(routes, dst)
    ensures NoneLongest(routes, dst) ==> nic == 0
    ensures !NoneLongest(routes, dst) ==> exists i: nat :: Longest(routes, dst, i) && nic == routes[i].nic
  {
    var maxCidr := 0;
    var dstNic: Option<nat> := None;
    for k := 0 to |routes|
      invariant Scan(routes[..k], dst) == Best(maxCidr, dstNic)
    {
      assert routes[..k + 1][..k] == routes[..k];
      if Matches(routes[k], dst) && routes[k].cidr > maxCidr {
        maxCidr := routes[k].cidr;
        dstNic := Some(routes[k].nic);
      }
    }
    assert routes[..|routes|] == routes;
    nic := if dstNic.Some? then dstNic.value else 0;
    ghost var i := ScanMeaning(routes, dst);
  }

  /** No two matching routes have the same cidr. */
  ghost predicate DistinctCidrs(routes: seq<Route>, dst: nat) {
    forall i, j :: 0 <= i < j < |routes| && Matches(routes[i], dst) && Matches(routes[j], dst) ==>
      routes[i].cidr != routes[j].cidr
  }

  lemma LongestIsMaximal(routes: seq<Route>, other: seq<Route>, dst: nat, i: nat, k: nat)
    requires multiset(routes) == multiset(other) && DistinctCidrs(other, dst)
    requires Longest(routes, dst, i) && Longest(other, dst, k)
    ensures routes[i].nic == other[k].nic
  {
    SameMembers(routes, other);
    SameMembers(other, routes);
    var i' :| 0 <= i' < |other| && other[i'] == routes[i];
    assert other[i'].cidr == other[k].cidr;
    assert i' == k;
  }

  /** When matching routes have distinct cidrs the choice does not depend on the table's order. */
  lemma SelectionIgnoresOrder(routes: seq<Route>, other: seq<Route>, dst: nat)
    requires multiset(routes) == multiset(other) && DistinctCidrs(other, dst)
    ensures Selected(routes, dst) == Selected(other, dst)
  {
    var i := ScanMeaning(routes, dst);
    var k := ScanMeaning(other, dst);
    SameMembers(routes, other);
    SameMembers(other, routes);
    if Scan(routes, dst).nic.Some? {
      var i' :| 0 <= i' < |other| && other[i'] == routes[i];
      assert !NoneLongest(other, dst);
      LongestIsMaximal(routes, other, dst, i, k);
    }
  }

  lemma SameMembers(a: seq<Route>, b: seq<Route>)
    requires multiset(a) == multiset(b)
    ensures forall i :: 0 <= i < |a| ==> a[i] in b
  {
    forall i | 0 <= i < |a| ensures a[i] in b {
      assert a[i] in multiset(b);
    }
  }

  /** `i` is the earliest matching route of the largest cidr, zero included: section 5.2.4.3 of
      RFC 1812, ties broken by table order. */
  ghost predicate BestMatch(routes: seq<Route>, dst: nat, i: nat) {
    && i < |routes| && Matches(routes[i], dst)
    && (forall j :: 0 <= j < |routes| && Matches(routes[j], dst) ==> routes[j].cidr <= routes[i].cidr)
    && (forall j :: 0 <= j < i && Matches(routes[j], dst) ==> routes[j].cidr < routes[i].cidr)
  }

  /** The code forwards to the best match's nic exactly when that match is not a default route
      leading away from nic 0: a cidr-0 route is never taken. */
  lemma SelectsBestMatchIff(routes: seq<Route>, dst: nat, i: nat)
    requires BestMatch(routes, dst, i)
    ensures Selected(routes, dst) == routes[i].nic <==> routes[i].cidr > 0 || routes[i].nic == 0
  {
    var k := ScanMeaning(routes, dst);
    var b := Scan(routes, dst);
    if b.nic.Some? {
      assert routes[k].cidr == routes[i].cidr;
      assert i == k;
    } else {
      assert routes[i].cidr == 0;
    }
  }

  /** One default route, to nic 1: it is the best match of every address, and nic 0 is taken. */
  lemma DefaultRouteMissed(dst: nat)
    ensures var routes := [NewRoute(0, 0, 1).value];
            BestMatch(routes, dst, 0) && routes[0].nic == 1 && Selected(routes, dst) == 0
  {
    var routes := [NewRoute(0, 0, 1).value];
    MatchMeaning(0, 0, 1, dst);
    assert Pow2(0) == 1;
    SelectsBestMatchIff(routes, dst, 0);
    assert routes[..0] == [] && Scan(routes, dst) == Best(0, None);
  }

  /** The I/O node indexes its adapters with the selected nic unchecked.  The index is in range if
      and only if there is an adapter and the longest match, if any, leads to one. */
  lemma SelectionInRangeIff(routes: seq<Route>, dst: nat, adapters: nat)
    ensures Selected(routes, dst) < adapters
            <==> adapters > 0 && forall i: nat :: Longest(routes, dst, i) ==> routes[i].nic < adapters
  {
    var k := ScanMeaning(routes, dst);
    forall i: nat | Longest(routes, dst, i) ensures Scan(routes, dst).nic == Some(routes[i].nic) {
      assert i == k;
    }
  }

  // ----- selection from a configured table -----

  /** A route as it is configured. */
  datatype Conf = Conf(ip: nat, cidr: nat, nic: nat)

  /** The routes built from a configuration; `None` when a cidr is refused. */
  function Build(confs: seq<Conf>): (r: Option<seq<Route>>)
    ensures r.Some? <==> forall i :: 0 <= i < |confs| ==> confs[i].cidr <= 32
    ensures r.Some? ==> |r.value| == |confs|
                        && forall i :: 0 <= i < |confs| ==>
                            Some(r.value[i]) == NewRoute(confs[i].ip, confs[i].cidr, confs[i].nic)
  {
    if confs == [] then Some([])
    else
      var init := Build(confs[..|confs| - 1]);
      var last := confs[|confs| - 1];
      var route := NewRoute(last.ip, last.cidr, last.nic);
      if init.Some? && route.Some? then Some(init.value + [route.value]) else None
  }

  /** The address agrees with the configured network: modulo 2^cidr, and always for a /32. */
  predicate Agrees(c: Conf, dst: nat) {
    c.cidr == 32 || c.ip % Pow2(c.cidr) == dst % Pow2(c.cidr)
  }

  /** `i` is the earliest configured network of the largest positive cidr that agrees. */
  ghost predicate Chosen(confs: seq<Conf>, dst: nat, i: nat) {
    && i < |confs| && Agrees(confs[i], dst) && confs[i].cidr > 0
    && (forall j :: 0 <= j < |confs| && Agrees(confs[j], dst) ==> confs[j].cidr <= confs[i].cidr)
    && (forall j :: 0 <= j < i && Agrees(confs[j], dst) ==> confs[j].cidr < confs[i].cidr)
  }

  lemma BuiltMatches(confs: seq<Conf>, dst: nat, i: nat)
    requires Build(confs).Some? && i < |confs|
    ensures var r := Build(confs).value[i];
            r.cidr == confs[i].cidr && r.nic == confs[i].nic && (Matches(r, dst) <==> Agrees(confs[i], dst))
  {
    MatchMeaning(confs[i].ip, confs[i].cidr, confs[i].nic, dst);
    assert Some(Build(confs).value[i]) == NewRoute(confs[i].ip, confs[i].cidr, confs[i].nic);
  }

  /** From configuration to choice: the configured nic of the earliest agreeing network of the
      largest positive cidr, and nic 0 if there is none. */
  lemma ConfiguredSelection(confs: seq<Conf>, dst: nat)
    requires Build(confs).Some?
    ensures forall i: nat :: Chosen(confs, dst, i) ==> Selected(Build(confs).value, dst) == confs[i].nic
    ensures (forall i: nat :: !Chosen(confs, dst, i)) ==> Selected(Build(confs).value, dst) == 0
  {
    var routes := Build(confs).value;
    forall i: nat | i < |confs|
      ensures routes[i].cidr == confs[i].cidr && routes[i].nic == confs[i].nic
      ensures Matches(routes[i], dst) <==> Agrees(confs[i], dst)
    {
      BuiltMatches(confs, dst, i);
    }
    var k := ScanMeaning(routes, dst);
    SameChoice(confs, routes, dst, k);
  }

  lemma SameChoice(confs: seq<Conf>, routes: seq<Route>, dst: nat, k: nat)
    requires |routes| == |confs|
    requires forall i: nat :: i < |confs| ==> routes[i].cidr == confs[i].cidr && routes[i].nic == confs[i].nic
    requires forall i: nat :: i < |confs| ==> (Matches(routes[i], dst) <==> Agrees(confs[i], dst))
    requires Scan(routes, dst).nic.None? ==> NoneLongest(routes, dst)
    requires Scan(routes, dst).nic.Some? ==>
               Longest(routes, dst, k) && Scan(routes, dst) == Best(routes[k].cidr, Some(routes[k].nic))
    ensures forall i: nat :: Chosen(confs, dst, i) ==> Selected(routes, dst) == confs[i].nic
    ensures (forall i: nat :: !Chosen(confs, dst, i)) ==> Selected(routes, dst) == 0
  {
    if Scan(routes, dst).nic.Some? {
      assert Chosen(confs, dst, k);
      forall i: nat | Chosen(confs, dst, i) ensures i == k {
      }
    }
  }
}
