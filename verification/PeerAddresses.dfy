/**
  Handing out peer addresses: the gateway of a server's network, and the first unused host address.

  Both work on the last octet alone, whatever the length of the network's prefix.
*/
module PeerAddresses {
  import opened CidrText

  datatype Allocation = Address(text: string) | BadNetwork | NoneFree

  // ----- octets -----

  function Octets(a: nat): (o: seq<nat>)
    requires a < SPACE
    ensures |o| == 4
  {
    [a / 0x100_0000, a / 0x1_0000 % 0x100, a / 0x100 % 0x100, a % 0x100]
  }

  function OctetText(o: seq<nat>): string
    requires |o| == 4
  {
    Decimal(o[0]) + "." + (Decimal(o[1]) + "." + (Decimal(o[2]) + "." + Decimal(o[3])))
  }

  /** The address that differs from `a` in its last octet only. */
  function WithLast(a: nat, k: nat): (b: nat)
    requires a < SPACE && k < 0x100
    ensures b < SPACE && b / 0x100 == a / 0x100 && b % 0x100 == k
  {
    var b := a / 0x100 * 0x100 + k;
    assert b / 0x100 == a / 0x100;
    b
  }

  lemma WithLastOctets(a: nat, k: nat)
    requires a < SPACE && k < 0x100
    ensures Octets(WithLast(a, k)) == Octets(a)[3 := k]
    ensures PrintAddress(WithLast(a, k)) == OctetText(Octets(a)[3 := k])
  {
    var b := WithLast(a, k);
    var top := a / 0x100;
    assert b / 0x1_0000 == top / 0x100 == a / 0x1_0000;
    assert b / 0x100_0000 == top / 0x1_0000 == a / 0x100_0000;
  }

  function Candidate(n: Network, k: nat): nat
    requires n.Valid() && k < 0x100
  {
    WithLast(n.address, k)
  }

  function CandidateText(n: Network, k: nat): string
    requires n.Valid() && k < 0x100
  {
    OctetText(Octets(n.address)[3 := k])
  }

  lemma CandidateIsPrinted(n: Network, k: nat)
    requires n.Valid() && k < 0x100
    ensures CandidateText(n, k) == PrintAddress(Candidate(n, k))
  {
    WithLastOctets(n.address, k);
  }

  /** The octet after the network's own, without a carry. */
  function Gateway(n: Network): nat
    requires n.Valid()
  {
    WithLast(n.address, (n.address % 0x100 + 1) % 0x100)
  }

  lemma GatewayIsPrinted(n: Network)
    requires n.Valid()
    ensures var octets := Octets(n.address); OctetText(octets[3 := (octets[3] + 1) % 0x100]) == PrintAddress(Gateway(n))
  {
    WithLastOctets(n.address, (n.address % 0x100 + 1) % 0x100);
  }

  lemma TextNamesOneCandidate(n: Network, j: nat, k: nat)
    requires n.Valid() && j < 0x100 && k < 0x100 && CandidateText(n, j) == CandidateText(n, k)
    ensures j == k
  {
    CandidateIsPrinted(n, j);
    CandidateIsPrinted(n, k);
    ParsePrintedAddress(Candidate(n, j));
    ParsePrintedAddress(Candidate(n, k));
  }

  // ----- the two operations -----

  method GatewayForCIDR(cidr: string) returns (r: Result<(string, nat)>)
    ensures r.Ok? <==> ParseNetwork(cidr).Ok?
    ensures r.Ok? ==> var n := ParseNetwork(cidr).value; r.value == (PrintAddress(Gateway(n)), n.ones)
  {
    var parsed := ParseNetwork(cidr);
    if parsed.Err? {
      return Err(parsed.error);
    }
    var n := parsed.value;
    var octets := Octets(n.address);
    var base := new nat[4](i requires 0 <= i < 4 => octets[i]);
    base[3] := (base[3] + 1) % 0x100;
    assert base[..] == octets[3 := (octets[3] + 1) % 0x100];
    GatewayIsPrinted(n);
    return Ok((OctetText(base[..]), n.ones));
  }

  ghost predicate AllUsed(n: Network, used: seq<string>, k: nat)
    requires n.Valid() && k < 0x100
  {
    forall j | 2 <= j < k :: CandidateText(n, j) in used
  }

  ghost predicate IsFirstFree(n: Network, used: seq<string>, k: nat)
    requires n.Valid()
  {
    2 <= k < 255 && CandidateText(n, k) !in used && AllUsed(n, used, k)
  }

  ghost predicate IsAllocation(n: Network, used: seq<string>, r: Allocation)
    requires n.Valid()
  {
    match r
    case BadNetwork => false
    case NoneFree => AllUsed(n, used, 255)
    case Address(text) => exists k :: IsFirstFree(n, used, k) && text == CandidateText(n, k)
  }

  method UsedAddresses(rows: seq<string>) returns (used: set<string>)
    ensures forall s :: s in used <==> s in rows
  {
    used := {};
    for i := 0 to |rows|
      invariant forall s :: s in used <==> s in rows[..i]
    {
      used := used + {rows[i]};
    }
  }

  method NextAvailableIP(cidr: string, rows: seq<string>) returns (r: Allocation)
    ensures r == BadNetwork <==> ParseNetwork(cidr).Err?
    ensures ParseNetwork(cidr).Ok? ==> IsAllocation(ParseNetwork(cidr).value, rows, r)
  {
    var parsed := ParseNetwork(cidr);
    if parsed.Err? {
      return BadNetwork;
    }
    var n := parsed.value;
    var used := UsedAddresses(rows);
    var octets := Octets(n.address);
    var ip := new nat[4](i requires 0 <= i < 4 => octets[i]);
    ip[3] := 2;
    while ip[3] < 255
      invariant 2 <= ip[3] <= 255 && ip[..] == octets[3 := ip[3]]
      invariant AllUsed(n, rows, ip[3])
      decreases 255 - ip[3]
    {
      var candidate := OctetText(ip[..]);
      if candidate !in used {
        assert IsFirstFree(n, rows, ip[3]);
        return Address(candidate);
      }
      ip[3] := ip[3] + 1;
    }
    return NoneFree;
  }

  lemma FirstFreeIsUnique(n: Network, used: seq<string>, j: nat, k: nat)
    requires n.Valid() && IsFirstFree(n, used, j) && IsFirstFree(n, used, k)
    ensures j == k
  {
  }

  /** The specification leaves no choice. */
  lemma AllocationIsUnique(n: Network, used: seq<string>, r: Allocation, r': Allocation)
    requires n.Valid() && IsAllocation(n, used, r) && IsAllocation(n, used, r')
    ensures r == r'
  {
    if r.Address? && r'.Address? {
      var k :| IsFirstFree(n, used, k) && r.text == CandidateText(n, k);
      var k' :| IsFirstFree(n, used, k') && r'.text == CandidateText(n, k');
      FirstFreeIsUnique(n, used, k, k');
    }
  }

  // ----- what an allocated address is good for -----

  lemma PrefixOfOctets(x: nat, low: nat)
    requires low >= 8
    ensures Prefix(x, low) == Prefix(x / 0x100, low - 8)
  {
    var a := x / 2 / 2 / 2 / 2;
    assert Prefix(x, low) == Prefix(x / 2 / 2, low - 2) == Prefix(a, low - 4);
    var b := a / 2 / 2 / 2 / 2;
    assert Prefix(a, low - 4) == Prefix(a / 2 / 2, low - 6) == Prefix(b, low - 8);
    assert a == x / 0x10 && b == a / 0x10 == x / 0x100;
  }

  /** With its low bits clear, a number is a multiple of a power of two. */
  lemma {:induction false} ClearIsMultiple(x: nat, k: nat, low: nat)
    requires k <= low && Clear(x, low) == x
    ensures x == Pow2(k) * Prefix(x, k)
  {
    if k > 0 {
      var half := x / 2;
      assert x == 2 * half && Clear(half, low - 1) == half;
      ClearIsMultiple(half, k - 1, low - 1);
      var p, q := Pow2(k - 1), Prefix(half, k - 1);
      assert 2 * (p * q) == (2 * p) * q;
    }
  }

  lemma ClearOctet(x: nat, low: nat)
    requires low >= 8 && Clear(x, low) == x
    ensures x % 0x100 == 0
  {
    ClearIsMultiple(x, 8, low);
    OctetPower();
    MultipleOf256(x, Prefix(x, 8));
  }

  lemma OctetPower()
    ensures Pow2(8) == 0x100
  {
    assert Pow2(4) == 16 && Pow2(8) == 16 * Pow2(4);
  }

  lemma MultipleOf256(x: nat, q: nat)
    requires x == 0x100 * q
    ensures x % 0x100 == 0
  {
  }

  lemma SmallBlocks(low: nat)
    requires low < 8
    ensures Pow2(low) <= 0x80
  {
    if low < 7 { Pow2Grows(low, 7); }
    assert Pow2(4) == 16 && Pow2(7) == 8 * Pow2(4);
  }

  /** Exactly which candidates lie in the network. */
  lemma CandidateInNetwork(n: Network, k: nat)
    requires n.Valid() && k < 0x100
    ensures n.ones <= 24 ==> n.address % 0x100 == 0 && n.Contains(Candidate(n, k))
    ensures n.ones > 24 ==>
              (n.Contains(Candidate(n, k)) <==> n.address % 0x100 <= k < n.address % 0x100 + Pow2(32 - n.ones))
  {
    if n.ones <= 24 {
      PrefixOfOctets(Candidate(n, k), 32 - n.ones);
      PrefixOfOctets(n.address, 32 - n.ones);
      ClearOctet(n.address, 32 - n.ones);
    } else {
      PrefixBlock(n.address, 32 - n.ones, Candidate(n, k));
    }
  }

  /** An address a peer of the network may have: not the network's own, the gateway's or a broadcast address. */
  ghost predicate IsUsable(n: Network, used: seq<string>, x: nat)
    requires n.Valid()
  {
    && x < SPACE && n.Contains(x) && PrintAddress(x) !in used
    && x != n.address && x != Gateway(n) && x % 0x100 != 255
  }

  lemma FreeIsUsable(n: Network, used: seq<string>, k: nat)
    requires n.Valid() && n.ones <= 24 && IsFirstFree(n, used, k)
    ensures IsUsable(n, used, Candidate(n, k)) && CandidateText(n, k) == PrintAddress(Candidate(n, k))
  {
    CandidateInNetwork(n, k);
    CandidateIsPrinted(n, k);
    CandidateIsReserved(n, k);
  }

  lemma NoneFreeExactly(n: Network, used: seq<string>, r: Allocation)
    requires n.Valid() && IsAllocation(n, used, r)
    ensures r == NoneFree <==> AllUsed(n, used, 255)
  {
    if r.Address? {
      var k :| IsFirstFree(n, used, k) && r.text == CandidateText(n, k);
    }
  }

  /** For prefixes up to 24 the allocator does what it is for, and it fails only when the octets 2 to 254 are all used. */
  lemma AllocationsAreUsable(n: Network, used: seq<string>, r: Allocation)
    requires n.Valid() && n.ones <= 24
    ensures IsAllocation(n, used, r) ==>
              && (r == NoneFree <==> AllUsed(n, used, 255))
              && (r.Address? ==> exists x: nat :: IsUsable(n, used, x) && r.text == PrintAddress(x))
  {
    if IsAllocation(n, used, r) {
      NoneFreeExactly(n, used, r);
      if r.Address? {
        var k :| IsFirstFree(n, used, k) && r.text == CandidateText(n, k);
        FreeIsUsable(n, used, k);
      }
    }
  }

  ghost predicate NeverLeaves(n: Network)
    requires n.Valid()
  {
    forall used: seq<string>, k: nat | IsFirstFree(n, used, k) :: n.Contains(Candidate(n, k))
  }

  ghost predicate NeverTakesReserved(n: Network)
    requires n.Valid()
  {
    forall used: seq<string>, k: nat | IsFirstFree(n, used, k) ::
      Candidate(n, k) != n.address && Candidate(n, k) != Gateway(n)
  }

  function Texts(n: Network, k: nat): (used: seq<string>)
    requires n.Valid() && k <= 0x100
    ensures forall j | 2 <= j < k :: CandidateText(n, j) in used
    ensures forall s | s in used :: exists j | 2 <= j < k :: s == CandidateText(n, j)
  {
    if k <= 2 then [] else Texts(n, k - 1) + [CandidateText(n, k - 1)]
  }

  /** Every candidate is what some table of used addresses makes the allocator return. */
  lemma EveryCandidateIsReached(n: Network, k: nat)
    requires n.Valid() && 2 <= k < 255
    ensures IsFirstFree(n, Texts(n, k), k)
  {
    if CandidateText(n, k) in Texts(n, k) {
      var j :| 2 <= j < k && CandidateText(n, k) == CandidateText(n, j);
      TextNamesOneCandidate(n, j, k);
    }
  }

  /** Exactly the prefixes up to 24 are safe: any longer one hands out an address outside the network sooner or later. */
  lemma NeverLeavesExactly(n: Network)
    requires n.Valid()
    ensures NeverLeaves(n) <==> n.ones <= 24
  {
    if n.ones <= 24 {
      forall used: seq<string>, k: nat | IsFirstFree(n, used, k)
        ensures n.Contains(Candidate(n, k))
      {
        CandidateInNetwork(n, k);
      }
    } else {
      SmallBlocks(32 - n.ones);
      var first := n.address % 0x100;
      var k := if first <= 2 then 254 else 2;
      CandidateInNetwork(n, k);
      EveryCandidateIsReached(n, k);
      assert !n.Contains(Candidate(n, k));
    }
  }

  lemma CandidateIsReserved(n: Network, k: nat)
    requires n.Valid() && 2 <= k < 255
    ensures Candidate(n, k) == n.address || Candidate(n, k) == Gateway(n) <==>
              k == n.address % 0x100 || k == n.address % 0x100 + 1
  {
  }

  /** And the network address and the gateway stay out of it exactly when the network starts at octet 0 or 255. */
  lemma NeverTakesReservedExactly(n: Network)
    requires n.Valid()
    ensures NeverTakesReserved(n) <==> n.address % 0x100 in {0, 255}
  {
    var first := n.address % 0x100;
    if first in {0, 255} {
      forall used: seq<string>, k: nat | IsFirstFree(n, used, k)
        ensures Candidate(n, k) != n.address && Candidate(n, k) != Gateway(n)
      {
        CandidateIsReserved(n, k);
      }
    } else {
      var k := if first == 1 then 2 else first;
      EveryCandidateIsReached(n, k);
      CandidateIsReserved(n, k);
    }
  }

  /** The first peer of the upper half of a /24, such as 10.8.0.128/25, gets octet 2, outside the network. */
  lemma UpperHalfExample(n: Network)
    requires n.Valid() && n.ones == 25 && n.address % 0x100 == 0x80
    ensures IsFirstFree(n, [], 2) && !n.Contains(Candidate(n, 2))
  {
    CandidateInNetwork(n, 2);
  }
}
