/** Canonical text of trusted networks (pkg/haaddon/httpstore.go, normalizeNetwork;
    pkg/haaddon/config.go, GetNetworkSubnets). */
module Networks {
  import opened Numerals
  import opened Strings
  import opened Addresses

  /** A network in the notation of section 3.1 of RFC 4632. The prefix counts
      from the top of the 128-bit address, so 10.0.0.0/24 has prefix 120. */
  datatype Cidr = Cidr(addr: nat, prefix: nat) {
    predicate InRange() { addr < ADDRESSES && prefix <= 128 }

    /** The number of addresses the host part can take. */
    function Size(): (n: nat)
      requires InRange()
      ensures n > 0
    {
      Pow2Add(128 - prefix, 0);
      Pow2(128 - prefix)
    }

    /** The addresses that agree with addr on the first `prefix` bits. */
    predicate Contains(a: nat)
      requires InRange()
    {
      a < ADDRESSES && a / Size() == addr / Size()
    }

    /** addr with the host bits cleared (net.IP.Mask). */
    function Base(): nat
      requires InRange()
    {
      RemainderAtMost(addr, Size());
      addr - addr % Size()
    }

    predicate NoHostBits() { InRange() && addr == Base() }
  }

  predicate SameNetwork(c: Cidr, d: Cidr)
    requires c.InRange() && d.InRange()
  {
    forall a: nat | a < ADDRESSES :: c.Contains(a) <==> d.Contains(a)
  }

  const HALF: nat := 0x1_0000_0000_0000_0000  // the addresses of a /64

  lemma RemainderAtMost(a: nat, k: nat)
    requires k > 0
    ensures a % k <= a
  {
  }

  function Pow2(k: nat): nat { if k == 0 then 1 else 2 * Pow2(k - 1) }

  lemma {:induction false} Pow2Add(j: nat, k: nat)
    ensures Pow2(j + k) == Pow2(j) * Pow2(k)
    ensures Pow2(j) > 0
  {
    if j > 0 {
      Pow2Add(j - 1, k);
      Regroup(2, Pow2(j - 1), Pow2(k));
    }
  }

  lemma Regroup(x: nat, y: nat, z: nat)
    ensures x * (y * z) == x * y * z
  {
  }

  lemma Pow2Known()
    ensures Pow2(8) == 256 && Pow2(33) == 2 * V4_ADDRESSES && Pow2(64) == HALF && Pow2(128) == ADDRESSES
  {
    assert Pow2(4) == 16;
    assert Pow2(8) == 256 by { Pow2Add(4, 4); }
    assert Pow2(16) == 65536 by { Pow2Add(8, 8); }
    assert Pow2(32) == V4_ADDRESSES by { Pow2Add(16, 16); }
    assert Pow2(64) == HALF by { Pow2Add(32, 32); }
    Pow2Add(64, 64);
  }

  /** net.ParseCIDR. */
  function ParseCidr(s: string): Option<Cidr> {
    var slash := IndexOf(s, '/');
    if slash == |s| then None
    else
      var (head, mask) := (s[..slash], s[slash + 1..]);
      match ParseAddr(head)
      case None => None
      case Some(a) =>
        if mask != "" && AllDigits(mask, 10) && Value(mask, 10) <= AddrBits(head) then
          Some(Cidr(a, 128 - AddrBits(head) + Value(mask, 10)))
        else None
  }

  /** net.IPNet.String: an IPv4 network shows the low 32 bits of its mask. */
  function Text(c: Cidr): string {
    if IsMapped(c.addr) && c.prefix >= 96 then PrintAddr(c.addr) + "/" + Print(c.prefix - 96, 10)
    else PrintAddr(c.addr) + "/" + Print(c.prefix, 10)
  }

  /** normalizeNetwork. */
  function Normalize(s: string): Option<string> {
    match ParseAddr(s)
    case Some(a) => Some(Text(Cidr(a, 128)))
    case None =>
      match ParseCidr(s)
      case None => None
      case Some(c) =>
        ParseCidrInRange(s);
        if c.addr != c.Base() then None else Some(Text(Cidr(c.Base(), c.prefix)))
  }

  lemma ParseCidrInRange(s: string)
    ensures ParseCidr(s).Some? ==> ParseCidr(s).value.InRange()
  {
    if ParseCidr(s).Some? { ParseAddrReads(s[..IndexOf(s, '/')]); }
  }

  /** The network an accepted text denotes. */
  function Denoted(s: string): (c: Cidr)
    requires Normalize(s).Some?
    ensures c.NoHostBits() && Normalize(s) == Some(Text(c))
  {
    ParseCidrInRange(s);
    if ParseAddr(s).Some? then
      ParseAddrReads(s);
      Cidr(ParseAddr(s).value, 128)
    else ParseCidr(s).value
  }

  // -------------------------------------------------- what the text tells

  lemma Scale(x: nat, y: nat, size: nat)
    requires x <= y
    ensures x * size <= y * size
  {
  }

  lemma Division(a: nat, size: nat, q: nat)
    requires size > 0
    ensures a / size == q <==> q * size <= a < q * size + size
  {
    var d := a / size;
    assert a == d * size + a % size;
    if d < q {
      Scale(d + 1, q, size);
      assert (d + 1) * size == d * size + size;
    } else if d > q {
      Scale(q + 1, d, size);
      assert (q + 1) * size == q * size + size;
    }
  }

  lemma FitsBlocks(q: nat, size: nat, count: nat)
    requires q * size < count * size
    ensures q * size + size <= count * size
  {
    if q >= count { Scale(count, q, size); }
    assert q < count;
    Scale(q + 1, count, size);
    assert (q + 1) * size == q * size + size;
  }

  /** A network without host bits is the block of Size() addresses from addr. */
  lemma Block(c: Cidr, a: nat)
    requires c.NoHostBits()
    ensures c.addr + c.Size() <= ADDRESSES
    ensures c.Contains(a) <==> c.addr <= a < c.addr + c.Size()
  {
    var size, q := c.Size(), c.addr / c.Size();
    assert c.addr == q * size;
    Division(a, size, q);
    Pow2Add(c.prefix, 128 - c.prefix);
    Pow2Known();
    FitsBlocks(q, size, Pow2(c.prefix));
  }

  lemma {:induction false} Pow2Grows(j: nat, k: nat)
    ensures Pow2(j) == Pow2(k) ==> j == k
  {
    if j > 0 && k > 0 { Pow2Grows(j - 1, k - 1); }
  }

  /** Two such networks with the same addresses are the same network. */
  lemma SameBlock(c: Cidr, d: Cidr)
    requires c.NoHostBits() && d.NoHostBits() && SameNetwork(c, d)
    ensures c == d
  {
    Block(c, c.addr);
    Block(d, d.addr);
    assert c.Contains(c.addr) && d.Contains(d.addr);
    assert d.Contains(c.addr) && c.Contains(d.addr);
    Block(c, d.addr);
    Block(d, c.addr);
    var c', d' := c.addr + c.Size() - 1, d.addr + d.Size() - 1;
    Block(c, c');
    Block(d, c');
    Block(c, d');
    Block(d, d');
    assert d.Contains(c') && c.Contains(d');
    Pow2Grows(128 - c.prefix, 128 - d.prefix);
  }

  lemma NotMultiple(a: nat, blocks: nat)
    requires IsMapped(a)
    ensures a != blocks * (2 * V4_ADDRESSES)
  {
  }

  /** An IPv4-mapped address with a prefix that leaves the block has host bits. */
  lemma MappedStaysMapped(c: Cidr)
    requires c.NoHostBits() && IsMapped(c.addr)
    ensures c.prefix >= 96
  {
    if c.prefix < 96 {
      var q, half := c.addr / c.Size(), Pow2(95 - c.prefix);
      assert c.Size() == half * (2 * V4_ADDRESSES) by {
        Pow2Add(95 - c.prefix, 33);
        Pow2Known();
      }
      assert c.addr == q * c.Size();
      Regroup(q, half, 2 * V4_ADDRESSES);
      NotMultiple(c.addr, q * half);
    }
  }

  lemma CidrParts(head: string, a: nat, shown: nat)
    requires ParseAddr(head) == Some(a) && shown <= AddrBits(head)
    ensures var s := head + "/" + Print(shown, 10);
            ParseCidr(s) == Some(Cidr(a, 128 - AddrBits(head) + shown)) && ParseAddr(s).None?
  {
    hide ParseAddr;
    hide Print;
    var mask := Print(shown, 10);
    var s := head + "/" + mask;
    ParseAddrReads(head);
    ValueOfPrint(shown, 10);
    assert s == head + ['/'] + mask;
    IndexOfFirst(head, '/', mask);
    assert s[..|head|] == head && s[|head| + 1..] == mask && s[|head|] == '/';
    if ParseAddr(s).Some? { ParseAddrReads(s); }
  }

  /** Text after a slash is a prefix length: digits, and no more bits than the address
      before it is written with. */
  lemma PrefixLength(head: string, mask: string)
    requires '/' !in head
    ensures ParseCidr(head + "/" + mask).Some? <==>
              && ParseAddr(head).Some? && mask != "" && AllDigits(mask, 10)
              && Value(mask, 10) <= (if ':' in head then 128 else 32)
    ensures ParseCidr(head + "/" + mask).Some? ==>
              var c := ParseCidr(head + "/" + mask).value;
              && c.addr == ParseAddr(head).value
              && c.prefix == Value(mask, 10) + (if ':' in head then 0 else 96)
  {
    hide ParseAddr;
    var s := head + "/" + mask;
    assert s == head + ['/'] + mask;
    IndexOfFirst(head, '/', mask);
    assert s[..|head|] == head && s[|head| + 1..] == mask;
  }

  /** What is no address and has no slash is no network. */
  lemma NoSlash(s: string)
    requires '/' !in s && ParseAddr(s).None?
    ensures Normalize(s).None?
  {
  }

  lemma EmptyIsNoNetwork()
    ensures Normalize("").None?
  {
    SplitNone("", '.');
    NoSlash("");
  }

  /** An IPv4 network counts as the same whether it is written alone or within IPv6. */
  lemma WrittenWithinIPv6(a: nat, prefix: nat)
    requires a < V4_ADDRESSES && prefix <= 32
    ensures Normalize("::ffff:" + PrintV4(a) + "/" + Print(prefix + 96, 10))
         == Normalize(PrintV4(a) + "/" + Print(prefix, 10))
  {
    hide PrintV4;
    hide ParseAddr;
    hide ParseCidr;
    hide Print;
    MappedText(a);
    ParseOfPrintV4(a);
    CidrParts("::ffff:" + PrintV4(a), MAPPED + a, prefix + 96);
    CidrParts(PrintV4(a), MAPPED + a, prefix);
  }

  /** Canonical text reads back as the network it was printed from. */
  lemma ReadBack(c: Cidr)
    requires c.NoHostBits()
    ensures Normalize(Text(c)) == Some(Text(c)) && Denoted(Text(c)) == c
  {
    hide ParseAddr;
    hide PrintAddr;
    hide Print;
    hide ParseCidr;
    if IsMapped(c.addr) { MappedStaysMapped(c); }
    ParseOfPrintAddr(c.addr);
    CidrParts(PrintAddr(c.addr), c.addr, if IsMapped(c.addr) then c.prefix - 96 else c.prefix);
  }

  /** Canonical text differs whenever the networks do. */
  lemma TextTellsNetworksApart(c: Cidr, d: Cidr)
    requires c.NoHostBits() && d.NoHostBits()
    ensures Text(c) == Text(d) <==> SameNetwork(c, d)
  {
    ReadBack(c);
    ReadBack(d);
    if SameNetwork(c, d) { SameBlock(c, d); }
  }

  /** Normalising accepted text once more changes nothing. */
  lemma NormalizeIsIdempotent(s: string)
    requires Normalize(s).Some?
    ensures Normalize(Normalize(s).value) == Normalize(s)
  {
    ReadBack(Denoted(s));
  }

  /** Equal text if and only if the same set of addresses. */
  lemma TextDecidesEquality(s: string, t: string)
    requires Normalize(s).Some? && Normalize(t).Some?
    ensures Normalize(s) == Normalize(t) <==> SameNetwork(Denoted(s), Denoted(t))
  {
    TextTellsNetworksApart(Denoted(s), Denoted(t));
  }

  /** A bare address is accepted as the network of that one address. */
  lemma BareAddressStandsAlone(s: string, a: nat)
    requires ParseAddr(s).Some? && a < ADDRESSES
    ensures Normalize(s).Some? && (Denoted(s).Contains(a) <==> a == ParseAddr(s).value)
  {
    Block(Denoted(s), a);
    assert Denoted(s).Size() == Pow2(0) == 1;
  }

  lemma Rounded(a: nat, k: nat)
    requires k > 0
    ensures (a - a % k) % k == 0 && (a - a % k) / k == a / k && 0 <= a - a % k <= a
  {
    var q := a / k;
    assert a - a % k == q * k;
    Division(q * k, k, q);
    assert q * k == q * k / k * k + q * k % k;
  }

  predicate IsFirstAddress(c: Cidr)
    requires c.InRange()
  {
    forall a: nat | a < ADDRESSES && c.Contains(a) :: c.addr <= a
  }

  lemma FirstAddressHasNoHostBits(c: Cidr)
    requires c.InRange()
    ensures c.NoHostBits() <==> IsFirstAddress(c)
  {
    if c.NoHostBits() {
      forall a: nat | a < ADDRESSES && c.Contains(a) ensures c.addr <= a { Block(c, a); }
    } else {
      Rounded(c.addr, c.Size());
      assert c.Contains(c.Base());
    }
  }

  /** A prefix is accepted exactly when its address is the first of the network,
      that is when no bit is set past the prefix. */
  lemma PrefixAcceptedExactly(s: string)
    requires ParseAddr(s).None?
    ensures Normalize(s).Some? <==>
            (ParseCidr(s).Some? && ParseCidr(s).value.InRange() && IsFirstAddress(ParseCidr(s).value))
  {
    if ParseCidr(s).Some? {
      ParseCidrInRange(s);
      FirstAddressHasNoHostBits(ParseCidr(s).value);
    }
  }

  // ------------------------------------------------- the subnets to request

  /** to24: the /24 around an IPv4 address. */
  function To24(a: nat): string
    requires a < V4_ADDRESSES
  {
    PrintV4(a - a % 256) + "/24"
  }

  /** to64: the /64 around an address, as net.IPNet prints it. */
  function To64(a: nat): string {
    Rounded(a, HALF);
    Text(Cidr(a - a % (HALF), 64))
  }

  /** t is the canonical text of the network with this prefix around a. */
  ghost predicate Covers(t: string, a: nat, prefix: nat) {
    exists c: Cidr :: c.NoHostBits() && c.prefix == prefix && t == Text(c) && c.Contains(a)
  }

  lemma CoversMeans(t: string, a: nat, prefix: nat)
    requires Covers(t, a, prefix)
    ensures Normalize(t) == Some(t) && Denoted(t).Contains(a) && Denoted(t).prefix == prefix
  {
    var c: Cidr :| c.NoHostBits() && c.prefix == prefix && t == Text(c) && c.Contains(a);
    ReadBack(c);
  }

  lemma RoundedIsCanonical(a: nat, prefix: nat, size: nat, t: string)
    requires a < ADDRESSES && prefix <= 128 && size == Pow2(128 - prefix) > 0
    requires a - a % size >= 0 && t == Text(Cidr(a - a % size, prefix))
    ensures Covers(t, a, prefix)
  {
    Rounded(a, size);
    var c := Cidr(a - a % size, prefix);
    assert c.NoHostBits() && c.Contains(a);
  }

  lemma To64At(a: nat, prefix: nat)
    requires a < ADDRESSES && prefix == 64
    ensures Covers(To64(a), a, prefix)
  {
    assert Pow2(128 - prefix) == HALF by { Pow2Known(); }
    Rounded(a, HALF);
    RoundedIsCanonical(a, prefix, HALF, To64(a));
  }

  lemma To24Text(a: nat)
    requires IsMapped(a)
    ensures a - a % 256 >= 0 && To24(a - MAPPED) == Text(Cidr(a - a % 256, 120))
  {
    assert a - a % 256 - MAPPED == (a - MAPPED) - (a - MAPPED) % 256;
    assert Print(24, 10) == "24";
  }

  lemma To24At(a: nat, prefix: nat)
    requires IsMapped(a) && prefix == 120
    ensures Covers(To24(a - MAPPED), a, prefix)
  {
    assert Pow2(128 - prefix) == 256 by { Pow2Known(); }
    To24Text(a);
    RoundedIsCanonical(a, prefix, 256, To24(a - MAPPED));
  }

  /** What to24 returns is canonical text of the /24 around the address, which is the /120
      of the 128-bit form. */
  lemma To24IsCanonical(a: nat)
    requires IsMapped(a)
    ensures Covers(To24(a - MAPPED), a, 120)
  {
    hide *;
    To24At(a, 120);
  }

  /** And to64 returns that of the /64. */
  lemma To64IsCanonical(a: nat)
    requires a < ADDRESSES
    ensures Covers(To64(a), a, 64)
  {
    hide *;
    To64At(a, 64);
  }

  /** fe80::/10, which net.IP.IsLinkLocalUnicast matches. */
  predicate IsLinkLocal(a: nat) { a / 0x40_0000_0000_0000_0000_0000_0000_0000 == 0x3fa }

  /** The subnet requested for one local address; none if it is unreadable or
      an IPv6 link-local one. */
  function SubnetOf(ip: string): Option<string> {
    match ParseAddr(ip)
    case None => None
    case Some(a) =>
      ParseAddrReads(ip);
      if IsMapped(a) then Some(To24(a - MAPPED))
      else if IsLinkLocal(a) then None
      else Some(To64(a))
  }

  lemma SubnetCoversAddress(ip: string, a: nat, t: string)
    requires ParseAddr(ip) == Some(a) && SubnetOf(ip) == Some(t)
    ensures Covers(t, a, if IsMapped(a) then 120 else 64)
  {
    ParseAddrReads(ip);
    if IsMapped(a) {
      To24IsCanonical(a);
    } else {
      To64IsCanonical(a);
    }
  }

  lemma SubnetDenotesAddress(ip: string)
    requires SubnetOf(ip).Some?
    ensures ParseAddr(ip).Some? && ParseAddr(ip).value < ADDRESSES
    ensures Normalize(SubnetOf(ip).value).Some? && Denoted(SubnetOf(ip).value).Contains(ParseAddr(ip).value)
  {
    ParseAddrReads(ip);
    var a := ParseAddr(ip).value;
    SubnetCoversAddress(ip, a, SubnetOf(ip).value);
    CoversMeans(SubnetOf(ip).value, a, if IsMapped(a) then 120 else 64);
  }

  /** Only text that is no address and IPv6 addresses from fe80:: up to fec0:: have no
      subnet to request. */
  lemma NoSubnetExactly(ip: string)
    ensures SubnetOf(ip).None? <==>
              || ParseAddr(ip).None?
              || 0xfe80_0000_0000_0000_0000_0000_0000_0000 <= ParseAddr(ip).value
                   < 0xfec0_0000_0000_0000_0000_0000_0000_0000
  {
    if ParseAddr(ip).Some? { ParseAddrReads(ip); }
    hide To24;
    hide To64;
  }

  function SubnetsOf(ips: seq<string>): seq<string> {
    if ips == [] then []
    else
      var last := SubnetOf(ips[|ips| - 1]);
      SubnetsOf(ips[..|ips| - 1]) + if last.Some? then [last.value] else []
  }

  /** Every requested subnet is canonical text and covers a local address. */
  lemma {:induction false} SubnetsAreCanonical(ips: seq<string>, t: string) returns (i: nat)
    requires t in SubnetsOf(ips)
    ensures i < |ips| && SubnetOf(ips[i]) == Some(t) && ParseAddr(ips[i]).Some?
    ensures var a := ParseAddr(ips[i]).value; Covers(t, a, if IsMapped(a) then 120 else 64)
    ensures Normalize(t) == Some(t)
  {
    var init := ips[..|ips| - 1];
    if t in SubnetsOf(init) {
      i := SubnetsAreCanonical(init, t);
    } else {
      i := |init|;
      var a := ParseAddr(ips[i]).value;
      SubnetCoversAddress(ips[i], a, t);
      CoversMeans(t, a, if IsMapped(a) then 120 else 64);
    }
  }

  /** And each local address that has a subnet finds it in the list. */
  lemma {:induction false} SubnetIsListed(ips: seq<string>, k: nat) returns (j: nat)
    requires k < |ips| && SubnetOf(ips[k]).Some?
    ensures j < |SubnetsOf(ips)| && SubnetsOf(ips)[j] == SubnetOf(ips[k]).value
  {
    hide SubnetOf;
    var init := ips[..|ips| - 1];
    if k < |init| {
      j := SubnetIsListed(init, k);
    } else {
      j := |SubnetsOf(init)|;
    }
  }

  /** GetNetworkSubnets, over the addresses found on the machine. */
  method NetworkSubnets(ips: seq<string>) returns (subnets: seq<string>)
    ensures subnets == SubnetsOf(ips)
  {
    hide Text;
    hide PrintV4;
    subnets := [];
    for k := 0 to |ips|
      invariant subnets == SubnetsOf(ips[..k])
    {
      assert ips[..k + 1][..k] == ips[..k];
      var ip := ParseAddr(ips[k]);
      if ip.Some? {
        ParseAddrReads(ips[k]);
        if IsMapped(ip.value) {
          subnets := subnets + [To24(ip.value - MAPPED)];
        } else if !IsLinkLocal(ip.value) {
          subnets := subnets + [To64(ip.value)];
        }
      }
    }
    assert ips[..|ips|] == ips;
  }

  lemma TextsOfTen()
    ensures Print(10, 10) == "10" && Print(0, 10) == "0"
  {
    assert Print(1, 10) == "1";
  }

  lemma TenDotsZero()
    ensures PrintV4(0x0a00_0000) == "10.0.0.0"
  {
    hide Print;
    TextsOfTen();
    FourOctets(10, 0, 0, 0);
    DottedText(0x0a00_0000, 10, 0, 0, 0);
    assert "10" + "." + "0" + "." + "0" + "." + "0" == "10.0.0.0";
  }

  lemma To24Of(a: nat)
    requires a < V4_ADDRESSES && a % 256 == 0
    ensures IsMapped(MAPPED + a) && To24(MAPPED + a - MAPPED) == PrintV4(a) + "/24"
  {
    hide PrintV4;
  }

  /** A subnet as the program requests it. */
  lemma ExampleSubnet()
    ensures Normalize("10.0.0.0/24") == Some("10.0.0.0/24")
  {
    hide PrintV4;
    hide Normalize;
    hide To24;
    hide Covers;
    TenDotsZero();
    To24Of(0x0a00_0000);
    To24IsCanonical(MAPPED + 0x0a00_0000);
    assert "10.0.0.0" + "/24" == "10.0.0.0/24";
    CoversMeans("10.0.0.0/24", MAPPED + 0x0a00_0000, 120);
  }
}
