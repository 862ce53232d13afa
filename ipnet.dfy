/**
 * IPv4 networks as Go's `net` package gives them to the configuration code.
 * An address is its 32 bits, most significant first; a network
 * (`net.IPNet`) is a base address and a prefix length 0..32. Masking an
 * address with the mask of a prefix length keeps its first `prefix` bits and
 * clears the rest, and a network contains an address when both agree under
 * that mask (the CIDR rule of section 3.1 of RFC 4632). `ParseCIDR` is an
 * IPv4-only stand-in for `net.ParseCIDR`.
 */
module IPNet {
  import opened Wrappers
  import opened Strings
  import opened Decimal

  function Zeros(n: nat): (z: seq<bool>)
    ensures |z| == n && forall i :: 0 <= i < n ==> !z[i]
  {
    seq(n, _ => false)
  }

  type IPv4 = a: seq<bool> | |a| == 32 witness Zeros(32)

  type Prefix = p: nat | p <= 32

  type Octet = n: nat | n < 256

  /** `ip & CIDRMask(prefix, 32)`: the first `prefix` bits of the address, then zeros. */
  function Masked(ip: IPv4, prefix: Prefix): (r: IPv4)
    ensures r[..prefix] == ip[..prefix]
    ensures forall i :: prefix <= i < 32 ==> !r[i]
  {
    ip[..prefix] + Zeros(32 - prefix)
  }

  datatype Subnet = Subnet(base: IPv4, prefix: Prefix) {

    /** IPNet.Contains: the address and the base agree under the mask. */
    predicate Contains(ip: IPv4)
      ensures Contains(ip) <==> ip[..prefix] == base[..prefix]
    {
      MaskedEqual(ip, base, prefix);
      Masked(ip, prefix) == Masked(base, prefix)
    }

    /** The base carries no bits beyond the prefix, as every network ParseCIDR returns. */
    predicate Canonical() {
      Masked(base, prefix) == base
    }
  }

  /** Two addresses agree under a mask exactly when their first `prefix` bits agree. */
  lemma MaskedEqual(a: IPv4, b: IPv4, prefix: Prefix)
    ensures Masked(a, prefix) == Masked(b, prefix) <==> a[..prefix] == b[..prefix]
  {
    if a[..prefix] == b[..prefix] {
      assert Masked(a, prefix) == Masked(b, prefix);
    }
    if Masked(a, prefix) == Masked(b, prefix) {
      assert Masked(a, prefix)[..prefix] == Masked(b, prefix)[..prefix];
    }
  }

  /** For a canonical network, membership is the RFC 4632 test `ip & mask == base`. */
  lemma ContainsMasked(n: Subnet, ip: IPv4)
    requires n.Canonical()
    ensures n.Contains(ip) <==> Masked(ip, n.prefix) == n.base
  {
  }

  /** A network contains an address exactly when they share the first `prefix` bits. */
  lemma ContainsPrefix(n: Subnet, ip: IPv4)
    ensures n.Contains(ip) <==> ip[..n.prefix] == n.base[..n.prefix]
  {
    MaskedEqual(ip, n.base, n.prefix);
  }

  /** A /32 network is canonical and holds exactly its base address. */
  lemma HostRoute(a: IPv4, ip: IPv4)
    ensures Subnet(a, 32).Canonical()
    ensures Subnet(a, 32).Contains(ip) <==> ip == a
  {
    assert Masked(a, 32) == a;
    assert Masked(ip, 32) == ip;
  }

  /** A /0 network holds every address. */
  lemma DefaultRoute(a: IPv4, ip: IPv4)
    ensures Subnet(a, 0).Contains(ip)
  {
    MaskedEqual(ip, a, 0);
  }

  // ---------------------------------------------------------------- octets

  function Pow2(k: nat): (p: nat)
    ensures p >= 1
  {
    if k == 0 then 1 else 2 * Pow2(k - 1)
  }

  /** The number written by a sequence of bits, most significant first. */
  function FromBits(b: seq<bool>): (n: nat)
    ensures n < Pow2(|b|)
  {
    if b == [] then 0 else 2 * FromBits(b[..|b| - 1]) + (if b[|b| - 1] then 1 else 0)
  }

  /** The `width` bits of `n`, most significant first. */
  function ToBits(n: nat, width: nat): (b: seq<bool>)
    requires n < Pow2(width)
    ensures |b| == width
    ensures FromBits(b) == n
  {
    if width == 0 then []
    else
      var b := ToBits(n / 2, width - 1) + [n % 2 == 1];
      assert b[..|b| - 1] == ToBits(n / 2, width - 1);
      b
  }

  /** Bits are determined by the number they write. */
  lemma {:induction false} ToBitsFromBits(b: seq<bool>)
    ensures ToBits(FromBits(b), |b|) == b
  {
    if b != [] {
      var init := b[..|b| - 1];
      ToBitsFromBits(init);
      assert b == init + [b[|b| - 1]];
    }
  }

  lemma Pow2Of8()
    ensures Pow2(8) == 256
  {
    assert Pow2(4) == 16;
  }

  /** The address whose four octets are a, b, c, d. */
  function Pack(a: Octet, b: Octet, c: Octet, d: Octet): IPv4 {
    Pow2Of8();
    ToBits(a, 8) + ToBits(b, 8) + ToBits(c, 8) + ToBits(d, 8)
  }

  /** Octet `k` of an address, most significant first. */
  function OctetAt(ip: IPv4, k: nat): Octet
    requires k < 4
  {
    Pow2Of8();
    FromBits(ip[8 * k..8 * k + 8])
  }

  lemma OctetBits(ip: IPv4, k: nat)
    requires k < 4
    ensures Pow2(8) == 256 && ToBits(OctetAt(ip, k), 8) == ip[8 * k..8 * k + 8]
  {
    Pow2Of8();
    ToBitsFromBits(ip[8 * k..8 * k + 8]);
  }

  lemma PackOctets(ip: IPv4)
    ensures Pack(OctetAt(ip, 0), OctetAt(ip, 1), OctetAt(ip, 2), OctetAt(ip, 3)) == ip
  {
    OctetBits(ip, 0);
    OctetBits(ip, 1);
    OctetBits(ip, 2);
    OctetBits(ip, 3);
    Quarters(ip);
  }

  lemma Quarters(ip: IPv4)
    ensures ip == ip[0..8] + ip[8..16] + ip[16..24] + ip[24..32]
  {
    assert ip[0..16] == ip[0..8] + ip[8..16];
    assert ip[0..24] == ip[0..16] + ip[16..24];
    assert ip == ip[0..24] + ip[24..32];
  }

  // ---------------------------------------------------------------- text form

  /**
   * One field of a dotted quad as Go accepts it: one or more digits, no
   * leading zero, value at most 255.
   */
  function ParseOctet(s: string): Option<Octet> {
    if |s| >= 1 && AllDigits(s) && (s[0] == '0' ==> |s| == 1) && Value(s) <= 255
    then Some(Value(s))
    else None
  }

  /** An IPv4 address in dotted-quad form: exactly four fields separated by '.'. */
  function ParseIPv4(s: string): Option<IPv4> {
    var fields := Split(s, '.');
    if |fields| != 4 then None
    else
      match (ParseOctet(fields[0]), ParseOctet(fields[1]), ParseOctet(fields[2]), ParseOctet(fields[3]))
      case (Some(a), Some(b), Some(c), Some(d)) => Some(Pack(a, b, c, d))
      case _ => None
  }

  function FormatOctet(b: Octet): string {
    NatToString(b)
  }

  function FormatIPv4(ip: IPv4): string {
    Join([FormatOctet(OctetAt(ip, 0)), FormatOctet(OctetAt(ip, 1)),
          FormatOctet(OctetAt(ip, 2)), FormatOctet(OctetAt(ip, 3))], '.')
  }

  /** IPNet.String: the base, a '/', the prefix length. */
  function FormatCIDR(n: Subnet): string {
    FormatIPv4(n.base) + "/" + NatToString(n.prefix)
  }

  lemma OctetRoundTrip(b: Octet)
    ensures ParseOctet(FormatOctet(b)) == Some(b)
    ensures '.' !in FormatOctet(b) && '/' !in FormatOctet(b)
  {
    var s := FormatOctet(b);
    assert s[0] == '0' ==> |s| == 1;
    assert AllDigits(s);
  }

  /** Four octets written out and joined by '.' parse back to the address they pack into. */
  lemma ParseFormattedOctets(a: Octet, b: Octet, c: Octet, d: Octet)
    ensures ParseIPv4(Join([FormatOctet(a), FormatOctet(b), FormatOctet(c), FormatOctet(d)], '.'))
         == Some(Pack(a, b, c, d))
  {
    var parts := [FormatOctet(a), FormatOctet(b), FormatOctet(c), FormatOctet(d)];
    OctetRoundTrip(a);
    OctetRoundTrip(b);
    OctetRoundTrip(c);
    OctetRoundTrip(d);
    SplitJoin(parts, '.');
  }

  /** Parsing the dotted quad of an address gives the address back. */
  lemma IPv4RoundTrip(ip: IPv4)
    ensures ParseIPv4(FormatIPv4(ip)) == Some(ip)
  {
    var a, b, c, d := OctetAt(ip, 0), OctetAt(ip, 1), OctetAt(ip, 2), OctetAt(ip, 3);
    ParseFormattedOctets(a, b, c, d);
    PackOctets(ip);
  }

  lemma NoSlashInIPv4(ip: IPv4)
    ensures '/' !in FormatIPv4(ip)
  {
    var parts := [FormatOctet(OctetAt(ip, 0)), FormatOctet(OctetAt(ip, 1)),
                  FormatOctet(OctetAt(ip, 2)), FormatOctet(OctetAt(ip, 3))];
    forall k | 0 <= k < 4
      ensures '/' !in parts[k]
    {
      assert AllDigits(parts[k]);
    }
    NoSlashInJoin(parts);
  }

  lemma {:induction false} NoSlashInJoin(parts: seq<string>)
    requires |parts| >= 1
    requires forall k :: 0 <= k < |parts| ==> '/' !in parts[k]
    ensures '/' !in Join(parts, '.')
  {
    if |parts| > 1 {
      NoSlashInJoin(parts[1..]);
    }
  }

  // ---------------------------------------------------------------- ParseCIDR

  /**
   * net.ParseCIDR, restricted to IPv4: an address, '/', and a decimal prefix
   * length of at most 32 (leading zeros allowed there, as Go's decimal
   * reader allows them). The network it returns has its base masked.
   */
  function ParseCIDR(s: string): (r: Option<Subnet>)
    ensures r.Some? ==> r.value.Canonical()
    ensures r.Some? ==> '/' in s
  {
    var i := IndexOf(s, '/');
    if i < 0 then None
    else
      var addr, bits := s[..i], s[i + 1..];
      match ParseIPv4(addr)
      case None => None
      case Some(ip) =>
        if |bits| >= 1 && AllDigits(bits) && Value(bits) <= 32 then
          var p: Prefix := Value(bits);
          MaskedIdempotent(ip, p);
          Some(Subnet(Masked(ip, p), p))
        else None
  }

  lemma MaskedIdempotent(ip: IPv4, prefix: Prefix)
    ensures Masked(Masked(ip, prefix), prefix) == Masked(ip, prefix)
  {
  }

  /** The network of `addr` + "/" + `bits`, when `addr` has no '/'. */
  lemma ParseCIDRSplit(addr: string, bits: string)
    requires '/' !in addr
    ensures ParseCIDR(addr + "/" + bits) ==
      match ParseIPv4(addr)
      case None => None
      case Some(ip) =>
        if |bits| >= 1 && AllDigits(bits) && Value(bits) <= 32
        then Some(Subnet(Masked(ip, Value(bits)), Value(bits)))
        else None
  {
    var s := addr + "/" + bits;
    assert s[|addr|] == '/';
    assert s[..|addr|] == addr;
    assert IndexOf(s, '/') == |addr|;
    assert s[|addr| + 1..] == bits;
  }

  /** Parsing the text of a canonical network gives the network back. */
  lemma CIDRRoundTrip(n: Subnet)
    requires n.Canonical()
    ensures ParseCIDR(FormatCIDR(n)) == Some(n)
  {
    IPv4RoundTrip(n.base);
    NoSlashInIPv4(n.base);
    ParseCIDRSplit(FormatIPv4(n.base), NatToString(n.prefix));
  }

  lemma HostPrefixText()
    ensures NatToString(32) == "32"
  {
    assert NatToString(3) == "3";
  }

  /** A bare address with "/32" appended parses to the host route of that address. */
  lemma BareAddressIsHostRoute(addr: string)
    requires '/' !in addr
    ensures ParseCIDR(addr + "/32").Some? <==> ParseIPv4(addr).Some?
    ensures ParseIPv4(addr).Some? ==> ParseCIDR(addr + "/32") == Some(Subnet(ParseIPv4(addr).value, 32))
  {
    var bits := NatToString(32);
    HostPrefixText();
    assert addr + "/32" == addr + "/" + bits;
    ParseCIDRSplit(addr, bits);
    if ParseIPv4(addr).Some? {
      var ip := ParseIPv4(addr).value;
      assert Masked(ip, 32) == ip;
    }
  }
}
