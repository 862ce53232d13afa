/**
 * What the parsed whitelist accepts, and how the server URL reads back.
 */
module ServerProperties {
  import opened Wrappers
  import opened Strings
  import opened Decimal
  import opened IPNet
  import opened Urls
  import opened Config
  import ConfigProperties

  /** A bare address in the whitelist is parsed as the /32 network of that address. */
  lemma BareEntry(a: IPv4)
    ensures ParseEntry(FormatIPv4(a)) == Some(Subnet(a, 32))
  {
    NoSlashInIPv4(a);
    BareAddressIsHostRoute(FormatIPv4(a));
    IPv4RoundTrip(a);
  }

  /**
   * A whitelist of bare addresses, written as `%s` prints them, parses to
   * their /32 networks in the same order, and then accepts exactly those
   * addresses (or every address, when the list is empty).
   */
  lemma BareEntriesWhitelistExactly(entries: seq<string>, addrs: seq<IPv4>, ip: IPv4)
    requires |entries| == |addrs|
    requires forall k :: 0 <= k < |entries| ==> entries[k] == FormatIPv4(addrs[k])
    ensures var scan := ParseWhitelist(entries);
      !scan.failed && |scan.subnets| == |addrs|
      && (forall k :: 0 <= k < |addrs| ==> scan.subnets[k] == Subnet(addrs[k], 32))
      && (Allowed(scan.subnets, ip) <==> |addrs| == 0 || ip in addrs)
  {
    var scan := ParseWhitelist(entries);
    forall k | 0 <= k < |entries|
      ensures ParseEntry(entries[k]) == Some(Subnet(addrs[k], 32))
    {
      BareEntry(addrs[k]);
    }
    forall k | 0 <= k < |addrs|
      ensures scan.subnets[k] == Subnet(addrs[k], 32)
    {
      assert ParseEntry(entries[k]) == Some(scan.subnets[k]);
    }
    if |addrs| > 0 {
      if ip in addrs {
        var k :| 0 <= k < |addrs| && addrs[k] == ip;
        HostRoute(addrs[k], ip);
        assert scan.subnets[k].Contains(ip);
      }
      if Allowed(scan.subnets, ip) {
        var k :| 0 <= k < |scan.subnets| && scan.subnets[k].Contains(ip);
        HostRoute(addrs[k], ip);
        assert addrs[k] == ip;
      }
    }
  }

  /** The order of the whitelist does not change which addresses it accepts. */
  lemma AllowedOrderIndependent(a: seq<Subnet>, b: seq<Subnet>, ip: IPv4)
    requires multiset(a) == multiset(b)
    ensures Allowed(a, ip) <==> Allowed(b, ip)
  {
    assert |a| == |multiset(a)| == |multiset(b)| == |b|;
    if |a| > 0 {
      if exists k :: 0 <= k < |a| && a[k].Contains(ip) {
        var k :| 0 <= k < |a| && a[k].Contains(ip);
        assert a[k] in multiset(b);
        var j :| 0 <= j < |b| && b[j] == a[k];
      }
      if exists k :: 0 <= k < |b| && b[k].Contains(ip) {
        var k :| 0 <= k < |b| && b[k].Contains(ip);
        assert b[k] in multiset(a);
        var j :| 0 <= j < |a| && a[j] == b[k];
      }
    }
  }

  /** "addr:port" is a valid host when the address is made of host characters. */
  lemma HostWithPort(addr: string, port: nat)
    requires forall i :: 0 <= i < |addr| ==> IsHostChar(addr[i])
    ensures ValidHost(addr + ":" + NatToString(port))
  {
    var digits := NatToString(port);
    var host := addr + ":" + digits;
    forall i | 0 <= i < |host|
      ensures IsHostChar(host[i])
    {
      if i < |addr| {
        assert host[i] == addr[i];
      } else if i > |addr| {
        assert host[i] == digits[i - |addr| - 1];
      }
    }
    assert ':' !in digits;
    assert host[|addr| + 1..] == digits;
    LastIndexAfter(host, |addr|, ':');
  }

  lemma HttpSchemes()
    ensures ValidScheme("http") && ValidScheme("https")
  {
    var h := "https";
    assert h[0] == 'h' && h[1] == 't' && h[2] == 't' && h[3] == 'p' && h[4] == 's';
    assert "http" == h[..4];
  }

  lemma LoopbackHostChars()
    ensures forall i :: 0 <= i < |"127.0.0.1"| ==> IsHostChar("127.0.0.1"[i])
  {
    var h := "127.0.0.1";
    assert h == ['1', '2', '7', '.', '0', '.', '0', '.', '1'];
  }

  /**
   * The server URL, printed and parsed again, gives back the same URL, as
   * long as the listening address is made of host characters, the port is
   * not negative and the path is plain.
   */
  lemma ServerURLReparses(c: Configuration)
    requires c.settings.listenPort >= 0
    requires forall i :: 0 <= i < |c.settings.listenAddress| ==> IsHostChar(c.settings.listenAddress[i])
    requires PlainPath(c.settings.path)
    ensures ParseURL(c.GetServerURL().String()) == Some(c.GetServerURL())
  {
    var u := c.GetServerURL();
    var addr := ServerAddress(c.settings.listenAddress);
    LoopbackHostChars();
    HostWithPort(addr, c.settings.listenPort);
    HttpSchemes();
    StringRoundTrip(u);
  }

  lemma SpacedHostRejected()
    ensures ParseAfterScheme("http", "//x ") == None
  {
    HttpSchemes();
    var rest := "//x ";
    assert NoControl(rest);
    assert HasPrefix(rest, "/") && HasPrefix(rest, "//");
    assert rest[2..] == "x ";
    assert !IsHostChar(' ');
    assert !ValidHost("x ");
  }

  /** "http://x " has a space in its host and does not parse. */
  lemma SpacedDomainRejected()
    ensures ParseURL("http://x ") == None
  {
    var d := "http://x ";
    HttpSchemes();
    assert d == "http" + ":" + "//x ";
    GetSchemeOf("http", "//x ", 0);
    LowerOfLower("http");
    assert NoControl(d);
    SpacedHostRejected();
  }

  /** Trimming "/ " from "http://x " gives "http://x". */
  lemma TrimmedDomain()
    ensures Trim("http://x ", "/ ") == "http://x"
  {
    var d := "http://x ";
    assert d[0] == 'h';
    assert TrimLeft(d, "/ ") == d;
    TrimRightOfDomain();
  }

  lemma TrimRightOfDomain()
    ensures TrimRight("http://x ", "/ ") == "http://x"
  {
    var d := "http://x ";
    assert d[|d| - 1] == ' ';
    assert d[..|d| - 1] == "http://x";
    assert "http://x"[7] == 'x';
    assert TrimRight("http://x", "/ ") == "http://x";
  }

  /** "http://x" parses to the URL with scheme "http" and host "x". */
  lemma TrimmedDomainParses()
    ensures ParseURL("http://x") == Some(Url("http", "", "x", ""))
  {
    HttpSchemes();
    var u := Url("http", "", "x", "");
    assert ValidHost("x");
    assert u.String() == "http://x";
    StringRoundTrip(u);
  }

  /**
   * The trimmed copy of the download domain is thrown away: a domain with a
   * trailing space is rejected although its trimmed form parses.
   */
  lemma DownloadDomainNotTrimmed(s: ConfigState)
    requires !ParseWhitelist(s.settings.uploadWhitelist).failed
    requires s.settings.downloadDomain == "http://x "
    ensures InitializeSpec(s).err == Some(DownloadDomainError("http://x "))
    ensures ParseURL(Trim(s.settings.downloadDomain, "/ ")).Some?
  {
    SpacedDomainRejected();
    TrimmedDomain();
    TrimmedDomainParses();
    ConfigProperties.InitializeDownloadDomain(s);
  }
}
