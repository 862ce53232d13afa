/**
 * Plik's server configuration (server/common/config.go): the configuration
 * record with its defaults, the one-time derivation of internal parameters
 * done by Initialize (debug shim, path normalisation, upload whitelist,
 * authentication flags, download domain, TTL check), and the read-only
 * helpers the server uses afterwards (whitelist membership, server URL).
 *
 * `ConfigState` is the abstract state of a `Configuration` object;
 * `InitializeSpec` says what Initialize does to it, and the lemmas below
 * state the promises of the code about that function.
 */
module Config {
  import opened Wrappers
  import opened Strings
  import opened Decimal
  import opened IPNet
  import opened Urls

  /** Go's `int` and `int64` on the 64-bit platforms the server is built for. */
  type Int64 = i: int | -0x8000_0000_0000_0000 <= i <= 0x7FFF_FFFF_FFFF_FFFF

  /**
   * The exported fields of the Go record, the ones a TOML file can set
   * (all but the two backend configuration maps).
   */
  datatype Settings = Settings(
    debug: bool,
    debugRequests: bool,
    logLevel: string,
    listenAddress: string,
    listenPort: Int64,
    path: string,
    maxFileSize: Int64,
    maxFilePerUpload: Int64,
    defaultTTL: Int64,
    maxTTL: Int64,
    sslEnabled: bool,
    sslCert: string,
    sslKey: string,
    noWebInterface: bool,
    downloadDomain: string,
    enhancedWebSecurity: bool,
    sourceIPHeader: string,
    uploadWhitelist: seq<string>,
    authentication: bool,
    noAnonymousUploads: bool,
    oneShot: bool,
    removable: bool,
    stream: bool,
    protectedByPassword: bool,
    googleAuthentication: bool,
    googleAPISecret: string,
    googleAPIClientID: string,
    googleValidDomains: seq<string>,
    ovhAuthentication: bool,
    ovhAPIEndpoint: string,
    ovhAPIKey: string,
    ovhAPISecret: string,
    dataBackend: string)

  /**
   * A whole configuration: the exported settings and the three unexported
   * fields that only the methods of Configuration set.
   */
  datatype ConfigState = ConfigState(
    settings: Settings,
    downloadDomainURL: Option<Url>,
    uploadWhitelist: seq<Subnet>,
    clean: bool)

  /** The record `new(Configuration)` allocates: every field at Go's zero value. */
  function Zero(): ConfigState {
    var settings := Settings(
      debug := false, debugRequests := false, logLevel := "",
      listenAddress := "", listenPort := 0, path := "",
      maxFileSize := 0, maxFilePerUpload := 0, defaultTTL := 0, maxTTL := 0,
      sslEnabled := false, sslCert := "", sslKey := "",
      noWebInterface := false, downloadDomain := "", enhancedWebSecurity := false,
      sourceIPHeader := "", uploadWhitelist := [],
      authentication := false, noAnonymousUploads := false, oneShot := false,
      removable := false, stream := false, protectedByPassword := false,
      googleAuthentication := false, googleAPISecret := "", googleAPIClientID := "",
      googleValidDomains := [],
      ovhAuthentication := false, ovhAPIEndpoint := "", ovhAPIKey := "", ovhAPISecret := "",
      dataBackend := "");
    ConfigState(settings, None, [], false)
  }

  /** The record NewConfiguration returns: the zero record with the defaults written over it. */
  function Defaults(): ConfigState {
    var zero := Zero();
    zero.(
      settings := zero.settings.(
        listenAddress := "0.0.0.0",
        listenPort := 8080,
        enhancedWebSecurity := false,
        maxFileSize := 10000000000,
        maxFilePerUpload := 1000,
        defaultTTL := 2592000,
        maxTTL := 2592000,
        stream := true,
        oneShot := true,
        removable := true,
        protectedByPassword := true,
        ovhAPIEndpoint := "https://eu.api.ovh.com/1.0",
        dataBackend := "file"),
      clean := true)
  }

  /** What the unexported fields hold whenever the methods of Configuration set them. */
  ghost predicate DerivedWellFormed(s: ConfigState) {
    (forall k :: 0 <= k < |s.uploadWhitelist| ==> s.uploadWhitelist[k].Canonical())
    && (s.downloadDomainURL.Some? ==> WellFormed(s.downloadDomainURL.value))
  }

  // ---------------------------------------------------------------------
  // Errors

  /** What `%s` prints for the nil *net.IPNet that the whitelist error formats. */
  const NilNetwork: string := "<nil>"

  datatype InitError =
    | WhitelistError(shown: string)
    | DownloadDomainError(domain: string)
    | TTLError
  {
    /**
     * The error text; for a download domain it continues with url.Parse's own
     * description of the problem, which this model does not produce.
     */
    function Message(): (r: string)
      ensures WhitelistError? ==> HasPrefix(r, "failed to parse upload whitelist : ") && r[35..] == shown
      ensures DownloadDomainError? ==>
        |r| == |domain| + 31 && HasPrefix(r, "invalid download domain URL ") && HasSuffix(r, " : ")
        && r[28..|domain| + 28] == domain
      ensures TTLError? ==> r == "DefaultTTL should not be more than MaxTTL"
    {
      match this
      case WhitelistError(shown) =>
        var head := "failed to parse upload whitelist : ";
        assert |head| == 35;
        var r := head + shown;
        assert r[..35] == head && r[35..] == shown;
        r
      case DownloadDomainError(domain) =>
        var head, tail := "invalid download domain URL ", " : ";
        assert |head| == 28 && |tail| == 3;
        var r := head + domain + tail;
        assert r[..28] == head && r[28..|domain| + 28] == domain && r[|r| - 3..] == tail;
        r
      case TTLError => "DefaultTTL should not be more than MaxTTL"
    }
  }

  datatype InitOutcome = InitOutcome(state: ConfigState, err: Option<InitError>)

  // ---------------------------------------------------------------------
  // The steps of Initialize, as functions of the state

  /** Backward compatibility: LogLevel "DEBUG" turns on both debug flags. */
  function DebugShim(s: Settings): Settings {
    var shim := s.logLevel == "DEBUG";
    s.(debug := if shim then true else s.debug,
       debugRequests := if shim then true else s.debugRequests)
  }

  function TrimPath(s: Settings): Settings {
    s.(path := TrimSuffix(s.path, "/"))
  }

  /** A whitelist entry without a '/' is read as a single address, "/32". */
  function NormalizeEntry(entry: string): string {
    if '/' !in entry then entry + "/32" else entry
  }

  /** How the loop reads one whitelist entry. */
  function ParseEntry(entry: string): Option<Subnet> {
    ParseCIDR(NormalizeEntry(entry))
  }

  /** The subnets parsed so far, and whether the scan stopped at an entry that does not parse. */
  datatype WhitelistScan = WhitelistScan(subnets: seq<Subnet>, failed: bool)

  /**
   * The whitelist loop with the entry parser as a parameter: each entry in
   * turn is parsed, and the first one that does not parse ends the scan.
   */
  function Scan(entries: seq<string>, parse: string -> Option<Subnet>): (r: WhitelistScan)
    ensures |r.subnets| <= |entries|
    ensures forall k :: 0 <= k < |r.subnets| ==> parse(entries[k]) == Some(r.subnets[k])
    ensures !r.failed ==> |r.subnets| == |entries|
    ensures r.failed ==> |r.subnets| < |entries| && parse(entries[|r.subnets|]).None?
  {
    if entries == [] then WhitelistScan([], false)
    else
      match parse(entries[0])
      case None => WhitelistScan([], true)
      case Some(n) =>
        var rest := Scan(entries[1..], parse);
        WhitelistScan([n] + rest.subnets, rest.failed)
  }

  /** The whitelist loop of Initialize. */
  function ParseWhitelist(entries: seq<string>): WhitelistScan {
    Scan(entries, ParseEntry)
  }

  /** Google authentication is on when authentication is and both Google credentials are set. */
  predicate GoogleEnabled(s: Settings) {
    s.authentication && s.googleAPIClientID != "" && s.googleAPISecret != ""
  }

  /** OVH authentication is on when authentication is and both OVH credentials are set. */
  predicate OvhEnabled(s: Settings) {
    s.authentication && s.ovhAPIKey != "" && s.ovhAPISecret != ""
  }

  /** Anonymous uploads can only be refused when authentication is on. */
  predicate AnonymousRefused(s: Settings) {
    s.authentication && s.noAnonymousUploads
  }

  /** The Google and OVH flags follow their credentials, and authentication gates all three flags. */
  function DeriveAuth(s: Settings): Settings {
    s.(googleAuthentication := GoogleEnabled(s), ovhAuthentication := OvhEnabled(s),
       noAnonymousUploads := AnonymousRefused(s))
  }

  /** The first step of Initialize on the whole record. */
  function AfterShim(s: ConfigState): ConfigState {
    s.(settings := TrimPath(DebugShim(s.settings)))
  }

  /** The whitelist step: the subnets the scan got through are appended. */
  function AfterWhitelist(s: ConfigState): ConfigState {
    s.(uploadWhitelist := s.uploadWhitelist + ParseWhitelist(s.settings.uploadWhitelist).subnets)
  }

  function AfterAuth(s: ConfigState): ConfigState {
    s.(settings := DeriveAuth(s.settings))
  }

  function AfterDomain(s: ConfigState): ConfigState {
    s.(downloadDomainURL := DomainURL(s.settings.downloadDomain, s.downloadDomainURL))
  }

  /**
   * What Initialize leaves in the record: the whitelist scan reads the list
   * as the first step left it; when the scan fails the later steps are not
   * done.
   */
  function InitializeState(s: ConfigState): ConfigState {
    var s1 := AfterShim(s);
    var s2 := AfterWhitelist(s1);
    if ParseWhitelist(s1.settings.uploadWhitelist).failed then s2
    else AfterDomain(AfterAuth(s2))
  }

  /**
   * What Initialize leaves in the record and what it returns: the error of
   * the first step that fails. A non-empty download domain is parsed as it
   * is written (the trimmed copy the code computes is thrown away), and on
   * failure the parsed URL is nil.
   */
  function InitializeSpec(s: ConfigState): (r: InitOutcome)
    ensures r.state.clean == s.clean
    ensures r.err == Some(WhitelistError(NilNetwork)) <==> ParseWhitelist(s.settings.uploadWhitelist).failed
    ensures r.err.None? ==> r.state.settings.defaultTTL <= r.state.settings.maxTTL
    ensures r.err.None? ==> r.state.settings.downloadDomain == "" || r.state.downloadDomainURL.Some?
  {
    var state := InitializeState(s);
    var domain := state.settings.downloadDomain;
    var err :=
      if ParseWhitelist(AfterShim(s).settings.uploadWhitelist).failed then Some(WhitelistError(NilNetwork))
      else if domain != "" && state.downloadDomainURL.None? then Some(DownloadDomainError(domain))
      else if state.settings.defaultTTL > state.settings.maxTTL then Some(TTLError)
      else None;
    InitOutcome(state, err)
  }

  /** Initialize keeps every parsed subnet canonical and every parsed URL well formed. */
  lemma InitializeKeepsWellFormed(s: ConfigState)
    requires DerivedWellFormed(s)
    ensures DerivedWellFormed(InitializeSpec(s).state)
  {
    var scan := ParseWhitelist(s.settings.uploadWhitelist);
    var all := s.uploadWhitelist + scan.subnets;
    forall k | 0 <= k < |all|
      ensures all[k].Canonical()
    {
      if k >= |s.uploadWhitelist| {
        var j := k - |s.uploadWhitelist|;
        assert ParseEntry(s.settings.uploadWhitelist[j]) == Some(scan.subnets[j]);
      }
    }
  }

  /** The parsed download domain: unchanged when the domain is empty. */
  function DomainURL(domain: string, current: Option<Url>): Option<Url> {
    if domain == "" then current else ParseURL(domain)
  }

  /** A membership test against the parsed whitelist: empty accepts every address. */
  predicate Allowed(nets: seq<Subnet>, ip: IPv4) {
    |nets| == 0 || exists k :: 0 <= k < |nets| && nets[k].Contains(ip)
  }

  // ---------------------------------------------------------------------
  // The object

  class Configuration {
    var settings: Settings
    var downloadDomainURL: Option<Url>
    var uploadWhitelist: seq<Subnet>
    var clean: bool

    /** The fields of this object, as a value. */
    ghost function Snapshot(): ConfigState
      reads this
    {
      ConfigState(settings, downloadDomainURL, uploadWhitelist, clean)
    }

    ghost predicate Valid()
      reads this
    {
      DerivedWellFormed(Snapshot())
    }

    /** NewConfiguration: a record of zero values with the defaults written over them. */
    constructor ()
      ensures Snapshot() == Defaults()
      ensures Valid() && IsAutoClean()
    {
      var exported := Zero().settings;
      exported := exported.(listenAddress := "0.0.0.0", listenPort := 8080);
      exported := exported.(enhancedWebSecurity := false);
      exported := exported.(maxFileSize := 10000000000, maxFilePerUpload := 1000);
      exported := exported.(defaultTTL := 2592000, maxTTL := 2592000);
      exported := exported.(stream := true, oneShot := true, removable := true, protectedByPassword := true);
      exported := exported.(ovhAPIEndpoint := "https://eu.api.ovh.com/1.0");
      exported := exported.(dataBackend := "file");
      settings := exported;
      downloadDomainURL := None;
      uploadWhitelist := [];
      clean := true;
    }

    /**
     * Initialize: derives the internal parameters, one step after the other;
     * the first step that fails returns its error and leaves the later steps
     * undone.
     */
    method Initialize() returns (err: Option<InitError>)
      modifies this
      ensures Snapshot() == InitializeSpec(old(Snapshot())).state
      ensures err == InitializeSpec(old(Snapshot())).err
      ensures old(Valid()) ==> Valid()
    {
      ghost var s0 := Snapshot();
      if Valid() {
        InitializeKeepsWellFormed(s0);
      }
      ApplyDebugAndPath();
      assert Snapshot() == AfterShim(s0);
      var parsedAll := ParseUploadWhitelist();
      if !parsedAll {
        return Some(WhitelistError(NilNetwork));
      }
      ghost var s2 := Snapshot();
      DeriveAuthentication();
      assert Snapshot() == AfterAuth(s2);
      var domainOk := ParseDownloadDomain();
      if !domainOk {
        return Some(DownloadDomainError(settings.downloadDomain));
      }
      if settings.defaultTTL > settings.maxTTL {
        return Some(TTLError);
      }
      return None;
    }

    /** The first step of Initialize: the debug shim, then one trailing '/' is cut from the path. */
    method ApplyDebugAndPath()
      modifies this`settings
      ensures settings == TrimPath(DebugShim(old(settings)))
    {
      // The flags the code sets are kept in locals and written back at once.
      var debug, debugRequests := settings.debug, settings.debugRequests;
      if settings.logLevel == "DEBUG" {
        debug := true;
        debugRequests := true;
      }
      settings := settings.(debug := debug, debugRequests := debugRequests,
                            path := TrimSuffix(settings.path, "/"));
    }

    /** The authentication step of Initialize: each provider flag follows its credentials. */
    method DeriveAuthentication()
      modifies this`settings
      ensures settings == DeriveAuth(old(settings))
    {
      var google, ovh, noAnonymous :=
        settings.googleAuthentication, settings.ovhAuthentication, settings.noAnonymousUploads;
      if settings.googleAPIClientID != "" && settings.googleAPISecret != "" {
        google := true;
      } else {
        google := false;
      }

      if settings.ovhAPIKey != "" && settings.ovhAPISecret != "" {
        ovh := true;
      } else {
        ovh := false;
      }

      if !settings.authentication {
        noAnonymous := false;
        google := false;
        ovh := false;
      }
      assert google == GoogleEnabled(settings);
      assert ovh == OvhEnabled(settings);
      assert noAnonymous == AnonymousRefused(settings);
      settings := settings.(googleAuthentication := google, ovhAuthentication := ovh,
                            noAnonymousUploads := noAnonymous);
    }

    /**
     * The download domain step of Initialize: a non-empty domain is parsed,
     * and `ok` is false when it does not parse.
     */
    method ParseDownloadDomain() returns (ok: bool)
      modifies this`downloadDomainURL
      ensures Snapshot() == AfterDomain(old(Snapshot()))
      ensures ok == (settings.downloadDomain == "" || downloadDomainURL.Some?)
    {
      if settings.downloadDomain != "" {
        // The code trims "/ " from a copy of the domain and drops the copy,
        // so the domain is parsed as it is written.
        downloadDomainURL := ParseURL(settings.downloadDomain);
        if downloadDomainURL.None? {
          return false;
        }
      }
      return true;
    }

    /**
     * The whitelist loop of Initialize: appends the subnet of each entry in
     * turn and stops at the first entry that does not parse.
     */
    method ParseUploadWhitelist() returns (ok: bool)
      modifies this`uploadWhitelist
      ensures uploadWhitelist == old(uploadWhitelist) + ParseWhitelist(settings.uploadWhitelist).subnets
      ensures ok == !ParseWhitelist(settings.uploadWhitelist).failed
    {
      var entries := settings.uploadWhitelist;
      ghost var start := uploadWhitelist;
      var i := 0;
      while i < |entries|
        invariant 0 <= i <= |entries|
        invariant !Scan(entries[..i], ParseEntry).failed
        invariant uploadWhitelist == start + Scan(entries[..i], ParseEntry).subnets
      {
        var parsed := ParseWhitelistEntry(entries[i]);
        if parsed.None? {
          ScanStopsAt(entries, i, ParseEntry);
          return false;
        }
        ghost var before := Scan(entries[..i], ParseEntry).subnets;
        ScanStep(entries, i, ParseEntry);
        AppendAssoc(start, before, [parsed.value]);
        uploadWhitelist := uploadWhitelist + [parsed.value];
        i := i + 1;
      }
      assert entries[..i] == entries;
      return true;
    }

    /** One turn of the whitelist loop: an entry without a '/' is read as "/32". */
    static method ParseWhitelistEntry(entry: string) returns (r: Option<Subnet>)
      ensures r == ParseEntry(entry)
    {
      var cidr := entry;
      if '/' !in cidr {
        cidr := cidr + "/32";
      }
      r := ParseCIDR(cidr);
    }

    /** GetUploadWhitelist: the subnets Initialize parsed, each one its own network address. */
    function GetUploadWhitelist(): (r: seq<Subnet>)
      reads this
      ensures r == Snapshot().uploadWhitelist
      ensures Valid() ==> forall k :: 0 <= k < |r| ==> r[k].Canonical()
    {
      uploadWhitelist
    }

    /** GetDownloadDomain: the URL Initialize parsed, if any. */
    function GetDownloadDomain(): (r: Option<Url>)
      reads this
      ensures r == Snapshot().downloadDomainURL
      ensures Valid() && r.Some? ==> WellFormed(r.value)
    {
      downloadDomainURL
    }

    /** AutoClean: turns the periodic cleaning on or off and changes nothing else. */
    method AutoClean(value: bool)
      modifies this
      ensures IsAutoClean() == value
      ensures Snapshot() == old(Snapshot()).(clean := value)
      ensures old(Valid()) ==> Valid()
    {
      clean := value;
    }

    /** IsAutoClean: whether the periodic cleaning is to be started. */
    predicate IsAutoClean()
      reads this
      ensures IsAutoClean() == Snapshot().clean
    {
      clean
    }

    /** IsWhitelisted: an empty whitelist accepts every address; otherwise one subnet must contain it. */
    method IsWhitelisted(ip: IPv4) returns (r: bool)
      ensures r == Allowed(uploadWhitelist, ip)
    {
      if |uploadWhitelist| == 0 {
        return true;
      }
      var k := 0;
      while k < |uploadWhitelist|
        invariant 0 <= k <= |uploadWhitelist|
        invariant forall j :: 0 <= j < k ==> !uploadWhitelist[j].Contains(ip)
      {
        if uploadWhitelist[k].Contains(ip) {
          return true;
        }
        k := k + 1;
      }
      return false;
    }

    /** GetServerURL: the HTTP URL of this server, built from the listening address, port and path. */
    function GetServerURL(): (u: Url)
      reads this
      ensures (u.scheme == "https") == settings.sslEnabled
      ensures (u.scheme == "http") == !settings.sslEnabled
      ensures u.opaqueData == "" && u.path == settings.path
      ensures settings.listenPort >= 0 && settings.listenAddress == "0.0.0.0" ==>
        u.Hostname() == "127.0.0.1"
      ensures settings.listenPort >= 0 && settings.listenAddress != "0.0.0.0" ==>
        u.Hostname() == settings.listenAddress
      ensures settings.listenPort >= 0 ==>
        u.Port() == NatToString(settings.listenPort) && Value(u.Port()) == settings.listenPort
    {
      var addr := ServerAddress(settings.listenAddress);
      var u := Url(SchemeFor(settings.sslEnabled), "", addr + ":" + IntToString(settings.listenPort), settings.path);
      if settings.listenPort >= 0 then
        HostPortParts(u, addr, settings.listenPort);
        u
      else u
    }
  }

  /** The scheme GetServerURL gives the URL. */
  function SchemeFor(sslEnabled: bool): (scheme: string)
    ensures (scheme == "https") == sslEnabled
    ensures (scheme == "http") == !sslEnabled
  {
    if sslEnabled then "https" else "http"
  }

  /** The address GetServerURL puts in the URL: the wildcard address is replaced by loopback. */
  function ServerAddress(listenAddress: string): (addr: string)
    ensures listenAddress == "0.0.0.0" ==> addr == "127.0.0.1"
    ensures addr != "0.0.0.0"
    ensures addr == listenAddress || listenAddress == "0.0.0.0"
  {
    if listenAddress == "0.0.0.0" then "127.0.0.1" else listenAddress
  }

  // ---------------------------------------------------------------------
  // Lemmas about the whitelist scan

  /** The whitelist scan of two lists in a row: the second is scanned only if the first went through. */
  lemma {:induction false} ScanAppend(a: seq<string>, b: seq<string>, parse: string -> Option<Subnet>)
    ensures Scan(a + b, parse) ==
      if Scan(a, parse).failed then Scan(a, parse)
      else WhitelistScan(Scan(a, parse).subnets + Scan(b, parse).subnets, Scan(b, parse).failed)
  {
    if a == [] {
      assert a + b == b;
    } else {
      assert (a + b)[0] == a[0];
      assert (a + b)[1..] == a[1..] + b;
      ScanAppend(a[1..], b, parse);
      if parse(a[0]).Some? {
        var n := parse(a[0]).value;
        var scanA := Scan(a[1..], parse);
        if !scanA.failed {
          assert [n] + scanA.subnets + Scan(b, parse).subnets
              == [n] + (scanA.subnets + Scan(b, parse).subnets);
        }
      }
    }
  }

  /** The scan fails exactly when some entry does not parse. */
  lemma ScanFails(entries: seq<string>, parse: string -> Option<Subnet>)
    ensures Scan(entries, parse).failed <==> exists k :: 0 <= k < |entries| && parse(entries[k]).None?
  {
    var r := Scan(entries, parse);
    if !r.failed {
      forall k | 0 <= k < |entries|
        ensures parse(entries[k]).Some?
      {
        assert parse(entries[k]) == Some(r.subnets[k]);
      }
    }
  }

  lemma AppendAssoc<T>(a: seq<T>, b: seq<T>, c: seq<T>)
    ensures a + b + c == a + (b + c)
  {
  }

  /** One more entry that parses extends the scan of a prefix by its subnet. */
  lemma ScanStep(entries: seq<string>, i: nat, parse: string -> Option<Subnet>)
    requires i < |entries| && !Scan(entries[..i], parse).failed
    requires parse(entries[i]).Some?
    ensures !Scan(entries[..i + 1], parse).failed
    ensures Scan(entries[..i + 1], parse).subnets == Scan(entries[..i], parse).subnets + [parse(entries[i]).value]
  {
    ScanAppend(entries[..i], [entries[i]], parse);
    assert entries[..i] + [entries[i]] == entries[..i + 1];
  }

  /** An entry that does not parse ends the scan of the whole list there. */
  lemma ScanStopsAt(entries: seq<string>, i: nat, parse: string -> Option<Subnet>)
    requires i < |entries| && !Scan(entries[..i], parse).failed
    requires parse(entries[i]).None?
    ensures Scan(entries, parse) == WhitelistScan(Scan(entries[..i], parse).subnets, true)
  {
    ScanAppend(entries[..i], entries[i..], parse);
    assert entries[..i] + entries[i..] == entries;
    assert entries[i..][0] == entries[i];
  }

  // ---------------------------------------------------------------------
  // Lemmas about GetServerURL

  /** The host "addr:port" splits back into the address and the decimal port. */
  lemma HostPortParts(u: Url, addr: string, port: nat)
    requires u.host == addr + ":" + IntToString(port)
    ensures u.Hostname() == addr && u.Port() == NatToString(port)
  {
    var digits := NatToString(port);
    assert IntToString(port) == digits;
    var host := addr + ":" + digits;
    assert ':' !in digits;
    assert host[|addr|] == ':';
    assert host[|addr| + 1..] == digits;
    assert host[..|addr|] == addr;
    LastIndexAfter(host, |addr|, ':');
  }

  /** The last position of `c` is `i` when `c` is at `i` and not after it. */
  lemma {:induction false} LastIndexAfter(s: string, i: nat, c: char)
    requires i < |s| && s[i] == c && c !in s[i + 1..]
    ensures LastIndexOf(s, c) == i
    decreases |s|
  {
    if i < |s| - 1 {
      assert s[|s| - 1] in s[i + 1..];
      var t := s[..|s| - 1];
      assert t[i + 1..] == s[i + 1..|s| - 1];
      LastIndexAfter(t, i, c);
    }
  }
}
