/**
 * What Initialize promises, stated about InitializeSpec: each step on its
 * own, the order in which the steps can fail, what the steps leave alone,
 * what a second call does, and what the defaults lead to; then what the
 * parsed whitelist accepts and how the server URL reads back.
 */
module ConfigProperties {
  import opened Wrappers
  import opened Strings
  import opened Decimal
  import opened IPNet
  import opened Urls
  import opened Config

  /** Whether the whitelist scan of Initialize gets through every entry. */
  predicate WhitelistParses(s: ConfigState) {
    !ParseWhitelist(s.settings.uploadWhitelist).failed
  }

  /** Whether the download domain step of Initialize goes through. */
  predicate DomainParses(s: ConfigState) {
    s.settings.downloadDomain == "" || ParseURL(s.settings.downloadDomain).Some?
  }

  /** The six exported fields that Initialize writes, set to fixed values. */
  function Untouched(t: Settings): Settings {
    t.(debug := false, debugRequests := false, path := "",
       googleAuthentication := false, ovhAuthentication := false, noAnonymousUploads := false)
  }

  lemma DebugShimUntouched(t: Settings)
    ensures Untouched(DebugShim(t)) == Untouched(t)
  {
  }

  lemma TrimPathUntouched(t: Settings)
    ensures Untouched(TrimPath(t)) == Untouched(t)
  {
  }

  lemma DeriveAuthUntouched(t: Settings)
    ensures Untouched(DeriveAuth(t)) == Untouched(t)
  {
  }

  /** The state Initialize leaves once the whitelist parses, field by field. */
  lemma InitializeStateWhenParsed(s: ConfigState)
    requires WhitelistParses(s)
    ensures InitializeState(s) == ConfigState(
      DeriveAuth(TrimPath(DebugShim(s.settings))),
      DomainURL(s.settings.downloadDomain, s.downloadDomainURL),
      s.uploadWhitelist + ParseWhitelist(s.settings.uploadWhitelist).subnets,
      s.clean)
  {
    var t1 := TrimPath(DebugShim(s.settings));
    assert t1.uploadWhitelist == s.settings.uploadWhitelist;
    assert DeriveAuth(t1).downloadDomain == s.settings.downloadDomain;
  }

  /** The state Initialize leaves when the whitelist does not parse. */
  lemma InitializeStateWhenNotParsed(s: ConfigState)
    requires !WhitelistParses(s)
    ensures InitializeState(s) == ConfigState(
      TrimPath(DebugShim(s.settings)),
      s.downloadDomainURL,
      s.uploadWhitelist + ParseWhitelist(s.settings.uploadWhitelist).subnets,
      s.clean)
  {
    var t1 := TrimPath(DebugShim(s.settings));
    assert t1.uploadWhitelist == s.settings.uploadWhitelist;
  }

  /** The settings Initialize leaves, whether or not the whitelist parses. */
  lemma InitializeSettings(s: ConfigState)
    ensures InitializeState(s).settings ==
      if WhitelistParses(s) then DeriveAuth(TrimPath(DebugShim(s.settings)))
      else TrimPath(DebugShim(s.settings))
  {
    if WhitelistParses(s) {
      InitializeStateWhenParsed(s);
    } else {
      InitializeStateWhenNotParsed(s);
    }
  }

  // ---------------------------------------------------------------------
  // One step at a time

  /** LogLevel "DEBUG" turns both debug flags on; otherwise they keep their values. */
  lemma InitializeDebugShim(s: ConfigState)
    ensures var r := InitializeSpec(s).state.settings;
      r.debug == (s.settings.debug || s.settings.logLevel == "DEBUG")
      && r.debugRequests == (s.settings.debugRequests || s.settings.logLevel == "DEBUG")
  {
    InitializeSettings(s);
  }

  /** strings.TrimSuffix with "/" cuts one '/' and no more. */
  lemma TrimOneSlash(p: string)
    ensures var r := TrimSuffix(p, "/");
      (HasSuffix(p, "/") ==> r + "/" == p)
      && (!HasSuffix(p, "/") ==> r == p)
      && (HasSuffix(r, "/") <==> HasSuffix(p, "//"))
  {
    var r := TrimSuffix(p, "/");
    if HasSuffix(p, "/") {
      assert r == p[..|p| - 1];
      if |p| >= 2 {
        assert p[|p| - 2..] == [p[|p| - 2], p[|p| - 1]];
        if |r| >= 1 {
          assert r[|r| - 1..] == [p[|p| - 2]];
        }
      }
    } else if |p| >= 2 {
      assert p[|p| - 1..] == [p[|p| - 1]];
      assert p[|p| - 2..][1..] == p[|p| - 1..];
    }
  }

  /** Exactly one trailing '/' is cut from the path: a path ending in "//" keeps one. */
  lemma InitializePath(s: ConfigState)
    ensures var p, r := s.settings.path, InitializeSpec(s).state.settings.path;
      (HasSuffix(p, "/") ==> r + "/" == p)
      && (!HasSuffix(p, "/") ==> r == p)
      && (HasSuffix(r, "/") <==> HasSuffix(p, "//"))
  {
    InitializeSettings(s);
    TrimOneSlash(s.settings.path);
  }

  /** The path "/plik//" becomes "/plik/", not "/plik". */
  lemma InitializeTrimsOneSlash(s: ConfigState)
    requires s.settings.path == "/plik//"
    ensures InitializeSpec(s).state.settings.path == "/plik/"
  {
    assert HasSuffix("/plik//", "/");
  }

  /**
   * The subnets of the entries the scan got through are appended to the ones
   * already there, and Initialize fails on the whitelist exactly when some
   * entry does not parse.
   */
  lemma InitializeWhitelist(s: ConfigState)
    ensures var entries, r := s.settings.uploadWhitelist, InitializeSpec(s);
      r.state.uploadWhitelist == s.uploadWhitelist + ParseWhitelist(entries).subnets
      && (r.err == Some(WhitelistError(NilNetwork)) <==>
            exists k :: 0 <= k < |entries| && ParseEntry(entries[k]).None?)
  {
    ScanFails(s.settings.uploadWhitelist, ParseEntry);
    if WhitelistParses(s) {
      InitializeStateWhenParsed(s);
    } else {
      InitializeStateWhenNotParsed(s);
    }
  }

  /**
   * When the whitelist does not parse, the error prints a nil network and
   * the steps after the whitelist are not done.
   */
  lemma InitializeWhitelistFailure(s: ConfigState)
    requires !WhitelistParses(s)
    ensures var r := InitializeSpec(s);
      r.err == Some(WhitelistError(NilNetwork))
      && r.state.downloadDomainURL == s.downloadDomainURL
      && r.state.settings.googleAuthentication == s.settings.googleAuthentication
      && r.state.settings.ovhAuthentication == s.settings.ovhAuthentication
      && r.state.settings.noAnonymousUploads == s.settings.noAnonymousUploads
  {
    InitializeStateWhenNotParsed(s);
    var t1 := TrimPath(DebugShim(s.settings));
    assert t1.uploadWhitelist == s.settings.uploadWhitelist;
    assert t1.googleAuthentication == s.settings.googleAuthentication;
    assert t1.ovhAuthentication == s.settings.ovhAuthentication;
    assert t1.noAnonymousUploads == s.settings.noAnonymousUploads;
    assert InitializeSpec(s).err == Some(WhitelistError(NilNetwork));
  }

  /** The whitelist error prints the nil network the Go code formats. */
  lemma WhitelistErrorMessage()
    ensures WhitelistError(NilNetwork).Message() == "failed to parse upload whitelist : <nil>"
  {
  }

  /** The first character of each kind of error text. */
  lemma MessageHead(e: InitError)
    ensures |e.Message()| > 0
    ensures e.Message()[0] == (if e.WhitelistError? then 'f' else if e.DownloadDomainError? then 'i' else 'D')
  {
    var r := e.Message();
    match e
    case WhitelistError(_) =>
      assert r[..35][0] == 'f';
    case DownloadDomainError(_) =>
      assert r[..28][0] == 'i';
    case TTLError =>
  }

  /** Two errors with the same text are the same error: the text tells which step failed and on what. */
  lemma MessageDetermines(e1: InitError, e2: InitError)
    ensures e1.Message() == e2.Message() ==> e1 == e2
  {
    if e1.Message() == e2.Message() {
      MessageHead(e1);
      MessageHead(e2);
    }
  }

  /**
   * Once the whitelist is through, each provider flag follows its
   * credentials and anonymous uploads can be refused only under
   * authentication.
   */
  lemma InitializeAuth(s: ConfigState)
    requires WhitelistParses(s)
    ensures var t, r := s.settings, InitializeSpec(s).state.settings;
      r.googleAuthentication == (t.authentication && t.googleAPIClientID != "" && t.googleAPISecret != "")
      && r.ovhAuthentication == (t.authentication && t.ovhAPIKey != "" && t.ovhAPISecret != "")
      && r.noAnonymousUploads == (t.authentication && t.noAnonymousUploads)
  {
  }

  /**
   * An empty download domain leaves the parsed URL as it was; any other
   * domain is parsed as written, and the error names it when it does not
   * parse.
   */
  lemma InitializeDownloadDomain(s: ConfigState)
    requires WhitelistParses(s)
    ensures var d, r := s.settings.downloadDomain, InitializeSpec(s);
      (d == "" ==> r.state.downloadDomainURL == s.downloadDomainURL
                   && (r.err.None? || r.err == Some(TTLError)))
      && (d != "" ==> r.state.downloadDomainURL == ParseURL(d)
                      && (r.err == Some(DownloadDomainError(d)) <==> ParseURL(d).None?))
  {
  }

  /** The TTL check is the last step: it fails exactly when the default TTL exceeds the maximum. */
  lemma InitializeTTL(s: ConfigState)
    requires WhitelistParses(s) && DomainParses(s)
    ensures InitializeSpec(s).err == Some(TTLError) <==> s.settings.defaultTTL > s.settings.maxTTL
  {
  }

  /** Initialize succeeds exactly when every step goes through. */
  lemma InitializeSucceeds(s: ConfigState)
    ensures InitializeSpec(s).err.None? <==>
      WhitelistParses(s) && DomainParses(s) && s.settings.defaultTTL <= s.settings.maxTTL
  {
  }

  /**
   * Initialize writes the debug flags, the path, the three authentication
   * flags and the two parsed fields, and nothing else.
   */
  lemma InitializeFrame(s: ConfigState)
    ensures Untouched(InitializeSpec(s).state.settings) == Untouched(s.settings)
    ensures InitializeSpec(s).state.clean == s.clean
  {
    InitializeSettings(s);
    var t := s.settings;
    DebugShimUntouched(t);
    TrimPathUntouched(DebugShim(t));
    DeriveAuthUntouched(TrimPath(DebugShim(t)));
    if WhitelistParses(s) {
      InitializeStateWhenParsed(s);
    } else {
      InitializeStateWhenNotParsed(s);
    }
  }

  // ---------------------------------------------------------------------
  // Calling Initialize twice

  lemma DeriveAuthTwice(t: Settings)
    ensures DeriveAuth(DeriveAuth(t)) == DeriveAuth(t)
  {
  }

  lemma DebugShimNoop(t: Settings)
    requires t.logLevel == "DEBUG" ==> t.debug && t.debugRequests
    ensures DebugShim(t) == t
  {
  }

  lemma DeriveAuthTrimPath(t: Settings)
    ensures DeriveAuth(TrimPath(t)) == TrimPath(DeriveAuth(t))
  {
  }

  /** The settings after a second call: the first call's settings with the path trimmed again. */
  lemma SecondSettings(t: Settings)
    ensures var t1 := DeriveAuth(TrimPath(DebugShim(t)));
      DeriveAuth(TrimPath(DebugShim(t1))) == TrimPath(t1)
  {
    var t1 := DeriveAuth(TrimPath(DebugShim(t)));
    DebugShimNoop(t1);
    DeriveAuthTrimPath(t1);
    DeriveAuthTwice(TrimPath(DebugShim(t)));
  }

  /**
   * What a second call does after a first one that succeeded: the path is
   * trimmed again, the same subnets are appended again, and it succeeds.
   */
  lemma SecondCall(s: ConfigState)
    requires InitializeSpec(s).err.None?
    ensures var s1 := InitializeState(s);
      InitializeState(s1) == s1.(settings := TrimPath(s1.settings),
        uploadWhitelist := s1.uploadWhitelist + ParseWhitelist(s.settings.uploadWhitelist).subnets)
    ensures InitializeSpec(InitializeState(s)).err.None?
  {
    var t := s.settings;
    var t1 := DeriveAuth(TrimPath(DebugShim(t)));
    var subnets := ParseWhitelist(t.uploadWhitelist).subnets;
    InitializeSucceeds(s);
    InitializeStateWhenParsed(s);
    var s1 := InitializeState(s);
    assert t1.uploadWhitelist == t.uploadWhitelist;
    assert t1.downloadDomain == t.downloadDomain;
    assert t1.defaultTTL == t.defaultTTL && t1.maxTTL == t.maxTTL;
    assert WhitelistParses(s1);
    InitializeStateWhenParsed(s1);
    SecondSettings(t);
    InitializeSucceeds(s1);
  }

  lemma TrimPathUnchanged(t: Settings)
    ensures TrimPath(t) == t <==> !HasSuffix(t.path, "/")
  {
    if HasSuffix(t.path, "/") {
      assert |TrimPath(t).path| < |t.path|;
    }
  }

  lemma AppendUnchanged(a: seq<Subnet>, b: seq<Subnet>)
    ensures a + b == a <==> b == []
  {
    if b != [] {
      assert |a + b| > |a|;
    }
  }

  /** A record comes back unchanged from the second call's update exactly when both parts are unchanged. */
  lemma SecondCallUnchanged(s1: ConfigState, subnets: seq<Subnet>)
    ensures s1.(settings := TrimPath(s1.settings), uploadWhitelist := s1.uploadWhitelist + subnets) == s1
      <==> subnets == [] && !HasSuffix(s1.settings.path, "/")
  {
    TrimPathUnchanged(s1.settings);
    AppendUnchanged(s1.uploadWhitelist, subnets);
  }

  /**
   * A second call is not a no-op: it succeeds again, appends the parsed
   * subnets a second time and cuts another '/' from the path; the record
   * comes back unchanged exactly when the whitelist parsed to nothing and the
   * path no longer ends in '/'.
   */
  lemma InitializeTwice(s: ConfigState)
    requires InitializeSpec(s).err.None?
    ensures var r1 := InitializeSpec(s); var r2 := InitializeSpec(r1.state);
      var subnets := ParseWhitelist(s.settings.uploadWhitelist).subnets;
      r2.err.None?
      && r2.state.uploadWhitelist == r1.state.uploadWhitelist + subnets
      && r2.state.settings.path == TrimSuffix(r1.state.settings.path, "/")
      && (r2.state == r1.state <==> subnets == [] && !HasSuffix(r1.state.settings.path, "/"))
  {
    SecondCall(s);
    var s1 := InitializeState(s);
    var subnets := ParseWhitelist(s.settings.uploadWhitelist).subnets;
    SecondCallUnchanged(s1, subnets);
  }

  // ---------------------------------------------------------------------
  // The defaults

  /** NewConfiguration followed by Initialize: no error, and nothing changes. */
  lemma DefaultsInitialize()
    ensures InitializeSpec(Defaults()) == InitOutcome(Defaults(), None)
  {
    var d := Defaults();
    assert !HasSuffix(d.settings.path, "/");
    assert ParseWhitelist([]) == WhitelistScan([], false);
    assert d.uploadWhitelist + [] == d.uploadWhitelist;
  }
}
