# Plik server configuration, modelled in Dafny

Plik is a temporary file upload server. Its configuration object
(`server/common/config.go`) does four things:

- it holds every setting of the server;
- `NewConfiguration` fills in the defaults;
- `Initialize` tidies the settings and derives the internal parameters (the
  parsed upload whitelist, the parsed download domain, the authentication
  flags), then checks the TTL bounds;
- it answers a few questions: the parsed whitelist and domain, whether to run
  the periodic cleaning, whether a client address may upload, and the URL the
  server can be reached at.

This project models that object in Dafny:

- `Config.Configuration` is a class with the same state. The exported fields
  are one `Settings` record, and the three unexported ones (`downloadDomainURL`,
  `uploadWhitelist`, `clean`) are fields of their own.
- `Config.InitializeSpec` states what `Initialize` does as a function of the
  state. `Configuration.Initialize` is proved to do exactly that.
- `ConfigProperties` and `ServerProperties` prove what that function means, one
  step of the source at a time: the debug shim, the path trim, the whitelist,
  the authentication flags, the download domain and the TTL check. They also
  prove what a second call to `Initialize` does, what the whitelist accepts,
  and that the server URL parses back.

The libraries the code calls are modelled only as far as the configuration
code uses them:

- `Strings`: `HasPrefix`, `HasSuffix`, `TrimSuffix`, `Trim` (with `TrimLeft` and `TrimRight`), `IndexByte` and `LastIndexByte` (as `IndexOf` and `LastIndexOf`), `Split` and `Join`. `strings.Contains(cidr, "/")` on line 127 is Dafny's `'/' in entry`.
- `Decimal`: what `%d` prints.
- `IPNet`: `net.ParseCIDR` and `IPNet.Contains`, for IPv4 only.
- `Urls`: a simplified `url.Parse`, and `URL.Hostname`, `URL.Port` and
  `URL.String`.

File layout:

| file | module | content |
|---|---|---|
| wrappers.dfy | `Wrappers` | `Option` |
| strings.dfy | `Strings` | prefix and suffix tests, trimming, index search, split and join |
| decimal.dfy | `Decimal` | digit strings and their values |
| ipnet.dfy | `IPNet` | addresses as 32 bits, masks, networks, dotted-quad and CIDR text |
| urls.dfy | `Urls` | the URL record and its parser |
| config.dfy | `Config` | the settings, `InitializeSpec`, the class `Configuration` |
| config_properties.dfy | `ConfigProperties` | what `Initialize` does, step by step, and when called twice |
| server_properties.dfy | `ServerProperties` | whitelist acceptance, the server URL, the download domain text |

Where the code and its documented intent differ, the model follows the code:

- When a whitelist entry fails to parse, the error reads "failed to parse
  upload whitelist : <nil>". The `cidr` the message formats is the nil network
  that `net.ParseCIDR` returned on line 130, not the text of the entry.
- `strings.Trim(config.DownloadDomain, "/ ")` on line 156 throws its result
  away, so the domain is parsed exactly as it is written.
- `Initialize` cannot safely be called twice: a second call appends the parsed
  subnets again and trims one more '/' from the path.
- When the download domain does not parse, the parsed URL field is left nil,
  because line 158 assigns the result before it checks the error.
- When the whitelist fails, the subnets parsed before the failing entry stay
  appended.

## Model

| member | source | states |
|---|---|---|
| Config.Configuration.constructor | server/common/config.go:70-94 | The new object is the zero record with the defaults written over it: listen on 0.0.0.0:8080, 10000000000-byte files, 1000 files per upload, both TTLs 30 days, stream, one-shot, removable and password protection on, the OVH endpoint, the "file" backend, and auto clean on. The class invariant holds. |
| Config.Configuration.Initialize | server/common/config.go:115-168 | The new state and the returned error are those of `InitializeSpec` on the old state. The error comes from the first step that fails, and the later steps are not done. The invariant (canonical subnets, a well-formed URL) is kept. |
| Config.Configuration.ApplyDebugAndPath | server/common/config.go:117-123 | The settings become `TrimPath(DebugShim(old settings))`. |
| Config.Configuration.ParseUploadWhitelist | server/common/config.go:125-135 | The parsed subnets are appended to the old list in entry order, up to the first entry that fails. The result is true exactly when no entry failed. |
| Config.Configuration.ParseWhitelistEntry | server/common/config.go:126-130 | An entry with no '/' gets "/32" appended, then goes through `ParseCIDR`. |
| Config.Configuration.DeriveAuthentication | server/common/config.go:137-153 | The settings become `DeriveAuth(old settings)`. Google and OVH authentication follow their two credentials, and all three flags are off when authentication is off. |
| Config.Configuration.ParseDownloadDomain | server/common/config.go:155-161 | Only the parsed URL changes. An empty domain leaves it as it was; otherwise it becomes the parse of the untrimmed domain. The result is false exactly when a non-empty domain fails to parse. |
| Config.Configuration.GetUploadWhitelist | server/common/config.go:179-182 | Returns the parsed list. Under the invariant, every subnet is its own network address. |
| Config.Configuration.GetDownloadDomain | server/common/config.go:184-187 | Returns the parsed URL. Under the invariant, a URL that is present is well formed. |
| Config.Configuration.AutoClean | server/common/config.go:189-198 | Afterwards `IsAutoClean()` equals the argument, and every other field is unchanged. |
| Config.Configuration.IsAutoClean | server/common/config.go:195-198 | The result is the clean flag of the object. |
| Config.Configuration.IsWhitelisted | server/common/config.go:200-215 | The result is true exactly when the whitelist is empty or some subnet contains the address. |
| Config.Configuration.GetServerURL | server/common/config.go:217-238 | The scheme is "https" exactly when SSL is on, and "http" otherwise. The path is the configured path. For a non-negative port, the hostname is 127.0.0.1 in place of 0.0.0.0 (otherwise the listen address), and the port reads back as the listen port. |
| Config.Scan | server/common/config.go:126-135 | Every subnet kept is the parse of the entry at the same position. The scan either takes all entries, or stops exactly at the first entry that does not parse. |
| Config.ScanAppend | server/common/config.go:126-135 | The scan of `a + b` is the scan of `a`, followed by the scan of `b` when `a` went through. |
| Config.ScanFails | server/common/config.go:126-135 | The scan fails exactly when some entry does not parse. |
| Config.ScanStep | server/common/config.go:126-131 | One more entry that parses extends the scan of a prefix by its subnet. |
| Config.ScanStopsAt | server/common/config.go:130-133 | An entry that does not parse, after a prefix that did, makes the whole scan fail. |
| Config.InitializeSpec | server/common/config.go:115-168 | The clean flag is unchanged. The error is the whitelist error exactly when the scan of the exported whitelist stops at an entry that does not parse. On success the default TTL is at most the maximum, and a non-empty domain has a parsed URL. |
| Config.InitError.Message | server/common/config.go:133-164 | The whitelist error is "failed to parse upload whitelist : " followed by the value shown. The domain error is "invalid download domain URL ", the domain, then " : ". The TTL error is "DefaultTTL should not be more than MaxTTL". |
| Config.InitializeKeepsWellFormed | server/common/config.go:115-168 | `Initialize` keeps every stored subnet canonical and every stored URL well formed. |
| Config.ServerAddress | server/common/config.go:227-232 | The wildcard 0.0.0.0 becomes 127.0.0.1, any other listen address is kept as it is, and the result is never 0.0.0.0. |
| Config.SchemeFor | server/common/config.go:221-225 | The scheme is "https" exactly when SSL is on, and "http" exactly when it is off. |
| Config.HostPortParts | server/common/config.go:234 | "addr:port" gives back `addr` as its hostname and the port's digits as its port. |
| ConfigProperties.InitializeStateWhenParsed | server/common/config.go:115-168 | When the whitelist parses, the new state is: the settings with the shim, the trim and the auth flags applied; the URL from the domain; the old subnets plus the new ones; and clean unchanged. |
| ConfigProperties.InitializeStateWhenNotParsed | server/common/config.go:117-135 | When the whitelist does not parse, only the shim, the trim and the partial append have happened. |
| ConfigProperties.InitializeSettings | server/common/config.go:115-168 | The settings after `Initialize`, with and without a whitelist failure. |
| ConfigProperties.InitializeDebugShim | server/common/config.go:117-121 | Afterwards `debug` is `debug || logLevel == "DEBUG"`, and likewise `debugRequests`. |
| ConfigProperties.TrimOneSlash | server/common/config.go:123 | `TrimSuffix(p, "/")` removes exactly one trailing '/', and leaves `p` alone when it has none. |
| ConfigProperties.InitializePath | server/common/config.go:123 | Afterwards the path is the old one with exactly one trailing '/' cut. It still ends in '/' exactly when the old one ended in "//". |
| ConfigProperties.InitializeTrimsOneSlash | server/common/config.go:123 | The path "/plik//" becomes "/plik/". |
| ConfigProperties.InitializeWhitelist | server/common/config.go:125-135 | The parsed subnets are appended in order. The error is the whitelist error exactly when some entry does not parse. |
| ConfigProperties.InitializeWhitelistFailure | server/common/config.go:130-134 | On a failing entry, the error is the whitelist error showing "<nil>", and the URL and the authentication flags are untouched. |
| ConfigProperties.WhitelistErrorMessage | server/common/config.go:133 | The whitelist error reads "failed to parse upload whitelist : <nil>". |
| ConfigProperties.MessageDetermines | server/common/config.go:133-164 | Two errors with the same text are the same error: the text tells which step failed, and shows the value it failed on. |
| ConfigProperties.InitializeAuth | server/common/config.go:137-153 | When the whitelist parses: Google authentication is on exactly when authentication is on and both Google credentials are set. OVH is the same with its credentials. Refusing anonymous uploads stays on only with authentication on. |
| ConfigProperties.InitializeDownloadDomain | server/common/config.go:155-161 | When the whitelist parses: an empty domain leaves the URL untouched and is no error. Otherwise the URL is the parse of the untrimmed domain, and the error is the domain error exactly when that parse fails. |
| ConfigProperties.InitializeTTL | server/common/config.go:163-165 | When the earlier steps go through, the error is the TTL error exactly when the default TTL exceeds the maximum. |
| ConfigProperties.InitializeSucceeds | server/common/config.go:115-168 | There is no error exactly when every entry parses, the domain is empty or parses, and the default TTL is at most the maximum. |
| ConfigProperties.InitializeFrame | server/common/config.go:115-168 | Every field that `Initialize` does not write, and the clean flag, are unchanged. |
| ConfigProperties.DeriveAuthTwice | server/common/config.go:137-153 | Deriving the authentication flags a second time changes nothing. |
| ConfigProperties.DebugShimNoop | server/common/config.go:117-121 | Once the debug flags are on for a "DEBUG" log level, the shim changes nothing. |
| ConfigProperties.SecondCall | server/common/config.go:115-168 | A second successful call trims the path once more and appends the same subnets again. |
| ConfigProperties.TrimPathUnchanged | server/common/config.go:123 | The trim leaves the settings unchanged exactly when the path does not end in '/'. |
| ConfigProperties.InitializeTwice | server/common/config.go:115-168 | After a successful call, a second call also succeeds. It leaves the state unchanged exactly when no subnets were parsed and the trimmed path no longer ends in '/'. |
| ConfigProperties.DefaultsInitialize | server/common/config.go:70-94 | Initializing the defaults succeeds and changes nothing. |
| ServerProperties.BareEntry | server/common/config.go:126-130 | The dotted quad of an address, as a whitelist entry, parses to the /32 network of that address. |
| ServerProperties.BareEntriesWhitelistExactly | server/common/config.go:125-135 | A whitelist of bare addresses parses completely, to their /32 networks in order. It then accepts exactly those addresses, or every address when it is empty. |
| ServerProperties.AllowedOrderIndependent | server/common/config.go:200-215 | Two whitelists with the same subnets in any order accept the same addresses. |
| ServerProperties.HostWithPort | server/common/config.go:234 | "addr:port" is a valid URL host when the address is made of host characters. |
| ServerProperties.ServerURLReparses | server/common/config.go:217-238 | For a non-negative port, a plain address and a plain path, the text of the server URL parses back to the same URL. |
| ServerProperties.SpacedDomainRejected | server/common/config.go:158 | "http://x " has a space in its host and does not parse. |
| ServerProperties.TrimmedDomain | server/common/config.go:156 | Trimming "/ " from "http://x " gives "http://x". |
| ServerProperties.TrimmedDomainParses | server/common/config.go:156-158 | "http://x" parses to the URL with scheme http and host x. |
| ServerProperties.DownloadDomainNotTrimmed | server/common/config.go:155-161 | The domain "http://x " makes `Initialize` fail with the domain error, although its trimmed form would parse. |
| IPNet.ParseCIDR | server/common/config.go:130 | Every network it returns is canonical, and the text it came from holds a '/'. |
| IPNet.Subnet.Contains | server/common/config.go:209 | A network contains an address exactly when the address agrees with the base on the first `prefix` bits. |
| IPNet.CIDRRoundTrip | server/common/config.go:130 | The text of a canonical network parses back to that network. |
| IPNet.IPv4RoundTrip | server/common/config.go:130 | The dotted quad of an address parses back to that address. |
| IPNet.BareAddressIsHostRoute | server/common/config.go:127-130 | A '/'-free address text with "/32" appended parses exactly when the address parses, and then to its /32 network. |
| IPNet.HostRoute | server/common/config.go:127-128 | A /32 network is canonical and contains exactly its base address. |
| IPNet.DefaultRoute | server/common/config.go:209 | A /0 network contains every address. |
| IPNet.ContainsPrefix | server/common/config.go:209 | A network contains an address exactly when they agree on the first `prefix` bits. |
| IPNet.ContainsMasked | server/common/config.go:209 | A canonical network contains an address exactly when the masked address is its base. |
| Urls.ParseURL | server/common/config.go:158 | A parsed URL is well formed. Text with a control character, or with a leading ':', is rejected. |
| Urls.StringRoundTrip | server/common/config.go:234-235 | A URL with a valid scheme and host and a plain path parses back from its own text. |
| Strings.TrimSuffix | server/common/config.go:123 | With the suffix present, the result plus the suffix is the input; otherwise the input comes back unchanged. |
| Strings.IndexOf | server/common/config.go:127 | -1 exactly when the character is absent; otherwise the position of its first occurrence. |
| Strings.Trim | server/common/config.go:156 | The result is a slice `s[i..j]` of the input, every character cut off before `i` or from `j` on is in the cutset, and the result neither starts nor ends with a cutset character. |
| Strings.SplitJoin | server/common/config.go:130 | Splitting the join of '.'-free parts gives the parts back. |
| Decimal.NatToString | server/common/config.go:234 | The text is all digits, has no leading zero, and denotes the number. |
| Decimal.IntToString | server/common/config.go:234 | A non-negative number prints as digits with no leading zero that denote it. A negative one prints as "-" followed by such digits for its magnitude. |
| Decimal.NatToStringOfValue | server/common/config.go:234 | A digit string without a leading zero is the text of its own value. |

## Left out

- LoadConfiguration (lines 99-112) is not modelled, because it is file I/O and TOML decoding. It is `NewConfiguration`, then the file's values written over the fields, then `Initialize`. The first and last steps are modelled.
- NewLogger (lines 171-177) is left out: it only builds a logger object from the debug flag.
- String() (lines 240 on) is left out: it prints the configuration with a third-party byte-size formatter.
- The metadata and data backend configuration maps (`MetadataBackendConfig`, `DataBackendConfig`) are left out: `Initialize` never reads them.
- IPNet.ParseCIDR: IPv6 networks, IPv4-mapped IPv6 addresses and the 4- or 16-byte forms of `net.IP` are not modelled. Addresses are IPv4 only, as 32 bits.
- Urls.ParseURL: queries, fragments, user information, percent escapes, bracketed IPv6 hosts and the text of `url.Parse`'s errors are not modelled. It rejects control characters, a leading ':', a colon in the first segment of a scheme-less reference, a host holding a character outside the unescaped host set, and a non-numeric port. It accepts scheme://host/path, scheme:opaque and scheme-less text; "dl.example.com" becomes a path, as in Go. A '?', '#', '@' or '%' in the host part ("http://x?y", "http://u@x") makes it fail where Go's `url.Parse` succeeds, so for such a download domain the modelled `Initialize` returns the domain error where Go's returns none. In the path these characters are kept as they are rather than split off or decoded, and a malformed percent escape there is accepted: "http://x/%zz" and "http://x/#%zz" parse, where Go's `url.Parse` returns an escape error. For such a download domain the modelled `Initialize` succeeds where Go's returns the domain error.
- Config.InitError.Message: a download domain error ends with ": " and omits the text of the parse error that Go appends.
- Config.Configuration.GetServerURL: the hostname and port are stated for a non-negative listen port only. A negative port prints as "-n", which `URL.Port` does not read back as a number.
- Integer widths: every integer setting has the type `Config.Int64` (-2^63 to 2^63-1), so the 64-bit bounds are carried. The code only compares and prints these values, so nothing can overflow and there is no wrap-around to model.
- Concurrency: the object is not synchronised, and the model assumes one caller at a time.
- Structure: `Initialize` is split into four helper methods, one for each block of the Go method. The exported fields are held as one `Settings` record rather than as separate class fields.
