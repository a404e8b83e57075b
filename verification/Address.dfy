/** Addresses that a client can connect to: how text becomes an address, how an address becomes text,
    and what is done with an address when a stream or a lookup is asked for. */
module Address {
  import opened Wrappers
  import opened Hostnames
  import opened IpText
  import opened SocketText

  datatype Host = Hostname(name: string) | IpHost(ip: Ip) | Onion(service: string)

  datatype TorAddr = TorAddr(host: Host, port: nat)

  datatype AddrError = InvalidHostname | NoPort | BadPort

  /** What the documentation of `Host` and `TorAddr` demands: a name is never the text of an IP
      address or of an onion service, and the port is not zero. */
  ghost predicate IsHost(h: Host) {
    match h
    case Hostname(n) => IsValidHostname(n) && !HasOnionSuffix(n) && ParseIp(n).None?
    case IpHost(ip) => IsIp(ip)
    case Onion(n) => IsValidHostname(n) && HasOnionSuffix(n)
  }

  ghost predicate WellFormed(a: TorAddr) {
    IsHost(a.host) && 0 < a.port < PORTS
  }

  // ---------------------------------------------------------------------------------------------
  // Text to address
  // ---------------------------------------------------------------------------------------------

  function New(h: Host, port: nat): Result<TorAddr, AddrError> {
    if port == 0 then Err(BadPort) else Ok(TorAddr(h, port))
  }

  function ParseHost(s: string): Call<Result<Host, AddrError>> {
    match EndsWithOnion(s)
    case Panic => Panic
    case Done(onion) => Done(
      if onion && IsValidHostname(s) then Ok(Onion(s))
      else
        match ParseIp(s)
        case Some(ip) => Ok(IpHost(ip))
        case None => if IsValidHostname(s) then Ok(Hostname(s)) else Err(InvalidHostname))
  }

  /** An unsigned 16-bit number in decimal, with a plus sign and zeros in front if need be. */
  function ParsePort(s: string): (p: Option<nat>)
    ensures p.Some? ==> p.value < PORTS && ':' !in s
  {
    var digits := if s != [] && s[0] == '+' then s[1..] else s;
    if digits == [] || !AllDigits(digits, 10) || Value(digits, 10) >= PORTS then None
    else Some(Value(digits, 10))
  }

  /** The last colon before index `n`. */
  function LastColon(s: string, n: nat): (k: Option<nat>)
    requires n <= |s|
    ensures k.Some? ==> k.value < n && s[k.value] == ':' && ':' !in s[k.value + 1..n]
    ensures k.None? <==> ':' !in s[..n]
  {
    if n == 0 then None else if s[n - 1] == ':' then Some(n - 1) else LastColon(s, n - 1)
  }

  function EndName(h: Result<Host, AddrError>, port: string): Result<TorAddr, AddrError> {
    match h
    case Err(e) => Err(e)
    case Ok(host) =>
      match ParsePort(port)
      case None => Err(BadPort)
      case Some(p) => New(host, p)
  }

  function ParseName(s: string): Call<Result<TorAddr, AddrError>> {
    match LastColon(s, |s|)
    case None => Done(Err(NoPort))
    case Some(k) =>
      match ParseHost(s[..k])
      case Panic => Panic
      case Done(h) => Done(EndName(h, s[k + 1..]))
  }

  function Parse(s: string): Call<Result<TorAddr, AddrError>> {
    match ParseSocket(s)
    case Some(sa) => Done(New(IpHost(sa.ip), sa.port))
    case None => ParseName(s)
  }

  /** An address given as a host and a port. */
  function FromParts(host: string, port: nat): Call<Result<TorAddr, AddrError>>
    requires port < PORTS
  {
    match ParseHost(host)
    case Panic => Panic
    case Done(Err(e)) => Done(Err(e))
    case Done(Ok(h)) => Done(New(h, port))
  }

  /** An address given as an IP address and a port. */
  function FromIp(ip: Ip, port: nat): Result<TorAddr, AddrError>
    requires IsIp(ip) && port < PORTS
  {
    New(IpHost(ip), port)
  }

  function PrintHost(h: Host): string
    requires IsHost(h)
  {
    match h case Hostname(n) => n case IpHost(ip) => PrintIp(ip) case Onion(n) => n
  }

  function Print(a: TorAddr): string
    requires IsHost(a.host)
  {
    if a.host.IpHost? && a.host.ip.V6? then "[" + (PrintIpv6(a.host.ip.segments) + ("]" + PrintPort(a.port)))
    else PrintHost(a.host) + PrintPort(a.port)
  }

  // ---------------------------------------------------------------------------------------------
  // What comes of parsing
  // ---------------------------------------------------------------------------------------------

  lemma ParsedHostIsHost(s: string)
    ensures ParseHost(s).Done? && ParseHost(s).value.Ok? ==> IsHost(ParseHost(s).value.value)
  {
  }

  ghost predicate Gives(c: Call<Result<TorAddr, AddrError>>, a: TorAddr) {
    c == Done(Ok(a))
  }

  lemma EndedNameIsWellFormed(h: Result<Host, AddrError>, port: string)
    requires h.Ok? ==> IsHost(h.value)
    ensures EndName(h, port).Ok? ==> WellFormed(EndName(h, port).value)
  {
  }

  lemma ParsedNameIsWellFormed(s: string, a: TorAddr)
    requires Gives(ParseName(s), a)
    ensures WellFormed(a)
  {
    var k := LastColon(s, |s|).value;
    ParsedHostIsHost(s[..k]);
    EndedNameIsWellFormed(ParseHost(s[..k]).value, s[k + 1..]);
  }

  /** Every address that is made from text or from its parts is well formed. */
  lemma ParsedIsWellFormed(s: string, a: TorAddr)
    requires Gives(Parse(s), a)
    ensures WellFormed(a)
  {
    match ParseSocket(s)
    case Some(sa) =>
    case None => ParsedNameIsWellFormed(s, a);
  }

  lemma FromPartsIsWellFormed(host: string, port: nat, a: TorAddr)
    requires port < PORTS && Gives(FromParts(host, port), a)
    ensures WellFormed(a)
  {
    ParsedHostIsHost(host);
  }

  // ---------------------------------------------------------------------------------------------
  // Round trips
  // ---------------------------------------------------------------------------------------------

  lemma ParsePrintedPort(port: nat)
    requires port < PORTS
    ensures ParsePort(Numeral(port, 10)) == Some(port)
  {
    NumeralValue(port, 10);
    assert IsDigit(Numeral(port, 10)[0], 10);
  }

  ghost predicate IsName(h: Host) {
    h.Hostname? || h.Onion?
  }

  lemma ParsePrintedHost(h: Host)
    requires IsHost(h)
    ensures IsName(h) ==> ParseHost(PrintHost(h)) == Done(Ok(h))
  {
    if IsName(h) {
      ValidNamesDoNotPanic(PrintHost(h));
    }
  }

  /** An onion name ends in a letter that no IP address has. */
  lemma OnionEnd(n: string)
    requires HasOnionSuffix(n)
    ensures Lower(n[|n| - 1]) == 'n'
  {
    var end := n[|n| - |ONION|..];
    assert Lower(end[5]) == Lower(ONION[5]);
  }

  /** The name of a host is never taken for an IPv4 address. */
  lemma NamesAreNotIpv4(h: Host)
    requires IsHost(h) && IsName(h)
    ensures !ReadsWholeIpv4(PrintHost(h))
  {
    var n := PrintHost(h);
    match h
    case Hostname(_) =>
    case Onion(_) =>
      OnionEnd(n);
      assert !DigitsAndDots(n) by {
        assert !IsDigit(n[|n| - 1], 10) && n[|n| - 1] != '.';
      }
      if ReadsWholeIpv4(n) {
        WholeIpv4IsDigitsAndDots(n);
      }
  }

  lemma NamesHaveNoColons(h: Host)
    requires IsHost(h) && IsName(h)
    ensures var n := PrintHost(h); n != [] && n[0] != '[' && ':' !in n
  {
    var n := PrintHost(h);
    assert IsNameChar(n[0]);
    assert forall k | 0 <= k < |n| :: IsNameChar(n[k]);
  }

  lemma {:induction false} LastColonAt(s: string, n: nat, k: nat)
    requires k < n <= |s| && s[k] == ':' && ':' !in s[k + 1..n]
    ensures LastColon(s, n) == Some(k)
  {
    if k < n - 1 {
      assert s[n - 1] == s[k + 1..n][n - k - 2];
      assert s[k + 1..n - 1] == s[k + 1..n][..n - k - 2];
      LastColonAt(s, n - 1, k);
    }
  }

  lemma ParseNameAndPort(n: string, port: string)
    requires ':' !in port
    ensures ParseName(n + (":" + port))
         == match ParseHost(n) case Panic => Panic case Done(h) => Done(EndName(h, port))
  {
    var s := n + (":" + port);
    assert s[|n| + 1..|s|] == port;
    LastColonAt(s, |s|, |n|);
    assert s[..|n|] == n && s[|n| + 1..] == port;
  }

  /** A name, a colon and any text of the port parse to the address. */
  lemma ParseNameText(a: TorAddr, port: string)
    requires WellFormed(a) && IsName(a.host) && ParsePort(port) == Some(a.port)
    ensures Gives(Parse(PrintHost(a.host) + (":" + port)), a)
  {
    var n := PrintHost(a.host);
    NamesHaveNoColons(a.host);
    NamesAreNotIpv4(a.host);
    NamesAreNotSockets(n, port);
    ParseNameAndPort(n, port);
    ParsePrintedHost(a.host);
  }

  /** Printing an address and parsing the text gives the address back. */
  lemma RoundTrip(a: TorAddr)
    requires WellFormed(a)
    ensures Gives(Parse(Print(a)), a)
  {
    match a.host
    case IpHost(V4(o)) => ParsePrintedV4(o, a.port);
    case IpHost(V6(g)) => ParsePrintedV6(g, a.port);
    case _ =>
      ParsePrintedPort(a.port);
      ParseNameText(a, Numeral(a.port, 10));
  }


  /** Printing is injective: addresses that print alike are the same. */
  lemma PrintIsInjective(a: TorAddr, b: TorAddr)
    requires WellFormed(a) && WellFormed(b) && Print(a) == Print(b)
    ensures a == b
  {
    RoundTrip(a);
    RoundTrip(b);
  }

  /** Whatever text an address came from, its printed form is another text of it. */
  lemma NormalForm(s: string, a: TorAddr)
    requires Gives(Parse(s), a)
    ensures WellFormed(a) && Gives(Parse(Print(a)), a)
  {
    ParsedIsWellFormed(s, a);
    RoundTrip(a);
  }

  lemma IpTextIsNotOnion(ip: Ip)
    requires IsIp(ip)
    ensures EndsWithOnion(PrintIp(ip)) == Done(false)
  {
    var s := PrintIp(ip);
    PrintedIpChars(ip);
    if |s| > |ONION| {
      assert IsSocketChar(s[|s| - |ONION|]);
    }
    if HasOnionSuffix(s) {
      assert IsSocketChar(s[|s| - 1]);
      OnionEnd(s);
    }
  }

  /** The host of an address, printed, and the port give the address back too. */
  lemma PartsRoundTrip(a: TorAddr)
    requires WellFormed(a)
    ensures Gives(FromParts(PrintHost(a.host), a.port), a)
  {
    ParsePrintedHost(a.host);
    if a.host.IpHost? {
      IpTextIsNotOnion(a.host.ip);
      ParsePrintedIp(a.host.ip);
    }
  }

  /** An IP address and a port give a well-formed address unless the port is zero, and it is the one
      that the text of the IP address and the port give. */
  lemma FromIpIsWellFormed(ip: Ip, port: nat)
    requires IsIp(ip) && port < PORTS
    ensures FromIp(ip, port) == if port == 0 then Err(BadPort) else Ok(TorAddr(IpHost(ip), port))
    ensures port > 0 ==> WellFormed(FromIp(ip, port).value)
    ensures FromParts(PrintIp(ip), port) == Done(FromIp(ip, port))
  {
    IpTextIsNotOnion(ip);
    ParsePrintedIp(ip);
  }

  // ---------------------------------------------------------------------------------------------
  // Which texts give what
  // ---------------------------------------------------------------------------------------------

  lemma SplitAtColon(s: string, k: nat)
    requires k < |s| && s[k] == ':'
    ensures s == s[..k] + (":" + s[k + 1..])
  {
  }

  lemma ParsedNameHost(s: string)
    ensures var c := ParseHost(s);
            c.Done? && c.value.Ok? && IsName(c.value.value) ==> PrintHost(c.value.value) == s
  {
  }

  lemma EndedNameParts(h: Result<Host, AddrError>, port: string, a: TorAddr)
    requires EndName(h, port) == Ok(a)
    ensures h == Ok(a.host) && ParsePort(port) == Some(a.port)
  {
  }

  lemma NameTextSplits(s: string, a: TorAddr) returns (port: string)
    requires IsName(a.host) && IsHost(a.host) && Gives(ParseName(s), a)
    ensures ParsePort(port) == Some(a.port) && s == PrintHost(a.host) + (":" + port)
  {
    var k := LastColon(s, |s|).value;
    port := s[k + 1..];
    EndedNameParts(ParseHost(s[..k]).value, port, a);
    ParsedNameHost(s[..k]);
    SplitAtColon(s, k);
  }

  /** The texts of an address with a name are the name, a colon and a text of the port. */
  lemma NameTexts(s: string, a: TorAddr)
    requires WellFormed(a) && IsName(a.host)
    ensures Gives(Parse(s), a)
       <==> exists port :: ParsePort(port) == Some(a.port) && s == PrintHost(a.host) + (":" + port)
  {
    if Gives(Parse(s), a) {
      var port := NameTextSplits(s, a);
    }
    if port :| ParsePort(port) == Some(a.port) && s == PrintHost(a.host) + (":" + port) {
      ParseNameText(a, port);
    }
  }

  lemma NoPortInName(s: string)
    ensures ParseName(s) == Done(Err(NoPort)) <==> ':' !in s
  {
    assert s[..|s|] == s;
  }

  /** A text has no port exactly when it has no colon. */
  lemma NoPortIffNoColon(s: string)
    ensures Parse(s) == Done(Err(NoPort)) <==> ':' !in s
  {
    match ParseSocket(s)
    case Some(_) => SocketChars(s);
    case None => NoPortInName(s);
  }

  /** Before the last colon there are more than six bytes, and the sixth from the end is inside a
      character. */
  predicate DividesCharacter(s: string) {
    LastColon(s, |s|).Some? && SuffixDividesCharacter(s[..LastColon(s, |s|).value])
  }

  predicate IsAscii(s: string) {
    forall i | 0 <= i < |s| :: s[i] as int < 0x80
  }

  lemma AsciiDoesNotDivide(s: string)
    requires IsAscii(s)
    ensures !DividesCharacter(s)
  {
    match LastColon(s, |s|)
    case None =>
    case Some(k) =>
      if k > |ONION| {
        assert s[..k][k - |ONION|] == s[k - |ONION|];
      }
  }

  /** Parsing panics exactly when the text before its last colon is divided inside a character. */
  lemma PanicsIff(s: string)
    ensures Parse(s) == Panic <==> DividesCharacter(s)
  {
    match ParseSocket(s)
    case None =>
    case Some(_) =>
      SocketChars(s);
      AsciiDoesNotDivide(s);
  }

  lemma AsciiNeverPanics(s: string)
    requires IsAscii(s)
    ensures Parse(s) != Panic
  {
    PanicsIff(s);
    AsciiDoesNotDivide(s);
  }

  /** A valid UTF-8 text that makes parsing panic: an e with an acute accent, five digits and a port. */
  lemma PanicExample(s: string)
    requires s == [0xC3 as char, 0xA9 as char] + "12345:80"
    ensures Parse(s) == Panic
  {
    LastColonAt(s, |s|, 7);
    assert s[..7][1] == 0xA9 as char;
    PanicsIff(s);
  }

  // ---------------------------------------------------------------------------------------------
  // Using an address
  // ---------------------------------------------------------------------------------------------

  /** The configuration and the preference that a stream is opened with. */
  datatype Config = Config(allowLocalAddrs: bool, allowOnionAddrs: bool)

  datatype Prefs = Auto | Explicit(connectToOnionServices: bool)

  datatype ErrorDetail =
    | LocalAddress
    | BadHostname
    | OnionAddressNotSupported
    | OnionAddressDisabled
    | OnionAddressResolveRequest
    | BadServiceId

  /** What the type of a host says, whatever name it holds. */
  ghost predicate IsHostValue(h: Host) {
    h.IpHost? ==> IsIp(h.ip)
  }

  predicate IsLocal(h: Host)
    requires IsHostValue(h)
  {
    match h
    case Hostname(n) => EqualsIgnoringCase(n, "localhost")
    case IpHost(V4(o)) =>
      || o[0] == 127
      || o[0] == 10
      || (o[0] == 172 && 16 <= o[1] <= 31)
      || (o[0] == 192 && o[1] == 168)
    case IpHost(V6(g)) => g == [0, 0, 0, 0, 0, 0, 0, 1]
    case Onion(_) => false
  }

  predicate OnionAllowed(cfg: Config, prefs: Prefs) {
    match prefs case Auto => cfg.allowOnionAddrs case Explicit(b) => b
  }

  function EnforceConfig(h: Host, cfg: Config, prefs: Prefs): Result<Unit, ErrorDetail>
    requires IsHostValue(h)
  {
    if !cfg.allowLocalAddrs && IsLocal(h) then Err(LocalAddress)
    else if h.Hostname? && !IsValidHostname(h.name) then Err(BadHostname)
    else if h.Hostname? && EndsWithOnion(h.name) == Done(true) then Err(OnionAddressNotSupported)
    else if h.Onion? && !OnionAllowed(cfg, prefs) then Err(OnionAddressDisabled)
    else Ok(Unit)
  }

  datatype StreamInstructions =
    | ExitStream(target: string, port: nat)
    | ServiceStream(id: nat, vhost: string, port: nat)

  /** `parseId` is the parser of service identities. */
  function IntoStream(a: TorAddr, cfg: Config, prefs: Prefs, parseId: string -> Option<nat>)
    : Result<StreamInstructions, ErrorDetail>
    requires WellFormed(a)
  {
    match EnforceConfig(a.host, cfg, prefs)
    case Err(e) => Err(e)
    case Ok(_) =>
      match a.host
      case Hostname(n) => Ok(ExitStream(n, a.port))
      case IpHost(ip) => Ok(ExitStream(PrintIp(ip), a.port))
      case Onion(n) =>
        match parseId(n[ServiceStart(n)..])
        case None => Err(BadServiceId)
        case Some(id) => Ok(ServiceStream(id, n, a.port))
  }

  datatype ResolveInstructions = AskExit(target: string) | Return(addrs: seq<Ip>)

  function IntoResolve(a: TorAddr, cfg: Config, prefs: Prefs): Result<ResolveInstructions, ErrorDetail>
    requires WellFormed(a)
  {
    var enforced := EnforceConfig(a.host, cfg, prefs);
    match a.host
    case Onion(_) => Err(OnionAddressResolveRequest)
    case Hostname(n) => if enforced.Err? then Err(enforced.error) else Ok(AskExit(n))
    case IpHost(ip) => if enforced.Err? then Err(enforced.error) else Ok(Return([ip]))
  }

  /** For a host that keeps its invariant the configuration alone decides, and the two rejections of
      a malformed name do not occur. */
  lemma EnforcedByConfigAlone(h: Host, cfg: Config, prefs: Prefs)
    requires IsHost(h)
    ensures EnforceConfig(h, cfg, prefs)
         == if IsLocal(h) && !cfg.allowLocalAddrs then Err(LocalAddress)
            else if h.Onion? && !OnionAllowed(cfg, prefs) then Err(OnionAddressDisabled)
            else Ok(Unit)
  {
    if h.Hostname? {
      ValidNamesDoNotPanic(h.name);
    }
  }

  /** Those two rejections are what a name meets that is malformed or an onion name, and no other does.
      The rest of the invariant, that a name is not an IP address, is not looked at again. */
  lemma MalformedNamesAreRefused(n: string, cfg: Config, prefs: Prefs)
    requires cfg.allowLocalAddrs
    ensures EnforceConfig(Hostname(n), cfg, prefs).Ok? <==> IsValidHostname(n) && !HasOnionSuffix(n)
    ensures EnforceConfig(Hostname(n), cfg, prefs).Ok? && ParseIp(n).None? <==> IsHost(Hostname(n))
  {
    if IsValidHostname(n) {
      ValidNamesDoNotPanic(n);
    }
  }

  /** Whatever text an address was parsed from, using it does not meet those rejections. */
  lemma ParsedAddressIsUsable(s: string, a: TorAddr, cfg: Config, prefs: Prefs)
    requires Gives(Parse(s), a)
    ensures IsHost(a.host)
    ensures EnforceConfig(a.host, cfg, prefs) != Err(BadHostname)
    ensures EnforceConfig(a.host, cfg, prefs) != Err(OnionAddressNotSupported)
  {
    ParsedIsWellFormed(s, a);
    EnforcedByConfigAlone(a.host, cfg, prefs);
  }

  /** The host that an exit is asked for is the host of the address, as text. */
  lemma ExitTargetDenotesAddress(a: TorAddr, cfg: Config, prefs: Prefs, parseId: string -> Option<nat>)
    requires WellFormed(a) && IntoStream(a, cfg, prefs, parseId).Ok?
    ensures match IntoStream(a, cfg, prefs, parseId).value
            case ExitStream(target, port) => !a.host.Onion? && port < PORTS && Gives(FromParts(target, port), a)
            case ServiceStream(_, vhost, port) => a == TorAddr(Onion(vhost), port)
  {
    PartsRoundTrip(a);
  }

  /** The service that a stream is opened to is named by a whole label of the name and the onion
      suffix that follows it. */
  lemma ServiceIdIsOneLabel(a: TorAddr, cfg: Config, prefs: Prefs, parseId: string -> Option<nat>)
    returns (before: string, part: string, suffix: string)
    requires WellFormed(a) && IntoStream(a, cfg, prefs, parseId).Ok? && a.host.Onion?
    ensures a.host.service == before + (part + suffix) && (before == [] || before[|before| - 1] == '.')
    ensures IsLabel(part) && '.' !in part && EqualsIgnoringCase(suffix, ONION)
    ensures Some(IntoStream(a, cfg, prefs, parseId).value.id) == parseId(part + suffix)
  {
    before, part, suffix := ServiceSplits(a.host.service);
  }

  /** Looking up an onion name fails with its own error under every configuration; any other address
      is looked up exactly when a stream to it would be allowed. */
  lemma ResolveFollowsConfig(a: TorAddr, cfg: Config, prefs: Prefs, parseId: string -> Option<nat>)
    requires WellFormed(a)
    ensures a.host.Onion? ==> IntoResolve(a, cfg, prefs) == Err(OnionAddressResolveRequest)
    ensures !a.host.Onion? ==> (IntoResolve(a, cfg, prefs).Ok? <==> IntoStream(a, cfg, prefs, parseId).Ok?)
    ensures !a.host.Onion? && IntoStream(a, cfg, prefs, parseId).Err? ==>
              IntoResolve(a, cfg, prefs) == Err(LocalAddress)
    ensures match IntoResolve(a, cfg, prefs)
            case Ok(AskExit(target)) => a.host == Hostname(target)
            case Ok(Return(addrs)) => |addrs| == 1 && a.host == IpHost(addrs[0])
            case Err(_) => true
  {
    EnforcedByConfigAlone(a.host, cfg, prefs);
  }

  // ---------------------------------------------------------------------------------------------
  // The details
  // ---------------------------------------------------------------------------------------------

  /** A number as text: a plus sign or none, zeros, and the numeral. */
  function PortText(n: nat, zeros: nat, plus: bool): string {
    if plus then "+" + (ZeroDigits(zeros) + Numeral(n, 10)) else ZeroDigits(zeros) + Numeral(n, 10)
  }

  /** The texts of a port are those, and no others. */
  lemma PortTexts(s: string, n: nat)
    requires n < PORTS
    ensures ParsePort(s) == Some(n) <==> exists zeros: nat, plus :: s == PortText(n, zeros, plus)
  {
    if ParsePort(s) == Some(n) {
      var plus := s != [] && s[0] == '+';
      var digits := if plus then s[1..] else s;
      var zeros := DigitsAreNumeral(digits);
      assert plus ==> s == "+" + digits;
      assert s == PortText(n, zeros, plus);
    }
    if zeros: nat, plus :| s == PortText(n, zeros, plus) {
      PortTextParses(n, zeros, plus);
    }
  }

  lemma PortTextParses(n: nat, zeros: nat, plus: bool)
    requires n < PORTS
    ensures ParsePort(PortText(n, zeros, plus)) == Some(n)
  {
    var digits := ZeroDigits(zeros) + Numeral(n, 10);
    NumeralValue(n, 10);
    ValueAfterZeros(zeros, Numeral(n, 10));
    assert IsDigit(digits[0], 10);
    assert plus ==> PortText(n, zeros, plus)[1..] == digits;
  }

  /** What is said of a host and a port that are not a socket address: the host is looked at first. */
  lemma NameErrors(n: string, port: string)
    requires ':' !in port && ParseSocket(n + (":" + port)).None? && !SuffixDividesCharacter(n)
    ensures var r := Parse(n + (":" + port));
            && (r == Done(Err(InvalidHostname)) <==> !IsValidHostname(n) && ParseIp(n).None?)
            && (r == Done(Err(BadPort)) <==>
                  (IsValidHostname(n) || ParseIp(n).Some?) && (ParsePort(port).None? || ParsePort(port) == Some(0)))
  {
    ParseNameAndPort(n, port);
  }

  /** A socket address is refused only for a port of zero. */
  lemma SocketErrors(s: string)
    requires ParseSocket(s).Some?
    ensures Parse(s) == if ParseSocket(s).value.port == 0 then Done(Err(BadPort))
                        else Done(Ok(TorAddr(IpHost(ParseSocket(s).value.ip), ParseSocket(s).value.port)))
  {
  }

  /** The octets as one number of 32 bits. */
  function Word(o: seq<nat>): nat
    requires |o| == 4
  {
    ((o[0] * 256 + o[1]) * 256 + o[2]) * 256 + o[3]
  }

  /** The local IPv4 addresses are the loopback network 127.0.0.0/8 and the private networks 10.0.0.0/8,
      172.16.0.0/12 and 192.168.0.0/16 (section 3 of RFC 1918). */
  lemma LocalNetworks(o: seq<nat>)
    requires IsIp(V4(o))
    ensures IsLocal(IpHost(V4(o)))
       <==> || Word(o) / 0x100_0000 == 127 || Word(o) / 0x100_0000 == 10
            || Word(o) / 0x10_0000 == 172 * 16 + 1 || Word(o) / 0x1_0000 == 192 * 256 + 168
  {
    assert Word(o) / 0x1_0000 == o[0] * 256 + o[1];
    assert Word(o) / 0x100_0000 == o[0];
    assert Word(o) / 0x10_0000 == o[0] * 16 + o[1] / 16;
  }

  lemma OtherLocals(n: string, g: seq<nat>)
    requires IsIp(V6(g))
    ensures IsLocal(Hostname(n)) <==> EqualsIgnoringCase(n, "localhost")
    ensures IsLocal(IpHost(V6(g))) <==> g[7] == 1 && forall i | 0 <= i < 7 :: g[i] == 0
    ensures !IsLocal(Onion(n))
  {
    if g[7] == 1 && forall i | 0 <= i < 7 :: g[i] == 0 {
      assert g == [0, 0, 0, 0, 0, 0, 0, 1];
    }
  }

  /** The preference of a stream decides about onion names, and the configuration only where it does not. */
  lemma OnionSetting(n: string, local: bool, allow: bool)
    ensures EnforceConfig(Onion(n), Config(local, allow), Explicit(true)) == Ok(Unit)
    ensures EnforceConfig(Onion(n), Config(local, allow), Explicit(false)) == Err(OnionAddressDisabled)
    ensures EnforceConfig(Onion(n), Config(local, allow), Auto) == if allow then Ok(Unit) else Err(OnionAddressDisabled)
  {
  }
}
