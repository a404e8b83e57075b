/** Whole strings as IP addresses and as socket addresses, the way Rust's standard library parses
    them.  An alternative that reads a prefix of the string shuts out the later alternatives, even
    where the rest of the string then makes the parse fail. */
module SocketText {
  import opened Wrappers
  import opened IpText

  function PrintIp(ip: Ip): string
    requires IsIp(ip)
  {
    match ip case V4(o) => PrintIpv4(o) case V6(g) => PrintIpv6(g)
  }

  function ParseIpv6(s: string): (ip: Option<Ip>)
    ensures ip.Some? ==> IsIp(ip.value)
  {
    match ReadIpv6(s)
    case None => None
    case Some((g, rest)) => if rest == [] then Some(V6(g)) else None
  }

  function ParseIp(s: string): (ip: Option<Ip>)
    ensures ip.Some? ==> IsIp(ip.value)
  {
    match ReadIpv4(s)
    case Some((o, rest)) => if rest == [] then Some(V4(o)) else None
    case None => ParseIpv6(s)
  }

  const PORTS: nat := 65536
  const SCOPES: nat := 0x1_0000_0000

  function ReadPort(s: string): (p: Option<(nat, string)>)
    ensures p.Some? ==> p.value.0 < PORTS
  {
    if s != [] && s[0] == ':' then ReadNumber(s[1..], 10, None, true, PORTS) else None
  }

  /** What follows the scope identifier, if there is one. */
  function AfterScope(s: string): string {
    if s != [] && s[0] == '%' then
      match ReadNumber(s[1..], 10, None, true, SCOPES)
      case None => s
      case Some((_, rest)) => rest
    else s
  }

  datatype Socket = Socket(ip: Ip, port: nat)

  ghost predicate IsSocket(a: Socket) {
    IsIp(a.ip) && a.port < PORTS
  }

  /** The port after an address, which must end the string. */
  function EndSocket(ip: Ip, s: string): (p: Option<(Socket, string)>)
    requires IsIp(ip)
    ensures p.Some? ==> IsSocket(p.value.0)
  {
    match ReadPort(s)
    case None => None
    case Some((port, rest)) => Some((Socket(ip, port), rest))
  }

  function ReadSocketV4(s: string): (p: Option<(Socket, string)>)
    ensures p.Some? ==> IsSocket(p.value.0)
  {
    match ReadIpv4(s)
    case None => None
    case Some((o, rest)) => EndSocket(V4(o), rest)
  }

  function AfterAddress(ip: Ip, s: string): (p: Option<(Socket, string)>)
    requires IsIp(ip)
    ensures p.Some? ==> IsSocket(p.value.0)
  {
    var rest := AfterScope(s);
    if rest != [] && rest[0] == ']' then EndSocket(ip, rest[1..]) else None
  }

  function ReadSocketV6(s: string): (p: Option<(Socket, string)>)
    ensures p.Some? ==> IsSocket(p.value.0)
  {
    if s == [] || s[0] != '[' then None
    else
      match ReadIpv6(s[1..])
      case None => None
      case Some((g, rest)) => AfterAddress(V6(g), rest)
  }

  function Whole(p: Option<(Socket, string)>): (a: Option<Socket>) {
    match p case None => None case Some((a, rest)) => if rest == [] then Some(a) else None
  }

  function ParseSocket(s: string): (a: Option<Socket>)
    ensures a.Some? ==> IsSocket(a.value)
  {
    match ReadSocketV4(s)
    case Some(_) => Whole(ReadSocketV4(s))
    case None => Whole(ReadSocketV6(s))
  }

  // ---------------------------------------------------------------------------------------------
  // Printed addresses parse
  // ---------------------------------------------------------------------------------------------

  function PrintPort(port: nat): string {
    ":" + Numeral(port, 10)
  }

  lemma ReadPrintedPort(ip: Ip, port: nat)
    requires IsIp(ip) && port < PORTS
    ensures EndSocket(ip, PrintPort(port)) == Some((Socket(ip, port), []))
  {
    var n := Numeral(port, 10);
    assert PrintPort(port)[1..] == n && n + [] == n;
    ReadNumeral(port, 10, [], None, true, PORTS);
  }

  /** A printed IPv4 address and port parse. */
  lemma ParsePrintedV4(o: seq<nat>, port: nat)
    requires IsIp(V4(o)) && port < PORTS
    ensures ParseSocket(PrintIpv4(o) + PrintPort(port)) == Some(Socket(V4(o), port))
  {
    ReadPrintedIpv4(o, PrintPort(port));
    ReadPrintedPort(V4(o), port);
  }

  lemma AfterBracket(ip: Ip, s: string)
    requires IsIp(ip)
    ensures AfterAddress(ip, "]" + s) == EndSocket(ip, s)
  {
    assert ("]" + s)[1..] == s;
  }

  lemma ReadBracketed(s: string, v: string, g: seq<nat>, rest: string)
    requires IsIp(V6(g)) && s != [] && s[0] == '[' && s[1..] == v && ReadsToIpv6(v, g, rest)
    ensures ReadSocketV6(s) == AfterAddress(V6(g), rest)
  {
  }

  lemma BracketIsNotV4(s: string)
    requires s != [] && s[0] == '['
    ensures ReadSocketV4(s).None?
  {
    NoOctetAt(s);
  }

  /** A printed IPv6 address in brackets and port parse. */
  lemma ParsePrintedV6(g: seq<nat>, port: nat)
    requires IsIp(V6(g)) && port < PORTS
    ensures ParseSocket("[" + (PrintIpv6(g) + ("]" + PrintPort(port)))) == Some(Socket(V6(g), port))
  {
    var v := PrintIpv6(g) + ("]" + PrintPort(port));
    ReadPrintedIpv6(g, "]" + PrintPort(port));
    ReadPrintedPort(V6(g), port);
    AfterBracket(V6(g), PrintPort(port));
    assert ("[" + v)[1..] == v;
    ReadBracketed("[" + v, v, g, "]" + PrintPort(port));
    BracketIsNotV4("[" + v);
  }

  lemma FirstGroupIsNotV4(n: nat, s: string, t: string)
    requires EndsGroup(t) && s == PrintGroup(n, 0) + t
    ensures ReadIpv4(s).None?
  {
    GroupIsNotIpv4(n, t);
  }

  lemma NoGroupIsNotV4(t: string)
    requires EndsGroups(t)
    ensures ReadIpv4(PrintGroups([], 0) + t).None?
  {
    assert PrintGroups([], 0) + t == t;
    NoOctetAt(t);
  }

  lemma PrintedGroupsAreNotV4(g: seq<nat>, t: string)
    requires EndsGroups(t)
    ensures ReadIpv4(PrintGroups(g, 0) + t).None?
  {
    if g == [] {
      NoGroupIsNotV4(t);
    } else {
      SplitPrintedGroups(g, 0, t);
      FirstGroupIsNotV4(g[0], PrintGroups(g, 0) + t, PrintGroups(g[1..], 1) + t);
    }
  }

  /** No printed IPv6 address starts like an IPv4 address. */
  lemma PrintedV6IsNotV4(g: seq<nat>)
    requires IsIp(V6(g))
    ensures ReadIpv4(PrintIpv6(g)).None?
  {
    if IsIpv4Mapped(g) {
      NoOctetAt(PrintIpv6(g));
    } else {
      var z := LongestZeros(g);
      if z.len > 1 {
        PrintedGroupsAreNotV4(g[..z.start], "::" + PrintGroups(g[z.start + z.len..], 0));
      } else {
        PrintedGroupsAreNotV4(g, []);
        assert PrintGroups(g, 0) + [] == PrintGroups(g, 0);
      }
    }
  }

  lemma ParseWholeIpv6(s: string, g: seq<nat>)
    requires ReadsToIpv6(s, g, [])
    ensures ParseIpv6(s) == Some(V6(g))
  {
  }

  /** Every printed address parses back to itself. */
  lemma ParsePrintedIp(ip: Ip)
    requires IsIp(ip)
    ensures ParseIp(PrintIp(ip)) == Some(ip)
  {
    var s := PrintIp(ip);
    assert s + [] == s;
    match ip
    case V4(o) => ReadPrintedIpv4(o, []);
    case V6(g) =>
      PrintedV6IsNotV4(g);
      ReadPrintedIpv6(g, []);
      ParseWholeIpv6(s, g);
  }

  // ---------------------------------------------------------------------------------------------
  // What does not parse
  // ---------------------------------------------------------------------------------------------

  /** A name that has no colon, followed by a port: the socket parser takes it only if the name alone
      is an IPv4 address. */
  lemma NamesAreNotSockets(name: string, port: string)
    requires name != [] && name[0] != '[' && ':' !in name && !ReadsWholeIpv4(name)
    ensures ParseSocket(name + (":" + port)).None?
  {
    var y := ":" + port;
    var s := name + y;
    assert s[0] == name[0];
    ReadOctetsPrefix(name, y, 0, OCTETS);
    match ReadIpv4(name)
    case None =>
    case Some((o, rest)) =>
      var eaten := ReadOctetsEats(name, 0, OCTETS);
      assert rest != [] && rest[0] == name[|eaten|];
      assert (rest + y)[0] != ':';
  }

  ghost predicate ReadsWholeIpv4(s: string) {
    ReadIpv4(s).Some? && ReadIpv4(s).value.1 == []
  }

  /** Only digits and dots make an IPv4 address. */
  lemma WholeIpv4IsDigitsAndDots(s: string)
    requires ReadsWholeIpv4(s)
    ensures DigitsAndDots(s)
  {
    var eaten := ReadOctetsEats(s, 0, OCTETS);
    assert s == eaten;
  }

  // ---------------------------------------------------------------------------------------------
  // What the readers eat
  // ---------------------------------------------------------------------------------------------

  predicate IsSocketChar(c: char) {
    IsDigit(c, 16) || c == '.' || c == ':' || c == '[' || c == ']' || c == '%'
  }

  predicate AllSocketChars(s: string) {
    forall i | 0 <= i < |s| :: IsSocketChar(s[i])
  }

  /** Reading characters of socket addresses off the front of `s` leaves `t`. */
  ghost predicate Leaves(s: string, t: string) {
    |t| <= |s| && s[|s| - |t|..] == t && AllSocketChars(s[..|s| - |t|])
  }

  lemma LeavesTransitive(s: string, t: string, u: string)
    requires Leaves(s, t) && Leaves(t, u)
    ensures Leaves(s, u)
  {
    assert s[|s| - |u|..] == s[|s| - |t|..][|t| - |u|..];
    assert s[..|s| - |u|] == s[..|s| - |t|] + t[..|t| - |u|];
  }

  lemma LeavesRest(s: string, eaten: string, t: string)
    requires s == eaten + t && AllSocketChars(eaten)
    ensures Leaves(s, t)
  {
    assert s[..|s| - |t|] == eaten;
  }

  lemma LeavesAfterOne(s: string)
    requires s != [] && IsSocketChar(s[0])
    ensures Leaves(s, s[1..])
  {
    LeavesRest(s, [s[0]], s[1..]);
  }

  lemma AfterColonLeaves(s: string, i: nat)
    requires AfterColon(s, i).Some?
    ensures Leaves(s, AfterColon(s, i).value)
  {
  }

  lemma ReadNumberLeaves(s: string, r: Radix, maxDigits: Option<nat>, zeroPrefix: bool, limit: nat)
    requires ReadNumber(s, r, maxDigits, zeroPrefix, limit).Some?
    ensures Leaves(s, ReadNumber(s, r, maxDigits, zeroPrefix, limit).value.1)
  {
    var n := DigitRun(s, r);
    assert AllDigits(s[..n], r);
    LeavesRest(s, s[..n], s[n..]);
  }

  lemma ReadIpv4Leaves(s: string)
    requires ReadIpv4(s).Some?
    ensures Leaves(s, ReadIpv4(s).value.1)
  {
    var eaten := ReadOctetsEats(s, 0, OCTETS);
    LeavesRest(s, eaten, ReadIpv4(s).value.1);
  }

  lemma ReadGroupLeaves(s: string, i: nat)
    requires ReadGroup(s, i).Some?
    ensures Leaves(s, ReadGroup(s, i).value.1)
  {
    var body := AfterColon(s, i).value;
    AfterColonLeaves(s, i);
    ReadNumberLeaves(body, 16, Some(4), true, 65536);
    LeavesTransitive(s, body, ReadGroup(s, i).value.1);
  }

  lemma ReadEmbeddedLeaves(s: string, i: nat)
    requires ReadEmbedded(s, i).Some?
    ensures Leaves(s, ReadEmbedded(s, i).value.1)
  {
    var body := AfterColon(s, i).value;
    AfterColonLeaves(s, i);
    ReadIpv4Leaves(body);
    LeavesTransitive(s, body, ReadEmbedded(s, i).value.1);
  }

  ghost predicate GroupsLeave(s: string, i: nat, limit: nat) {
    i <= limit ==> Leaves(s, ReadGroups(s, i, limit).rest)
  }

  lemma FirstGroupLeaves(s: string, i: nat, limit: nat, n: nat, rest: string)
    requires i < limit && !ReadEmbedded(s, i).Some? && ReadGroup(s, i) == Some((n, rest)) && GroupsLeave(rest, i + 1, limit)
    ensures GroupsLeave(s, i, limit)
  {
    ReadGroupLeaves(s, i);
    LeavesTransitive(s, rest, ReadGroups(rest, i + 1, limit).rest);
  }

  lemma LastGroupLeaves(s: string, i: nat, limit: nat, n: nat, rest: string)
    requires i + 1 == limit && ReadGroup(s, i) == Some((n, rest))
    ensures GroupsLeave(s, i, limit)
  {
    ReadGroupLeaves(s, i);
  }

  lemma {:induction false} ReadGroupsLeave(s: string, i: nat, limit: nat)
    ensures GroupsLeave(s, i, limit)
    decreases limit - i
  {
    if i >= limit {
    } else if i < limit - 1 && ReadEmbedded(s, i).Some? {
      ReadEmbeddedLeaves(s, i);
    } else {
      match ReadGroup(s, i)
      case None =>
      case Some((n, rest)) =>
        if i + 1 == limit {
          LastGroupLeaves(s, i, limit, n, rest);
        } else {
          ReadGroupsLeave(rest, i + 1, limit);
          FirstGroupLeaves(s, i, limit, n, rest);
        }
    }
  }

  lemma AfterColonsLeaves(s: string)
    requires "::" <= s
    ensures Leaves(s, s[2..])
  {
    LeavesRest(s, "::", s[2..]);
  }

  lemma ReadTailLeaves(head: Groups)
    requires |head.groups| <= 8 && AreGroups(head.groups) && ReadTail(head).Some?
    ensures Leaves(head.rest, ReadTail(head).value.1)
  {
    if |head.groups| < 8 {
      var rest := head.rest[2..];
      AfterColonsLeaves(head.rest);
      ReadGroupsLeave(rest, 0, GROUPS - 1 - |head.groups|);
      LeavesTransitive(head.rest, rest, ReadTail(head).value.1);
    }
  }

  lemma ReadIpv6Leaves(s: string)
    requires ReadIpv6(s).Some?
    ensures Leaves(s, ReadIpv6(s).value.1)
  {
    ReadGroupsLeave(s, 0, GROUPS);
    ReadTailLeaves(ReadGroups(s, 0, GROUPS));
    LeavesTransitive(s, ReadGroups(s, 0, GROUPS).rest, ReadIpv6(s).value.1);
  }

  lemma AfterScopeLeaves(s: string)
    ensures Leaves(s, AfterScope(s))
  {
    if s != [] && s[0] == '%' && ReadNumber(s[1..], 10, None, true, SCOPES).Some? {
      LeavesAfterOne(s);
      ReadNumberLeaves(s[1..], 10, None, true, SCOPES);
      LeavesTransitive(s, s[1..], AfterScope(s));
    }
  }

  /** A colon and the port leave what they leave. */
  ghost predicate PortAfter(s: string, t: string) {
    ':' in s && Leaves(s, t)
  }

  lemma EndSocketLeaves(ip: Ip, s: string)
    requires IsIp(ip) && EndSocket(ip, s).Some?
    ensures PortAfter(s, EndSocket(ip, s).value.1)
  {
    LeavesAfterOne(s);
    ReadNumberLeaves(s[1..], 10, None, true, PORTS);
    LeavesTransitive(s, s[1..], EndSocket(ip, s).value.1);
  }

  lemma BeforePort(s: string, t: string, u: string)
    requires Leaves(s, t) && PortAfter(t, u)
    ensures PortAfter(s, u)
  {
    LeavesTransitive(s, t, u);
    var k: nat :| k < |t| && t[k] == ':';
    assert s[|s| - |t| + k] == ':';
  }

  lemma AfterAddressLeaves(ip: Ip, s: string)
    requires IsIp(ip) && AfterAddress(ip, s).Some?
    ensures PortAfter(s, AfterAddress(ip, s).value.1)
  {
    var rest := AfterScope(s);
    AfterScopeLeaves(s);
    LeavesAfterOne(rest);
    EndSocketLeaves(ip, rest[1..]);
    BeforePort(rest, rest[1..], AfterAddress(ip, s).value.1);
    BeforePort(s, rest, AfterAddress(ip, s).value.1);
  }

  lemma SocketV4Leaves(s: string)
    requires ReadSocketV4(s).Some?
    ensures PortAfter(s, ReadSocketV4(s).value.1)
  {
    var p := ReadIpv4(s).value;
    ReadIpv4Leaves(s);
    EndSocketLeaves(V4(p.0), p.1);
    BeforePort(s, p.1, ReadSocketV4(s).value.1);
  }

  lemma SocketV6Leaves(s: string)
    requires ReadSocketV6(s).Some?
    ensures PortAfter(s, ReadSocketV6(s).value.1)
  {
    var body := s[1..];
    var p := ReadIpv6(body).value;
    LeavesAfterOne(s);
    ReadIpv6Leaves(body);
    AfterAddressLeaves(V6(p.0), p.1);
    BeforePort(body, p.1, ReadSocketV6(s).value.1);
    BeforePort(s, body, ReadSocketV6(s).value.1);
  }

  lemma LeavesNothing(s: string, t: string)
    requires PortAfter(s, t) && t == []
    ensures ':' in s && AllSocketChars(s)
  {
    assert s[..|s|] == s;
  }

  /** The text of a socket address has a colon and consists of a few ASCII characters. */
  lemma SocketChars(s: string)
    requires ParseSocket(s).Some?
    ensures ':' in s && AllSocketChars(s)
  {
    if ReadSocketV4(s).Some? {
      SocketV4Leaves(s);
      LeavesNothing(s, ReadSocketV4(s).value.1);
    } else {
      SocketV6Leaves(s);
      LeavesNothing(s, ReadSocketV6(s).value.1);
    }
  }

  // ---------------------------------------------------------------------------------------------
  // What is printed
  // ---------------------------------------------------------------------------------------------

  lemma ConcatSocketChars(a: string, b: string)
    requires AllSocketChars(a) && AllSocketChars(b)
    ensures AllSocketChars(a + b)
  {
  }

  lemma NumeralChars(n: nat, r: Radix)
    ensures AllSocketChars(Numeral(n, r))
  {
    assert AllDigits(Numeral(n, r), r);
  }

  lemma {:induction false} PrintedOctetsChars(o: seq<nat>, i: nat)
    requires i <= |o|
    ensures AllSocketChars(PrintOctets(o, i))
    decreases |o| - i
  {
    if i < |o| {
      NumeralChars(o[i], 10);
      PrintedOctetsChars(o, i + 1);
      ConcatSocketChars(PrintOctet(o[i], i), PrintOctets(o, i + 1));
    }
  }

  lemma {:induction false} PrintedGroupsChars(g: seq<nat>, i: nat)
    ensures AllSocketChars(PrintGroups(g, i))
    decreases |g|
  {
    if g != [] {
      NumeralChars(g[0], 16);
      PrintedGroupsChars(g[1..], i + 1);
      ConcatSocketChars(PrintGroup(g[0], i), PrintGroups(g[1..], i + 1));
    }
  }

  /** The text of an IP address consists of the characters of socket addresses too. */
  lemma PrintedIpChars(ip: Ip)
    requires IsIp(ip)
    ensures AllSocketChars(PrintIp(ip))
  {
    match ip
    case V4(o) => PrintedOctetsChars(o, 0);
    case V6(g) =>
      if IsIpv4Mapped(g) {
        PrintedOctetsChars(Octets(g), 0);
        ConcatSocketChars("::ffff:", PrintIpv4(Octets(g)));
      } else {
        var z := LongestZeros(g);
        if z.len > 1 {
          PrintedGroupsChars(g[..z.start], 0);
          PrintedGroupsChars(g[z.start + z.len..], 0);
          ConcatSocketChars("::", PrintGroups(g[z.start + z.len..], 0));
        } else {
          PrintedGroupsChars(g, 0);
        }
      }
  }

  // ---------------------------------------------------------------------------------------------
  // Other texts
  // ---------------------------------------------------------------------------------------------

  /** An IPv4 address has no other text than its printed one. */
  lemma Ipv4HasOneText(s: string, o: seq<nat>)
    requires IsIp(V4(o))
    ensures ParseIp(s) == Some(V4(o)) <==> s == PrintIpv4(o)
  {
    if ParseIp(s) == Some(V4(o)) {
      assert o[0..] == o && |o| == OCTETS;
      OctetsArePrinted(s, o, 0, []);
      assert PrintOctets(o, 0) + [] == PrintOctets(o, 0);
    }
    if s == PrintIpv4(o) {
      ParsePrintedIp(V4(o));
    }
  }

  lemma AfterPrintedScope(scope: nat, t: string)
    requires scope < SCOPES && t != [] && t[0] == ']'
    ensures AfterScope("%" + (Numeral(scope, 10) + t)) == t
  {
    var s := "%" + (Numeral(scope, 10) + t);
    assert s[1..] == Numeral(scope, 10) + t;
    ReadNumeral(scope, 10, t, None, true, SCOPES);
  }

  lemma AfterScopedBracket(ip: Ip, scope: nat, s: string)
    requires IsIp(ip) && scope < SCOPES
    ensures AfterAddress(ip, "%" + (Numeral(scope, 10) + ("]" + s))) == EndSocket(ip, s)
  {
    AfterPrintedScope(scope, "]" + s);
    assert ("]" + s)[1..] == s;
  }

  /** The scope of an IPv6 address is read and dropped. */
  lemma ScopeIsDropped(g: seq<nat>, scope: nat, port: nat)
    requires IsIp(V6(g)) && scope < SCOPES && port < PORTS
    ensures ParseSocket("[" + (PrintIpv6(g) + ("%" + (Numeral(scope, 10) + ("]" + PrintPort(port)))))) == Some(Socket(V6(g), port))
  {
    var t := "%" + (Numeral(scope, 10) + ("]" + PrintPort(port)));
    var v := PrintIpv6(g) + t;
    ReadPrintedIpv6(g, t);
    ReadPrintedPort(V6(g), port);
    AfterScopedBracket(V6(g), scope, PrintPort(port));
    assert ("[" + v)[1..] == v;
    ReadBracketed("[" + v, v, g, t);
    BracketIsNotV4("[" + v);
  }
}
