/** IP addresses as text, the way Rust's standard library reads and prints them: IPv4 in dotted
    decimal without leading zeros, IPv6 by sections 2.2 of RFC 4291 and 4 of RFC 5952.

    A string is a sequence of bytes here, one character per byte.  A reader takes a string and gives
    what it read and the rest of the string, or nothing. */
module IpText {
  import opened Wrappers

  datatype Ip = V4(octets: seq<nat>) | V6(segments: seq<nat>)

  ghost predicate IsIp(ip: Ip) {
    match ip
    case V4(o) => |o| == 4 && forall i | 0 <= i < 4 :: o[i] < 256
    case V6(s) => |s| == 8 && forall i | 0 <= i < 8 :: s[i] < 65536
  }

  // ---------------------------------------------------------------------------------------------
  // Numbers
  // ---------------------------------------------------------------------------------------------

  type Radix = r: int | r == 10 || r == 16 witness 10

  predicate IsDigit(c: char, r: Radix) {
    '0' <= c <= '9' || (r == 16 && ('a' <= c <= 'f' || 'A' <= c <= 'F'))
  }

  function DigitValue(c: char, r: Radix): (n: nat)
    requires IsDigit(c, r)
    ensures n < r
  {
    if '0' <= c <= '9' then (c - '0') as int
    else if 'a' <= c <= 'f' then (c - 'a') as int + 10
    else (c - 'A') as int + 10
  }

  function DigitOf(n: nat, r: Radix): (c: char)
    requires n < r
    ensures IsDigit(c, r) && DigitValue(c, r) == n
  {
    if n < 10 then '0' + n as char else 'a' + (n - 10) as char
  }

  predicate AllDigits(s: string, r: Radix) {
    forall i | 0 <= i < |s| :: IsDigit(s[i], r)
  }

  /** All digits of `n` but the last, and the last; `Extend` puts them together again. */
  function Leading(n: nat, r: Radix): (q: nat)
    ensures n >= r ==> q < n
  {
    if r == 10 then n / 10 else n / 16
  }

  function Last(n: nat, r: Radix): (d: nat)
    ensures d < r
  {
    if r == 10 then n % 10 else n % 16
  }

  function Extend(q: nat, d: nat, r: Radix): nat {
    if r == 10 then 10 * q + d else 16 * q + d
  }

  function Numeral(n: nat, r: Radix): (s: string)
    ensures s != [] && AllDigits(s, r)
  {
    if n < r then [DigitOf(n, r)] else Numeral(Leading(n, r), r) + [DigitOf(Last(n, r), r)]
  }

  function Value(s: string, r: Radix): nat
    requires AllDigits(s, r)
  {
    if s == [] then 0 else Extend(Value(s[..|s| - 1], r), DigitValue(s[|s| - 1], r), r)
  }

  /** How many digits a string starts with. */
  function DigitRun(s: string, r: Radix): (n: nat)
    ensures n <= |s| && AllDigits(s[..n], r)
    ensures n < |s| ==> !IsDigit(s[n], r)
  {
    if s == [] || !IsDigit(s[0], r) then 0 else 1 + DigitRun(s[1..], r)
  }

  /** A number of at most `maxDigits` digits, if that is given, below `limit`. */
  function ReadNumber(s: string, r: Radix, maxDigits: Option<nat>, zeroPrefix: bool, limit: nat): (p: Option<(nat, string)>)
    ensures p.Some? ==> p.value.0 < limit
  {
    var n := DigitRun(s, r);
    if n == 0 then None
    else if maxDigits.Some? && n > maxDigits.value then None
    else if !zeroPrefix && s[0] == '0' && n > 1 then None
    else if Value(s[..n], r) >= limit then None
    else Some((Value(s[..n], r), s[n..]))
  }

  lemma {:induction false} NumeralValue(n: nat, r: Radix)
    ensures Value(Numeral(n, r), r) == n
  {
    if n >= r {
      NumeralValue(Leading(n, r), r);
      assert Numeral(n, r)[..|Numeral(n, r)| - 1] == Numeral(Leading(n, r), r);
    } else {
      assert Numeral(n, r)[..0] == [];
    }
  }

  /** Only the numeral of zero starts with a zero. */
  lemma {:induction false} NumeralStart(n: nat, r: Radix)
    ensures Numeral(n, r)[0] == '0' ==> n == 0 && |Numeral(n, r)| == 1
  {
    if n >= r {
      NumeralStart(Leading(n, r), r);
    }
  }

  /** Short numbers have short numerals. */
  lemma NumeralLength(n: nat)
    ensures n < 256 ==> |Numeral(n, 10)| <= 3
    ensures n < 65536 ==> |Numeral(n, 16)| <= 4
  {
    if n < 256 {
      assert |Numeral(n / 10 / 10, 10)| == 1;
      assert |Numeral(n / 10, 10)| <= 2;
    }
    if n < 65536 {
      assert |Numeral(n / 16 / 16 / 16, 16)| == 1;
      assert |Numeral(n / 16 / 16, 16)| <= 2;
      assert |Numeral(n / 16, 16)| <= 3;
    }
  }

  /** A string that no digit (of any radix), dot or plain continuation of a numeral starts. */
  predicate EndsNumeral(t: string, r: Radix) {
    t == [] || !IsDigit(t[0], r)
  }

  lemma {:induction false} DigitRunOf(s: string, t: string, r: Radix)
    requires AllDigits(s, r) && EndsNumeral(t, r)
    ensures DigitRun(s + t, r) == |s|
  {
    if s == [] {
      assert s + t == t;
    } else {
      assert (s + t)[1..] == s[1..] + t;
      DigitRunOf(s[1..], t, r);
    }
  }

  /** Reading back a printed number. */
  lemma ReadNumeral(n: nat, r: Radix, t: string, maxDigits: Option<nat>, zeroPrefix: bool, limit: nat)
    requires EndsNumeral(t, r) && n < limit
    requires maxDigits.Some? ==> |Numeral(n, r)| <= maxDigits.value
    ensures ReadNumber(Numeral(n, r) + t, r, maxDigits, zeroPrefix, limit) == Some((n, t))
  {
    var s := Numeral(n, r);
    DigitRunOf(s, t, r);
    assert (s + t)[..|s|] == s && (s + t)[|s|..] == t;
    NumeralValue(n, r);
    NumeralStart(n, r);
  }

  lemma {:induction false} DigitRunPrefix(x: string, y: string, r: Radix)
    requires EndsNumeral(y, r)
    ensures DigitRun(x + y, r) == DigitRun(x, r)
  {
    if x == [] {
      assert x + y == y;
    } else if IsDigit(x[0], r) {
      assert (x + y)[1..] == x[1..] + y;
      DigitRunPrefix(x[1..], y, r);
    }
  }

  /** A reader that stops before `y` does not see it. */
  function WithRest<T>(p: Option<(T, string)>, y: string): Option<(T, string)> {
    match p case None => None case Some((v, rest)) => Some((v, rest + y))
  }

  lemma ReadNumberPrefix(x: string, y: string, r: Radix, maxDigits: Option<nat>, zeroPrefix: bool, limit: nat)
    requires EndsNumeral(y, r)
    ensures ReadNumber(x + y, r, maxDigits, zeroPrefix, limit) == WithRest(ReadNumber(x, r, maxDigits, zeroPrefix, limit), y)
  {
    DigitRunPrefix(x, y, r);
    var n := DigitRun(x, r);
    assert (x + y)[..n] == x[..n] && (x + y)[n..] == x[n..] + y;
  }

  lemma Assoc(a: string, b: string, c: string)
    ensures (a + b) + c == a + (b + c)
  {
  }

  // ---------------------------------------------------------------------------------------------
  // IPv4
  // ---------------------------------------------------------------------------------------------

  const OCTETS: nat := 4

  /** Octet number `i`, preceded by a dot unless it is the first. */
  function ReadOctet(s: string, i: nat): (p: Option<(nat, string)>)
    ensures p.Some? ==> p.value.0 < 256
  {
    if i == 0 then ReadNumber(s, 10, Some(3), false, 256)
    else if s == [] || s[0] != '.' then None
    else ReadNumber(s[1..], 10, Some(3), false, 256)
  }

  /** Octets number `i` to `limit - 1`. */
  function ReadOctets(s: string, i: nat, limit: nat): (p: Option<(seq<nat>, string)>)
    requires i <= limit
    ensures p.Some? ==> |p.value.0| == limit - i && forall j | 0 <= j < limit - i :: p.value.0[j] < 256
    decreases limit - i
  {
    if i == limit then Some(([], s))
    else
      match ReadOctet(s, i)
      case None => None
      case Some((n, rest)) =>
        match ReadOctets(rest, i + 1, limit)
        case None => None
        case Some((ns, rest')) => Some(([n] + ns, rest'))
  }

  function ReadIpv4(s: string): (p: Option<(seq<nat>, string)>)
    ensures p.Some? ==> IsIp(V4(p.value.0))
  {
    ReadOctets(s, 0, OCTETS)
  }

  function PrintOctet(n: nat, i: nat): string {
    if i == 0 then Numeral(n, 10) else "." + Numeral(n, 10)
  }

  function PrintOctets(o: seq<nat>, i: nat): string
    requires i <= |o|
    decreases |o| - i
  {
    if i == |o| then [] else PrintOctet(o[i], i) + PrintOctets(o, i + 1)
  }

  function PrintIpv4(o: seq<nat>): string
    requires |o| == 4
  {
    PrintOctets(o, 0)
  }

  lemma ReadPrintedOctet(n: nat, i: nat, t: string)
    requires n < 256 && EndsNumeral(t, 10)
    ensures ReadOctet(PrintOctet(n, i) + t, i) == Some((n, t))
  {
    NumeralLength(n);
    ReadNumeral(n, 10, t, Some(3), false, 256);
    if i > 0 {
      var s := PrintOctet(n, i) + t;
      assert s[0] == '.' && s[1..] == Numeral(n, 10) + t;
    }
  }

  /** Octets printed from number `i` on read back, up to `t`. */
  ghost predicate OctetsReadBack(o: seq<nat>, i: nat, t: string)
    requires i <= |o|
  {
    IsIp(V4(o)) && EndsNumeral(t, 10) ==> ReadOctets(PrintOctets(o, i) + t, i, |o|) == Some((o[i..], t))
  }

  lemma EndsOctet(o: seq<nat>, i: nat, t: string)
    requires 0 < i <= |o| && EndsNumeral(t, 10)
    ensures EndsNumeral(PrintOctets(o, i) + t, 10)
  {
    assert i < |o| ==> PrintOctet(o[i], i)[0] == '.';
  }

  lemma FirstOctetReadsBack(o: seq<nat>, i: nat, t: string)
    requires i < |o| && OctetsReadBack(o, i + 1, t)
    ensures OctetsReadBack(o, i, t)
  {
    if IsIp(V4(o)) && EndsNumeral(t, 10) {
      EndsOctet(o, i + 1, t);
      ReadPrintedOctet(o[i], i, PrintOctets(o, i + 1) + t);
      Assoc(PrintOctet(o[i], i), PrintOctets(o, i + 1), t);
      assert o[i..] == [o[i]] + o[i + 1..];
    }
  }

  lemma {:induction false} ReadPrintedOctets(o: seq<nat>, i: nat, t: string)
    requires i <= |o|
    ensures OctetsReadBack(o, i, t)
    decreases |o| - i
  {
    if i == |o| {
      assert PrintOctets(o, i) + t == t && o[i..] == [];
    } else {
      ReadPrintedOctets(o, i + 1, t);
      FirstOctetReadsBack(o, i, t);
    }
  }

  /** A printed IPv4 address reads back, whatever follows it that is not a digit. */
  lemma ReadPrintedIpv4(o: seq<nat>, t: string)
    requires IsIp(V4(o)) && EndsNumeral(t, 10)
    ensures ReadIpv4(PrintIpv4(o) + t) == Some((o, t))
  {
    ReadPrintedOctets(o, 0, t);
    assert o[0..] == o;
  }

  lemma ReadOctetPrefix(x: string, y: string, i: nat)
    requires y != [] && !IsDigit(y[0], 10) && y[0] != '.'
    ensures ReadOctet(x + y, i) == WithRest(ReadOctet(x, i), y)
  {
    if i == 0 {
      ReadNumberPrefix(x, y, 10, Some(3), false, 256);
    } else if x == [] {
      assert x + y == y;
    } else if x[0] == '.' {
      assert (x + y)[1..] == x[1..] + y;
      ReadNumberPrefix(x[1..], y, 10, Some(3), false, 256);
    }
  }

  /** What follows does not matter to the IPv4 reader if it starts with neither a digit nor a dot. */
  lemma {:induction false} ReadOctetsPrefix(x: string, y: string, i: nat, limit: nat)
    requires i <= limit && y != [] && !IsDigit(y[0], 10) && y[0] != '.'
    ensures ReadOctets(x + y, i, limit) == WithRest(ReadOctets(x, i, limit), y)
    decreases limit - i
  {
    if i < limit {
      ReadOctetPrefix(x, y, i);
      match ReadOctet(x, i)
      case None =>
      case Some((n, rest)) => ReadOctetsPrefix(rest, y, i + 1, limit);
    }
  }

  predicate DigitsAndDots(s: string) {
    forall i | 0 <= i < |s| :: IsDigit(s[i], 10) || s[i] == '.'
  }

  lemma ReadOctetEats(s: string, i: nat) returns (eaten: string)
    requires ReadOctet(s, i).Some?
    ensures s == eaten + ReadOctet(s, i).value.1 && DigitsAndDots(eaten)
  {
    if i == 0 {
      eaten := s[..DigitRun(s, 10)];
    } else {
      var n := DigitRun(s[1..], 10);
      eaten := "." + s[1..][..n];
    }
  }

  /** The IPv4 reader eats digits and dots only. */
  lemma {:induction false} ReadOctetsEats(s: string, i: nat, limit: nat) returns (eaten: string)
    requires i <= limit && ReadOctets(s, i, limit).Some?
    ensures s == eaten + ReadOctets(s, i, limit).value.1 && DigitsAndDots(eaten)
    decreases limit - i
  {
    if i == limit {
      eaten := [];
    } else {
      var first := ReadOctetEats(s, i);
      var more := ReadOctetsEats(ReadOctet(s, i).value.1, i + 1, limit);
      Assoc(first, more, ReadOctets(s, i, limit).value.1);
      eaten := first + more;
    }
  }

  // ---------------------------------------------------------------------------------------------
  // IPv6
  // ---------------------------------------------------------------------------------------------

  /** The string after the colon that precedes group number `i`, if there is one. */
  function AfterColon(s: string, i: nat): Option<string> {
    if i == 0 then Some(s) else if s != [] && s[0] == ':' then Some(s[1..]) else None
  }

  /** The four octets of an IPv4 address as two groups. */
  function PairOctets(p: Option<(seq<nat>, string)>): (q: Option<(seq<nat>, string)>)
    requires p.Some? ==> IsIp(V4(p.value.0))
    ensures q.Some? ==> |q.value.0| == 2 && q.value.0[0] < 65536 && q.value.0[1] < 65536
  {
    match p
    case None => None
    case Some((o, rest)) => Some(([o[0] * 256 + o[1], o[2] * 256 + o[3]], rest))
  }

  /** An IPv4 address in place of the last two groups. */
  function ReadEmbedded(s: string, i: nat): (p: Option<(seq<nat>, string)>)
    ensures p.Some? ==> |p.value.0| == 2 && p.value.0[0] < 65536 && p.value.0[1] < 65536
  {
    match AfterColon(s, i)
    case None => None
    case Some(body) => PairOctets(ReadIpv4(body))
  }

  function ReadGroup(s: string, i: nat): (p: Option<(nat, string)>)
    ensures p.Some? ==> p.value.0 < 65536
  {
    match AfterColon(s, i)
    case None => None
    case Some(body) => ReadNumber(body, 16, Some(4), true, 65536)
  }

  const GROUPS: nat := 8

  predicate AreGroups(g: seq<nat>) {
    forall j | 0 <= j < |g| :: g[j] < 65536
  }

  datatype Groups = Groups(groups: seq<nat>, endsInIpv4: bool, rest: string)

  /** As many groups as there are, from number `i` up to `limit`. */
  function ReadGroups(s: string, i: nat, limit: nat): (g: Groups)
    requires i <= limit
    ensures |g.groups| <= limit - i && AreGroups(g.groups)
    decreases limit - i
  {
    if i == limit then Groups([], false, s)
    else if i < limit - 1 && ReadEmbedded(s, i).Some? then
      Groups(ReadEmbedded(s, i).value.0, true, ReadEmbedded(s, i).value.1)
    else
      match ReadGroup(s, i)
      case None => Groups([], false, s)
      case Some((n, rest)) =>
        var more := ReadGroups(rest, i + 1, limit);
        more.(groups := [n] + more.groups)
  }

  function Zeros(n: nat): (z: seq<nat>)
    ensures |z| == n && forall i | 0 <= i < n :: z[i] == 0
  {
    seq(n, _ => 0)
  }

  /** The address made of the groups before and after a "::". */
  function JoinGroups(head: seq<nat>, tail: Groups): (seq<nat>, string)
    requires |head| + |tail.groups| <= 8
  {
    (head + Zeros(8 - |head| - |tail.groups|) + tail.groups, tail.rest)
  }

  /** What follows the first groups. */
  function ReadTail(head: Groups): (p: Option<(seq<nat>, string)>)
    requires |head.groups| <= 8 && AreGroups(head.groups)
    ensures p.Some? ==> IsIp(V6(p.value.0))
  {
    if |head.groups| == 8 then Some((head.groups, head.rest))
    else if head.endsInIpv4 then None
    else if !("::" <= head.rest) then None
    else Some(JoinGroups(head.groups, ReadGroups(head.rest[2..], 0, GROUPS - 1 - |head.groups|)))
  }

  function ReadIpv6(s: string): (p: Option<(seq<nat>, string)>)
    ensures p.Some? ==> IsIp(V6(p.value.0))
  {
    ReadTail(ReadGroups(s, 0, GROUPS))
  }

  datatype Span = Span(start: nat, len: nat)

  ghost predicate IsZeroSpan(g: seq<nat>, s: Span) {
    s.start + s.len <= |g| && forall i | s.start <= i < s.start + s.len :: g[i] == 0
  }

  /** `r` is a longest run of zeros among those that end by `i`, and the first of them. */
  ghost predicate IsFirstLongest(g: seq<nat>, r: Span, i: nat) {
    && IsZeroSpan(g, r)
    && forall s | IsZeroSpan(g, s) && s.start + s.len <= i ::
         s.len <= r.len && (s.len == r.len > 0 ==> r.start <= s.start)
  }

  /** The loop that looks for the longest run of zeros: `current` is the run that ends before group
      `i`, `longest` the longest run found so far. */
  function ScanZeros(g: seq<nat>, i: nat, current: Span, longest: Span): (r: Span)
    requires i <= |g| && IsFirstLongest(g, longest, i) && longest.start + longest.len <= i
    requires IsZeroSpan(g, current) && (current.len > 0 ==> current.start + current.len == i)
    requires current.len == 0 && i > 0 ==> g[i - 1] != 0
    requires current.len > 0 && current.start > 0 ==> g[current.start - 1] != 0
    ensures IsFirstLongest(g, r, |g|)
    decreases |g| - i
  {
    if i == |g| then longest
    else if g[i] == 0 then
      var current' := Span(if current.len == 0 then i else current.start, current.len + 1);
      ScanZeros(g, i + 1, current', if current'.len > longest.len then current' else longest)
    else
      ScanZeros(g, i + 1, Span(0, 0), longest)
  }

  function LongestZeros(g: seq<nat>): (r: Span)
    ensures IsFirstLongest(g, r, |g|)
  {
    ScanZeros(g, 0, Span(0, 0), Span(0, 0))
  }

  function PrintGroup(n: nat, i: nat): string {
    if i == 0 then Numeral(n, 16) else ":" + Numeral(n, 16)
  }

  /** Groups in lower-case hexadecimal, the first being number `i`, each but number 0 preceded by a
      colon. */
  function PrintGroups(g: seq<nat>, i: nat): string
    decreases |g|
  {
    if g == [] then [] else PrintGroup(g[0], i) + PrintGroups(g[1..], i + 1)
  }

  predicate IsIpv4Mapped(g: seq<nat>) {
    |g| == 8 && g[..5] == [0, 0, 0, 0, 0] && g[5] == 0xffff
  }

  /** The last two groups as four octets. */
  function Octets(g: seq<nat>): (o: seq<nat>)
    requires |g| == 8
    ensures |o| == 4
  {
    [g[6] / 256, g[6] % 256, g[7] / 256, g[7] % 256]
  }

  function PrintIpv6(g: seq<nat>): string
    requires |g| == 8
  {
    if IsIpv4Mapped(g) then
      "::ffff:" + PrintIpv4(Octets(g))
    else
      var z := LongestZeros(g);
      if z.len > 1 then PrintGroups(g[..z.start], 0) + ("::" + PrintGroups(g[z.start + z.len..], 0))
      else PrintGroups(g, 0)
  }

  /** What can follow groups: the end, a bracket, a scope, or the "::" that stands for zeros. */
  predicate EndsGroups(t: string) {
    t == [] || t[0] == ']' || t[0] == '%' || "::" <= t
  }

  lemma NoOctetAt(s: string)
    requires s == [] || !IsDigit(s[0], 10)
    ensures ReadIpv4(s).None?
  {
  }

  /** Reading groups stops where they end. */
  lemma ReadGroupsStops(t: string, i: nat, limit: nat)
    requires EndsGroups(t) && i <= limit
    ensures ReadGroups(t, i, limit) == Groups([], false, t)
  {
    match AfterColon(t, i)
    case None =>
    case Some(body) =>
      assert body == [] || !IsDigit(body[0], 16);
      NoOctetAt(body);
  }

  /** A hexadecimal group is not taken for the start of an IPv4 address. */
  lemma GroupIsNotIpv4(n: nat, t: string)
    requires t == [] || (!IsDigit(t[0], 16) && t[0] != '.')
    ensures ReadIpv4(Numeral(n, 16) + t).None?
  {
    var s := Numeral(n, 16) + t;
    match ReadOctet(s, 0)
    case None =>
    case Some((m, rest)) =>
      var k := DigitRun(s, 10);
      assert rest == s[k..];
      assert rest == [] || rest[0] != '.';
  }

  lemma AfterPrintedColon(n: nat, i: nat, t: string)
    ensures AfterColon(PrintGroup(n, i) + t, i) == Some(Numeral(n, 16) + t)
  {
    if i > 0 {
      Assoc(":", Numeral(n, 16), t);
      assert (":" + (Numeral(n, 16) + t))[1..] == Numeral(n, 16) + t;
    }
  }

  /** A string that can follow a group. */
  predicate EndsGroup(t: string) {
    t == [] || (!IsDigit(t[0], 16) && t[0] != '.')
  }

  /** Reading a printed group, then what follows it. */
  lemma ReadPrintedGroup(n: nat, i: nat, limit: nat, t: string)
    requires n < 65536 && i < limit && EndsGroup(t)
    ensures var more := ReadGroups(t, i + 1, limit);
            ReadGroups(PrintGroup(n, i) + t, i, limit) == more.(groups := [n] + more.groups)
  {
    AfterPrintedColon(n, i, t);
    GroupIsNotIpv4(n, t);
    NumeralLength(n);
    ReadNumeral(n, 16, t, Some(4), true, 65536);
  }

  lemma ReadPrintedGroupThen(n: nat, i: nat, limit: nat, after: string, g: seq<nat>, t: string)
    requires n < 65536 && i < limit && EndsGroup(after)
    requires ReadGroups(after, i + 1, limit) == Groups(g, false, t)
    ensures ReadGroups(PrintGroup(n, i) + after, i, limit) == Groups([n] + g, false, t)
  {
    ReadPrintedGroup(n, i, limit, after);
  }

  lemma SplitPrintedGroups(g: seq<nat>, i: nat, t: string)
    requires g != [] && EndsGroups(t)
    ensures PrintGroups(g, i) + t == PrintGroup(g[0], i) + (PrintGroups(g[1..], i + 1) + t)
    ensures EndsGroup(PrintGroups(g[1..], i + 1) + t)
  {
    Assoc(PrintGroup(g[0], i), PrintGroups(g[1..], i + 1), t);
    if |g| == 1 {
      assert PrintGroups(g[1..], i + 1) + t == t;
    } else {
      assert PrintGroup(g[1..][0], i + 1)[0] == ':';
    }
  }

  /** Groups printed from number `i` on read back, up to `t`. */
  ghost predicate GroupsReadBack(g: seq<nat>, i: nat, limit: nat, t: string) {
    i + |g| <= limit && EndsGroups(t) && AreGroups(g) ==>
      ReadGroups(PrintGroups(g, i) + t, i, limit) == Groups(g, false, t)
  }

  lemma FirstGroupReadsBack(g: seq<nat>, i: nat, limit: nat, t: string)
    requires g != [] && GroupsReadBack(g[1..], i + 1, limit, t)
    ensures GroupsReadBack(g, i, limit, t)
  {
    if i + |g| <= limit && EndsGroups(t) && AreGroups(g) {
      SplitPrintedGroups(g, i, t);
      ReadPrintedGroupThen(g[0], i, limit, PrintGroups(g[1..], i + 1) + t, g[1..], t);
      assert g == [g[0]] + g[1..];
    }
  }

  lemma NoGroupReadsBack(i: nat, limit: nat, t: string)
    ensures GroupsReadBack([], i, limit, t)
  {
    if i <= limit && EndsGroups(t) {
      assert PrintGroups([], i) + t == t;
      ReadGroupsStops(t, i, limit);
    }
  }

  /** Printed groups read back, whatever can follow them. */
  lemma {:induction false} ReadPrintedGroups(g: seq<nat>, i: nat, limit: nat, t: string)
    ensures GroupsReadBack(g, i, limit, t)
    decreases |g|
  {
    if g == [] {
      NoGroupReadsBack(i, limit, t);
    } else {
      ReadPrintedGroups(g[1..], i + 1, limit, t);
      FirstGroupReadsBack(g, i, limit, t);
    }
  }

  lemma TailAfterColons(head: Groups, limit: nat, rest: string)
    requires |head.groups| + limit + 1 == GROUPS && AreGroups(head.groups) && !head.endsInIpv4
    requires "::" <= head.rest && head.rest[2..] == rest
    ensures ReadTail(head) == Some(JoinGroups(head.groups, ReadGroups(rest, 0, limit)))
  {
    assert limit == GROUPS - 1 - |head.groups|;
  }

  /** What reading from group 0 gives, and what the IPv6 reader gives. */
  ghost predicate ReadsTo(s: string, limit: nat, g: Groups) {
    ReadGroups(s, 0, limit) == g
  }

  ghost predicate ReadsToIpv6(s: string, g: seq<nat>, t: string) {
    ReadIpv6(s) == Some((g, t))
  }

  /** What the IPv6 reader makes of the groups before and after a "::". */
  lemma ReadAround(s: string, head: Groups, rest: string, limit: nat, tail: Groups)
    requires |head.groups| + limit + 1 == GROUPS && AreGroups(head.groups) && !head.endsInIpv4
    requires ReadsTo(s, GROUPS, head) && head.rest == "::" + rest
    requires |tail.groups| <= limit && ReadsTo(rest, limit, tail)
    ensures ReadsToIpv6(s, JoinGroups(head.groups, tail).0, tail.rest)
  {
    assert head.rest[2..] == rest;
    TailAfterColons(head, limit, rest);
  }

  lemma GroupsReadTo(g: seq<nat>, limit: nat, s: string, t: string)
    requires |g| <= limit && EndsGroups(t) && AreGroups(g) && s == PrintGroups(g, 0) + t
    ensures ReadsTo(s, limit, Groups(g, false, t))
  {
    ReadPrintedGroups(g, 0, limit, t);
  }

  /** An address with its zeros compressed reads back, wherever the zeros are. */
  lemma ReadPrintedCompressed(head: seq<nat>, limit: nat, tail: seq<nat>, s: string, middle: string, rest: string,
                              t: string)
    requires |head| + limit + 1 == GROUPS && |tail| <= limit && AreGroups(head) && AreGroups(tail) && EndsGroups(t)
    requires s == PrintGroups(head, 0) + middle && middle == "::" + rest && rest == PrintGroups(tail, 0) + t
    ensures ReadsToIpv6(s, JoinGroups(head, Groups(tail, false, t)).0, t)
  {
    GroupsReadTo(head, GROUPS, s, middle);
    GroupsReadTo(tail, limit, rest, t);
    ReadAround(s, Groups(head, false, middle), rest, limit, Groups(tail, false, t));
  }

  /** The octets `o` stand for the last two groups of `g`. */
  ghost predicate AreOctetsOf(o: seq<nat>, g: seq<nat>) {
    |g| == 8 && IsIp(V4(o)) && o[0] * 256 + o[1] == g[6] && o[2] * 256 + o[3] == g[7]
  }

  lemma PairOctetsOf(o: seq<nat>, g: seq<nat>, t: string)
    requires AreOctetsOf(o, g)
    ensures PairOctets(Some((o, t))) == Some(([g[6], g[7]], t))
  {
  }

  ghost predicate ReadsToOctets(v: string, g: seq<nat>, o: seq<nat>, t: string) {
    AreOctetsOf(o, g) && ReadIpv4(v) == Some((o, t))
  }

  lemma ReadEmbeddedOctets(s: string, v: string, i: nat, g: seq<nat>, o: seq<nat>, t: string)
    requires ReadsToOctets(v, g, o, t) && AfterColon(s, i) == Some(v)
    ensures ReadEmbedded(s, i) == Some(([g[6], g[7]], t))
  {
    PairOctetsOf(o, g, t);
  }

  lemma EmbeddedEndsGroups(s: string, i: nat, limit: nat, p: (seq<nat>, string))
    requires i < limit - 1 && ReadEmbedded(s, i) == Some(p)
    ensures ReadGroups(s, i, limit) == Groups(p.0, true, p.1)
  {
  }

  lemma ReadEmbeddedGroups(s: string, v: string, i: nat, limit: nat, g: seq<nat>, o: seq<nat>, t: string)
    requires ReadsToOctets(v, g, o, t) && i < limit - 1 && AfterColon(s, i) == Some(v)
    ensures ReadGroups(s, i, limit) == Groups([g[6], g[7]], true, t)
  {
    ReadEmbeddedOctets(s, v, i, g, o, t);
    EmbeddedEndsGroups(s, i, limit, ([g[6], g[7]], t));
  }

  lemma MappedGroup()
    ensures Numeral(0xffff, 16) == "ffff"
  {
    assert Numeral(0xf, 16) == "f";
    assert Numeral(0xff, 16) == "ff";
    assert Numeral(0xfff, 16) == "fff";
  }

  lemma ReadMappedGroup(n: nat, s: string, limit: nat, more: Groups)
    requires n < 65536 && Numeral(n, 16) == "ffff"
    requires s != [] && s[0] == ':' && 0 < limit && ReadGroups(s, 1, limit) == more
    ensures ReadsTo("ffff" + s, limit, more.(groups := [n] + more.groups))
  {
    ReadPrintedGroup(n, 0, limit, s);
  }

  lemma ReadMappedGroups(n: nat, v: string, c: string, g: seq<nat>, o: seq<nat>, t: string, limit: nat)
    requires n == 0xffff && Numeral(n, 16) == "ffff"
    requires ReadsToOctets(v, g, o, t) && limit + 1 == GROUPS && c != [] && c[0] == ':' && c[1..] == v
    ensures ReadsTo("ffff" + c, limit, Groups([n] + [g[6], g[7]], true, t))
  {
    ReadEmbeddedGroups(c, v, 1, limit, g, o, t);
    ReadMappedGroup(n, c, limit, Groups([g[6], g[7]], true, t));
  }

  lemma JoinMapped(g: seq<nat>, tail: Groups)
    requires IsIpv4Mapped(g) && tail.groups == [0xffff, g[6], g[7]]
    ensures JoinGroups([], tail).0 == g
  {
    assert g == g[..5] + g[5..];
  }

  lemma ReadMappedTail(s: string, rest: string, tail: Groups, limit: nat)
    requires limit + 1 == GROUPS && |tail.groups| <= limit && s == "::" + rest && ReadsTo(rest, limit, tail)
    ensures ReadsToIpv6(s, JoinGroups([], tail).0, tail.rest)
  {
    ReadGroupsStops(s, 0, GROUPS);
    ReadAround(s, Groups([], false, s), rest, limit, tail);
  }

  lemma OctetsOf(g: seq<nat>)
    requires IsIp(V6(g))
    ensures AreOctetsOf(Octets(g), g)
  {
  }

  lemma ReadMappedAddress(s: string, rest: string, g: seq<nat>, tail: Groups, limit: nat)
    requires IsIpv4Mapped(g) && limit + 1 == GROUPS && tail.groups == [0xffff, g[6], g[7]]
    requires ReadsTo(rest, limit, tail) && s == "::" + rest
    ensures ReadsToIpv6(s, g, tail.rest)
  {
    JoinMapped(g, tail);
    ReadMappedTail(s, rest, tail, limit);
  }

  lemma ReadMappedText(v: string, g: seq<nat>, o: seq<nat>, t: string, limit: nat)
    requires IsIpv4Mapped(g) && ReadsToOctets(v, g, o, t) && limit + 1 == GROUPS
    ensures ReadsToIpv6("::" + ("ffff" + (":" + v)), g, t)
  {
    var c := ":" + v;
    MappedGroup();
    assert c[1..] == v;
    ReadMappedGroups(0xffff, v, c, g, o, t, limit);
    ReadMappedAddress("::" + ("ffff" + c), "ffff" + c, g, Groups([0xffff] + [g[6], g[7]], true, t), limit);
  }

  lemma MappedText(v: string, t: string)
    ensures ("::ffff:" + v) + t == "::" + ("ffff" + (":" + (v + t)))
  {
  }

  lemma ReadPrintedMappedOctets(g: seq<nat>, t: string)
    requires IsIp(V6(g)) && EndsNumeral(t, 10)
    ensures ReadsToOctets(PrintIpv4(Octets(g)) + t, g, Octets(g), t)
  {
    OctetsOf(g);
    ReadPrintedIpv4(Octets(g), t);
  }

  /** An IPv4-mapped address reads back. */
  lemma ReadPrintedMapped(g: seq<nat>, t: string, limit: nat)
    requires IsIp(V6(g)) && IsIpv4Mapped(g) && EndsNumeral(t, 10) && limit + 1 == GROUPS
    ensures ReadsToIpv6(PrintIpv6(g) + t, g, t)
  {
    var v := PrintIpv4(Octets(g));
    ReadPrintedMappedOctets(g, t);
    MappedText(v, t);
    ReadMappedText(v + t, g, Octets(g), t, limit);
  }

  lemma JoinSplit(g: seq<nat>, z: Span, t: string)
    requires |g| == 8 && IsZeroSpan(g, z)
    ensures JoinGroups(g[..z.start], Groups(g[z.start + z.len..], false, t)).0 == g
  {
  }

  lemma CompressedText(h: string, v: string, t: string)
    ensures (h + ("::" + v)) + t == h + ("::" + (v + t))
  {
  }

  lemma ReadPrintedZeros(g: seq<nat>, z: Span, t: string)
    requires IsIp(V6(g)) && !IsIpv4Mapped(g) && z == LongestZeros(g) && z.len > 1 && EndsGroups(t)
    ensures ReadsToIpv6(PrintIpv6(g) + t, g, t)
  {
    var head, tail := g[..z.start], g[z.start + z.len..];
    var h, v := PrintGroups(head, 0), PrintGroups(tail, 0);
    CompressedText(h, v, t);
    JoinSplit(g, z, t);
    ReadPrintedCompressed(head, GROUPS - 1 - |head|, tail, h + ("::" + (v + t)), "::" + (v + t), v + t, t);
  }

  lemma ReadAllGroups(s: string, g: seq<nat>, t: string)
    requires |g| == GROUPS && AreGroups(g) && ReadsTo(s, GROUPS, Groups(g, false, t))
    ensures ReadsToIpv6(s, g, t)
  {
  }

  /** A printed IPv6 address reads back, with its zeros compressed or not and mapped or not. */
  lemma ReadPrintedIpv6(g: seq<nat>, t: string)
    requires IsIp(V6(g)) && EndsGroups(t)
    ensures ReadsToIpv6(PrintIpv6(g) + t, g, t)
  {
    if IsIpv4Mapped(g) {
      ReadPrintedMapped(g, t, GROUPS - 1);
    } else {
      var z := LongestZeros(g);
      if z.len > 1 {
        ReadPrintedZeros(g, z, t);
      } else {
        GroupsReadTo(g, GROUPS, PrintGroups(g, 0) + t, t);
        ReadAllGroups(PrintGroups(g, 0) + t, g, t);
      }
    }
  }

  // ---------------------------------------------------------------------------------------------
  // Other texts of numbers
  // ---------------------------------------------------------------------------------------------

  function ZeroDigits(z: nat): (s: string)
    ensures |s| == z && forall i | 0 <= i < z :: s[i] == '0'
  {
    seq(z, _ => '0')
  }

  lemma ExtendNumeral(v: nat, c: char)
    requires IsDigit(c, 10) && v > 0
    ensures Numeral(Extend(v, DigitValue(c, 10), 10), 10) == Numeral(v, 10) + [c]
  {
  }

  /** Decimal digits are zeros and then the numeral of their value. */
  lemma {:induction false} DigitsAreNumeral(d: string) returns (z: nat)
    requires d != [] && AllDigits(d, 10)
    ensures d == ZeroDigits(z) + Numeral(Value(d, 10), 10)
    ensures z == 0 || d[0] == '0'
  {
    var n := |d| - 1;
    var c := d[n];
    if n == 0 {
      assert d[..n] == [] && d == [c];
      z := 0;
      assert ZeroDigits(0) + [c] == [c];
    } else {
      var e := d[..n];
      var y := DigitsAreNumeral(e);
      assert d == e + [c];
      if Value(e, 10) == 0 {
        z := y + 1;
        assert Numeral(0, 10) == "0";
        assert ZeroDigits(y) + "0" == ZeroDigits(z);
      } else {
        z := y;
        ExtendNumeral(Value(e, 10), c);
        Assoc(ZeroDigits(z), Numeral(Value(e, 10), 10), [c]);
      }
    }
  }

  lemma {:induction false} ValueAfterZeros(z: nat, d: string)
    requires AllDigits(d, 10)
    ensures AllDigits(ZeroDigits(z) + d, 10) && Value(ZeroDigits(z) + d, 10) == Value(d, 10)
    decreases |d|, z
  {
    var s := ZeroDigits(z) + d;
    if d != [] {
      assert s[..|s| - 1] == ZeroDigits(z) + d[..|d| - 1];
      ValueAfterZeros(z, d[..|d| - 1]);
    } else if z > 0 {
      assert s[..|s| - 1] == ZeroDigits(z - 1) + d;
      ValueAfterZeros(z - 1, d);
    }
  }

  lemma ShortHexValue(d: string)
    requires AllDigits(d, 16) && |d| <= 4
    ensures Value(d, 16) < 65536
  {
    if |d| > 0 {
      var e := d[..|d| - 1];
      if |e| > 0 {
        var f := e[..|e| - 1];
        if |f| > 0 {
          var g := f[..|f| - 1];
          assert |g| <= 1 && (|g| == 1 ==> g[..0] == []);
          assert Value(g, 16) < 16;
        }
        assert Value(f, 16) < 256;
      }
      assert Value(e, 16) < 4096;
    }
  }

  /** A group may be written with zeros in front and in either case, with at most four digits. */
  lemma GroupTexts(d: string, i: nat, t: string)
    requires d != [] && |d| <= 4 && AllDigits(d, 16) && EndsGroup(t)
    ensures ReadGroup((if i == 0 then d else ":" + d) + t, i) == Some((Value(d, 16), t))
  {
    AfterColonOf(d, i, t);
    ReadHexDigits(d, t);
  }

  lemma AfterColonOf(d: string, i: nat, t: string)
    ensures AfterColon((if i == 0 then d else ":" + d) + t, i) == Some(d + t)
  {
    if i > 0 {
      Assoc(":", d, t);
      assert (":" + (d + t))[1..] == d + t;
    }
  }

  lemma ReadHexDigits(d: string, t: string)
    requires d != [] && |d| <= 4 && AllDigits(d, 16) && EndsNumeral(t, 16)
    ensures ReadNumber(d + t, 16, Some(4), true, 65536) == Some((Value(d, 16), t))
  {
    DigitRunOf(d, t, 16);
    assert (d + t)[..|d|] == d && (d + t)[|d|..] == t;
    ShortHexValue(d);
  }

  lemma HexDigitCase(c: char)
    requires 'A' <= c <= 'F'
    ensures DigitValue(c, 16) == DigitValue((c as int + 32) as char, 16) == c as int - 55
  {
  }

  // ---------------------------------------------------------------------------------------------
  // IPv4 addresses have one text
  // ---------------------------------------------------------------------------------------------

  lemma NumberIsNumeral(s: string, n: nat, rest: string)
    requires ReadNumber(s, 10, Some(3), false, 256) == Some((n, rest))
    ensures s == Numeral(n, 10) + rest
  {
    var k := DigitRun(s, 10);
    var z := DigitsAreNumeral(s[..k]);
    assert s == s[..k] + s[k..];
    assert k == z + |Numeral(n, 10)|;
    assert ZeroDigits(0) + Numeral(n, 10) == Numeral(n, 10);
  }

  lemma OctetIsPrinted(s: string, i: nat, n: nat, rest: string)
    requires ReadOctet(s, i) == Some((n, rest))
    ensures s == PrintOctet(n, i) + rest
  {
    if i == 0 {
      NumberIsNumeral(s, n, rest);
    } else {
      NumberIsNumeral(s[1..], n, rest);
      assert s == ["."[0]] + s[1..];
      Assoc(".", Numeral(n, 10), rest);
    }
  }

  ghost predicate ReadsOctets(s: string, o: seq<nat>, i: nat, rest: string)
    requires i <= |o|
  {
    ReadOctets(s, i, |o|) == Some((o[i..], rest))
  }

  lemma FirstOctetOf(s: string, o: seq<nat>, i: nat, rest: string) returns (more: string)
    requires i < |o| && ReadsOctets(s, o, i, rest)
    ensures ReadOctet(s, i) == Some((o[i], more)) && ReadsOctets(more, o, i + 1, rest)
  {
    var p := ReadOctet(s, i).value;
    more := p.1;
    var ns := ReadOctets(more, i + 1, |o|).value.0;
    assert [p.0] + ns == o[i..];
    assert ns == o[i..][1..] == o[i + 1..];
  }

  lemma {:induction false} OctetsArePrinted(s: string, o: seq<nat>, i: nat, rest: string)
    requires i <= |o| && ReadsOctets(s, o, i, rest)
    ensures s == PrintOctets(o, i) + rest
    decreases |o| - i
  {
    if i < |o| {
      var more := FirstOctetOf(s, o, i, rest);
      OctetIsPrinted(s, i, o[i], more);
      OctetsArePrinted(more, o, i + 1, rest);
      Assoc(PrintOctet(o[i], i), PrintOctets(o, i + 1), rest);
    }
  }
}
