/** Messages on a connection, one to a line: what the encoder writes and what the reader makes of it,
    wherever the connection ends. */
module Framing {
  import opened Wrappers

  /** A message is text without a newline; serialised JSON is. */
  predicate IsMessage(m: string) {
    '\n' !in m
  }

  predicate AreMessages(ms: seq<string>) {
    forall i | 0 <= i < |ms| :: IsMessage(ms[i])
  }

  function Frame(m: string): string {
    m + "\n"
  }

  /** What is written for messages in turn. */
  function Frames(ms: seq<string>): string {
    if ms == [] then [] else Frame(ms[0]) + Frames(ms[1..])
  }

  /** The encoder appends to a buffer. */
  class Encoder {
    var buffer: string

    constructor ()
      ensures buffer == []
    {
      buffer := [];
    }

    method Encode(m: string)
      requires IsMessage(m)
      modifies this
      ensures buffer == old(buffer) + Frame(m)
    {
      buffer := buffer + m;
      buffer := buffer + "\n";
    }
  }

  lemma {:induction false} FramesConcat(a: seq<string>, b: seq<string>)
    ensures Frames(a + b) == Frames(a) + Frames(b)
  {
    if a == [] {
      assert a + b == b;
    } else {
      assert (a + b)[1..] == a[1..] + b;
      FramesConcat(a[1..], b);
    }
  }

  /** Encoding messages one after the other writes their frames. */
  method EncodeAll(e: Encoder, ms: seq<string>)
    requires AreMessages(ms)
    modifies e
    ensures e.buffer == old(e.buffer) + Frames(ms)
  {
    var i := 0;
    ghost var before := e.buffer;
    while i < |ms|
      invariant 0 <= i <= |ms|
      invariant e.buffer == before + Frames(ms[..i])
    {
      FramesConcat(ms[..i], [ms[i]]);
      assert ms[..i + 1] == ms[..i] + [ms[i]];
      assert Frames([ms[i]]) == Frame(ms[i]) by {
        assert [ms[i]][1..] == [];
        assert Frame(ms[i]) + [] == Frame(ms[i]);
      }
      e.Encode(ms[i]);
      i := i + 1;
    }
    assert ms[..|ms|] == ms;
  }

  // ---------------------------------------------------------------------------------------------
  // The reader
  // ---------------------------------------------------------------------------------------------

  /** The length of the first line, with its newline if it has one. */
  function LineLength(s: string): nat {
    if s == [] then 0 else if s[0] == '\n' then 1 else 1 + LineLength(s[1..])
  }

  lemma {:induction false} LineLengthOf(line: string, t: string)
    requires '\n' !in line
    ensures LineLength(line) == |line|
    ensures LineLength(line + "\n" + t) == |line| + 1
  {
    var s := line + "\n" + t;
    if line != [] {
      assert s[1..] == line[1..] + "\n" + t;
      LineLengthOf(line[1..], t);
    }
  }

  lemma {:induction false} LineLengthFits(s: string)
    ensures LineLength(s) <= |s| && (LineLength(s) == 0 <==> s == [])
  {
    if s != [] && s[0] != '\n' {
      LineLengthFits(s[1..]);
    }
  }

  predicate IsTerminated(line: string) {
    line != [] && line[|line| - 1] == '\n'
  }

  /** Reading a message: what is left to read, and the line, unless the input ended before its newline. */
  function Read(s: string): (string, Option<string>)
    requires LineLength(s) <= |s|
  {
    var n := LineLength(s);
    (s[n..], if IsTerminated(s[..n]) then Some(s[..n]) else None)
  }

  class Reader {
    var input: string

    constructor (s: string)
      ensures input == s
    {
      input := s;
    }

    /** Takes characters off the input up to a newline, or up to its end. */
    method ReadLine() returns (line: string)
      modifies this
      ensures LineLength(old(input)) <= |old(input)|
      ensures line == old(input)[..LineLength(old(input))] && input == old(input)[LineLength(old(input))..]
    {
      ghost var s := input;
      LineLengthFits(s);
      line := [];
      var done := false;
      while input != [] && !done
        invariant |line| <= |s| && line == s[..|line|] && input == s[|line|..]
        invariant LineLength(s) == |line| + if done then 0 else LineLength(input)
        decreases |input|, !done
      {
        var c := input[0];
        assert input[1..] == s[|line| + 1..];
        done := c == '\n';
        line := line + [c];
        input := input[1..];
      }
    }

    method ReadMsg() returns (r: Option<string>)
      modifies this
      ensures LineLength(old(input)) <= |old(input)|
      ensures (input, r) == Read(old(input))
    {
      var s := ReadLine();
      if IsTerminated(s) {
        r := Some(s);
      } else {
        r := None;
      }
    }
  }

  /** What reading gives until it gives nothing, and what is then left to read. */
  function ReadAll(s: string): (seq<string>, string) {
    LineLengthFits(s);
    var (rest, r) := Read(s);
    match r
    case None => ([], rest)
    case Some(line) =>
      var (lines, left) := ReadAll(rest);
      ([line] + lines, left)
  }

  // ---------------------------------------------------------------------------------------------
  // Round trip and truncation
  // ---------------------------------------------------------------------------------------------

  function FrameEach(ms: seq<string>): (fs: seq<string>)
    ensures |fs| == |ms| && forall i | 0 <= i < |ms| :: fs[i] == Frame(ms[i])
  {
    seq(|ms|, i requires 0 <= i < |ms| => Frame(ms[i]))
  }

  /** The first `j` messages, and no more, are whole in the first `k` characters. */
  ghost predicate WholeIn(ms: seq<string>, k: nat, j: nat) {
    j <= |ms| && |Frames(ms[..j])| <= k && (j < |ms| ==> k < |Frames(ms[..j + 1])|)
  }

  /** An input without a newline gives nothing and is used up. */
  lemma ReadTail(s: string)
    requires '\n' !in s
    ensures ReadAll(s) == ([], [])
  {
    LineLengthOf(s, []);
    assert s[..|s|] == s;
  }

  lemma ReadFirst(m: string, t: string)
    requires IsMessage(m)
    ensures ReadAll(Frame(m) + t) == ([Frame(m)] + ReadAll(t).0, ReadAll(t).1)
  {
    var s := Frame(m) + t;
    LineLengthOf(m, t);
    assert s == m + "\n" + t;
    assert s[..|m| + 1] == Frame(m) && s[|m| + 1..] == t;
  }

  lemma FramesOfFirst(ms: seq<string>, j: nat)
    requires ms != [] && 0 < j <= |ms|
    ensures |Frames(ms[..j])| == |Frame(ms[0])| + |Frames(ms[1..][..j - 1])|
  {
    assert ms[..j][1..] == ms[1..][..j - 1];
  }

  lemma WholeInRest(ms: seq<string>, k: nat, j: nat)
    requires ms != [] && WholeIn(ms, k, j) && k >= |Frame(ms[0])|
    ensures j > 0 && WholeIn(ms[1..], k - |Frame(ms[0])|, j - 1)
  {
    FramesOfFirst(ms, 1);
    assert ms[1..][..0] == [];
    if j > 0 {
      FramesOfFirst(ms, j);
      if j < |ms| {
        FramesOfFirst(ms, j + 1);
      }
    }
  }

  lemma CutInFirst(ms: seq<string>, k: nat, j: nat)
    requires ms != [] && AreMessages(ms) && WholeIn(ms, k, j) && k < |Frame(ms[0])|
    ensures j == 0 && k <= |Frames(ms)| && ReadAll(Frames(ms)[..k]) == ([], [])
  {
    if j > 0 {
      FramesOfFirst(ms, j);
    }
    assert Frames(ms)[..k] == ms[0][..k];
    ReadTail(ms[0][..k]);
  }

  /** Cut after `k` characters, the output reads as its first `j` messages. */
  ghost predicate ReadsAs(ms: seq<string>, k: nat, j: nat) {
    k <= |Frames(ms)| && j <= |ms| && ReadAll(Frames(ms)[..k]) == (FrameEach(ms[..j]), [])
  }

  lemma FrameEachFirst(ms: seq<string>, j: nat)
    requires 0 < j <= |ms|
    ensures FrameEach(ms[..j]) == [Frame(ms[0])] + FrameEach(ms[1..][..j - 1])
  {
  }

  lemma CutAfterFirst(ms: seq<string>, k: nat)
    requires ms != [] && k >= |Frame(ms[0])|
    ensures k <= |Frames(ms)| <==> k - |Frame(ms[0])| <= |Frames(ms[1..])|
    ensures k <= |Frames(ms)| ==> Frames(ms)[..k] == Frame(ms[0]) + Frames(ms[1..])[..k - |Frame(ms[0])|]
  {
  }

  lemma FirstReadsAs(ms: seq<string>, k: nat, j: nat)
    requires ms != [] && IsMessage(ms[0]) && k >= |Frame(ms[0])| && j > 0
    requires ReadsAs(ms[1..], k - |Frame(ms[0])|, j - 1)
    ensures ReadsAs(ms, k, j)
  {
    CutAfterFirst(ms, k);
    ReadFirst(ms[0], Frames(ms[1..])[..k - |Frame(ms[0])|]);
    FrameEachFirst(ms, j);
  }

  /** Wherever the output is cut, reading it gives exactly the messages that are whole in it, drops
      what is left over and uses up the input. */
  lemma {:induction false} TruncatedRead(ms: seq<string>, k: nat, j: nat)
    requires AreMessages(ms) && k <= |Frames(ms)| && WholeIn(ms, k, j)
    ensures ReadsAs(ms, k, j)
    decreases |ms|
  {
    if ms == [] {
      ReadTail([]);
    } else if k < |Frame(ms[0])| {
      CutInFirst(ms, k, j);
    } else {
      WholeInRest(ms, k, j);
      CutAfterFirst(ms, k);
      TruncatedRead(ms[1..], k - |Frame(ms[0])|, j - 1);
      FirstReadsAs(ms, k, j);
    }
  }

  /** Every cut has its number of whole messages. */
  lemma {:induction false} WholeMessages(ms: seq<string>, k: nat) returns (j: nat)
    ensures WholeIn(ms, k, j)
  {
    if ms == [] {
      j := 0;
    } else if k < |Frame(ms[0])| {
      j := 0;
      FramesOfFirst(ms, 1);
    } else {
      var i := WholeMessages(ms[1..], k - |Frame(ms[0])|);
      j := i + 1;
      FramesOfFirst(ms, j);
      if j < |ms| {
        FramesOfFirst(ms, j + 1);
      }
    }
  }

  /** Reading what was written gives the messages that were written, and then the end of the stream. */
  lemma RoundTrip(ms: seq<string>)
    requires AreMessages(ms)
    ensures ReadAll(Frames(ms)) == (FrameEach(ms), [])
  {
    assert ms[..|ms|] == ms;
    assert Frames(ms)[..|Frames(ms)|] == Frames(ms);
    TruncatedRead(ms, |Frames(ms)|, |ms|);
  }

  lemma FrameEachInjective(a: seq<string>, b: seq<string>)
    requires FrameEach(a) == FrameEach(b)
    ensures a == b
  {
    assert |FrameEach(a)| == |a| && |FrameEach(b)| == |b|;
    forall i | 0 <= i < |a|
      ensures a[i] == b[i]
    {
      assert FrameEach(a)[i] == FrameEach(b)[i];
      assert Frame(a[i])[..|a[i]|] == a[i] && Frame(b[i])[..|b[i]|] == b[i];
    }
  }

  /** Different messages are written differently. */
  lemma FramesInjective(a: seq<string>, b: seq<string>)
    requires AreMessages(a) && AreMessages(b) && Frames(a) == Frames(b)
    ensures a == b
  {
    RoundTrip(a);
    RoundTrip(b);
    FrameEachInjective(a, b);
  }
}
