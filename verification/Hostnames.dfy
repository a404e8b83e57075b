/** Names of hosts: which are valid, which are names of onion services, and which part of an onion
    name identifies the service.

    A string is a sequence of bytes, one character per byte. */
module Hostnames {
  import opened Wrappers

  predicate IsNameChar(c: char) {
    'a' <= c <= 'z' || 'A' <= c <= 'Z' || '0' <= c <= '9' || c == '-' || c == '.'
  }

  /** `s[i..j]` is one of the labels that the dots of `s` separate. */
  predicate IsLabelAt(s: string, i: nat, j: nat)
    requires i <= j <= |s|
  {
    (i == 0 || s[i - 1] == '.') && (j == |s| || s[j] == '.') && '.' !in s[i..j]
  }

  predicate IsLabel(l: string) {
    0 < |l| <= 63 && l[0] != '-' && l[|l| - 1] != '-'
  }

  predicate IsValidHostname(s: string) {
    && 0 < |s| <= 253
    && (forall k | 0 <= k < |s| :: IsNameChar(s[k]))
    && (forall i, j | 0 <= i <= j <= |s| && IsLabelAt(s, i, j) :: IsLabel(s[i..j]))
  }

  function Lower(c: char): char {
    if 'A' <= c <= 'Z' then 'a' + (c - 'A') else c
  }

  predicate EqualsIgnoringCase(s: string, t: string) {
    |s| == |t| && forall i | 0 <= i < |s| :: Lower(s[i]) == Lower(t[i])
  }

  const ONION: string := ".onion"

  /** A byte that is not the first of its UTF-8 character. */
  predicate IsContinuation(c: char) {
    0x80 <= c as int < 0xC0
  }

  /** A call that may end in a panic. */
  datatype Call<T> = Panic | Done(value: T)

  /** Taking a suffix of a string panics where it would divide a character. */
  predicate SuffixDividesCharacter(s: string) {
    |s| > |ONION| && IsContinuation(s[|s| - |ONION|])
  }

  predicate HasOnionSuffix(s: string) {
    |s| >= |ONION| && EqualsIgnoringCase(s[|s| - |ONION|..], ONION)
  }

  function EndsWithOnion(s: string): Call<bool> {
    if SuffixDividesCharacter(s) then Panic else Done(HasOnionSuffix(s))
  }

  /** A valid name is ASCII, so that looking for its suffix does not panic. */
  lemma ValidNamesDoNotPanic(s: string)
    requires IsValidHostname(s)
    ensures EndsWithOnion(s) == Done(HasOnionSuffix(s))
  {
    if |s| > |ONION| {
      assert IsNameChar(s[|s| - |ONION|]);
    }
  }

  // ---------------------------------------------------------------------------------------------
  // The part of an onion name that identifies the service
  // ---------------------------------------------------------------------------------------------

  /** The last dot before index `n`. */
  function LastDot(s: string, n: nat): (k: Option<nat>)
    requires n <= |s|
    ensures k.Some? ==> k.value < n && s[k.value] == '.' && '.' !in s[k.value + 1..n]
    ensures k.None? ==> '.' !in s[..n]
  {
    if n == 0 then None else if s[n - 1] == '.' then Some(n - 1) else LastDot(s, n - 1)
  }

  /** Where the last two labels start. */
  function ServiceStart(s: string): (i: nat)
    ensures i <= |s|
  {
    match LastDot(s, |s|)
    case None => 0
    case Some(k) => match LastDot(s, k) case None => 0 case Some(m) => m + 1
  }

  lemma LastDotOfOnion(s: string)
    requires HasOnionSuffix(s)
    ensures LastDot(s, |s|) == Some(|s| - 6)
  {
    var n := |s| - |ONION|;
    var t := s[n..];
    forall i | 0 <= i < 6
      ensures s[n + i] == t[i] && Lower(t[i]) == Lower(ONION[i])
    {
    }
    assert s[n] == '.' && s[n + 1] != '.' && s[n + 2] != '.' && s[n + 3] != '.' && s[n + 4] != '.' && s[n + 5] != '.';
    assert LastDot(s, n + 1) == Some(n);
    assert LastDot(s, n + 2) == Some(n);
    assert LastDot(s, n + 3) == Some(n);
    assert LastDot(s, n + 4) == Some(n);
    assert LastDot(s, n + 5) == Some(n);
  }

  lemma ServiceStartsAtLabel(s: string)
    requires HasOnionSuffix(s)
    ensures ServiceStart(s) <= |s| - 6 && IsLabelAt(s, ServiceStart(s), |s| - 6)
  {
    LastDotOfOnion(s);
  }

  /** The service of a valid onion name is one whole label and the suffix. */
  lemma ServiceIsOneLabel(s: string)
    requires IsValidHostname(s) && HasOnionSuffix(s)
    ensures var i := ServiceStart(s);
            i < |s| - 6 && IsLabelAt(s, i, |s| - 6) && IsLabel(s[i..|s| - 6]) && HasOnionSuffix(s[i..])
  {
    ServiceStartsAtLabel(s);
    var i, n := ServiceStart(s), |s| - 6;
    assert s[i..][|s[i..]| - 6..] == s[n..];
  }

  lemma SplitTwice(s: string, i: nat, n: nat)
    requires i <= n <= |s|
    ensures s[i..] == s[i..n] + s[n..] && s == s[..i] + s[i..]
  {
  }

  lemma ServiceSplits(s: string) returns (before: string, part: string, suffix: string)
    requires IsValidHostname(s) && HasOnionSuffix(s)
    ensures s == before + (part + suffix) && s[ServiceStart(s)..] == part + suffix
    ensures before == [] || before[|before| - 1] == '.'
    ensures IsLabel(part) && '.' !in part && EqualsIgnoringCase(suffix, ONION)
  {
    ServiceIsOneLabel(s);
    var i, n := ServiceStart(s), |s| - 6;
    SplitTwice(s, i, n);
    before, part, suffix := s[..i], s[i..n], s[n..];
  }

  // ---------------------------------------------------------------------------------------------
  // Which names are valid
  // ---------------------------------------------------------------------------------------------

  predicate IsLetterOrDigit(c: char) {
    'a' <= c <= 'z' || 'A' <= c <= 'Z' || '0' <= c <= '9'
  }

  /** A name without a dot is valid if it has 1 to 63 letters, digits and hyphens and neither starts nor
      ends with a hyphen. */
  lemma OneLabelIsValid(l: string)
    requires '.' !in l
    ensures IsValidHostname(l)
       <==> && 1 <= |l| <= 63
            && (forall i | 0 <= i < |l| :: IsLetterOrDigit(l[i]) || l[i] == '-')
            && l[0] != '-' && l[|l| - 1] != '-'
  {
    assert IsLabelAt(l, 0, |l|);
    assert l[0..|l|] == l;
    assert forall k | 0 <= k < |l| :: l[k] != '.';
    forall i: nat, j: nat | i <= j <= |l| && IsLabelAt(l, i, j) ensures l[i..j] == l {
      assert i == 0 && j == |l|;
    }
  }

  lemma LabelsOfJoin(a: string, b: string, s: string, i: nat, j: nat)
    requires s == a + "." + b && i <= j <= |s|
    ensures IsLabelAt(s, i, j) <==>
            || (j <= |a| && IsLabelAt(a, i, j))
            || (i > |a| && IsLabelAt(b, i - |a| - 1, j - |a| - 1))
  {
    if i <= |a| < j {
      assert s[i..j][|a| - i] == '.';
    } else if j <= |a| {
      assert s[i..j] == a[i..j];
    } else {
      assert s[i..j] == b[i - |a| - 1..j - |a| - 1];
    }
  }

  lemma FirstOfJoin(a: string, b: string, s: string)
    requires s == a + "." + b && IsValidHostname(s)
    ensures IsValidHostname(a)
  {
    assert forall k | 0 <= k < |a| :: a[k] == s[k];
    forall i: nat, j: nat | i <= j <= |a| && IsLabelAt(a, i, j) ensures IsLabel(a[i..j]) {
      LabelsOfJoin(a, b, s, i, j);
      assert s[i..j] == a[i..j];
    }
    HasLabel(a);
  }

  lemma SecondOfJoin(a: string, b: string, s: string)
    requires s == a + "." + b && IsValidHostname(s)
    ensures IsValidHostname(b)
  {
    assert forall k | 0 <= k < |b| :: b[k] == s[|a| + 1 + k];
    forall i: nat, j: nat | i <= j <= |b| && IsLabelAt(b, i, j) ensures IsLabel(b[i..j]) {
      LabelsOfJoin(a, b, s, i + |a| + 1, j + |a| + 1);
      assert s[i + |a| + 1..j + |a| + 1] == b[i..j];
    }
    HasLabel(b);
  }

  /** Even the empty name has a label, which is empty. */
  lemma HasLabel(s: string)
    requires forall i, j | 0 <= i <= j <= |s| && IsLabelAt(s, i, j) :: IsLabel(s[i..j])
    ensures s != []
  {
    if s == [] {
      assert IsLabelAt(s, 0, 0);
    }
  }

  lemma JoinOfParts(a: string, b: string, s: string)
    requires s == a + "." + b && IsValidHostname(a) && IsValidHostname(b) && |s| <= 253
    ensures IsValidHostname(s)
  {
    forall k | 0 <= k < |s| ensures IsNameChar(s[k]) {
      assert k < |a| ==> IsNameChar(a[k]);
      assert k > |a| ==> IsNameChar(b[k - |a| - 1]);
    }
    forall i: nat, j: nat | i <= j <= |s| && IsLabelAt(s, i, j) ensures IsLabel(s[i..j]) {
      LabelsOfJoin(a, b, s, i, j);
      if j <= |a| {
        assert s[i..j] == a[i..j];
      } else {
        assert s[i..j] == b[i - |a| - 1..j - |a| - 1];
      }
    }
  }

  /** A dotted name is valid if its parts are and it has at most 253 characters.  With the law for names
      without a dot this says which names are valid. */
  lemma JoinIsValid(a: string, b: string)
    ensures IsValidHostname(a + "." + b) <==> IsValidHostname(a) && IsValidHostname(b) && |a| + 1 + |b| <= 253
  {
    var s := a + "." + b;
    if IsValidHostname(s) {
      FirstOfJoin(a, b, s);
      SecondOfJoin(a, b, s);
    }
    if IsValidHostname(a) && IsValidHostname(b) && |s| <= 253 {
      JoinOfParts(a, b, s);
    }
  }

  /** Comparing without case takes each letter for its other case, and no other characters. */
  lemma CaseIsIgnored(c: char, d: char)
    ensures Lower(c) == Lower(d)
       <==> c == d || ('A' <= c <= 'Z' && d as int == c as int + 32) || ('A' <= d <= 'Z' && c as int == d as int + 32)
  {
  }
}
