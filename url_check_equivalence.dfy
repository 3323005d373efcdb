/**
 * The recognizer of `UrlCheck` accepts exactly the strings that split into
 * the parts of the pattern (`CheckUrlMatches`). Each part is proved on its
 * own: the recognizer's scan for a part stops exactly where the part of
 * any split must stop, because the character that follows a part can never
 * belong to it.
 *
 * For every "there is a split" predicate there is a lemma that names a
 * split (`...Split`) and one that builds the predicate from a split
 * (`...At`); the proofs about the recognizer only use those.
 */
module UrlCheckEquivalence {
  import opened UrlCheck

  // ---------------------------------------------------------------------
  // Scanning
  // ---------------------------------------------------------------------

  /** A scan stops at the first character outside its class, so any prefix
      made of the class and followed by a character outside it is the one
      the scan finds. */
  lemma SpanIsUnique(x: string, k: CharClass, n: nat)
    requires n <= |x| && All(x[..n], k)
    requires n < |x| ==> !In(x[n], k)
    ensures Span(x, k) == n
  {
  }

  lemma SpanStopsAt(x: string, k: CharClass, i: nat)
    requires i < |x| && !In(x[i], k)
    ensures Span(x, k) <= i
    decreases i
  {
    if |x| > 0 && In(x[0], k) {
      assert x[1..][i - 1] == x[i];
      SpanStopsAt(x[1..], k, i - 1);
    }
  }

  lemma SpanAll(x: string, k: CharClass)
    ensures Span(x, k) == |x| <==> All(x, k)
  {
    assert x[..|x|] == x;
    if All(x, k) {
      SpanIsUnique(x, k, |x|);
    }
  }

  // ---------------------------------------------------------------------
  // Splits of the declarative predicates
  // ---------------------------------------------------------------------

  lemma LabelTailSplit(y: string) returns (k: nat)
    requires y != [] && LabelTail(y)
    ensures 1 <= k <= |y| && All(y[..k - 1], Ldh) && In(y[k - 1], Alnum) && LabelTail(y[k..])
  {
    k :| 1 <= k <= |y| && All(y[..k - 1], Ldh) && In(y[k - 1], Alnum) && LabelTail(y[k..]);
  }

  lemma DomainSplit(x: string) returns (k: nat)
    requires DomainPart(x)
    ensures k < |x| && LabelPart(x[..k]) && x[k] == '.'
    ensures TldPart(x[k + 1..]) || DomainPart(x[k + 1..])
  {
    k :| 0 <= k < |x| && LabelPart(x[..k]) && x[k] == '.' &&
      (TldPart(x[k + 1..]) || DomainPart(x[k + 1..]));
  }

  lemma DomainAt(x: string, k: nat)
    requires k < |x| && LabelPart(x[..k]) && x[k] == '.'
    requires TldPart(x[k + 1..]) || DomainPart(x[k + 1..])
    ensures DomainPart(x)
  {
  }

  lemma DottedGroupsSplit(x: string, dots: nat) returns (k: nat)
    requires dots > 0 && DottedGroups(x, dots)
    ensures k < |x| && DigitGroup(x[..k]) && x[k] == '.' && DottedGroups(x[k + 1..], dots - 1)
  {
    k :| 0 <= k < |x| && DigitGroup(x[..k]) && x[k] == '.' && DottedGroups(x[k + 1..], dots - 1);
  }

  lemma PathPartSplit(x: string) returns (k: nat)
    requires x != [] && PathPart(x)
    ensures x[0] == '/' && 1 <= k <= |x| && All(x[1..k], SegChar) && PathPart(x[k..])
  {
    k :| 1 <= k <= |x| && All(x[1..k], SegChar) && PathPart(x[k..]);
  }

  /** One more segment in front of a path is a path. */
  lemma PathPartCons(x: string, k: nat)
    requires 1 <= k <= |x| && x[0] == '/' && All(x[1..k], SegChar) && PathPart(x[k..])
    ensures PathPart(x)
  {
  }

  lemma QueryOnwardSplit(t: string) returns (e: nat)
    requires QueryOnward(t)
    ensures e <= |t| && QueryPart(t[..e]) && FragPart(t[e..])
  {
    e :| 0 <= e <= |t| && QueryPart(t[..e]) && FragPart(t[e..]);
  }

  lemma QueryOnwardAt(t: string, e: nat)
    requires e <= |t| && QueryPart(t[..e]) && FragPart(t[e..])
    ensures QueryOnward(t)
  {
  }

  lemma PathOnwardSplit(t: string) returns (d: nat)
    requires PathOnward(t)
    ensures d <= |t| && PathPart(t[..d]) && QueryOnward(t[d..])
  {
    d :| 0 <= d <= |t| && PathPart(t[..d]) && QueryOnward(t[d..]);
  }

  lemma PathOnwardAt(t: string, d: nat)
    requires d <= |t| && PathPart(t[..d]) && QueryOnward(t[d..])
    ensures PathOnward(t)
  {
  }

  lemma PortOnwardSplit(t: string) returns (c: nat)
    requires PortOnward(t)
    ensures c <= |t| && PortPart(t[..c]) && PathOnward(t[c..])
  {
    c :| 0 <= c <= |t| && PortPart(t[..c]) && PathOnward(t[c..]);
  }

  lemma PortOnwardAt(t: string, c: nat)
    requires c <= |t| && PortPart(t[..c]) && PathOnward(t[c..])
    ensures PortOnward(t)
  {
  }

  lemma HostOnwardSplit(t: string) returns (b: nat)
    requires HostOnward(t)
    ensures b <= |t| && HostPart(t[..b]) && PortOnward(t[b..])
  {
    b :| 0 <= b <= |t| && HostPart(t[..b]) && PortOnward(t[b..]);
  }

  lemma HostOnwardAt(t: string, b: nat)
    requires b <= |t| && HostPart(t[..b]) && PortOnward(t[b..])
    ensures HostOnward(t)
  {
  }

  lemma MatchesSplit(s: string) returns (a: nat)
    requires Matches(s)
    ensures a <= |s| && SchemePart(s[..a]) && HostOnward(s[a..])
  {
    a :| 0 <= a <= |s| && SchemePart(s[..a]) && HostOnward(s[a..]);
  }

  lemma MatchesAt(s: string, a: nat)
    requires a <= |s| && SchemePart(s[..a]) && HostOnward(s[a..])
    ensures Matches(s)
  {
  }

  // ---------------------------------------------------------------------
  // Host
  // ---------------------------------------------------------------------

  /** `([a-z\d-]*[a-z\d])*` is the set of strings over letters, digits and
      hyphens that are empty or end in a letter or digit. */
  lemma {:induction false} LabelTailShape(y: string)
    ensures LabelTail(y) <==> (y == [] || (All(y, Ldh) && In(y[|y| - 1], Alnum)))
    decreases |y|
  {
    if y != [] {
      if LabelTail(y) {
        var k := LabelTailSplit(y);
        LabelTailShape(y[k..]);
        LabelTailJoin(y, k);
      }
      if All(y, Ldh) && In(y[|y| - 1], Alnum) {
        assert y[|y|..] == [];
      }
    }
  }

  lemma LabelTailJoin(y: string, k: nat)
    requires 1 <= k <= |y| && All(y[..k - 1], Ldh) && In(y[k - 1], Alnum)
    requires y[k..] == [] || (All(y[k..], Ldh) && In(y[|y| - 1], Alnum))
    ensures All(y, Ldh) && In(y[|y| - 1], Alnum)
  {
    forall i | 0 <= i < |y| ensures In(y[i], Ldh) {
      if i < k - 1 {
        assert y[..k - 1][i] == y[i];
      } else if i >= k {
        assert y[k..][i - k] == y[i];
      }
    }
  }

  /** A label starts and ends with a letter or digit and holds only
      letters, digits and hyphens in between. */
  lemma LabelIff(x: string)
    ensures IsLabel(x) <==> LabelPart(x)
  {
    SpanAll(x, Ldh);
    if |x| >= 1 {
      LabelTailShape(x[1..]);
      if All(x[1..], Ldh) && In(x[0], Alnum) {
        forall i | 0 <= i < |x| ensures In(x[i], Ldh) {
          if i > 0 {
            assert x[1..][i - 1] == x[i];
          }
        }
      }
      if All(x, Ldh) {
        forall i | 0 <= i < |x| - 1 ensures In(x[1..][i], Ldh) {
          assert x[1..][i] == x[i + 1];
        }
      }
      if |x| > 1 {
        assert x[1..][|x| - 2] == x[|x| - 1];
      }
    }
  }

  lemma TldIff(x: string)
    ensures IsTld(x) <==> TldPart(x)
  {
    SpanAll(x, Letter);
  }

  lemma {:induction false} DomainSound(x: string)
    requires IsDomain(x)
    ensures DomainPart(x)
    decreases |x|
  {
    var n := Span(x, Ldh);
    LabelIff(x[..n]);
    TldIff(x[n + 1..]);
    if !IsTld(x[n + 1..]) {
      DomainSound(x[n + 1..]);
    }
    DomainAt(x, n);
  }

  lemma {:induction false} DomainComplete(x: string)
    requires DomainPart(x)
    ensures IsDomain(x)
    decreases |x|
  {
    var k := DomainSplit(x);
    TldIff(x[k + 1..]);
    if !TldPart(x[k + 1..]) {
      DomainComplete(x[k + 1..]);
    }
    DomainStep(x, k);
  }

  /** The first label of a domain is the scan up to its first dot. */
  lemma DomainStep(x: string, k: nat)
    requires k < |x| && LabelPart(x[..k]) && x[k] == '.'
    requires IsTld(x[k + 1..]) || IsDomain(x[k + 1..])
    ensures IsDomain(x)
  {
    LabelIff(x[..k]);
    SpanAll(x[..k], Ldh);
    SpanIsUnique(x, Ldh, k);
  }

  lemma {:induction false} DigitGroupsSound(x: string, dots: nat)
    requires IsDigitGroups(x, dots)
    ensures DottedGroups(x, dots)
    decreases dots
  {
    var n := Span(x, Digit);
    if dots == 0 {
      SpanAll(x, Digit);
    } else {
      DigitGroupsSound(x[n + 1..], dots - 1);
      assert DigitGroup(x[..n]);
    }
  }

  lemma {:induction false} DigitGroupsComplete(x: string, dots: nat)
    requires DottedGroups(x, dots)
    ensures IsDigitGroups(x, dots)
    decreases dots
  {
    if dots == 0 {
      DigitGroupsLast(x);
    } else {
      var k := DottedGroupsSplit(x, dots);
      DigitGroupsComplete(x[k + 1..], dots - 1);
      DigitGroupsStep(x, dots, k);
    }
  }

  lemma DigitGroupsLast(x: string)
    requires DigitGroup(x)
    ensures IsDigitGroups(x, 0)
  {
    SpanAll(x, Digit);
  }

  lemma DigitGroupsStep(x: string, dots: nat, k: nat)
    requires dots > 0 && k < |x| && DigitGroup(x[..k]) && x[k] == '.'
    requires IsDigitGroups(x[k + 1..], dots - 1)
    ensures IsDigitGroups(x, dots)
  {
    SpanIsUnique(x, Digit, k);
  }

  lemma HostIff(x: string)
    ensures IsHost(x) <==> HostPart(x)
  {
    if IsDomain(x) {
      DomainSound(x);
    }
    if DomainPart(x) {
      DomainComplete(x);
    }
    if IsIpv4(x) {
      DigitGroupsSound(x, 3);
    }
    if Ipv4Part(x) {
      DigitGroupsComplete(x, 3);
    }
  }

  /** A host is made of letters, digits, hyphens and dots. */
  lemma {:induction false} DomainChars(x: string)
    requires IsDomain(x)
    ensures All(x, HostChar)
    decreases |x|
  {
    var n := Span(x, Ldh);
    var rest := x[n + 1..];
    if IsTld(rest) {
      SpanAll(rest, Letter);
    } else {
      DomainChars(rest);
    }
    forall i | 0 <= i < |x| ensures In(x[i], HostChar) {
      if i < n {
        assert x[..n][i] == x[i];
      } else if i > n {
        assert rest[i - n - 1] == x[i];
      }
    }
  }

  lemma {:induction false} DigitGroupsChars(x: string, dots: nat)
    requires IsDigitGroups(x, dots)
    ensures All(x, HostChar)
    decreases dots
  {
    var n := Span(x, Digit);
    if dots > 0 {
      var rest := x[n + 1..];
      DigitGroupsChars(rest, dots - 1);
      forall i | 0 <= i < |x| ensures In(x[i], HostChar) {
        if i < n {
          assert x[..n][i] == x[i];
        } else if i > n {
          assert rest[i - n - 1] == x[i];
        }
      }
    } else {
      assert x[..n] == x;
    }
  }

  lemma HostChars(x: string)
    requires IsHost(x)
    ensures All(x, HostChar)
  {
    if IsDomain(x) {
      DomainChars(x);
    } else {
      DigitGroupsChars(x, 3);
    }
  }

  /** No host without a dot: a domain has a dot after its first label, a
      dotted quad after its first group. */
  lemma HostHasDot(x: string) returns (i: nat)
    requires IsHost(x)
    ensures i < |x| && x[i] == '.'
  {
    if IsDomain(x) {
      i := Span(x, Ldh);
    } else {
      i := Span(x, Digit);
    }
  }

  // ---------------------------------------------------------------------
  // What follows the host
  // ---------------------------------------------------------------------

  lemma FragmentIff(t: string)
    ensures AcceptFragment(t) <==> FragPart(t)
  {
    if t != [] {
      SpanAll(t[1..], FragChar);
    }
  }

  /** Each part after the host opens with its own mark, so a non-empty rest
      opens with the mark of the first part present. */
  lemma QueryOnwardStart(t: string)
    requires QueryOnward(t) && |t| > 0
    ensures t[0] == '?' || t[0] == '#'
  {
    var e := QueryOnwardSplit(t);
    if e > 0 {
      assert t[..e][0] == t[0];
    }
  }

  lemma PathOnwardStart(t: string)
    requires PathOnward(t) && |t| > 0
    ensures t[0] == '/' || t[0] == '?' || t[0] == '#'
  {
    var d := PathOnwardSplit(t);
    if d > 0 {
      assert t[..d][0] == t[0];
    } else {
      QueryOnwardStart(t[d..]);
    }
  }

  lemma PortOnwardStart(t: string)
    requires PortOnward(t) && |t| > 0
    ensures t[0] == ':' || t[0] == '/' || t[0] == '?' || t[0] == '#'
  {
    var c := PortOnwardSplit(t);
    if c > 0 {
      assert t[..c][0] == t[0];
    } else {
      PathOnwardStart(t[c..]);
    }
  }

  lemma QuerySound(t: string)
    requires AcceptQueryOnward(t)
    ensures QueryOnward(t)
  {
    if |t| > 0 && t[0] == '?' {
      var n := Span(t[1..], QueryChar);
      FragmentIff(t[1 + n..]);
      assert t[..1 + n][1..] == t[1..][..n];
      QueryOnwardAt(t, 1 + n);
    } else {
      FragmentIff(t);
      assert t[..0] == [] && t[0..] == t;
      QueryOnwardAt(t, 0);
    }
  }

  lemma QueryComplete(t: string)
    requires QueryOnward(t)
    ensures AcceptQueryOnward(t)
  {
    var e := QueryOnwardSplit(t);
    FragmentIff(t[e..]);
    if e == 0 {
      assert t[e..] == t;
    } else {
      assert t[..e][0] == t[0];
      assert t[..e][1..] == t[1..][..e - 1];
      if e < |t| {
        assert t[e..][0] == t[e];
      }
      SpanIsUnique(t[1..], QueryChar, e - 1);
    }
  }

  lemma QueryIff(t: string)
    ensures AcceptQueryOnward(t) <==> QueryOnward(t)
  {
    if AcceptQueryOnward(t) {
      QuerySound(t);
    }
    if QueryOnward(t) {
      QueryComplete(t);
    }
  }

  lemma PathOnwardCons(t: string, k: nat)
    requires 1 <= k <= |t| && t[0] == '/' && All(t[1..k], SegChar) && PathOnward(t[k..])
    ensures PathOnward(t)
  {
    var r := t[k..];
    var d' := PathOnwardSplit(r);
    assert r[..d'] == t[k..k + d'];
    assert r[d'..] == t[k + d'..];
    PathOnwardExtend(t, k, k + d');
  }

  lemma PathOnwardExtend(t: string, k: nat, d: nat)
    requires 1 <= k <= d <= |t| && t[0] == '/' && All(t[1..k], SegChar)
    requires PathPart(t[k..d]) && QueryOnward(t[d..])
    ensures PathOnward(t)
  {
    PathPartExtend(t, k, d);
    PathOnwardAt(t, d);
  }

  lemma PathPartExtend(t: string, k: nat, d: nat)
    requires 1 <= k <= d <= |t| && t[0] == '/' && All(t[1..k], SegChar) && PathPart(t[k..d])
    ensures PathPart(t[..d])
  {
    var x := t[..d];
    assert x[1..k] == t[1..k];
    assert x[k..] == t[k..d];
    PathPartCons(x, k);
  }

  lemma {:induction false} PathSound(t: string)
    requires AcceptPathOnward(t)
    ensures PathOnward(t)
    decreases |t|
  {
    if |t| > 0 && t[0] == '/' {
      PathSound(t[1 + Span(t[1..], SegChar)..]);
      PathSoundSegment(t);
    } else {
      PathSoundEmpty(t);
    }
  }

  lemma PathSoundSegment(t: string)
    requires |t| > 0 && t[0] == '/' && PathOnward(t[1 + Span(t[1..], SegChar)..])
    ensures PathOnward(t)
  {
    var n := Span(t[1..], SegChar);
    assert t[1..1 + n] == t[1..][..n];
    PathOnwardCons(t, 1 + n);
  }

  lemma PathSoundEmpty(t: string)
    requires AcceptQueryOnward(t)
    ensures PathOnward(t)
  {
    QuerySound(t);
    assert t[..0] == [] && t[0..] == t;
    PathOnwardAt(t, 0);
  }

  lemma {:induction false} PathComplete(t: string)
    requires PathOnward(t)
    ensures AcceptPathOnward(t)
    decreases |t|
  {
    var d := PathOnwardSplit(t);
    if d == 0 {
      assert t[d..] == t;
      if |t| > 0 {
        QueryOnwardStart(t);
      }
      QueryComplete(t);
    } else {
      var k := PathFirstSegment(t, d);
      PathComplete(t[k..]);
    }
  }

  /** The first segment of a path is the scan up to the next mark, and the
      rest of the string is again a path followed by query and fragment. */
  lemma PathFirstSegment(t: string, d: nat) returns (k: nat)
    requires 0 < d <= |t| && PathPart(t[..d]) && QueryOnward(t[d..])
    ensures |t| > 0 && t[0] == '/' && k == 1 + Span(t[1..], SegChar) && k <= d
    ensures PathOnward(t[k..])
  {
    k := PathPartSplit(t[..d]);
    PathSegmentIsScan(t, d, k);
    var r := t[k..];
    assert r[..d - k] == t[..d][k..];
    assert r[d - k..] == t[d..];
    PathOnwardAt(r, d - k);
  }

  lemma PathSegmentIsScan(t: string, d: nat, k: nat)
    requires 1 <= k <= d <= |t| && QueryOnward(t[d..])
    requires t[..d][0] == '/' && All(t[..d][1..k], SegChar) && PathPart(t[..d][k..])
    ensures t[0] == '/' && k == 1 + Span(t[1..], SegChar)
  {
    var x := t[..d];
    assert x[0] == t[0];
    assert x[1..k] == t[1..][..k - 1];
    if k < d {
      assert x[k..][0] == t[k];
    } else if k < |t| {
      QueryOnwardStart(t[d..]);
      assert t[d..][0] == t[k];
    }
    SpanIsUnique(t[1..], SegChar, k - 1);
  }

  lemma PathIff(t: string)
    ensures AcceptPathOnward(t) <==> PathOnward(t)
  {
    if AcceptPathOnward(t) {
      PathSound(t);
    }
    if PathOnward(t) {
      PathComplete(t);
    }
  }

  lemma PortSound(t: string)
    requires AcceptPortOnward(t)
    ensures PortOnward(t)
  {
    if |t| > 0 && t[0] == ':' {
      var n := Span(t[1..], Digit);
      PathSound(t[1 + n..]);
      PortSoundColon(t, n);
    } else {
      PathSound(t);
      PortSoundEmpty(t);
    }
  }

  lemma PortSoundColon(t: string, n: nat)
    requires |t| > 0 && t[0] == ':' && 0 < n == Span(t[1..], Digit)
    requires PathOnward(t[1 + n..])
    ensures PortOnward(t)
  {
    assert t[..1 + n][1..] == t[1..][..n];
    PortOnwardAt(t, 1 + n);
  }

  lemma PortSoundEmpty(t: string)
    requires PathOnward(t)
    ensures PortOnward(t)
  {
    assert t[..0] == [] && t[0..] == t;
    PortOnwardAt(t, 0);
  }

  lemma PortComplete(t: string)
    requires PortOnward(t)
    ensures AcceptPortOnward(t)
  {
    var c := PortOnwardSplit(t);
    if c == 0 {
      assert t[c..] == t;
      if |t| > 0 {
        PathOnwardStart(t);
      }
      PathComplete(t);
    } else {
      PortStep(t, c);
      PathComplete(t[c..]);
    }
  }

  /** The port is the scan of digits after the colon. */
  lemma PortStep(t: string, c: nat)
    requires 0 < c <= |t| && PortPart(t[..c]) && PathOnward(t[c..])
    ensures t[0] == ':' && c == 1 + Span(t[1..], Digit) && c >= 2
  {
    assert t[..c][0] == t[0];
    assert t[..c][1..] == t[1..][..c - 1];
    if c < |t| {
      PathOnwardStart(t[c..]);
      assert t[c..][0] == t[c];
    }
    SpanIsUnique(t[1..], Digit, c - 1);
  }

  lemma PortIff(t: string)
    ensures AcceptPortOnward(t) <==> PortOnward(t)
  {
    if AcceptPortOnward(t) {
      PortSound(t);
    }
    if PortOnward(t) {
      PortComplete(t);
    }
  }

  lemma HostOnwardSound(t: string)
    requires AcceptHostOnward(t)
    ensures HostOnward(t)
  {
    var n := Span(t, HostChar);
    HostIff(t[..n]);
    PortSound(t[n..]);
    HostOnwardAt(t, n);
  }

  lemma HostOnwardComplete(t: string)
    requires HostOnward(t)
    ensures AcceptHostOnward(t)
  {
    var b := HostOnwardSplit(t);
    HostIff(t[..b]);
    HostEnd(t, b);
    PortComplete(t[b..]);
  }

  /** The host is the scan of host characters. */
  lemma HostEnd(t: string, b: nat)
    requires b <= |t| && IsHost(t[..b]) && PortOnward(t[b..])
    ensures Span(t, HostChar) == b
  {
    HostChars(t[..b]);
    if b < |t| {
      PortOnwardStart(t[b..]);
      assert t[b..][0] == t[b];
    }
    HostStop(t, b);
  }

  lemma HostStop(t: string, b: nat)
    requires b <= |t| && All(t[..b], HostChar)
    requires b < |t| ==> t[b] == ':' || t[b] == '/' || t[b] == '?' || t[b] == '#'
    ensures Span(t, HostChar) == b
  {
    SpanIsUnique(t, HostChar, b);
  }

  lemma HostOnwardIff(t: string)
    ensures AcceptHostOnward(t) <==> HostOnward(t)
  {
    if AcceptHostOnward(t) {
      HostOnwardSound(t);
    }
    if HostOnward(t) {
      HostOnwardComplete(t);
    }
  }

  // ---------------------------------------------------------------------
  // Scheme
  // ---------------------------------------------------------------------

  /** Folding keeps non-letters as they are. */
  lemma LowerKeepsNonLetters(c: char, d: char)
    requires !IsAsciiLetter(d) && LowerChar(c) == LowerChar(d)
    ensures c == d
  {
  }

  lemma LowerKeepsLetters(c: char, d: char)
    requires IsAsciiLetter(d) && LowerChar(c) == LowerChar(d)
    ensures IsAsciiLetter(c)
  {
  }

  /** A string that opens with a scheme has letters up to the scheme's
      colon. */
  lemma SchemeShape(s: string, p: string)
    requires p == "http://" || p == "https://"
    requires HasPrefixIgnoringCase(s, p)
    ensures s[|p| - 3] == ':'
    ensures forall i :: 0 <= i < |p| - 3 ==> IsAsciiLetter(s[i])
  {
    var colon := |p| - 3;
    assert LowerChar(s[..|p|][colon]) == LowerChar(p[colon]);
    LowerKeepsNonLetters(s[colon], p[colon]);
    forall i | 0 <= i < colon ensures IsAsciiLetter(s[i]) {
      assert LowerChar(s[..|p|][i]) == LowerChar(p[i]);
      LowerKeepsLetters(s[i], p[i]);
    }
  }

  /** When the string opens with a scheme, the variant without a scheme
      cannot match: its host would be "http" or "https", which has no dot. */
  lemma NoHostAtScheme(s: string)
    requires SchemeLength(s) > 0
    ensures !AcceptHostOnward(s)
  {
    var p: string := if SchemeLength(s) == 8 then "https://" else "http://";
    SchemeShape(s, p);
    NoHostBeforeColon(s, |p| - 3);
  }

  lemma NoHostBeforeColon(s: string, colon: nat)
    requires colon < |s| && s[colon] == ':'
    requires forall i :: 0 <= i < colon ==> IsAsciiLetter(s[i])
    ensures !IsHost(s[..Span(s, HostChar)])
  {
    var n := Span(s, HostChar);
    if IsHost(s[..n]) {
      var j := HostHasDot(s[..n]);
      assert s[..n][j] == s[j];
      SpanStopsAt(s, HostChar, colon);
    }
  }

  /** The scheme of any split is the one the recognizer strips. */
  lemma SchemeIsDetermined(s: string, a: nat)
    requires a <= |s| && SchemePart(s[..a]) && HostOnward(s[a..])
    ensures SchemeLength(s) == a
  {
    if a == 0 {
      if SchemeLength(s) > 0 {
        assert s[a..] == s;
        HostOnwardComplete(s);
        NoHostAtScheme(s);
      }
    } else if a == 7 {
      NotHttps(s);
    }
  }

  lemma NotHttps(s: string)
    requires |s| >= 7 && SameUpToCase(s[..7], "http://")
    ensures !HasPrefixIgnoringCase(s, "https://")
  {
    assert LowerChar(s[..7][4]) == ':';
    if |s| >= 8 {
      assert s[..8][4] == s[..7][4];
      assert LowerChar(s[..8][4]) != LowerChar("https://"[4]);
    }
  }

  // ---------------------------------------------------------------------
  // The whole string
  // ---------------------------------------------------------------------

  /** `checkUrl` accepts a string exactly when the string splits into a
      scheme part, a host part, a port part, a path part, a query part and
      a fragment part, in this order, with nothing left over. */
  lemma CheckUrlMatches(s: string)
    ensures CheckUrl(s) <==> Matches(s)
  {
    if CheckUrl(s) {
      CheckUrlSound(s);
    }
    if Matches(s) {
      CheckUrlComplete(s);
    }
  }

  lemma CheckUrlSound(s: string)
    requires CheckUrl(s)
    ensures Matches(s)
  {
    var a := SchemeLength(s);
    HostOnwardSound(s[a..]);
    assert a == 0 ==> s[..a] == [];
    MatchesAt(s, a);
  }

  lemma CheckUrlComplete(s: string)
    requires Matches(s)
    ensures CheckUrl(s)
  {
    var a := MatchesSplit(s);
    SchemeIsDetermined(s, a);
    HostOnwardComplete(s[a..]);
  }
}
