/**
 * What `checkUrl` accepts and rejects, stated on the recognizer of
 * `UrlCheck`: the case of letters does not matter, only a fixed set of
 * characters can occur, a colon is either the scheme's or opens a port,
 * so the only schemes are `http://` and `https://`, every accepted string
 * names a host with a dot in it, and dotted quads are checked for their
 * digit counts only.
 */
module UrlCheckProperties {
  import opened UrlCheck
  import opened UrlCheckEquivalence

  // ---------------------------------------------------------------------
  // Case-insensitivity
  // ---------------------------------------------------------------------

  /** Every class holds both cases of a letter or neither. */
  lemma SameCaseIn(c: char, d: char, k: CharClass)
    requires LowerChar(c) == LowerChar(d)
    ensures In(c, k) <==> In(d, k)
  {
    if IsAsciiLetter(d) {
      LowerKeepsLetters(c, d);
    } else {
      LowerKeepsNonLetters(c, d);
    }
  }

  /** A punctuation mark is matched only by itself. */
  lemma SameCaseMark(c: char, d: char, m: char)
    requires !IsAsciiLetter(m) && LowerChar(c) == LowerChar(d)
    ensures c == m <==> d == m
  {
    if c == m {
      LowerKeepsNonLetters(d, c);
    }
    if d == m {
      LowerKeepsNonLetters(c, d);
    }
  }

  lemma SameCaseDrop(x: string, y: string, i: nat)
    requires SameUpToCase(x, y) && i <= |x|
    ensures SameUpToCase(x[i..], y[i..])
  {
    forall j | 0 <= j < |x| - i ensures LowerChar(x[i..][j]) == LowerChar(y[i..][j]) {
      assert x[i..][j] == x[i + j] && y[i..][j] == y[i + j];
    }
  }

  lemma SameCaseTake(x: string, y: string, i: nat)
    requires SameUpToCase(x, y) && i <= |x|
    ensures SameUpToCase(x[..i], y[..i])
  {
    forall j | 0 <= j < i ensures LowerChar(x[..i][j]) == LowerChar(y[..i][j]) {
      assert x[..i][j] == x[j] && y[..i][j] == y[j];
    }
  }

  lemma {:induction false} SameCaseSpan(x: string, y: string, k: CharClass)
    requires SameUpToCase(x, y)
    ensures Span(x, k) == Span(y, k)
    decreases |x|
  {
    if |x| > 0 {
      SameCaseIn(x[0], y[0], k);
      SameCaseDrop(x, y, 1);
      SameCaseSpan(x[1..], y[1..], k);
    }
  }

  lemma SameCaseLabel(x: string, y: string)
    requires SameUpToCase(x, y)
    ensures IsLabel(x) == IsLabel(y)
  {
    SameCaseSpan(x, y, Ldh);
    if |x| >= 1 {
      SameCaseIn(x[0], y[0], Alnum);
      SameCaseIn(x[|x| - 1], y[|y| - 1], Alnum);
    }
  }

  lemma {:induction false} SameCaseDomain(x: string, y: string)
    requires SameUpToCase(x, y)
    ensures IsDomain(x) == IsDomain(y)
    decreases |x|
  {
    var n := Span(x, Ldh);
    SameCaseSpan(x, y, Ldh);
    if n < |x| {
      SameCaseMark(x[n], y[n], '.');
      SameCaseTake(x, y, n);
      SameCaseLabel(x[..n], y[..n]);
      SameCaseDrop(x, y, n + 1);
      SameCaseSpan(x[n + 1..], y[n + 1..], Letter);
      SameCaseDomain(x[n + 1..], y[n + 1..]);
    }
  }

  /** A dotted quad holds no letters, so changing case cannot turn a
      string into one. */
  lemma {:induction false} DigitGroupsHaveNoLetters(x: string, dots: nat)
    requires IsDigitGroups(x, dots)
    ensures forall i :: 0 <= i < |x| ==> !IsAsciiLetter(x[i])
    decreases dots
  {
    var n := Span(x, Digit);
    if dots > 0 {
      var rest := x[n + 1..];
      DigitGroupsHaveNoLetters(rest, dots - 1);
      forall i | 0 <= i < |x| ensures !IsAsciiLetter(x[i]) {
        if i < n {
          assert x[..n][i] == x[i];
        } else if i > n {
          assert rest[i - n - 1] == x[i];
        }
      }
    } else {
      assert x[..n] == x;
    }
  }

  lemma SameCaseWithoutLetters(x: string, y: string)
    requires SameUpToCase(x, y)
    requires forall i :: 0 <= i < |x| ==> !IsAsciiLetter(x[i])
    ensures x == y
  {
    forall i | 0 <= i < |x| ensures x[i] == y[i] {
      LowerKeepsNonLetters(y[i], x[i]);
    }
  }

  lemma SameCaseDigitGroups(x: string, y: string, dots: nat)
    requires SameUpToCase(x, y)
    ensures IsDigitGroups(x, dots) == IsDigitGroups(y, dots)
  {
    if IsDigitGroups(x, dots) {
      DigitGroupsHaveNoLetters(x, dots);
      SameCaseWithoutLetters(x, y);
    }
    if IsDigitGroups(y, dots) {
      DigitGroupsHaveNoLetters(y, dots);
      SameCaseWithoutLetters(y, x);
    }
  }

  lemma SameCaseHost(x: string, y: string)
    requires SameUpToCase(x, y)
    ensures IsHost(x) == IsHost(y)
  {
    SameCaseDomain(x, y);
    SameCaseDigitGroups(x, y, 3);
  }

  lemma SameCaseFragment(t: string, u: string)
    requires SameUpToCase(t, u)
    ensures AcceptFragment(t) == AcceptFragment(u)
  {
    if |t| > 0 {
      SameCaseMark(t[0], u[0], '#');
      SameCaseDrop(t, u, 1);
      SameCaseSpan(t[1..], u[1..], FragChar);
    }
  }

  lemma SameCaseQuery(t: string, u: string)
    requires SameUpToCase(t, u)
    ensures AcceptQueryOnward(t) == AcceptQueryOnward(u)
  {
    SameCaseFragment(t, u);
    if |t| > 0 {
      SameCaseMark(t[0], u[0], '?');
      SameCaseDrop(t, u, 1);
      var n := Span(t[1..], QueryChar);
      SameCaseSpan(t[1..], u[1..], QueryChar);
      SameCaseDrop(t, u, 1 + n);
      SameCaseFragment(t[1 + n..], u[1 + n..]);
    }
  }

  lemma {:induction false} SameCasePath(t: string, u: string)
    requires SameUpToCase(t, u)
    ensures AcceptPathOnward(t) == AcceptPathOnward(u)
    decreases |t|
  {
    SameCaseQuery(t, u);
    if |t| > 0 {
      SameCaseMark(t[0], u[0], '/');
      SameCaseDrop(t, u, 1);
      var n := Span(t[1..], SegChar);
      SameCaseSpan(t[1..], u[1..], SegChar);
      SameCaseDrop(t, u, 1 + n);
      SameCasePath(t[1 + n..], u[1 + n..]);
    }
  }

  lemma SameCasePort(t: string, u: string)
    requires SameUpToCase(t, u)
    ensures AcceptPortOnward(t) == AcceptPortOnward(u)
  {
    SameCasePath(t, u);
    if |t| > 0 {
      SameCaseMark(t[0], u[0], ':');
      SameCaseDrop(t, u, 1);
      var n := Span(t[1..], Digit);
      SameCaseSpan(t[1..], u[1..], Digit);
      SameCaseDrop(t, u, 1 + n);
      SameCasePath(t[1 + n..], u[1 + n..]);
    }
  }

  lemma SameCaseHostOnward(t: string, u: string)
    requires SameUpToCase(t, u)
    ensures AcceptHostOnward(t) == AcceptHostOnward(u)
  {
    var n := Span(t, HostChar);
    SameCaseSpan(t, u, HostChar);
    SameCaseTake(t, u, n);
    SameCaseHost(t[..n], u[..n]);
    SameCaseDrop(t, u, n);
    SameCasePort(t[n..], u[n..]);
  }

  lemma SameCasePrefix(s: string, t: string, p: string)
    requires SameUpToCase(s, t)
    ensures HasPrefixIgnoringCase(s, p) == HasPrefixIgnoringCase(t, p)
  {
    if |p| <= |s| {
      forall i | 0 <= i < |p|
        ensures LowerChar(s[..|p|][i]) == LowerChar(p[i]) <==> LowerChar(t[..|p|][i]) == LowerChar(p[i])
      {
        assert s[..|p|][i] == s[i] && t[..|p|][i] == t[i];
      }
    }
  }

  /** The `i` flag: two strings that differ only in the case of letters are
      both accepted or both rejected. */
  lemma CheckUrlIgnoresCase(s: string, t: string)
    requires SameUpToCase(s, t)
    ensures CheckUrl(s) == CheckUrl(t)
  {
    SameCasePrefix(s, t, "https://");
    SameCasePrefix(s, t, "http://");
    var e := SchemeLength(s);
    assert SchemeLength(t) == e;
    SameCaseDrop(s, t, e);
    SameCaseHostOnward(s[e..], t[e..]);
  }

  // ---------------------------------------------------------------------
  // Which characters can occur, and where a colon can stand
  // ---------------------------------------------------------------------

  /** Every character of `t` may stand after the port, except a colon that
      opens a port and is followed by a digit. */
  ghost predicate ColonsOpenPorts(t: string) {
    forall j :: 0 <= j < |t| ==> OpensPortOrTail(t, j)
  }

  ghost predicate OpensPortOrTail(t: string, j: int)
    requires 0 <= j < |t|
  {
    In(t[j], TailChar) || (t[j] == ':' && j + 1 < |t| && IsAsciiDigit(t[j + 1]))
  }

  /** What `CheckUrlChars` states about position `i`, with `e` the length
      of the scheme. */
  ghost predicate AllowedAt(s: string, i: int, e: int)
    requires 0 <= i < |s|
  {
    In(s[i], TailChar) ||
    (s[i] == ':' && (i + 3 == e || (i + 1 < |s| && IsAsciiDigit(s[i + 1]))))
  }

  lemma FragmentChars(t: string)
    requires AcceptFragment(t)
    ensures All(t, TailChar)
  {
    if t != [] {
      SpanAll(t[1..], FragChar);
      forall j | 1 <= j < |t| ensures In(t[j], TailChar) {
        assert t[1..][j - 1] == t[j];
      }
    }
  }

  lemma QueryChars(t: string)
    requires AcceptQueryOnward(t)
    ensures All(t, TailChar)
  {
    if |t| > 0 && t[0] == '?' {
      var n := Span(t[1..], QueryChar);
      FragmentChars(t[1 + n..]);
      forall j | 1 <= j < |t| ensures In(t[j], TailChar) {
        if j <= n {
          assert t[1..][..n][j - 1] == t[j];
        } else {
          assert t[1 + n..][j - 1 - n] == t[j];
        }
      }
    } else {
      FragmentChars(t);
    }
  }

  lemma {:induction false} PathChars(t: string)
    requires AcceptPathOnward(t)
    ensures All(t, TailChar)
    decreases |t|
  {
    if |t| > 0 && t[0] == '/' {
      var n := Span(t[1..], SegChar);
      PathChars(t[1 + n..]);
      forall j | 1 <= j < |t| ensures In(t[j], TailChar) {
        if j <= n {
          assert t[1..][..n][j - 1] == t[j];
        } else {
          assert t[1 + n..][j - 1 - n] == t[j];
        }
      }
    } else {
      QueryChars(t);
    }
  }

  /** After the host, the only colon is the one that opens the port. */
  lemma PortChars(t: string)
    requires AcceptPortOnward(t)
    ensures ColonsOpenPorts(t)
  {
    if |t| > 0 && t[0] == ':' {
      var n := Span(t[1..], Digit);
      PathChars(t[1 + n..]);
      assert t[1..][..n][0] == t[1];
      forall j | 0 <= j < |t| ensures OpensPortOrTail(t, j) {
        if j == 0 {
        } else if j <= n {
          assert t[1..][..n][j - 1] == t[j];
        } else {
          assert t[1 + n..][j - 1 - n] == t[j];
        }
      }
    } else {
      PathChars(t);
      forall j | 0 <= j < |t| ensures OpensPortOrTail(t, j) {
      }
    }
  }

  lemma HostOnwardChars(t: string)
    requires AcceptHostOnward(t)
    ensures ColonsOpenPorts(t)
  {
    var n := Span(t, HostChar);
    HostChars(t[..n]);
    PortChars(t[n..]);
    HostThenPort(t, n);
  }

  lemma HostThenPort(t: string, n: nat)
    requires n <= |t| && All(t[..n], HostChar) && ColonsOpenPorts(t[n..])
    ensures ColonsOpenPorts(t)
  {
    forall j | 0 <= j < |t| ensures OpensPortOrTail(t, j) {
      if j < n {
        assert In(t[..n][j], HostChar);
        assert t[..n][j] == t[j];
      } else {
        var u := t[n..];
        var k := j - n;
        assert OpensPortOrTail(u, k);
        assert u[k] == t[j];
        if j + 1 < |t| {
          assert u[k + 1] == t[j + 1];
        }
      }
    }
  }

  /** A scheme is letters, then its colon, then two slashes. */
  lemma SchemeChars(s: string, p: string)
    requires p == "http://" || p == "https://"
    requires HasPrefixIgnoringCase(s, p)
    ensures s[|p| - 3] == ':'
    ensures forall i :: 0 <= i < |p| - 3 ==> IsAsciiLetter(s[i])
    ensures forall i :: |p| - 3 < i < |p| ==> s[i] == '/'
    ensures forall i :: 0 <= i < |p| && i != |p| - 3 ==> In(s[i], TailChar)
  {
    SchemeShape(s, p);
    forall i | |p| - 3 < i < |p| ensures s[i] == '/' {
      assert LowerChar(s[..|p|][i]) == LowerChar(p[i]);
      LowerKeepsNonLetters(s[i], p[i]);
    }
  }

  /** Every character of an accepted string may stand after the port, or
      is a colon: the scheme's, or one that is followed by the digits of a
      port. */
  lemma CheckUrlChars(s: string)
    requires CheckUrl(s)
    ensures forall i :: 0 <= i < |s| ==> AllowedAt(s, i, SchemeLength(s))
  {
    var e := SchemeLength(s);
    HostOnwardChars(s[e..]);
    if e > 0 {
      SchemeChars(s, if e == 8 then "https://" else "http://");
    }
    SchemeThenRest(s, e);
  }

  lemma SchemeThenRest(s: string, e: nat)
    requires e <= |s| && ColonsOpenPorts(s[e..])
    requires e > 0 ==> e >= 3 && s[e - 3] == ':'
    requires forall i :: 0 <= i < e && i != e - 3 ==> In(s[i], TailChar)
    ensures forall i :: 0 <= i < |s| ==> AllowedAt(s, i, e)
  {
    var r := s[e..];
    forall i | 0 <= i < |s| ensures AllowedAt(s, i, e) {
      if i >= e {
        var k := i - e;
        assert OpensPortOrTail(r, k);
        assert r[k] == s[i];
        if i + 1 < |s| {
          assert r[k + 1] == s[i + 1];
        }
      }
    }
  }

  /** `checkUrl` accepts no string with a character outside the pattern's
      alphabet; a space in particular means rejection. */
  lemma CheckUrlAlphabet(s: string)
    requires CheckUrl(s)
    ensures forall i :: 0 <= i < |s| ==> IsUrlChar(s[i])
  {
    CheckUrlChars(s);
    forall i | 0 <= i < |s| ensures IsUrlChar(s[i]) {
      assert AllowedAt(s, i, SchemeLength(s));
    }
  }

  lemma SpaceIsRejected(s: string, i: nat)
    requires i < |s| && s[i] == ' '
    ensures !CheckUrl(s)
  {
    if CheckUrl(s) {
      CheckUrlAlphabet(s);
    }
  }

  lemma NotAUrlIsRejected()
    ensures !CheckUrl("not a url")
  {
    SpaceIsRejected("not a url", 3);
  }

  /** `https?://` is the only scheme: wherever `://` occurs in an accepted
      string, it closes an `http://` or `https://` at the start. */
  lemma OnlyHttpSchemes(s: string, i: nat)
    requires CheckUrl(s)
    requires i + 3 <= |s| && s[i..i + 3] == "://"
    ensures (i == 4 && HasPrefixIgnoringCase(s, "http://")) ||
            (i == 5 && HasPrefixIgnoringCase(s, "https://"))
  {
    CheckUrlChars(s);
    assert s[i] == s[i..i + 3][0] && s[i + 1] == s[i..i + 3][1];
    assert AllowedAt(s, i, SchemeLength(s));
  }

  /** A `://` anywhere but after `http` or `https` means rejection. */
  lemma OtherSchemeIsRejected(s: string, i: nat)
    requires i + 3 <= |s| && s[i..i + 3] == "://"
    requires i != 4 && i != 5
    ensures !CheckUrl(s)
  {
    if CheckUrl(s) {
      OnlyHttpSchemes(s, i);
    }
  }

  lemma FtpIsRejected()
    ensures !CheckUrl("ftp://a.com")
  {
    var s := "ftp://a.com";
    assert s[3..6] == "://";
    OtherSchemeIsRejected(s, 3);
  }

  // ---------------------------------------------------------------------
  // The host
  // ---------------------------------------------------------------------

  /** An accepted string always names a host, and a host always holds a
      dot: there is neither a bare name nor an empty host. */
  lemma HostIsMandatory(s: string)
    requires CheckUrl(s)
    ensures exists i :: SchemeLength(s) <= i < |s| && s[i] == '.'
  {
    var e := SchemeLength(s);
    var r := s[e..];
    var n := Span(r, HostChar);
    var j := HostHasDot(r[..n]);
    assert s[e + j] == r[..n][j];
  }

  lemma WithoutDotIsRejected(s: string)
    requires forall i :: 0 <= i < |s| ==> s[i] != '.'
    ensures !CheckUrl(s)
  {
    if CheckUrl(s) {
      HostIsMandatory(s);
    }
  }

  lemma EmptyIsRejected()
    ensures !CheckUrl("")
  {
    WithoutDotIsRejected("");
  }

  // The two localhost examples name the string through a parameter fixed by
  // `requires`, which keeps the solver from unfolding the scan on the literal.
  lemma LocalhostIsRejected(s: string)
    requires s == "localhost"
    ensures !CheckUrl(s)
  {
    WithoutDotIsRejected(s);
  }

  lemma LocalhostWithPortIsRejected(s: string)
    requires s == "http://localhost:3000"
    ensures !CheckUrl(s)
  {
    LocalhostWithPortHasNoDot(s);
    WithoutDotIsRejected(s);
  }

  lemma LocalhostWithPortHasNoDot(s: string)
    requires s == "http://localhost:3000"
    ensures forall i :: 0 <= i < |s| ==> s[i] != '.'
  {
  }

  /** A string made only of host characters is accepted exactly when it
      is a host: it cannot open with a scheme, whose colon is not a host
      character, and nothing is left after the host. */
  lemma HostCharsOnly(s: string)
    requires All(s, HostChar)
    ensures CheckUrl(s) <==> IsHost(s)
  {
    if SchemeLength(s) > 0 {
      SchemeShape(s, if SchemeLength(s) == 8 then "https://" else "http://");
      assert false;
    }
    SpanAll(s, HostChar);
    assert s[..|s|] == s;
  }

  /** A bare host is an accepted string. */
  lemma HostAloneIsAccepted(x: string)
    requires IsHost(x)
    ensures CheckUrl(x)
  {
    HostChars(x);
    HostCharsOnly(x);
  }

  /** A domain name ends in its top-level label, which is letters only. */
  lemma {:induction false} DomainEndsInLetter(x: string)
    requires IsDomain(x)
    ensures IsAsciiLetter(x[|x| - 1])
    decreases |x|
  {
    var n := Span(x, Ldh);
    var rest := x[n + 1..];
    if IsTld(rest) {
      SpanAll(rest, Letter);
      assert rest[|rest| - 1] == x[|x| - 1];
    } else {
      DomainEndsInLetter(rest);
      assert rest[|rest| - 1] == x[|x| - 1];
    }
  }

  lemma TldWithDigitIsRejected()
    ensures !CheckUrl("a.b1")
  {
    var s := "a.b1";
    HostCharsOnly(s);
    if IsDomain(s) {
      DomainEndsInLetter(s);
    }
  }

  /** A label holds letters, digits and hyphens, and neither starts nor
      ends with a hyphen. */
  lemma HyphenInsideLabelIsAccepted()
    ensures CheckUrl("a-b.com")
  {
    assert IsLabel("a-b") && IsTld("com");
    LabelAndTldIsAccepted("a-b", "com");
    assert "a-b" + "." + "com" == "a-b.com";
  }

  /** One label, a dot and a top-level label make an accepted string. */
  lemma LabelAndTldIsAccepted(l: string, d: string)
    requires IsLabel(l) && IsTld(d)
    ensures CheckUrl(l + "." + d)
  {
    var x := l + "." + d;
    SpanAll(l, Ldh);
    assert x[..|l|] == l;
    SpanIsUnique(x, Ldh, |l|);
    assert x[|l| + 1..] == d;
    HostAloneIsAccepted(x);
  }

  /** A string that opens with a hyphen has no scheme, and its host
      would open with a hyphen too. */
  lemma LeadingHyphenIsRejected(s: string)
    requires |s| > 0 && s[0] == '-'
    ensures !CheckUrl(s)
  {
    if SchemeLength(s) > 0 {
      SchemeShape(s, if SchemeLength(s) == 8 then "https://" else "http://");
      assert false;
    }
    var n := Span(s, HostChar);
    if n > 0 {
      var x := s[..n];
      assert x[0] == '-';
      assert Span(x, Digit) == 0;
      if Span(x, Ldh) > 0 {
        assert x[..Span(x, Ldh)][0] == '-';
      }
    }
  }

  lemma HyphenFirstIsRejected()
    ensures !CheckUrl("-a.com")
  {
    LeadingHyphenIsRejected("-a.com");
  }

  /** Inside a domain name a hyphen is never first, never last and never
      next to a dot: every label starts and ends with a letter or digit. */
  lemma {:induction false} HyphensInsideLabels(x: string, i: nat)
    requires IsDomain(x) && i < |x| && x[i] == '-'
    ensures 0 < i < |x| - 1 && x[i - 1] != '.' && x[i + 1] != '.'
    decreases |x|
  {
    var n := Span(x, Ldh);
    var rest := x[n + 1..];
    if i < n {
      assert x[..n][0] == x[0] && x[..n][n - 1] == x[n - 1];
      assert x[..n][i - 1] == x[i - 1] && x[..n][i + 1] == x[i + 1];
    } else if i > n {
      assert rest[i - n - 1] == x[i];
      if IsTld(rest) {
        SpanAll(rest, Letter);
      } else {
        HyphensInsideLabels(rest, i - n - 1);
        assert rest[i - n - 2] == x[i - 1] && rest[i - n] == x[i + 1];
      }
    }
  }

  // ---------------------------------------------------------------------
  // Dotted quads
  // ---------------------------------------------------------------------

  lemma DigitGroupsCons(g: string, rest: string, dots: nat)
    requires dots > 0 && DigitGroup(g) && IsDigitGroups(rest, dots - 1)
    ensures IsDigitGroups(g + "." + rest, dots)
  {
    var x := g + "." + rest;
    assert x[..|g|] == g;
    assert x[|g| + 1..] == rest;
    SpanIsUnique(x, Digit, |g|);
  }

  /** Four groups of one to three digits joined by dots are accepted,
      whatever number each group spells. */
  lemma DottedQuadIsAccepted(a: string, b: string, c: string, d: string)
    requires DigitGroup(a) && DigitGroup(b) && DigitGroup(c) && DigitGroup(d)
    ensures CheckUrl(a + "." + b + "." + c + "." + d)
  {
    SpanAll(d, Digit);
    var y := c + "." + d;
    var z := b + "." + y;
    var x := a + "." + z;
    DigitGroupsCons(c, d, 1);
    DigitGroupsCons(b, y, 2);
    DigitGroupsCons(a, z, 3);
    HostAloneIsAccepted(x);
    RegroupQuad(a, b, c, d);
  }

  lemma RegroupQuad(a: string, b: string, c: string, d: string)
    ensures a + "." + b + "." + c + "." + d == a + "." + (b + "." + (c + "." + d))
  {
    var y := c + "." + d;
    var z := b + "." + y;
    assert a + "." + b + "." + c + "." + d == (a + "." + b + "." + c) + "." + d;
    assert (a + "." + b + "." + c) + "." + d == (a + "." + b) + "." + y;
    assert (a + "." + b) + "." + y == a + "." + z;
  }

  // ---------------------------------------------------------------------
  // Order of the parts
  // ---------------------------------------------------------------------

  /** What may follow a `?` or a `#` somewhere later in an accepted
      string: after the query opens there is no path, port or second
      query, and after the fragment opens there is nothing but the
      fragment. */
  predicate MayFollow(c: char, d: char) {
    (c == '?' ==> d != '/' && d != '?' && d != ':') &&
    (c == '#' ==> d != '/' && d != '?' && d != '#' && d != ':')
  }

  ghost predicate InOrder(t: string) {
    forall i, j :: 0 <= i < j < |t| ==> MayFollow(t[i], t[j])
  }

  /** A prefix without `?` and `#` keeps the order of what follows it. */
  lemma QuietPrefix(t: string, n: nat)
    requires n <= |t| && InOrder(t[n..])
    requires forall i :: 0 <= i < n ==> t[i] != '?' && t[i] != '#'
    ensures InOrder(t)
  {
    var r := t[n..];
    forall i, j | 0 <= i < j < |t| ensures MayFollow(t[i], t[j]) {
      if i >= n {
        assert r[i - n] == t[i] && r[j - n] == t[j];
      }
    }
  }

  lemma FragmentInOrder(t: string)
    requires AcceptFragment(t)
    ensures InOrder(t)
    ensures forall j :: 0 <= j < |t| ==> t[j] != '/' && t[j] != '?' && t[j] != ':'
  {
    if t != [] {
      SpanAll(t[1..], FragChar);
      forall j | 1 <= j < |t| ensures In(t[j], FragChar) {
        assert t[1..][j - 1] == t[j];
      }
    }
  }

  lemma QueryInOrder(t: string)
    requires AcceptQueryOnward(t)
    ensures InOrder(t)
    ensures forall j :: 0 <= j < |t| ==> t[j] != '/' && t[j] != ':'
  {
    if |t| > 0 && t[0] == '?' {
      var n := Span(t[1..], QueryChar);
      var f := t[1 + n..];
      FragmentInOrder(f);
      forall j | 1 <= j < |t| ensures t[j] != '/' && t[j] != '?' && t[j] != ':' {
        if j <= n {
          assert t[1..][..n][j - 1] == t[j];
        } else {
          assert f[j - 1 - n] == t[j];
        }
      }
      forall i, j | 0 <= i < j < |t| ensures MayFollow(t[i], t[j]) {
        if 1 <= i <= n {
          assert t[1..][..n][i - 1] == t[i];
        } else if i > n {
          assert f[i - 1 - n] == t[i] && f[j - 1 - n] == t[j];
        }
      }
    } else {
      FragmentInOrder(t);
    }
  }

  lemma {:induction false} PathInOrder(t: string)
    requires AcceptPathOnward(t)
    ensures InOrder(t)
    decreases |t|
  {
    if |t| > 0 && t[0] == '/' {
      var n := Span(t[1..], SegChar);
      PathInOrder(t[1 + n..]);
      forall i | 1 <= i < 1 + n ensures t[i] != '?' && t[i] != '#' {
        assert t[1..][..n][i - 1] == t[i];
      }
      QuietPrefix(t, 1 + n);
    } else {
      QueryInOrder(t);
    }
  }

  lemma PortInOrder(t: string)
    requires AcceptPortOnward(t)
    ensures InOrder(t)
  {
    if |t| > 0 && t[0] == ':' {
      var n := Span(t[1..], Digit);
      PathInOrder(t[1 + n..]);
      forall i | 1 <= i < 1 + n ensures t[i] != '?' && t[i] != '#' {
        assert t[1..][..n][i - 1] == t[i];
      }
      QuietPrefix(t, 1 + n);
    } else {
      PathInOrder(t);
    }
  }

  /** The parts come in the pattern's order: in an accepted string no
      path, port or second query follows a `?`, and nothing but fragment
      characters follow a `#`. */
  lemma CheckUrlInOrder(s: string)
    requires CheckUrl(s)
    ensures InOrder(s)
  {
    var e := SchemeLength(s);
    HostOnwardInOrder(s[e..]);
    if e > 0 {
      SchemeChars(s, if e == 8 then "https://" else "http://");
    }
    QuietPrefix(s, e);
  }

  lemma HostOnwardInOrder(t: string)
    requires AcceptHostOnward(t)
    ensures InOrder(t)
  {
    var n := Span(t, HostChar);
    PortInOrder(t[n..]);
    forall i | 0 <= i < n ensures t[i] != '?' && t[i] != '#' {
      assert t[..n][i] == t[i];
    }
    QuietPrefix(t, n);
  }
}
