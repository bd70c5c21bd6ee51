/** The URI components (RFC 3986, sections 3.1 to 3.5) and the URI production
    itself, as PEG matchers over the lexical and address layers. */
module Components {
  import opened Wrappers
  import opened Lexical
  import opened Address

  /** scheme = ALPHA *( ALPHA / DIGIT / "+" / "-" / "." ) */
  function Scheme(s: string, i: nat): (r: Option<nat>)
    requires i <= |s|
    ensures r.Some? ==> i < r.value <= |s| && IsAlpha(s[i])
    ensures r.Some? ==> AsciiSpan(s, i, r.value)
  {
    if i < |s| && IsAlpha(s[i]) then Star(SchemeUnit, s, i + 1) else None
  }

  /** userinfo = *( unreserved / pct-encoded / sub-delims / ":" ) */
  function Userinfo(s: string, i: nat): (r: Option<nat>)
    requires i <= |s|
    ensures r.Some? ==> i <= r.value <= |s|
    ensures r.Some? ==> AsciiSpan(s, i, r.value)
  {
    Star(UserinfoUnit, s, i)
  }

  /** `[ userinfo "@" ]`: a userinfo counts only when an "@" follows it;
      otherwise nothing is consumed. */
  function UserinfoPrefix(s: string, i: nat): (r: nat)
    requires i <= |s|
    ensures i <= r <= |s|
    ensures r > i ==> s[r - 1] == '@'
    ensures AsciiSpan(s, i, r)
  {
    match Userinfo(s, i)
    case None => i
    case Some(j) =>
      match Char(s, j, '@')
      case None => i
      case Some(k) => k
  }

  /** reg-name = *( unreserved / pct-encoded / sub-delims ) */
  function RegName(s: string, i: nat): (r: Option<nat>)
    requires i <= |s|
    ensures r.Some? ==> i <= r.value <= |s|
    ensures r.Some? ==> AsciiSpan(s, i, r.value)
  {
    Star(RegNameUnit, s, i)
  }

  /** host = IP-literal / IPv4address / reg-name

      Ordered and committed: an IPv4address that matches a prefix of the host
      is not reconsidered as a reg-name, and a "[" that does not open a valid
      IP-literal leaves only the empty reg-name. */
  function Host(s: string, i: nat): (r: Option<nat>)
    requires i <= |s|
    ensures r.Some? ==> i <= r.value <= |s|
    ensures r.Some? ==> AsciiSpan(s, i, r.value)
  {
    Or(IPLiteral(s, i), Or(IPv4Address(s, i), RegName(s, i)))
  }

  /** port = *DIGIT */
  function Port(s: string, i: nat): (r: Option<nat>)
    requires i <= |s|
    ensures r.Some? ==> i <= r.value <= |s|
    ensures r.Some? ==> AsciiSpan(s, i, r.value)
  {
    Star(DigitUnit, s, i)
  }

  /** `[ ":" port ]` */
  function PortSuffix(s: string, i: nat): (r: nat)
    requires i <= |s|
    ensures i <= r <= |s|
    ensures r > i ==> s[i] == ':'
    ensures AsciiSpan(s, i, r)
  {
    match Char(s, i, ':')
    case None => i
    case Some(j) =>
      match Port(s, j)
      case None => i
      case Some(k) => k
  }

  /** authority = [ userinfo "@" ] host [ ":" port ] */
  function Authority(s: string, i: nat): (r: Option<nat>)
    requires i <= |s|
    ensures r.Some? ==> i <= r.value <= |s|
    ensures r.Some? ==> AsciiSpan(s, i, r.value)
  {
    match Host(s, UserinfoPrefix(s, i))
    case None => None
    case Some(h) => Some(PortSuffix(s, h))
  }

  /** segment-nz = 1*pchar */
  function SegmentNz(s: string, i: nat): (r: Option<nat>)
    requires i <= |s|
    ensures r.Some? ==> i < r.value <= |s|
    ensures r.Some? ==> AsciiSpan(s, i, r.value)
  {
    Plus(PCharUnit, s, i)
  }

  /** path-abempty = *( "/" segment ), where segment = *pchar */
  function PathAbempty(s: string, i: nat): (r: Option<nat>)
    requires i <= |s|
    ensures r.Some? ==> i <= r.value <= |s|
    ensures r.Some? ==> AsciiSpan(s, i, r.value)
  {
    Star(SlashSegment, s, i)
  }

  /** path-absolute = "/" [ segment-nz *( "/" segment ) ] */
  function PathAbsolute(s: string, i: nat): (r: Option<nat>)
    requires i <= |s|
    ensures r.Some? ==> i < r.value <= |s| && s[i] == '/'
    ensures r.Some? ==> AsciiSpan(s, i, r.value)
  {
    match Char(s, i, '/')
    case None => None
    case Some(j) =>
      match SegmentNz(s, j)
      case None => Some(j)
      case Some(k) =>
        match PathAbempty(s, k)
        case None => Some(j)
        case Some(l) => Some(l)
  }

  /** path-rootless = segment-nz *( "/" segment ) */
  function PathRootless(s: string, i: nat): (r: Option<nat>)
    requires i <= |s|
    ensures r.Some? ==> i < r.value <= |s|
    ensures r.Some? ==> AsciiSpan(s, i, r.value)
  {
    match SegmentNz(s, i)
    case None => None
    case Some(j) => PathAbempty(s, j)
  }

  /** path-empty = 0<pchar>: it matches, consuming nothing, at every position. */
  function PathEmpty(s: string, i: nat): (r: Option<nat>)
    requires i <= |s|
    ensures r == Some(i)
  {
    Some(i)
  }

  /** query = *( pchar / "/" / "?" ) */
  function Query(s: string, i: nat): (r: Option<nat>)
    requires i <= |s|
    ensures r.Some? ==> i <= r.value <= |s|
    ensures r.Some? ==> AsciiSpan(s, i, r.value)
  {
    Star(QueryUnit, s, i)
  }

  /** fragment = *( pchar / "/" / "?" ): the same characters as a query. */
  function Fragment(s: string, i: nat): (r: Option<nat>)
    requires i <= |s|
    ensures r.Some? ==> i <= r.value <= |s|
    ensures r.Some? ==> AsciiSpan(s, i, r.value)
  {
    Query(s, i)
  }

  /** `[ "?" query ]` */
  function QuerySuffix(s: string, i: nat): (r: nat)
    requires i <= |s|
    ensures i <= r <= |s|
    ensures r > i ==> s[i] == '?'
    ensures AsciiSpan(s, i, r)
  {
    match Char(s, i, '?')
    case None => i
    case Some(j) =>
      match Query(s, j)
      case None => i
      case Some(k) => k
  }

  /** `[ "#" fragment ]` */
  function FragmentSuffix(s: string, i: nat): (r: nat)
    requires i <= |s|
    ensures i <= r <= |s|
    ensures r > i ==> s[i] == '#'
    ensures AsciiSpan(s, i, r)
  {
    match Char(s, i, '#')
    case None => i
    case Some(j) =>
      match Fragment(s, j)
      case None => i
      case Some(k) => k
  }

  /** The literal "//" that introduces an authority. */
  function DoubleSlash(s: string, i: nat): (r: Option<nat>)
    requires i <= |s|
    ensures r.Some? <==> i + 2 <= |s| && s[i] == '/' && s[i + 1] == '/'
    ensures r.Some? ==> r.value == i + 2
    ensures r.Some? ==> AsciiSpan(s, i, r.value)
  {
    match Char(s, i, '/')
    case None => None
    case Some(j) => Char(s, j, '/')
  }

  /** hier-part = "//" authority path-abempty / path-absolute / path-rootless / path-empty */
  function HierPart(s: string, i: nat): (r: Option<nat>)
    requires i <= |s|
    ensures r.Some? ==> i <= r.value <= |s|
    ensures r.Some? ==> AsciiSpan(s, i, r.value)
  {
    var withAuthority :=
      match DoubleSlash(s, i)
      case None => None
      case Some(j) =>
        match Authority(s, j)
        case None => None
        case Some(k) => PathAbempty(s, k);
    Or(withAuthority, Or(PathAbsolute(s, i), Or(PathRootless(s, i), PathEmpty(s, i))))
  }

  /** URI = scheme ":" hier-part [ "?" query ] [ "#" fragment ] */
  function Uri(s: string, i: nat): (r: Option<nat>)
    requires i <= |s|
    ensures r.Some? ==> i < r.value <= |s|
    ensures r.Some? ==> AsciiSpan(s, i, r.value)
  {
    match Scheme(s, i)
    case None => None
    case Some(j) =>
      match Char(s, j, ':')
      case None => None
      case Some(k) =>
        match HierPart(s, k)
        case None => None
        case Some(l) => Some(FragmentSuffix(s, QuerySuffix(s, l)))
  }

  // ---------------------------------------------------------------------------
  // Properties

  /** host never fails: reg-name may be empty. */
  lemma HostTotal(s: string, i: nat)
    requires i <= |s|
    ensures Host(s, i).Some?
  {
    StarTotal(RegNameUnit, s, i);
  }

  /** An IPv4address prefix is committed to: the host is exactly that
      prefix, even when a longer reg-name would have matched. */
  lemma HostCommitsToIPv4(s: string, i: nat)
    requires i <= |s| && IPv4Address(s, i).Some?
    ensures Host(s, i) == IPv4Address(s, i)
  {
    DecOctetMatchesOctetText(s, i);
  }

  /** A "[" that does not open a valid IP-literal leaves the empty host. */
  lemma HostWithoutLiteral(s: string, i: nat)
    requires i < |s| && s[i] == '[' && IPLiteral(s, i).None?
    ensures Host(s, i) == Some(i)
  {
    assert DecOctet(s, i).None?;
    assert One(RegNameUnit, s, i).None?;
    assert Host(s, i) == Star(RegNameUnit, s, i);
  }

  /** authority never fails either, so "//" always opens an authority. */
  lemma AuthorityTotal(s: string, i: nat)
    requires i <= |s|
    ensures Authority(s, i).Some?
  {
    HostTotal(s, UserinfoPrefix(s, i));
  }

  /** A scheme, a ":" and a hier-part make a URI, whatever query and
      fragment follow. */
  lemma UriFromHierPart(s: string, e: nat, h: nat)
    requires Scheme(s, 0) == Some(e) && e < |s| && s[e] == ':'
    requires HierPart(s, e + 1) == Some(h)
    ensures Uri(s, 0) == Some(FragmentSuffix(s, QuerySuffix(s, h)))
  {
    assert Char(s, e, ':') == Some(e + 1);
  }

  /** After "//", an authority and a path-abempty form the hier-part. */
  lemma HierPartWithAuthority(s: string, i: nat, k: nat, l: nat)
    requires i + 2 <= |s| && s[i] == '/' && s[i + 1] == '/'
    requires Authority(s, i + 2) == Some(k) && PathAbempty(s, k) == Some(l)
    ensures HierPart(s, i) == Some(l)
  {
    assert DoubleSlash(s, i) == Some(i + 2);
  }

  // ---------------------------------------------------------------------------
  // What each component holds

  /** scheme matches exactly at a letter, and reads the longest run of
      letters, digits, "+", "-" and "." after it. */
  lemma SchemeLongest(s: string, i: nat)
    requires i <= |s|
    ensures Scheme(s, i).Some? <==> i < |s| && IsAlpha(s[i])
    ensures Scheme(s, i).Some? ==>
      && CharsIn(SchemeUnit, s, i + 1, Scheme(s, i).value)
      && (Scheme(s, i).value == |s| || !IsSchemeChar(s[Scheme(s, i).value]))
  {
    if i < |s| && IsAlpha(s[i]) {
      StarTotal(SchemeUnit, s, i + 1);
      StarSpan(SchemeUnit, s, i + 1);
      StarMaximal(SchemeUnit, s, i + 1);
    }
  }

  /** Conversely, a letter and a run of scheme characters that nothing
      extends is what scheme matches. */
  lemma SchemeReads(s: string, i: nat, j: nat)
    requires i < j <= |s| && IsAlpha(s[i]) && CharsIn(SchemeUnit, s, i + 1, j)
    requires j == |s| || !IsSchemeChar(s[j])
    ensures Scheme(s, i) == Some(j)
  {
    StarReads(SchemeUnit, s, i + 1, j);
  }

  /** The text of a query or a fragment: pchars, "/" and "?", where every
      "%" opens a percent-encoding. */
  predicate QueryText(s: string, lo: nat, hi: nat) {
    lo <= hi <= |s| && CharsIn(QueryUnit, s, lo, hi) && PctValid(s, lo, hi)
  }

  /** query, and fragment alike, reads query text that no further unit
      extends; the text holds no "#", which is what ends a query. */
  lemma QueryLongest(s: string, i: nat)
    requires i <= |s|
    ensures Query(s, i).Some? && Fragment(s, i) == Query(s, i)
    ensures QueryText(s, i, Query(s, i).value) && One(QueryUnit, s, Query(s, i).value).None?
    ensures Avoids(s, i, Query(s, i).value, '#')
  {
    StarTotal(QueryUnit, s, i);
    StarSpan(QueryUnit, s, i);
    StarMaximal(QueryUnit, s, i);
    CharsAvoid(QueryUnit, s, i, Query(s, i).value, '#');
  }

  /** Conversely, query text that no further unit extends is what query and
      fragment match. */
  lemma QueryReads(s: string, i: nat, j: nat)
    requires QueryText(s, i, j) && One(QueryUnit, s, j).None?
    ensures Query(s, i) == Some(j) && Fragment(s, i) == Some(j)
  {
    StarReads(QueryUnit, s, i, j);
  }

  /** Text that may stand before a query: every "%" opens a
      percent-encoding, and neither "?" nor "#" occurs. */
  predicate PathText(s: string, lo: nat, hi: nat) {
    PctValid(s, lo, hi) && Avoids(s, lo, hi, '?') && Avoids(s, lo, hi, '#')
  }

  /** A host's text: path text without "/" either. */
  predicate HostText(s: string, lo: nat, hi: nat) {
    PathText(s, lo, hi) && Avoids(s, lo, hi, '/')
  }

  /** Path text followed by path text is path text. */
  lemma PathTextJoin(s: string, lo: nat, mid: nat, hi: nat)
    requires lo <= mid <= hi && PathText(s, lo, mid) && PathText(s, mid, hi)
    ensures PathText(s, lo, hi)
  {
    SpanJoin(s, lo, mid, hi, '?');
    SpanJoin(s, lo, mid, hi, '#');
  }

  /** Host text followed by host text is host text. */
  lemma HostTextJoin(s: string, lo: nat, mid: nat, hi: nat)
    requires lo <= mid <= hi && HostText(s, lo, mid) && HostText(s, mid, hi)
    ensures HostText(s, lo, hi)
  {
    PathTextJoin(s, lo, mid, hi);
    SpanJoin(s, lo, mid, hi, '/');
  }

  /** A run of `*e` over a class without "?", "#" and "/" is host text. */
  lemma StarHostText(e: Item, s: string, i: nat)
    requires i <= |s| && Star(e, s, i).Some?
    requires !UnitChar(e, '?') && !UnitChar(e, '#') && !UnitChar(e, '/')
    ensures HostText(s, i, Star(e, s, i).value)
  {
    StarSpan(e, s, i);
    CharsAvoid(e, s, i, Star(e, s, i).value, '?');
    CharsAvoid(e, s, i, Star(e, s, i).value, '#');
    CharsAvoid(e, s, i, Star(e, s, i).value, '/');
  }

  /** Text without "%", "/", "?" and "#" is host text. */
  lemma LiteralHostText(s: string, lo: nat, hi: nat)
    requires LiteralChars(s, lo, hi)
    ensures HostText(s, lo, hi)
  {
  }

  /** So is text of hexadecimal digits, ":" and ".". */
  lemma AddressHostText(s: string, lo: nat, hi: nat)
    requires AddressChars(s, lo, hi)
    ensures HostText(s, lo, hi)
  {
  }

  /** What host matches is host text: an IP-literal and an IPv4address hold
      no "%", and a reg-name's "%"s open percent-encodings. */
  lemma HostChars(s: string, i: nat)
    requires i <= |s| && Host(s, i).Some?
    ensures HostText(s, i, Host(s, i).value)
  {
    if IPLiteral(s, i).Some? {
      IPLiteralChars(s, i);
      LiteralHostText(s, i, IPLiteral(s, i).value);
    } else if IPv4Address(s, i).Some? {
      IPv4MatchIsDottedQuad(s, i);
      QuadChars(s, i, IPv4Address(s, i).value);
      AddressHostText(s, i, IPv4Address(s, i).value);
    } else {
      StarHostText(RegNameUnit, s, i);
    }
  }

  /** A userinfo and its "@" are host text. */
  lemma UserinfoPrefixChars(s: string, i: nat)
    requires i <= |s|
    ensures HostText(s, i, UserinfoPrefix(s, i))
  {
    StarTotal(UserinfoUnit, s, i);
    var j := Userinfo(s, i).value;
    if j < |s| && s[j] == '@' {
      StarHostText(UserinfoUnit, s, i);
      assert HostText(s, j, j + 1);
      HostTextJoin(s, i, j, j + 1);
    }
  }

  /** So are a ":" and the digits of a port. */
  lemma PortSuffixChars(s: string, i: nat)
    requires i <= |s|
    ensures HostText(s, i, PortSuffix(s, i))
  {
    var p := PortSuffix(s, i);
    if p > i {
      StarTotal(DigitUnit, s, i + 1);
      StarHostText(DigitUnit, s, i + 1);
      HostTextJoin(s, i, i + 1, p);
    }
  }

  /** So is what authority matches: a userinfo and its "@", the host, then a
      ":" and digits. */
  lemma AuthorityChars(s: string, i: nat)
    requires i <= |s| && Authority(s, i).Some?
    ensures HostText(s, i, Authority(s, i).value)
  {
    var u := UserinfoPrefix(s, i);
    var h := Host(s, u).value;
    UserinfoPrefixChars(s, i);
    HostChars(s, u);
    HostTextJoin(s, i, u, h);
    PortSuffixChars(s, h);
    HostTextJoin(s, i, h, PortSuffix(s, h));
  }

  /** A path-abempty is path text: its segments are pchars and "/"s. */
  lemma PathAbemptyChars(s: string, i: nat)
    requires i <= |s| && PathAbempty(s, i).Some?
    ensures PathText(s, i, PathAbempty(s, i).value)
  {
    StarSpan(SlashSegment, s, i);
    CharsAvoid(SlashSegment, s, i, PathAbempty(s, i).value, '?');
    CharsAvoid(SlashSegment, s, i, PathAbempty(s, i).value, '#');
  }

  /** So is a segment-nz. */
  lemma SegmentNzChars(s: string, i: nat)
    requires i <= |s| && SegmentNz(s, i).Some?
    ensures PathText(s, i, SegmentNz(s, i).value)
  {
    PlusSpan(PCharUnit, s, i);
    CharsAvoid(PCharUnit, s, i, SegmentNz(s, i).value, '?');
    CharsAvoid(PCharUnit, s, i, SegmentNz(s, i).value, '#');
  }

  /** The "//" authority path-abempty form of a hier-part is path text. */
  lemma NetPathChars(s: string, i: nat)
    requires i + 2 <= |s| && s[i] == '/' && s[i + 1] == '/'
    requires Authority(s, i + 2).Some? && PathAbempty(s, Authority(s, i + 2).value).Some?
    ensures PathText(s, i, PathAbempty(s, Authority(s, i + 2).value).value)
  {
    var k := Authority(s, i + 2).value;
    AuthorityChars(s, i + 2);
    PathTextJoin(s, i, i + 2, k);
    PathAbemptyChars(s, k);
    PathTextJoin(s, i, k, PathAbempty(s, k).value);
  }

  /** A path-absolute is path text. */
  lemma PathAbsoluteChars(s: string, i: nat)
    requires i <= |s| && PathAbsolute(s, i).Some?
    ensures PathText(s, i, PathAbsolute(s, i).value)
  {
    if SegmentNz(s, i + 1).Some? {
      var k := SegmentNz(s, i + 1).value;
      SegmentNzChars(s, i + 1);
      PathTextJoin(s, i, i + 1, k);
      if PathAbempty(s, k).Some? {
        PathAbemptyChars(s, k);
        PathTextJoin(s, i, k, PathAbempty(s, k).value);
      }
    }
  }

  /** A path-rootless is path text. */
  lemma PathRootlessChars(s: string, i: nat)
    requires i <= |s| && PathRootless(s, i).Some?
    ensures PathText(s, i, PathRootless(s, i).value)
  {
    var k := SegmentNz(s, i).value;
    SegmentNzChars(s, i);
    PathAbemptyChars(s, k);
    PathTextJoin(s, i, k, PathRootless(s, i).value);
  }

  /** Whichever form matches, a hier-part holds no "?" and no "#": the first
      of them after the ":" ends it. */
  lemma HierPartChars(s: string, i: nat)
    requires i <= |s| && HierPart(s, i).Some?
    ensures PathText(s, i, HierPart(s, i).value)
  {
    if DoubleSlash(s, i).Some? && Authority(s, i + 2).Some? && PathAbempty(s, Authority(s, i + 2).value).Some? {
      NetPathChars(s, i);
    } else if PathAbsolute(s, i).Some? {
      PathAbsoluteChars(s, i);
    } else if PathRootless(s, i).Some? {
      PathRootlessChars(s, i);
    }
  }

  /** A "?" and a query hold no "#", and their "%"s open percent-encodings. */
  lemma QuerySuffixChars(s: string, i: nat)
    requires i <= |s|
    ensures Avoids(s, i, QuerySuffix(s, i), '#') && PctValid(s, i, QuerySuffix(s, i))
  {
    var q := QuerySuffix(s, i);
    if q > i {
      QueryLongest(s, i + 1);
      SpanJoin(s, i, i + 1, q, '#');
    }
  }

  /** A "#" and a fragment have their "%"s open percent-encodings. */
  lemma FragmentSuffixChars(s: string, i: nat)
    requires i <= |s|
    ensures PctValid(s, i, FragmentSuffix(s, i))
  {
    var f := FragmentSuffix(s, i);
    if f > i {
      QueryLongest(s, i + 1);
      SpanJoin(s, i, i + 1, f, '#');
    }
  }

  /** A scheme and its ":" are path text. */
  lemma SchemeChars(s: string, i: nat, e: nat)
    requires i <= |s| && Scheme(s, i) == Some(e) && e < |s| && s[e] == ':'
    ensures PathText(s, i, e + 1)
  {
    SchemeLongest(s, i);
    CharsAvoid(SchemeUnit, s, i + 1, e, '?');
    CharsAvoid(SchemeUnit, s, i + 1, e, '#');
  }

  /** How a URI match is put together: the scheme, its ":", the hier-part,
      then the optional query and fragment. */
  lemma UriSplit(s: string, i: nat)
    requires i <= |s| && Uri(s, i).Some?
    ensures Scheme(s, i).Some? && Scheme(s, i).value < |s| && s[Scheme(s, i).value] == ':'
    ensures HierPart(s, Scheme(s, i).value + 1).Some?
    ensures Uri(s, i).value == FragmentSuffix(s, QuerySuffix(s, HierPart(s, Scheme(s, i).value + 1).value))
  {
  }

  /** The delimiters of a URI (section 3 of RFC 3986): after the scheme's
      ":", the hier-part runs up to the first "?" or "#"; a query opens with
      "?" and holds no "#"; a fragment opens with "#"; and every "%" in the
      URI opens a percent-encoding. */
  lemma UriDelimiters(s: string, i: nat)
    requires i <= |s| && Uri(s, i).Some?
    ensures Scheme(s, i).Some? && Scheme(s, i).value < |s| && s[Scheme(s, i).value] == ':'
    ensures HierPart(s, Scheme(s, i).value + 1).Some?
    ensures
      var h := HierPart(s, Scheme(s, i).value + 1).value;
      var q := QuerySuffix(s, h);
      && PathText(s, i, h)
      && (q > h ==> s[h] == '?')
      && Avoids(s, h, q, '#')
      && Uri(s, i).value == FragmentSuffix(s, q)
      && (Uri(s, i).value > q ==> s[q] == '#')
      && PctValid(s, i, Uri(s, i).value)
  {
    UriSplit(s, i);
    var e := Scheme(s, i).value;
    UriText(s, i, e, HierPart(s, e + 1).value);
  }

  /** The text facts behind `UriDelimiters`, for a scheme ending at `e` and
      a hier-part ending at `h`. */
  lemma UriText(s: string, i: nat, e: nat, h: nat)
    requires i <= e < |s| && Scheme(s, i) == Some(e) && s[e] == ':' && HierPart(s, e + 1) == Some(h)
    ensures
      var q := QuerySuffix(s, h);
      && PathText(s, i, h)
      && Avoids(s, h, q, '#')
      && PctValid(s, i, FragmentSuffix(s, q))
  {
    var q := QuerySuffix(s, h);
    SchemeChars(s, i, e);
    HierPartChars(s, e + 1);
    PathTextJoin(s, i, e + 1, h);
    QuerySuffixChars(s, h);
    FragmentSuffixChars(s, q);
    SpanJoin(s, i, h, q, '#');
    SpanJoin(s, i, q, FragmentSuffix(s, q), '#');
  }
}
