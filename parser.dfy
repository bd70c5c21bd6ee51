/** The top-level assembler (src/parse_uri.cpp): `parse_complete` and
    `parse_authority` walk a cursor through the input with one sub-match per
    component, recording each matched range in a parts object, and succeed
    only when the cursor reaches the end of the input; `parse_uri` tries the
    first, then the second on fresh parts.

    The pure functions `CompleteAttempt`, `AuthorityAttempt` and `ParseResult`
    specify what the methods compute; the lemmas state what that means in
    terms of the RFC 3986 productions. */
module Parser {
  import opened Wrappers
  import opened Lexical
  import opened Components

  /** A view `[lo, hi)` of the input. */
  datatype Span = Span(lo: nat, hi: nat)

  /** The six fields of `basic_uri_parts`, as a value. */
  datatype Captures = Captures(
    scheme: Option<Span>,
    host: Option<Span>,
    port: Option<Span>,
    path: Option<Span>,
    query: Option<Span>,
    fragment: Option<Span>)

  /** A default-constructed parts value: nothing captured. */
  const NoCaptures := Captures(None, None, None, None, None, None)

  /** The outcome of one attempt: its verdict and what it left in the parts. */
  datatype Attempt = Attempt(ok: bool, parts: Captures)

  // ---------------------------------------------------------------------------
  // Specification of the two attempts

  /** `-("?" >> raw[query])` at `i`: the query's span when "?" is there. */
  function QueryCapture(s: string, i: nat): (r: Option<Span>)
    requires i <= |s|
    ensures r.Some? ==> i < r.value.lo <= r.value.hi <= |s|
    ensures r.Some? ==> r.value.lo == i + 1 && s[i] == '?' && Query(s, i + 1) == Some(r.value.hi)
  {
    match Char(s, i, '?')
    case None => None
    case Some(q) =>
      match Query(s, q)
      case None => None
      case Some(e) => Some(Span(q, e))
  }

  /** `-("#" >> raw[fragment])` at `i`: the fragment's span when "#" is there. */
  function FragmentCapture(s: string, i: nat): (r: Option<Span>)
    requires i <= |s|
    ensures r.Some? ==> i < r.value.lo <= r.value.hi <= |s|
    ensures r.Some? ==> r.value.lo == i + 1 && s[i] == '#' && Fragment(s, i + 1) == Some(r.value.hi)
  {
    match Char(s, i, '#')
    case None => None
    case Some(f) =>
      match Fragment(s, f)
      case None => None
      case Some(e) => Some(Span(f, e))
  }

  /** `-(":" >> raw[port])` at `i`: the port's span when ":" is there. */
  function PortCapture(s: string, i: nat): (r: Option<Span>)
    requires i <= |s|
    ensures r.Some? ==> i < r.value.lo <= r.value.hi <= |s|
    ensures r.Some? ==> r.value.lo == i + 1 && s[i] == ':' && Port(s, i + 1) == Some(r.value.hi)
  {
    match Char(s, i, ':')
    case None => None
    case Some(p) =>
      match Port(s, p)
      case None => None
      case Some(e) => Some(Span(p, e))
  }

  /** The optional query and fragment from `i`, then `iter == end`. */
  function QueryFragmentStep(s: string, i: nat, c: Captures): Attempt
    requires i <= |s|
  {
    var query := QueryCapture(s, i);
    var j := After(query, i);
    var fragment := FragmentCapture(s, j);
    var c1 := if query.Some? then c.(query := query) else c;
    var c2 := if fragment.Some? then c1.(fragment := fragment) else c1;
    Attempt(After(fragment, j) == |s|, c2)
  }

  /** The optional port, then `raw[path_abempty]`, then query and fragment. */
  function AfterHostStep(s: string, i: nat, c: Captures): Attempt
    requires i <= |s|
  {
    var port := PortCapture(s, i);
    var j := After(port, i);
    var c1 := if port.Some? then c.(port := port) else c;
    match PathAbempty(s, j)
    case None => Attempt(false, c1)
    case Some(k) => QueryFragmentStep(s, k, c1.(path := Some(Span(j, k))))
  }

  /** `-(userinfo >> "@") >> raw[host]`: the span of the host. */
  function HostSpan(s: string, i: nat): (r: Option<Span>)
    requires i <= |s|
    ensures r.Some? ==> i <= r.value.lo <= r.value.hi <= |s| && Host(s, r.value.lo) == Some(r.value.hi)
  {
    var h := UserinfoPrefix(s, i);
    match Host(s, h)
    case None => None
    case Some(e) => Some(Span(h, e))
  }

  /** What `parse_complete` returns and leaves in parts that held `c`. */
  function CompleteAttempt(s: string, c: Captures): Attempt {
    match Scheme(s, 0)
    case None => Attempt(false, c)
    case Some(e) =>
      // raw[] records the scheme as soon as it matches, before ":" is tried
      var c1 := c.(scheme := Some(Span(0, e)));
      match Char(s, e, ':')
      case None => Attempt(false, c1)
      case Some(start) =>
        var authority :=
          match DoubleSlash(s, start)
          case None => None
          case Some(j) => HostSpan(s, j);
        match authority
        case Some(h) => AfterHostStep(s, h.hi, c1.(host := Some(h)))
        case None => QueryFragmentStep(s, start, c1.(path := Some(Span(start, start))))
  }

  /** What `parse_authority` returns and leaves in parts that held `c`. */
  function AuthorityAttempt(s: string, c: Captures): Attempt {
    match HostSpan(s, 0)
    case None => Attempt(false, c)
    case Some(h) => AfterHostStep(s, h.hi, c.(host := Some(h)))
  }

  /** What `parse_uri` returns. */
  function ParseResult(s: string): Captures {
    var complete := CompleteAttempt(s, NoCaptures);
    if complete.ok then complete.parts
    else
      var authority := AuthorityAttempt(s, NoCaptures);
      if authority.ok then authority.parts else NoCaptures
  }

  // ---------------------------------------------------------------------------
  // Reference forms

  /** After "scheme:" comes a path-absolute or a path-rootless rather than
      "//": the two hier-part forms that `parse_complete` does not try. */
  predicate SkipsPathForm(s: string) {
    match Scheme(s, 0)
    case None => false
    case Some(e) =>
      e < |s| && s[e] == ':' && DoubleSlash(s, e + 1).None?
      && (PathAbsolute(s, e + 1).Some? || PathRootless(s, e + 1).Some?)
  }

  /** authority path-abempty [ "?" query ] [ "#" fragment ]: a relative
      reference with an authority but without the leading "//". */
  function AuthorityForm(s: string): (r: Option<nat>)
    ensures r.Some? ==> r.value <= |s| && AsciiSpan(s, 0, r.value)
  {
    match Authority(s, 0)
    case None => None
    case Some(j) =>
      match PathAbempty(s, j)
      case None => None
      case Some(k) => Some(FragmentSuffix(s, QuerySuffix(s, k)))
  }

  /** The end of `span` when it is present, else `pos`. */
  function After(span: Option<Span>, pos: nat): nat {
    if span.Some? then span.value.hi else pos
  }

  /** `span`, when present, starts no earlier than `pos` and is not reversed. */
  predicate StartsAfter(span: Option<Span>, pos: nat) {
    span.Some? ==> pos <= span.value.lo <= span.value.hi
  }

  /** The end of the last present capture among port, path, query and
      fragment, or `from` when none is present. */
  function TailEnd(c: Captures, from: nat): nat {
    After(c.fragment, After(c.query, After(c.path, After(c.port, from))))
  }

  /** The end of the last present capture. */
  function LastEnd(c: Captures): nat {
    TailEnd(c, After(c.host, After(c.scheme, 0)))
  }

  /** Port, path, query and fragment, when present, lie in this order from
      `from` on, without overlapping, and end by `n`. */
  predicate TailInOrder(c: Captures, from: nat, n: nat) {
    && StartsAfter(c.port, from)
    && StartsAfter(c.path, After(c.port, from))
    && StartsAfter(c.query, After(c.path, After(c.port, from)))
    && StartsAfter(c.fragment, After(c.query, After(c.path, After(c.port, from))))
    && TailEnd(c, from) <= n
  }

  /** The present captures lie in the input in source order (scheme, host,
      port, path, query, fragment), without overlapping. */
  predicate InOrder(c: Captures, n: nat) {
    && StartsAfter(c.scheme, 0)
    && StartsAfter(c.host, After(c.scheme, 0))
    && TailInOrder(c, After(c.host, After(c.scheme, 0)), n)
  }

  /** What the optional query and fragment from position `k` leave in parts
      that held `before`: a query exactly when "?" is at `k`, then a fragment
      exactly when "#" follows, each spanning the whole production after its
      delimiter; nothing else changes. */
  predicate QueryFragmentPlaced(s: string, k: nat, before: Captures, after: Captures)
    requires k <= |s|
  {
    var q := QuerySuffix(s, k);
    var f := FragmentSuffix(s, q);
    after == before.(query := after.query, fragment := after.fragment)
    && (if k < |s| && s[k] == '?' then after.query == Some(Span(k + 1, q)) && Query(s, k + 1) == Some(q)
        else after.query == before.query && q == k)
    && (if q < |s| && s[q] == '#' then after.fragment == Some(Span(q + 1, f)) && Fragment(s, q + 1) == Some(f)
        else after.fragment == before.fragment && f == q)
  }

  // ---------------------------------------------------------------------------
  // Properties of the attempts

  /** A query is captured exactly when "?" is at `i`, and it spans the whole
      query after it; either way the capture ends where `QuerySuffix` does. */
  lemma QueryCaptureLayout(s: string, i: nat)
    requires i <= |s|
    ensures After(QueryCapture(s, i), i) == QuerySuffix(s, i)
    ensures if i < |s| && s[i] == '?'
            then QueryCapture(s, i) == Some(Span(i + 1, QuerySuffix(s, i))) && Query(s, i + 1) == Some(QuerySuffix(s, i))
            else QueryCapture(s, i).None?
  {
    if i < |s| {
      StarTotal(QueryUnit, s, i + 1);
    }
  }

  /** A fragment is captured exactly when "#" is at `i`, and it spans the
      whole fragment after it. */
  lemma FragmentCaptureLayout(s: string, i: nat)
    requires i <= |s|
    ensures After(FragmentCapture(s, i), i) == FragmentSuffix(s, i)
    ensures if i < |s| && s[i] == '#'
            then FragmentCapture(s, i) == Some(Span(i + 1, FragmentSuffix(s, i))) && Fragment(s, i + 1) == Some(FragmentSuffix(s, i))
            else FragmentCapture(s, i).None?
  {
    if i < |s| {
      StarTotal(QueryUnit, s, i + 1);
    }
  }

  /** A port is captured exactly when ":" is at `i`, and it spans all the
      digits after it. */
  lemma PortCaptureLayout(s: string, i: nat)
    requires i <= |s|
    ensures After(PortCapture(s, i), i) == PortSuffix(s, i)
    ensures if i < |s| && s[i] == ':'
            then PortCapture(s, i) == Some(Span(i + 1, PortSuffix(s, i))) && Port(s, i + 1) == Some(PortSuffix(s, i))
            else PortCapture(s, i).None?
  {
    if i < |s| {
      StarTotal(DigitUnit, s, i + 1);
    }
  }

  /** The optional query and fragment are placed as `QueryFragmentPlaced`
      says, and the attempt succeeds exactly when they reach the end. */
  lemma QueryFragmentLayout(s: string, k: nat, c: Captures)
    requires k <= |s|
    ensures QueryFragmentPlaced(s, k, c, QueryFragmentStep(s, k, c).parts)
    ensures QueryFragmentStep(s, k, c).ok <==> FragmentSuffix(s, QuerySuffix(s, k)) == |s|
  {
    QueryCaptureLayout(s, k);
    FragmentCaptureLayout(s, QuerySuffix(s, k));
  }

  /** After a host ending at `i`: a port exactly when ":" follows the host,
      spanning all the digits after it; the path-abempty right after the host
      or port; then the query and fragment. Scheme and host are untouched. */
  lemma AfterHostLayout(s: string, i: nat, c: Captures)
    requires i <= |s|
    ensures var a := AfterHostStep(s, i, c);
      var j := PortSuffix(s, i);
      var k := PathAbempty(s, j);
      var c1 := c.(port := a.parts.port, path := a.parts.path);
      a.parts.scheme == c.scheme && a.parts.host == c.host
      && (if i < |s| && s[i] == ':' then a.parts.port == Some(Span(i + 1, j)) && Port(s, i + 1) == Some(j)
          else a.parts.port == c.port && j == i)
      && k.Some? && a.parts.path == Some(Span(j, k.value))
      && QueryFragmentPlaced(s, k.value, c1, a.parts)
      && (a.ok <==> FragmentSuffix(s, QuerySuffix(s, k.value)) == |s|)
  {
    PortCaptureLayout(s, i);
    var j := PortSuffix(s, i);
    StarTotal(SlashSegment, s, j);
    var k := PathAbempty(s, j).value;
    var a := AfterHostStep(s, i, c);
    var c1 := c.(port := a.parts.port, path := a.parts.path);
    assert a == QueryFragmentStep(s, k, c1);
    QueryFragmentLayout(s, k, c1);
  }

  /** parse_complete fails unless the input starts with a scheme and ":";
      when the scheme matches but ":" does not follow, the scheme is recorded
      all the same. On success the scheme capture is the text before the ":". */
  lemma CompleteNeedsScheme(s: string, c: Captures)
    ensures Scheme(s, 0).None? ==> CompleteAttempt(s, c) == Attempt(false, c)
    ensures Scheme(s, 0).Some? && Char(s, Scheme(s, 0).value, ':').None?
      ==> CompleteAttempt(s, c) == Attempt(false, c.(scheme := Some(Span(0, Scheme(s, 0).value))))
    ensures CompleteAttempt(s, c).ok ==>
      && Scheme(s, 0).Some? && Scheme(s, 0).value < |s| && s[Scheme(s, 0).value] == ':'
      && CompleteAttempt(s, c).parts.scheme == Some(Span(0, Scheme(s, 0).value))
  {
    if Scheme(s, 0).Some? {
      var e := Scheme(s, 0).value;
      if e < |s| && s[e] == ':' {
        var c1 := c.(scheme := Some(Span(0, e)));
        if DoubleSlash(s, e + 1).Some? {
          HostTotal(s, UserinfoPrefix(s, e + 3));
          AfterHostLayout(s, HostSpan(s, e + 3).value.hi, c1.(host := HostSpan(s, e + 3)));
        } else {
          QueryFragmentLayout(s, e + 1, c1.(path := Some(Span(e + 1, e + 1))));
        }
      }
    }
  }

  /** After "scheme:" without "//", parse_complete rewinds to just after the
      ":" and records the empty path there; host and port stay unset. */
  lemma CompleteRewinds(s: string, c: Captures)
    requires Scheme(s, 0).Some? && Scheme(s, 0).value < |s| && s[Scheme(s, 0).value] == ':'
    requires DoubleSlash(s, Scheme(s, 0).value + 1).None?
    ensures var a := CompleteAttempt(s, c);
      var start := Scheme(s, 0).value + 1;
      a.parts.host == c.host && a.parts.port == c.port
      && a.parts.path == Some(Span(start, start))
      && (a.ok <==> FragmentSuffix(s, QuerySuffix(s, start)) == |s|)
  {
    var e := Scheme(s, 0).value;
    var c1 := c.(scheme := Some(Span(0, e)), path := Some(Span(e + 1, e + 1)));
    CompleteRewindStep(s, c, e);
    QueryFragmentLayout(s, e + 1, c1);
  }

  /** After "scheme://", parse_complete always records a host (the branch
      fails only without "//"): it starts after the optional userinfo and
      "@", and the path follows the host or the port. */
  lemma CompleteTakesAuthority(s: string, c: Captures)
    requires Scheme(s, 0).Some? && Scheme(s, 0).value < |s| && s[Scheme(s, 0).value] == ':'
    requires DoubleSlash(s, Scheme(s, 0).value + 1).Some?
    ensures var a := CompleteAttempt(s, c);
      var j := Scheme(s, 0).value + 3;
      var h := UserinfoPrefix(s, j);
      Host(s, h).Some?
      && a.parts.host == Some(Span(h, Host(s, h).value))
      && a.parts.path.Some? && a.parts.path.value.lo == PortSuffix(s, Host(s, h).value)
  {
    var e := Scheme(s, 0).value;
    HostTotal(s, UserinfoPrefix(s, e + 3));
    var h := HostSpan(s, e + 3).value;
    CompleteHostStep(s, c, e, h);
    AfterHostLayout(s, h.hi, c.(scheme := Some(Span(0, e)), host := Some(h)));
  }

  /** parse_authority needs no scheme and never records one; it fails only
      when the input, read from its start, is not authority path-abempty
      [ "?" query ] [ "#" fragment ] in full. */
  lemma AuthorityAcceptance(s: string, c: Captures)
    ensures AuthorityAttempt(s, c).parts.scheme == c.scheme
    ensures AuthorityAttempt(s, c).ok <==> AuthorityForm(s) == Some(|s|)
  {
    var h := UserinfoPrefix(s, 0);
    HostTotal(s, h);
    var e := Host(s, h).value;
    AfterHostLayout(s, e, c.(host := Some(Span(h, e))));
  }

  /** parse_complete accepts exactly the RFC 3986 URIs whose hier-part is not
      a path-absolute or a path-rootless. */
  lemma CompleteAcceptance(s: string, c: Captures)
    ensures CompleteAttempt(s, c).ok <==> Uri(s, 0) == Some(|s|) && !SkipsPathForm(s)
  {
    CompleteNeedsScheme(s, c);
    if Scheme(s, 0).Some? && Scheme(s, 0).value < |s| && s[Scheme(s, 0).value] == ':' {
      if DoubleSlash(s, Scheme(s, 0).value + 1).Some? {
        AuthorityBranchAcceptance(s, c);
      } else {
        RewindBranchAcceptance(s, c);
      }
    }
  }

  /** The "//" branch of CompleteAcceptance: the authority is always read,
      so acceptance depends only on what follows it. */
  lemma AuthorityBranchAcceptance(s: string, c: Captures)
    requires Scheme(s, 0).Some? && Scheme(s, 0).value < |s| && s[Scheme(s, 0).value] == ':'
    requires DoubleSlash(s, Scheme(s, 0).value + 1).Some?
    ensures CompleteAttempt(s, c).ok <==> Uri(s, 0) == Some(|s|) && !SkipsPathForm(s)
  {
    var start := Scheme(s, 0).value + 1;
    var h := UserinfoPrefix(s, start + 2);
    HostTotal(s, h);
    var e := Host(s, h).value;
    var c1 := c.(scheme := Some(Span(0, start - 1)), host := Some(Span(h, e)));
    assert CompleteAttempt(s, c) == AfterHostStep(s, e, c1);
    AfterHostAccepts(s, e, c1);
    var k := PathAbempty(s, PortSuffix(s, e)).value;
    assert Authority(s, start + 2) == Some(PortSuffix(s, e));
    HierPartWithAuthority(s, start, PortSuffix(s, e), k);
    UriFromHierPart(s, start - 1, k);
  }

  /** After the host, parse_complete and parse_authority accept exactly when
      the optional port, path-abempty, query and fragment reach the end. */
  lemma AfterHostAccepts(s: string, i: nat, c: Captures)
    requires i <= |s|
    ensures PathAbempty(s, PortSuffix(s, i)).Some?
    ensures AfterHostStep(s, i, c).ok
      <==> FragmentSuffix(s, QuerySuffix(s, PathAbempty(s, PortSuffix(s, i)).value)) == |s|
  {
    AfterHostLayout(s, i, c);
  }

  /** The branch without "//": the empty path is taken, so only a query and
      a fragment may follow the ":", which rules out the two skipped forms. */
  lemma RewindBranchAcceptance(s: string, c: Captures)
    requires Scheme(s, 0).Some? && Scheme(s, 0).value < |s| && s[Scheme(s, 0).value] == ':'
    requires DoubleSlash(s, Scheme(s, 0).value + 1).None?
    ensures CompleteAttempt(s, c).ok <==> Uri(s, 0) == Some(|s|) && !SkipsPathForm(s)
  {
    var e := Scheme(s, 0).value;
    var start := e + 1;
    var c1 := c.(scheme := Some(Span(0, e)), path := Some(Span(start, start)));
    assert CompleteAttempt(s, c) == QueryFragmentStep(s, start, c1);
    QueryFragmentAccepts(s, start, c1);
    if PathAbsolute(s, start).Some? || PathRootless(s, start).Some? {
      assert s[start] == '/' || PChar(s, start).Some?;
      assert QuerySuffix(s, start) == start;
      assert FragmentSuffix(s, start) == start;
      assert SkipsPathForm(s);
    } else {
      assert HierPart(s, start) == Some(start);
      assert Uri(s, 0) == Some(FragmentSuffix(s, QuerySuffix(s, start)));
      assert !SkipsPathForm(s);
    }
  }

  /** The optional query and fragment accept exactly when they reach the end. */
  lemma QueryFragmentAccepts(s: string, k: nat, c: Captures)
    requires k <= |s|
    ensures QueryFragmentStep(s, k, c).ok <==> FragmentSuffix(s, QuerySuffix(s, k)) == |s|
  {
    QueryFragmentLayout(s, k, c);
  }

  /** Port, path, query and fragment, when present, are each a complete
      match of their production, right after their delimiter. */
  predicate TailMatches(s: string, c: Captures) {
    && (c.port.Some? ==>
          0 < c.port.value.lo <= |s| && s[c.port.value.lo - 1] == ':'
          && Port(s, c.port.value.lo) == Some(c.port.value.hi))
    && (c.path.Some? ==> c.path.value.lo <= |s| && PathAbempty(s, c.path.value.lo) == Some(c.path.value.hi))
    && (c.query.Some? ==>
          0 < c.query.value.lo <= |s| && s[c.query.value.lo - 1] == '?'
          && Query(s, c.query.value.lo) == Some(c.query.value.hi))
    && (c.fragment.Some? ==>
          0 < c.fragment.value.lo <= |s| && s[c.fragment.value.lo - 1] == '#'
          && Fragment(s, c.fragment.value.lo) == Some(c.fragment.value.hi))
  }

  /** Each present capture is a complete match of its own production. */
  predicate MatchesProductions(s: string, c: Captures) {
    && (c.scheme.Some? ==> c.scheme.value.lo == 0 && Scheme(s, 0) == Some(c.scheme.value.hi))
    && (c.host.Some? ==> c.host.value.lo <= |s| && Host(s, c.host.value.lo) == Some(c.host.value.hi))
    && TailMatches(s, c)
  }

  /** No port, path, query or fragment recorded yet. */
  predicate NoTail(c: Captures) {
    c.port.None? && c.path.None? && c.query.None? && c.fragment.None?
  }

  /** From `k`, the optional query and fragment follow each other in order,
      each matches its production, and only they change. */
  lemma QueryFragmentWellFormed(s: string, k: nat, c: Captures)
    requires k <= |s| && c.query.None? && c.fragment.None?
    ensures var a := QueryFragmentStep(s, k, c);
      var q := After(a.parts.query, k);
      && a.parts == c.(query := a.parts.query, fragment := a.parts.fragment)
      && StartsAfter(a.parts.query, k) && StartsAfter(a.parts.fragment, q)
      && After(a.parts.fragment, q) <= |s|
      && (a.ok <==> After(a.parts.fragment, q) == |s|)
      && (a.parts.query.Some? ==>
            0 < a.parts.query.value.lo <= |s| && s[a.parts.query.value.lo - 1] == '?'
            && Query(s, a.parts.query.value.lo) == Some(a.parts.query.value.hi))
      && (a.parts.fragment.Some? ==>
            0 < a.parts.fragment.value.lo <= |s| && s[a.parts.fragment.value.lo - 1] == '#'
            && Fragment(s, a.parts.fragment.value.lo) == Some(a.parts.fragment.value.hi))
  { }

  /** From a host ending at `i`, the remaining captures are in order, each
      matches its production, and on success they reach the end. */
  lemma AfterHostWellFormed(s: string, i: nat, c: Captures)
    requires i <= |s| && NoTail(c)
    ensures var a := AfterHostStep(s, i, c);
      && a.parts.scheme == c.scheme && a.parts.host == c.host
      && TailInOrder(a.parts, i, |s|) && TailMatches(s, a.parts)
      && (a.ok ==> TailEnd(a.parts, i) == |s|)
  {
    var port := PortCapture(s, i);
    var j := After(port, i);
    var c1 := if port.Some? then c.(port := port) else c;
    StarTotal(SlashSegment, s, j);
    var k := PathAbempty(s, j).value;
    var c2 := c1.(path := Some(Span(j, k)));
    assert AfterHostStep(s, i, c) == QueryFragmentStep(s, k, c2);
    QueryFragmentWellFormed(s, k, c2);
  }

  /** After a rewind to just past the ":" at `e`, the empty path there and
      the optional query and fragment follow the scheme in order, and match
      their productions when the attempt succeeds. */
  lemma RewindWellFormed(s: string, e: nat, c: Captures)
    requires e < |s| && NoTail(c)
    ensures var a := QueryFragmentStep(s, e + 1, c.(path := Some(Span(e + 1, e + 1))));
      && a.parts.scheme == c.scheme && a.parts.host == c.host && a.parts.port.None?
      && TailInOrder(a.parts, e, |s|)
      && (a.ok ==> TailMatches(s, a.parts) && TailEnd(a.parts, e) == |s|)
  {
    var start := e + 1;
    var c1 := c.(path := Some(Span(start, start)));
    QueryFragmentLayout(s, start, c1);
    var a := QueryFragmentStep(s, start, c1);
    if a.ok && start < |s| {
      assert s[start] == '?' || s[start] == '#';
      assert One(SlashSegment, s, start).None?;
    }
  }

  /** The captures of an attempt are in source order; when it accepts, each
      is a complete match of its production and the last one ends at the end
      of the input. */
  predicate WellFormedAttempt(s: string, a: Attempt) {
    && InOrder(a.parts, |s|)
    && (a.ok ==> MatchesProductions(s, a.parts) && LastEnd(a.parts) == |s|)
  }

  /** After "scheme://", parse_complete continues from the host. */
  lemma CompleteHostStep(s: string, c: Captures, e: nat, h: Span)
    requires Scheme(s, 0) == Some(e) && e < |s| && s[e] == ':'
    requires DoubleSlash(s, e + 1).Some? && HostSpan(s, e + 3) == Some(h)
    ensures CompleteAttempt(s, c) == AfterHostStep(s, h.hi, c.(scheme := Some(Span(0, e)), host := Some(h)))
  {
    assert Char(s, e, ':') == Some(e + 1);
    assert DoubleSlash(s, e + 1) == Some(e + 3);
  }

  /** After "scheme:" without an authority, parse_complete continues from
      the rewound cursor with the empty path. */
  lemma CompleteRewindStep(s: string, c: Captures, e: nat)
    requires Scheme(s, 0) == Some(e) && e < |s| && s[e] == ':'
    requires DoubleSlash(s, e + 1).None? || HostSpan(s, e + 3).None?
    ensures CompleteAttempt(s, c)
      == QueryFragmentStep(s, e + 1, c.(scheme := Some(Span(0, e)), path := Some(Span(e + 1, e + 1))))
  {
    assert Char(s, e, ':') == Some(e + 1);
  }

  /** From a host `h` after an optional scheme ending at `e`, the attempt is
      well formed. */
  lemma HostedWellFormed(s: string, scheme: Option<Span>, h: Span)
    requires scheme.Some? ==> scheme.value.lo == 0 && Scheme(s, 0) == Some(scheme.value.hi)
    requires After(scheme, 0) <= h.lo <= h.hi <= |s| && Host(s, h.lo) == Some(h.hi)
    ensures WellFormedAttempt(s, AfterHostStep(s, h.hi, NoCaptures.(scheme := scheme, host := Some(h))))
  {
    var a := AfterHostStep(s, h.hi, NoCaptures.(scheme := scheme, host := Some(h)));
    AfterHostWellFormed(s, h.hi, NoCaptures.(scheme := scheme, host := Some(h)));
    assert InOrder(a.parts, |s|);
    if a.ok {
      assert MatchesProductions(s, a.parts);
    }
  }

  /** From the rewind after a scheme ending at `e`, the attempt is well
      formed. */
  lemma RewoundWellFormed(s: string, e: nat)
    requires Scheme(s, 0) == Some(e) && e < |s|
    ensures WellFormedAttempt(s, QueryFragmentStep(s, e + 1,
      NoCaptures.(scheme := Some(Span(0, e)), path := Some(Span(e + 1, e + 1)))))
  {
    RewindWellFormed(s, e, NoCaptures.(scheme := Some(Span(0, e))));
  }

  /** An attempt of the complete form on fresh parts leaves its captures in
      source order; when it accepts, each is a complete match of its
      production and the last one ends at the end of the input. */
  lemma CompleteWellFormed(s: string)
    ensures WellFormedAttempt(s, CompleteAttempt(s, NoCaptures))
  {
    match Scheme(s, 0)
    case None =>
      assert CompleteAttempt(s, NoCaptures) == Attempt(false, NoCaptures);
    case Some(e) =>
      if Char(s, e, ':').None? {
        assert CompleteAttempt(s, NoCaptures) == Attempt(false, NoCaptures.(scheme := Some(Span(0, e))));
      } else if DoubleSlash(s, e + 1).Some? && HostSpan(s, e + 3).Some? {
        var h := HostSpan(s, e + 3).value;
        CompleteHostStep(s, NoCaptures, e, h);
        HostedWellFormed(s, Some(Span(0, e)), h);
      } else {
        CompleteRewindStep(s, NoCaptures, e);
        RewoundWellFormed(s, e);
      }
  }

  /** The same for the authority form, which never records a scheme. */
  lemma AuthorityWellFormed(s: string)
    ensures WellFormedAttempt(s, AuthorityAttempt(s, NoCaptures))
    ensures AuthorityAttempt(s, NoCaptures).parts.scheme.None?
  {
    HostTotal(s, UserinfoPrefix(s, 0));
    var h := HostSpan(s, 0).value;
    assert AuthorityAttempt(s, NoCaptures) == AfterHostStep(s, h.hi, NoCaptures.(host := Some(h)));
    HostedWellFormed(s, None, h);
    AfterHostLayout(s, h.hi, NoCaptures.(host := Some(h)));
  }

  /** parse_uri answers the complete form's parts when that form accepts,
      else the authority form's, else nothing; a rejected first attempt leaves
      no residue, so a scheme is present exactly when the complete form
      accepted. Either way the captures are in order and match their
      productions, and a non-empty answer covers the whole input. */
  lemma ParseResultWellFormed(s: string)
    ensures ParseResult(s).scheme.Some? <==> CompleteAttempt(s, NoCaptures).ok
    ensures ParseResult(s) == NoCaptures
      <==> !CompleteAttempt(s, NoCaptures).ok && !AuthorityAttempt(s, NoCaptures).ok
    ensures InOrder(ParseResult(s), |s|) && MatchesProductions(s, ParseResult(s))
    ensures ParseResult(s) != NoCaptures ==> LastEnd(ParseResult(s)) == |s|
  {
    CompleteWellFormed(s);
    AuthorityWellFormed(s);
    CompleteNeedsScheme(s, NoCaptures);
    AuthorityAcceptance(s, NoCaptures);
    if !CompleteAttempt(s, NoCaptures).ok && AuthorityAttempt(s, NoCaptures).ok {
      var h := UserinfoPrefix(s, 0);
      HostTotal(s, h);
    }
  }

  /** parse_uri returns a non-empty result exactly for the URIs that
      parse_complete handles and for the authority-form references. */
  lemma ParseUriAccepts(s: string)
    ensures ParseResult(s) != NoCaptures
      <==> (Uri(s, 0) == Some(|s|) && !SkipsPathForm(s)) || AuthorityForm(s) == Some(|s|)
  {
    ParseResultWellFormed(s);
    CompleteAcceptance(s, NoCaptures);
    AuthorityAcceptance(s, NoCaptures);
  }

  /** What the characters of each present capture are: a scheme is a letter
      and scheme characters; a port is digits; a host holds no "/", "?" or
      "#"; a path holds no "?" or "#"; a query and a fragment hold no "#";
      and every "%" in a host, path, query or fragment opens a
      percent-encoding. */
  predicate CapturedText(s: string, c: Captures) {
    && (c.scheme.Some? ==>
          c.scheme.value.lo < c.scheme.value.hi <= |s| && IsAlpha(s[c.scheme.value.lo])
          && CharsIn(SchemeUnit, s, c.scheme.value.lo + 1, c.scheme.value.hi))
    && (c.host.Some? ==> HostText(s, c.host.value.lo, c.host.value.hi))
    && (c.port.Some? ==> CharsIn(DigitUnit, s, c.port.value.lo, c.port.value.hi))
    && (c.path.Some? ==> PathText(s, c.path.value.lo, c.path.value.hi))
    && (c.query.Some? ==> QueryText(s, c.query.value.lo, c.query.value.hi) && Avoids(s, c.query.value.lo, c.query.value.hi, '#'))
    && (c.fragment.Some? ==> QueryText(s, c.fragment.value.lo, c.fragment.value.hi) && Avoids(s, c.fragment.value.lo, c.fragment.value.hi, '#'))
  }

  /** A capture that matches its production holds the characters that
      production allows. */
  lemma CapturesContents(s: string, c: Captures)
    requires MatchesProductions(s, c)
    ensures CapturedText(s, c)
  {
    if c.scheme.Some? {
      SchemeLongest(s, 0);
    }
    if c.host.Some? {
      HostChars(s, c.host.value.lo);
    }
    if c.port.Some? {
      StarSpan(DigitUnit, s, c.port.value.lo);
    }
    if c.path.Some? {
      PathAbemptyChars(s, c.path.value.lo);
    }
    if c.query.Some? {
      QueryLongest(s, c.query.value.lo);
    }
    if c.fragment.Some? {
      QueryLongest(s, c.fragment.value.lo);
    }
  }

  /** So whatever parse_uri captures holds only the characters its
      production allows. */
  lemma ParseResultContents(s: string)
    ensures CapturedText(s, ParseResult(s))
  {
    ParseResultWellFormed(s);
    CapturesContents(s, ParseResult(s));
  }

  /** parse_uri answers something only for an input made of ASCII
      characters alone. */
  lemma ParseResultAscii(s: string)
    ensures ParseResult(s) != NoCaptures ==> AsciiSpan(s, 0, |s|)
  {
    ParseUriAccepts(s);
  }

  // ---------------------------------------------------------------------------
  // The parts object and the three entry points

  /** `basic_uri_parts`: one optional view per component. */
  class UriParts {
    var scheme: Option<Span>
    var host: Option<Span>
    var port: Option<Span>
    var path: Option<Span>
    var query: Option<Span>
    var fragment: Option<Span>

    function Value(): Captures
      reads this
    {
      Captures(scheme, host, port, path, query, fragment)
    }

    constructor ()
      ensures Value() == NoCaptures
    {
      scheme, host, port, path, query, fragment := None, None, None, None, None, None;
    }
  }

  /** The optional query and fragment, from `iter`; answers the final cursor. */
  method ParseQueryFragment(uri: string, iter: nat, parts: UriParts) returns (end: nat)
    requires iter <= |uri|
    modifies parts
    ensures end <= |uri|
    ensures QueryFragmentStep(uri, iter, old(parts.Value())) == Attempt(end == |uri|, parts.Value())
  {
    end := iter;
    var question := Char(uri, end, '?');
    if question.Some? {
      var queryEnd := Query(uri, question.value);
      if queryEnd.Some? {
        parts.query := Some(Span(question.value, queryEnd.value));
        end := queryEnd.value;
      }
    }
    var hash := Char(uri, end, '#');
    if hash.Some? {
      var fragmentEnd := Fragment(uri, hash.value);
      if fragmentEnd.Some? {
        parts.fragment := Some(Span(hash.value, fragmentEnd.value));
        end := fragmentEnd.value;
      }
    }
  }

  /** The optional port, path-abempty, query and fragment after a host that
      ends at `iter`. */
  method ParseAfterHost(uri: string, iter: nat, parts: UriParts) returns (ok: bool)
    requires iter <= |uri|
    modifies parts
    ensures AfterHostStep(uri, iter, old(parts.Value())) == Attempt(ok, parts.Value())
  {
    var cursor := iter;
    var colon := Char(uri, cursor, ':');
    if colon.Some? {
      var portEnd := Port(uri, colon.value);
      if portEnd.Some? {
        parts.port := Some(Span(colon.value, portEnd.value));
        cursor := portEnd.value;
      }
    }
    var pathEnd := PathAbempty(uri, cursor);
    if pathEnd.None? {
      return false;
    }
    parts.path := Some(Span(cursor, pathEnd.value));
    var end := ParseQueryFragment(uri, pathEnd.value, parts);
    ok := end == |uri|;
  }

  /** `parse_complete`: scheme ":" ( "//" [ userinfo "@" ] host [ ":" port ]
      path-abempty / path-empty ) [ "?" query ] [ "#" fragment ], to the end. */
  method ParseComplete(uri: string, parts: UriParts) returns (ok: bool)
    modifies parts
    ensures CompleteAttempt(uri, old(parts.Value())) == Attempt(ok, parts.Value())
  {
    var iter: nat := 0;
    var schemeEnd := Scheme(uri, iter);
    if schemeEnd.None? {
      return false;
    }
    parts.scheme := Some(Span(iter, schemeEnd.value));
    var colon := Char(uri, schemeEnd.value, ':');
    if colon.None? {
      return false;
    }
    iter := colon.value;
    var saved := iter;

    var slashes := DoubleSlash(uri, iter);
    var hostSpan := if slashes.Some? then HostSpan(uri, slashes.value) else None;
    if hostSpan.Some? {
      parts.host := hostSpan;
      ok := ParseAfterHost(uri, hostSpan.value.hi, parts);
      return;
    }

    iter := saved;
    var pathEnd := PathEmpty(uri, iter);
    parts.path := Some(Span(iter, pathEnd.value));
    var end := ParseQueryFragment(uri, pathEnd.value, parts);
    ok := end == |uri|;
  }

  /** `parse_authority`: [ userinfo "@" ] host [ ":" port ] path-abempty
      [ "?" query ] [ "#" fragment ], to the end, with no scheme. */
  method ParseAuthority(uri: string, parts: UriParts) returns (ok: bool)
    modifies parts
    ensures AuthorityAttempt(uri, old(parts.Value())) == Attempt(ok, parts.Value())
  {
    var hostSpan := HostSpan(uri, 0);
    if hostSpan.None? {
      return false;
    }
    parts.host := hostSpan;
    ok := ParseAfterHost(uri, hostSpan.value.hi, parts);
  }

  /** `parse_uri`: the complete form, else the authority form on fresh parts,
      else fresh parts. */
  method ParseUri(uri: string) returns (parts: UriParts)
    ensures fresh(parts)
    ensures parts.Value() == ParseResult(uri)
  {
    parts := new UriParts();
    var ok := ParseComplete(uri, parts);
    if ok {
      return;
    }
    parts := new UriParts();
    ok := ParseAuthority(uri, parts);
    if ok {
      return;
    }
    parts := new UriParts();
  }

  // ---------------------------------------------------------------------------
  // The narrow overloads

  /** The code unit of the `char` overloads. */
  type Byte = b: int | 0 <= b < 256

  /** Each byte read as the code point with the same number. */
  function Widen(bytes: seq<Byte>): (s: string)
    ensures |s| == |bytes|
    ensures forall k :: 0 <= k < |bytes| ==> s[k] as int == bytes[k]
  {
    seq(|bytes|, k requires 0 <= k < |bytes| => bytes[k] as char)
  }

  predicate AsciiBytes(bytes: seq<Byte>) {
    forall k :: 0 <= k < |bytes| ==> bytes[k] < 128
  }

  /** A byte string and a code-point string for the same text: where either
      of them is ASCII (as UTF-8 and its decoding are together), they hold
      the same numbers. */
  predicate Corresponds(bytes: seq<Byte>, s: string) {
    (AsciiBytes(bytes) || AsciiSpan(s, 0, |s|)) ==> Widen(bytes) == s
  }

  /** Widening keeps exactly the ASCII byte strings ASCII. */
  lemma WidenAscii(bytes: seq<Byte>)
    ensures AsciiSpan(Widen(bytes), 0, |bytes|) <==> AsciiBytes(bytes)
  {
    var s := Widen(bytes);
    if !AsciiBytes(bytes) {
      var k :| 0 <= k < |bytes| && bytes[k] >= 128;
      assert !IsAscii(s[k]);
    }
  }

  /** The `char` and `char32_t` overloads of parse_uri agree on
      corresponding inputs: both answer the same parts, and both answer
      nothing when the text is not ASCII. The substance is
      `ParseResultAscii`: parse_uri answers nothing for non-ASCII text, and
      on ASCII text the two inputs are equal. */
  lemma OverloadsAgree(bytes: seq<Byte>, s: string)
    requires Corresponds(bytes, s)
    ensures ParseResult(Widen(bytes)) == ParseResult(s)
    ensures !AsciiBytes(bytes) ==> ParseResult(Widen(bytes)) == NoCaptures
  {
    WidenAscii(bytes);
    ParseResultAscii(Widen(bytes));
    ParseResultAscii(s);
  }

  /** parse_uri over bytes. */
  method ParseUriBytes(uri: seq<Byte>) returns (parts: UriParts)
    ensures fresh(parts)
    ensures parts.Value() == ParseResult(Widen(uri))
  {
    parts := ParseUri(Widen(uri));
  }

  /** parse_complete over bytes. */
  method ParseCompleteBytes(uri: seq<Byte>, parts: UriParts) returns (ok: bool)
    modifies parts
    ensures CompleteAttempt(Widen(uri), old(parts.Value())) == Attempt(ok, parts.Value())
  {
    ok := ParseComplete(Widen(uri), parts);
  }

  /** parse_authority over bytes. */
  method ParseAuthorityBytes(uri: seq<Byte>, parts: UriParts) returns (ok: bool)
    modifies parts
    ensures AuthorityAttempt(Widen(uri), old(parts.Value())) == Attempt(ok, parts.Value())
  {
    ok := ParseAuthority(Widen(uri), parts);
  }
}
