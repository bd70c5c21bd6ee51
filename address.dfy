/** Host address literals (RFC 3986, section 3.2.2): dec-octet, IPv4address,
    h16, ls32, IPv6address, IPvFuture and IP-literal, as PEG matchers. */
module Address {
  import opened Wrappers
  import opened Lexical

  /** dec-octet = "25" %x30-35 / "2" %x30-34 DIGIT / "1" 2DIGIT / %x31-39 DIGIT / DIGIT

      The longest alternatives come first, so that "255" is consumed whole rather
      than as the one-digit prefix "2". */
  function DecOctet(s: string, i: nat): (r: Option<nat>)
    requires i <= |s|
    ensures r.Some? ==> i < r.value <= i + 3 && r.value <= |s|
    ensures r.Some? ==> AsciiSpan(s, i, r.value)
  {
    if i + 3 <= |s| && s[i] == '2' && s[i + 1] == '5' && '0' <= s[i + 2] <= '5' then Some(i + 3)
    else if i + 3 <= |s| && s[i] == '2' && '0' <= s[i + 1] <= '4' && IsDigit(s[i + 2]) then Some(i + 3)
    else if i + 3 <= |s| && s[i] == '1' && IsDigit(s[i + 1]) && IsDigit(s[i + 2]) then Some(i + 3)
    else if i + 2 <= |s| && '1' <= s[i] <= '9' && IsDigit(s[i + 1]) then Some(i + 2)
    else if i + 1 <= |s| && IsDigit(s[i]) then Some(i + 1)
    else None
  }

  /** `"." dec-octet`, the tail of each of the last three octets. */
  function DotOctet(s: string, i: nat): (r: Option<nat>)
    requires i <= |s|
    ensures r.Some? ==> i + 1 < r.value <= i + 4 && r.value <= |s|
    ensures r.Some? ==> AsciiSpan(s, i, r.value)
  {
    if i < |s| && s[i] == '.' then DecOctet(s, i + 1) else None
  }

  /** IPv4address = dec-octet "." dec-octet "." dec-octet "." dec-octet */
  function IPv4Address(s: string, i: nat): (r: Option<nat>)
    requires i <= |s|
    ensures r.Some? ==> i + 7 <= r.value <= i + 15 && r.value <= |s|
    ensures r.Some? ==> AsciiSpan(s, i, r.value)
  {
    match DecOctet(s, i)
    case None => None
    case Some(a) =>
      match DotOctet(s, a)
      case None => None
      case Some(b) =>
        match DotOctet(s, b)
        case None => None
        case Some(c) => DotOctet(s, c)
  }

  /** Up to `n` further hexadecimal digits (bounded greedy repetition). */
  function HexDigits(s: string, i: nat, n: nat): (r: nat)
    requires i <= |s|
    ensures i <= r <= i + n && r <= |s|
    decreases n
  {
    if n > 0 && i < |s| && IsHexDig(s[i]) then HexDigits(s, i + 1, n - 1) else i
  }

  /** h16 = 1*4HEXDIG */
  function H16(s: string, i: nat): (r: Option<nat>)
    requires i <= |s|
    ensures r.Some? ==> i < r.value <= i + 4 && r.value <= |s|
  {
    if i < |s| && IsHexDig(s[i]) then Some(HexDigits(s, i + 1, 3)) else None
  }

  /** What h16 consumes is ASCII (a lemma rather than a postcondition of
      `H16`, which every group of an address unfolds). */
  lemma H16Ascii(s: string, i: nat)
    requires i <= |s|
    ensures H16(s, i).Some? ==> AsciiSpan(s, i, H16(s, i).value)
  {
    if i < |s| && IsHexDig(s[i]) {
      HexDigitsLongest(s, i + 1, 3);
    }
  }

  /** `n( h16 ":" )`: exactly `n` groups, each followed by a colon. */
  function Groups(s: string, i: nat, n: nat): (r: Option<nat>)
    requires i <= |s|
    ensures r.Some? ==> i + 2 * n <= r.value <= i + 5 * n && r.value <= |s|
    ensures r.Some? ==> AsciiSpan(s, i, r.value)
    decreases n
  {
    if n == 0 then Some(i)
    else
      H16Ascii(s, i);
      match H16(s, i)
      case None => None
      case Some(j) => if j < |s| && s[j] == ':' then Groups(s, j + 1, n - 1) else None
  }

  /** `*m( ":" h16 )`: at most `m` further groups, each preceded by a colon. A
      colon that is not followed by a group (the first half of "::") is left. */
  function MoreGroups(s: string, i: nat, m: nat): (r: nat)
    requires i <= |s|
    ensures i <= r <= i + 5 * m && r <= |s|
    ensures AsciiSpan(s, i, r)
    decreases m
  {
    if m == 0 || i == |s| || s[i] != ':' then i
    else
      H16Ascii(s, i + 1);
      match H16(s, i + 1)
      case None => i
      case Some(k) => MoreGroups(s, k, m - 1)
  }

  /** `[ h16 *m( ":" h16 ) ]`, the groups in front of "::"; it describes the
      same strings as the RFC's `[ *m( h16 ":" ) h16 ]`, but stops in front of
      "::" under greedy repetition. */
  function ElidedPrefix(s: string, i: nat, m: nat): (r: nat)
    requires i <= |s|
    ensures i <= r <= i + 4 + 5 * m && r <= |s|
    ensures AsciiSpan(s, i, r)
  {
    H16Ascii(s, i);
    match H16(s, i)
    case None => i
    case Some(j) => MoreGroups(s, j, m)
  }

  /** The zero-compression marker "::". */
  function DoubleColon(s: string, i: nat): (r: Option<nat>)
    requires i <= |s|
    ensures r.Some? <==> i + 2 <= |s| && s[i] == ':' && s[i + 1] == ':'
    ensures r.Some? ==> r.value == i + 2
    ensures r.Some? ==> AsciiSpan(s, i, r.value)
  {
    if i + 2 <= |s| && s[i] == ':' && s[i + 1] == ':' then Some(i + 2) else None
  }

  /** ls32 = ( h16 ":" h16 ) / IPv4address */
  function Ls32(s: string, i: nat): (r: Option<nat>)
    requires i <= |s|
    ensures r.Some? ==> i + 3 <= r.value <= |s|
    ensures r.Some? ==> AsciiSpan(s, i, r.value)
  {
    H16Ascii(s, i);
    var pair :=
      match H16(s, i)
      case None => None
      case Some(j) => if j < |s| && s[j] == ':' then H16(s, j + 1) else None;
    Or(pair, IPv4Address(s, i))
  }

  /** `n( h16 ":" ) ls32`, the trailer every alternative but the last two
      ends with. */
  function GroupsLs32(s: string, i: nat, n: nat): (r: Option<nat>)
    requires i <= |s|
    ensures r.Some? ==> i + 3 <= r.value <= |s|
    ensures r.Some? ==> AsciiSpan(s, i, r.value)
  {
    match Groups(s, i, n)
    case None => None
    case Some(k) => Ls32(s, k)
  }

  /** `"::" n( h16 ":" ) ls32`, the part of an alternative after its prefix. */
  function ElidedTail(s: string, i: nat, n: nat): (r: Option<nat>)
    requires i <= |s|
    ensures r.Some? ==> i + 2 <= r.value <= |s|
    ensures r.Some? ==> AsciiSpan(s, i, r.value)
  {
    if DoubleColon(s, i).None? then None else GroupsLs32(s, i + 2, n)
  }

  /** Alternative `k` (0 to 8) of IPv6address:
        0:                            6( h16 ":" ) ls32
        1:                       "::" 5( h16 ":" ) ls32
        2: [               h16 ] "::" 4( h16 ":" ) ls32
        3: [ *1( h16 ":" ) h16 ] "::" 3( h16 ":" ) ls32
        4: [ *2( h16 ":" ) h16 ] "::" 2( h16 ":" ) ls32
        5: [ *3( h16 ":" ) h16 ] "::"    h16 ":"   ls32
        6: [ *4( h16 ":" ) h16 ] "::"              ls32
        7: [ *5( h16 ":" ) h16 ] "::"              h16
        8: [ *6( h16 ":" ) h16 ] "::"                        */
  function IPv6Alternative(s: string, i: nat, k: nat): (r: Option<nat>)
    requires i <= |s|
    requires k <= 8
    ensures r.Some? ==> i + 2 <= r.value <= |s|
    ensures r.Some? ==> AsciiSpan(s, i, r.value)
  {
    if k == 0 then GroupsLs32(s, i, 6)
    else if k == 1 then ElidedTail(s, i, 5)
    else if k <= 6 then ElidedTail(s, ElidedPrefix(s, i, k - 2), 6 - k)
    else if k == 7 then
      if DoubleColon(s, ElidedPrefix(s, i, 5)).None? then None
      else H16(s, ElidedPrefix(s, i, 5) + 2)
    else DoubleColon(s, ElidedPrefix(s, i, 6))
  }

  /** The first of the alternatives `k` to 8 that matches. */
  function IPv6From(s: string, i: nat, k: nat): (r: Option<nat>)
    requires i <= |s|
    requires k <= 9
    ensures r.Some? ==> i + 2 <= r.value <= |s|
    ensures r.Some? ==> AsciiSpan(s, i, r.value)
    decreases 9 - k
  {
    if k == 9 then None else Or(IPv6Alternative(s, i, k), IPv6From(s, i, k + 1))
  }

  /** IPv6address, its nine alternatives tried in order. */
  function IPv6Address(s: string, i: nat): (r: Option<nat>)
    requires i <= |s|
    ensures r.Some? ==> i + 2 <= r.value <= |s|
    ensures r.Some? ==> AsciiSpan(s, i, r.value)
  {
    IPv6From(s, i, 0)
  }

  /** IPvFuture = "v" 1*HEXDIG "." 1*( unreserved / sub-delims / ":" )
      ("v" is case-insensitive, as quoted strings are in ABNF). */
  function IPvFuture(s: string, i: nat): (r: Option<nat>)
    requires i <= |s|
    ensures r.Some? ==> i + 4 <= r.value <= |s|
    ensures r.Some? ==> AsciiSpan(s, i, r.value)
    ensures r.Some? ==> IsFutureText(s, i, r.value)
  {
    if i == |s| || (s[i] != 'v' && s[i] != 'V') then None
    else
      var d := Plus(HexDigUnit, s, i + 1);
      if d.None? || d.value == |s| || s[d.value] != '.' then None
      else
        PlusSpan(HexDigUnit, s, i + 1);
        PlusSpan(FutureUnit, s, d.value + 1);
        var r := Plus(FutureUnit, s, d.value + 1);
        if r.None? then r
        else
          DelimitedAscii(s, i, d.value);
          AsciiJoin(s, i, d.value + 1, r.value);
          assert FutureSplit(s, i, d.value, r.value);
          r
  }

  /** IP-literal = "[" ( IPv6address / IPvFuture ) "]" */
  function IPLiteral(s: string, i: nat): (r: Option<nat>)
    requires i <= |s|
    ensures r.Some? ==> i + 4 <= r.value <= |s| && s[i] == '[' && s[r.value - 1] == ']'
    ensures r.Some? ==> AsciiSpan(s, i, r.value)
    ensures r.Some? ==> Or(IPv6Address(s, i + 1), IPvFuture(s, i + 1)) == Some(r.value - 1)
  {
    if i == |s| || s[i] != '[' then None
    else
      LiteralBodyAscii(s, i + 1);
      CloseBracket(s, i, Or(IPv6Address(s, i + 1), IPvFuture(s, i + 1)))
  }

  /** The IP-literal opened by the "[" at `i` whose text inside ends at `m`:
      a "]" must follow right after the text. */
  function CloseBracket(s: string, i: nat, m: Option<nat>): (r: Option<nat>)
    requires i < |s| && s[i] == '['
    requires m.Some? ==> i + 3 <= m.value <= |s| && AsciiSpan(s, i + 1, m.value)
    ensures r.Some? ==> i + 4 <= r.value <= |s| && s[r.value - 1] == ']' && m == Some(r.value - 1)
    ensures r.Some? ==> AsciiSpan(s, i, r.value)
  {
    if m.None? || m.value == |s| || s[m.value] != ']' then None
    else
      DelimitedAscii(s, i, m.value);
      Some(m.value + 1)
  }

  /** The text inside the brackets is ASCII, as both of its forms are. */
  lemma LiteralBodyAscii(s: string, j: nat)
    requires j <= |s|
    ensures Or(IPv6Address(s, j), IPvFuture(s, j)).Some? ==>
      j + 2 <= Or(IPv6Address(s, j), IPvFuture(s, j)).value <= |s|
      && AsciiSpan(s, j, Or(IPv6Address(s, j), IPvFuture(s, j)).value)
  {
  }

  // ---------------------------------------------------------------------------
  // Properties

  /** The value of a decimal digit. */
  function DigitValue(c: char): int { c as int - '0' as int }

  /** The value of the one to three decimal digits `s[x..y]`. */
  function OctetValue(s: string, x: nat, y: nat): int
    requires x < y <= x + 3 && y <= |s|
  {
    if y == x + 1 then DigitValue(s[x])
    else if y == x + 2 then 10 * DigitValue(s[x]) + DigitValue(s[x + 1])
    else 100 * DigitValue(s[x]) + 10 * DigitValue(s[x + 1]) + DigitValue(s[x + 2])
  }

  /** `s[x..y]` is the canonical decimal text of a number from 0 to 255: one
      to three digits, no leading zero, value at most 255. */
  predicate IsOctetText(s: string, x: nat, y: nat) {
    && x < y <= x + 3 && y <= |s|
    && (forall k :: x <= k < y ==> IsDigit(s[k]))
    && (y > x + 1 ==> s[x] != '0')
    && OctetValue(s, x, y) <= 255
  }

  /** dec-octet matches wherever a digit starts, and what it consumes is
      always the canonical text of a number from 0 to 255. */
  lemma DecOctetMatchesOctetText(s: string, i: nat)
    requires i <= |s|
    ensures DecOctet(s, i).Some? <==> i < |s| && IsDigit(s[i])
    ensures DecOctet(s, i).Some? ==> IsOctetText(s, i, DecOctet(s, i).value)
  {
  }

  /** dec-octet consumes a whole octet text that no further digit follows. */
  lemma DecOctetReadsOctetText(s: string, i: nat, j: nat)
    requires IsOctetText(s, i, j)
    requires j == |s| || !IsDigit(s[j])
    ensures DecOctet(s, i) == Some(j)
  {
  }

  /** The dec-octet test vectors state exactly this: the whole input matches
      if and only if it is the canonical text of a number from 0 to 255. */
  lemma DecOctetWholeInput(t: string)
    ensures DecOctet(t, 0) == Some(|t|) <==> IsOctetText(t, 0, |t|)
  {
    DecOctetMatchesOctetText(t, 0);
    if IsOctetText(t, 0, |t|) {
      DecOctetReadsOctetText(t, 0, |t|);
    }
  }

  /** `s[i..d]` is four octet texts separated by dots. */
  ghost predicate DottedQuad(s: string, i: nat, d: nat) {
    exists a: nat, b: nat, c: nat :: QuadSplit(s, i, a, b, c, d)
  }

  /** `s[i..d]` is four octet texts with the dots at `a`, `b` and `c`. */
  predicate QuadSplit(s: string, i: nat, a: nat, b: nat, c: nat, d: nat) {
    && IsOctetText(s, i, a) && a < |s| && s[a] == '.'
    && IsOctetText(s, a + 1, b) && b < |s| && s[b] == '.'
    && IsOctetText(s, b + 1, c) && c < |s| && s[c] == '.'
    && IsOctetText(s, c + 1, d)
  }

  /** Four octet texts separated by dots form an IPv4address, consumed whole
      when no digit follows. */
  lemma IPv4ReadsDottedQuad(s: string, i: nat, a: nat, b: nat, c: nat, d: nat)
    requires QuadSplit(s, i, a, b, c, d)
    requires d == |s| || !IsDigit(s[d])
    ensures IPv4Address(s, i) == Some(d)
  {
    DecOctetReadsOctetText(s, i, a);
    DotOctetReadsOctetText(s, a, b);
    DotOctetReadsOctetText(s, b, c);
    DotOctetReadsOctetText(s, c, d);
  }

  /** A dot followed by an octet text is read by DotOctet up to its end. */
  lemma DotOctetReadsOctetText(s: string, a: nat, b: nat)
    requires a < |s| && s[a] == '.' && IsOctetText(s, a + 1, b)
    requires b == |s| || !IsDigit(s[b])
    ensures DotOctet(s, a) == Some(b)
  {
    DecOctetReadsOctetText(s, a + 1, b);
  }

  /** Conversely, whatever IPv4address consumes is four octet texts
      separated by dots. */
  lemma IPv4MatchIsDottedQuad(s: string, i: nat)
    requires i <= |s| && IPv4Address(s, i).Some?
    ensures DottedQuad(s, i, IPv4Address(s, i).value)
  {
    DecOctetMatchesOctetText(s, i);
    var a := DecOctet(s, i).value;
    DotOctetMatchIsOctetText(s, a);
    var b := DotOctet(s, a).value;
    DotOctetMatchIsOctetText(s, b);
    var c := DotOctet(s, b).value;
    DotOctetMatchIsOctetText(s, c);
    var d := DotOctet(s, c).value;
    assert QuadSplit(s, i, a, b, c, d);
  }

  /** Whatever DotOctet consumes is a dot followed by an octet text. */
  lemma DotOctetMatchIsOctetText(s: string, a: nat)
    requires a <= |s| && DotOctet(s, a).Some?
    ensures a < |s| && s[a] == '.' && IsOctetText(s, a + 1, DotOctet(s, a).value)
  {
    DecOctetMatchesOctetText(s, a + 1);
  }

  /** h16 consumes the longest run of at most four hexadecimal digits. */
  lemma {:induction false} HexDigitsLongest(s: string, i: nat, n: nat)
    requires i <= |s|
    ensures forall k :: i <= k < HexDigits(s, i, n) ==> IsHexDig(s[k])
    ensures var r := HexDigits(s, i, n); r == i + n || r == |s| || !IsHexDig(s[r])
    decreases n
  {
    if n > 0 && i < |s| && IsHexDig(s[i]) {
      HexDigitsLongest(s, i + 1, n - 1);
    }
  }

  /** h16 = 1*4HEXDIG, taken greedily: it matches exactly where a hexadecimal
      digit starts, and stops after four digits or at the first other unit. */
  lemma H16Longest(s: string, i: nat)
    requires i <= |s|
    ensures H16(s, i).Some? <==> i < |s| && IsHexDig(s[i])
    ensures H16(s, i).Some? ==> var j := H16(s, i).value;
      (forall k :: i <= k < j ==> IsHexDig(s[k])) && (j == i + 4 || j == |s| || !IsHexDig(s[j]))
  {
    if i < |s| && IsHexDig(s[i]) {
      HexDigitsLongest(s, i + 1, 3);
    }
  }

  /** The text of an IPvFuture: "v" 1*HEXDIG "." 1*( unreserved / sub-delims /
      ":" ), with the "v" in either case. */
  ghost predicate IsFutureText(s: string, i: nat, m: nat) {
    && i < m <= |s| && (s[i] == 'v' || s[i] == 'V')
    && exists d: nat :: FutureSplit(s, i, d, m)
  }

  /** The hexadecimal version number of an IPvFuture ends at the dot at `d`. */
  predicate FutureSplit(s: string, i: nat, d: nat, m: nat) {
    && i + 1 < d && d + 1 < m <= |s| && s[d] == '.'
    && (forall k :: i + 1 <= k < d ==> IsHexDig(s[k]))
    && CharsIn(FutureUnit, s, d + 1, m)
  }

  // ---------------------------------------------------------------------------
  // What IPv6address accepts

  /** `s[i..j]` is one h16: one to four hexadecimal digits. */
  predicate IsH16Span(s: string, i: nat, j: nat) {
    i < j <= i + 4 && j <= |s| && forall k :: i <= k < j ==> IsHexDig(s[k])
  }

  /** `s[i..j]` is `n` h16 groups separated by single colons, and nothing
      when `n` is 0. */
  ghost predicate HexList(s: string, i: nat, j: nat, n: nat)
    decreases n
  {
    if n == 0 then i == j
    else if n == 1 then IsH16Span(s, i, j)
    else exists k: nat :: GroupColon(s, i, k) && k < j && HexList(s, k + 1, j, n - 1)
  }

  /** An h16 group from `i` to `k`, then a colon. */
  predicate GroupColon(s: string, i: nat, k: nat) {
    IsH16Span(s, i, k) && k < |s| && s[k] == ':'
  }

  /** `s[i..j]` holds `n` 16-bit pieces: h16 groups separated by single
      colons, of which the last two may be written as a dotted quad. */
  ghost predicate Pieces(s: string, i: nat, j: nat, n: nat) {
    || HexList(s, i, j, n)
    || (n == 2 && DottedQuad(s, i, j))
    || (n > 2 && exists k: nat :: HexList(s, i, k, n - 2) && ColonQuad(s, k, j))
  }

  /** A colon at `k`, then a dotted quad up to `j`. */
  ghost predicate ColonQuad(s: string, k: nat, j: nat) {
    k < j <= |s| && s[k] == ':' && DottedQuad(s, k + 1, j)
  }

  /** `s[i..j]` is `a` groups, the "::" at `p`, then `b` pieces. The "::"
      stands for at least one group of zeros, so `a + b` is at most seven. */
  ghost predicate Compressed(s: string, i: nat, p: nat, j: nat, a: nat, b: nat) {
    && HexList(s, i, p, a) && p + 2 <= j <= |s| && s[p] == ':' && s[p + 1] == ':'
    && Pieces(s, p + 2, j, b) && a + b <= 7
  }

  /** `s[i..j]` is an IPv6 address in the text form that the nine
      alternatives of IPv6address spell out: eight pieces, or fewer around a
      single "::". */
  ghost predicate IPv6Text(s: string, i: nat, j: nat) {
    Pieces(s, i, j, 8) || exists p: nat, a: nat, b: nat :: Compressed(s, i, p, j, a, b)
  }

  /** `s[lo..hi]` is written with hexadecimal digits, colons and dots only. */
  predicate AddressChars(s: string, lo: nat, hi: nat) {
    forall k :: lo <= k < hi && k < |s| ==> IsHexDig(s[k]) || s[k] == ':' || s[k] == '.'
  }

  /** A list of groups lies inside the input, and is empty exactly when it
      has no group. */
  lemma {:induction false} HexListBounds(s: string, i: nat, j: nat, n: nat)
    requires HexList(s, i, j, n)
    ensures n == 0 ==> i == j
    ensures n >= 1 ==> i < j <= |s|
    decreases n
  {
    if n >= 2 {
      var k: nat :| GroupColon(s, i, k) && k < j && HexList(s, k + 1, j, n - 1);
      HexListBounds(s, k + 1, j, n - 1);
    }
  }

  /** The first group of a list, and the rest of the list after its colon. */
  lemma HexListFirst(s: string, i: nat, j: nat, n: nat) returns (k: nat)
    requires HexList(s, i, j, n) && n >= 1
    ensures IsH16Span(s, i, k)
    ensures n == 1 ==> k == j
    ensures n >= 2 ==> k < j <= |s| && s[k] == ':' && HexList(s, k + 1, j, n - 1)
  {
    if n == 1 {
      k := j;
    } else {
      k :| GroupColon(s, i, k) && k < j && HexList(s, k + 1, j, n - 1);
      HexListBounds(s, k + 1, j, n - 1);
    }
  }

  /** Two lists joined by a colon form one list. */
  lemma {:induction false} HexListJoin(s: string, i: nat, k: nat, j: nat, n: nat, m: nat)
    requires HexList(s, i, k, n) && n >= 1 && HexList(s, k + 1, j, m) && m >= 1
    requires k < |s| && s[k] == ':'
    ensures HexList(s, i, j, n + m)
    decreases n
  {
    HexListBounds(s, k + 1, j, m);
    if n == 1 {
      assert GroupColon(s, i, k) && k < j && HexList(s, k + 1, j, n + m - 1);
    } else {
      var k1 := HexListFirst(s, i, k, n);
      HexListJoin(s, k1 + 1, k, j, n - 1, m);
      assert GroupColon(s, i, k1) && k1 < j && HexList(s, k1 + 1, j, n + m - 1);
    }
  }

  /** h16 reads a whole group that no hexadecimal digit follows. */
  lemma H16Reads(s: string, i: nat, j: nat)
    requires IsH16Span(s, i, j) && (j == |s| || !IsHexDig(s[j]))
    ensures H16(s, i) == Some(j)
  {
    H16Longest(s, i);
  }

  // What the alternatives read (soundness)

  /** h16 ":" in front of n - 1 further groups. */
  lemma GroupsCons(s: string, x: nat, y: nat, n: nat)
    requires x <= |s| && n >= 1 && H16(s, x) == Some(y) && y < |s| && s[y] == ':'
    ensures Groups(s, x, n) == Groups(s, y + 1, n - 1)
  {
  }

  /** n( h16 ":" ) fails, for n >= 1, where no h16 ":" starts. */
  lemma GroupsStop(s: string, x: nat, n: nat)
    requires x <= |s| && n >= 1
    requires H16(s, x).None? || H16(s, x).value == |s| || s[H16(s, x).value] != ':'
    ensures Groups(s, x, n).None?
  {
  }

  /** With no group, the trailer is ls32 alone. */
  lemma GroupsLs32Zero(s: string, x: nat)
    requires x <= |s|
    ensures Groups(s, x, 0) == Some(x) && GroupsLs32(s, x, 0) == Ls32(s, x)
  {
  }

  /** What the trailer is made of when it matches. */
  lemma GroupsLs32Parts(s: string, x: nat, n: nat)
    requires x <= |s| && GroupsLs32(s, x, n).Some?
    ensures Groups(s, x, n).Some? && Ls32(s, Groups(s, x, n).value) == GroupsLs32(s, x, n)
  {
  }

  /** The first group and colon that Groups reads. */
  lemma GroupsHead(s: string, i: nat, n: nat, g: nat) returns (j: nat)
    requires i <= |s| && n >= 1 && Groups(s, i, n) == Some(g)
    ensures GroupColon(s, i, j) && j + 1 <= |s| && Groups(s, j + 1, n - 1) == Some(g)
  {
    H16Longest(s, i);
    j := H16(s, i).value;
  }

  /** n( h16 ":" ) reads `n` groups, each followed by a colon. */
  lemma {:induction false} GroupsList(s: string, i: nat, n: nat, g: nat)
    requires i <= |s| && n >= 1 && Groups(s, i, n) == Some(g)
    ensures i < g <= |s| && s[g - 1] == ':' && HexList(s, i, g - 1, n)
    decreases n, 1
  {
    var j := GroupsHead(s, i, n, g);
    GroupsTail(s, i, j, n, g);
  }

  /** The groups after a first group and colon. */
  lemma {:induction false} GroupsTail(s: string, i: nat, j: nat, n: nat, g: nat)
    requires n >= 1 && GroupColon(s, i, j) && j + 1 <= |s| && Groups(s, j + 1, n - 1) == Some(g)
    ensures i < g <= |s| && s[g - 1] == ':' && HexList(s, i, g - 1, n)
    decreases n, 0
  {
    if n == 1 {
      assert g == j + 1;
    } else {
      GroupsList(s, j + 1, n - 1, g);
      HexListCons(s, i, j, g - 1, n);
    }
  }

  /** A group and a colon in front of a list of groups. */
  lemma HexListCons(s: string, i: nat, k: nat, j: nat, n: nat)
    requires n >= 2 && GroupColon(s, i, k) && k < j && HexList(s, k + 1, j, n - 1)
    ensures HexList(s, i, j, n)
  {
  }

  /** ls32 reads two pieces. */
  lemma Ls32Pieces(s: string, i: nat)
    requires i <= |s| && Ls32(s, i).Some?
    ensures Pieces(s, i, Ls32(s, i).value, 2)
  {
    H16Longest(s, i);
    var j := Ls32(s, i).value;
    if H16(s, i).Some? && Char(s, H16(s, i).value, ':').Some? && H16(s, H16(s, i).value + 1).Some? {
      var a := H16(s, i).value;
      H16Longest(s, a + 1);
      assert GroupColon(s, i, a) && a < j && HexList(s, a + 1, j, 1);
    } else {
      IPv4MatchIsDottedQuad(s, i);
    }
  }

  /** Groups each followed by a colon, then pieces, are one run of pieces. */
  /** Groups followed by a dotted quad alone. */
  lemma QuadAfterGroups(s: string, i: nat, g: nat, j: nat, n: nat)
    requires n >= 1 && i < g <= |s| && s[g - 1] == ':' && HexList(s, i, g - 1, n)
    requires DottedQuad(s, g, j)
    ensures Pieces(s, i, j, n + 2)
  {
    assert HexList(s, i, g - 1, n) && ColonQuad(s, g - 1, j);
  }

  /** Groups followed by more groups and a dotted quad. */
  lemma TrailerAfterGroups(s: string, i: nat, g: nat, k: nat, j: nat, n: nat, b: nat)
    requires n >= 1 && i < g <= |s| && s[g - 1] == ':' && HexList(s, i, g - 1, n)
    requires b > 2 && HexList(s, g, k, b - 2) && ColonQuad(s, k, j)
    ensures Pieces(s, i, j, n + b)
  {
    HexListJoin(s, i, g - 1, k, n, b - 2);
    assert HexList(s, i, k, n + b - 2) && ColonQuad(s, k, j);
  }

  lemma PiecesAfterGroups(s: string, i: nat, g: nat, j: nat, n: nat, b: nat)
    requires n >= 1 && i < g <= |s| && s[g - 1] == ':' && HexList(s, i, g - 1, n)
    requires Pieces(s, g, j, b) && b >= 1
    ensures Pieces(s, i, j, n + b)
  {
    if HexList(s, g, j, b) {
      HexListJoin(s, i, g - 1, j, n, b);
    } else if b == 2 {
      QuadAfterGroups(s, i, g, j, n);
    } else {
      var k: nat :| HexList(s, g, k, b - 2) && ColonQuad(s, k, j);
      TrailerAfterGroups(s, i, g, k, j, n, b);
    }
  }

  /** n( h16 ":" ) ls32 reads n + 2 pieces. */
  lemma TrailerPieces(s: string, x: nat, n: nat, j: nat)
    requires x <= |s| && GroupsLs32(s, x, n) == Some(j)
    ensures Pieces(s, x, j, n + 2)
  {
    GroupsLs32Parts(s, x, n);
    var g := Groups(s, x, n).value;
    Ls32Pieces(s, g);
    if n >= 1 {
      GroupsList(s, x, n, g);
      PiecesAfterGroups(s, x, g, j, n, 2);
    }
  }

  /** `*m( ":" h16 )` after a list of `c` groups extends it by at most `m`
      groups. */
  lemma {:induction false} MoreGroupsList(s: string, i: nat, y: nat, c: nat, m: nat) returns (d: nat)
    requires y <= |s| && HexList(s, i, y, c) && c >= 1
    ensures d <= m && HexList(s, i, MoreGroups(s, y, m), c + d)
    decreases m
  {
    if m == 0 || Char(s, y, ':').None? || H16(s, y + 1).None? {
      d := 0;
    } else {
      var z := H16(s, y + 1).value;
      H16Longest(s, y + 1);
      HexListJoin(s, i, y, z, c, 1);
      var rest := MoreGroupsList(s, i, z, c + 1, m - 1);
      d := rest + 1;
    }
  }

  /** The groups in front of "::" are a list of at most m + 1 groups. */
  lemma ElidedPrefixList(s: string, i: nat, m: nat) returns (a: nat)
    requires i <= |s|
    ensures a <= m + 1 && HexList(s, i, ElidedPrefix(s, i, m), a)
  {
    if H16(s, i).None? {
      a := 0;
    } else {
      H16Longest(s, i);
      var d := MoreGroupsList(s, i, H16(s, i).value, 1, m);
      a := 1 + d;
    }
  }

  /** "::" n( h16 ":" ) ls32 after `a` groups reads a compressed address. */
  lemma ElidedTailSound(s: string, i: nat, p: nat, a: nat, n: nat, j: nat)
    requires p <= |s| && HexList(s, i, p, a) && a + n <= 5 && ElidedTail(s, p, n) == Some(j)
    ensures IPv6Text(s, i, j)
  {
    assert DoubleColon(s, p) == Some(p + 2);
    TrailerPieces(s, p + 2, n, j);
    CompressedText(s, i, p, j, a, n + 2);
  }

  /** A compressed address is an IPv6 address. */
  lemma CompressedText(s: string, i: nat, p: nat, j: nat, a: nat, b: nat)
    requires HexList(s, i, p, a) && p + 2 <= j <= |s| && s[p] == ':' && s[p + 1] == ':'
    requires Pieces(s, p + 2, j, b) && a + b <= 7
    ensures IPv6Text(s, i, j)
  {
    assert Compressed(s, i, p, j, a, b);
  }

  /** "::" h16 after `a` groups reads a compressed address. */
  lemma ElidedGroupSound(s: string, i: nat, p: nat, a: nat, j: nat)
    requires p + 2 <= |s| && HexList(s, i, p, a) && a <= 6
    requires DoubleColon(s, p).Some? && H16(s, p + 2) == Some(j)
    ensures IPv6Text(s, i, j)
  {
    H16Longest(s, p + 2);
    assert Compressed(s, i, p, j, a, 1);
  }

  /** "::" alone after `a` groups reads a compressed address. */
  lemma ElidedEndSound(s: string, i: nat, p: nat, a: nat)
    requires p <= |s| && HexList(s, i, p, a) && a <= 7 && DoubleColon(s, p).Some?
    ensures IPv6Text(s, i, p + 2)
  {
    assert Compressed(s, i, p, p + 2, a, 0);
  }

  /** Alternatives 2 to 6 are `ElidedTail` after the prefix. */
  lemma ElidedAlternative(s: string, i: nat, k: nat)
    requires i <= |s| && 2 <= k <= 6
    ensures IPv6Alternative(s, i, k) == ElidedTail(s, ElidedPrefix(s, i, k - 2), 6 - k)
  {
  }

  /** Alternatives 2 to 6, [ *(k-2)( h16 ":" ) h16 ] "::" (6-k)( h16 ":" ) ls32,
      read compressed addresses. */
  lemma ElidedAlternativeSound(s: string, i: nat, k: nat)
    requires i <= |s| && 2 <= k <= 6 && IPv6Alternative(s, i, k).Some?
    ensures IPv6Text(s, i, IPv6Alternative(s, i, k).value)
  {
    ElidedAlternative(s, i, k);
    var p := ElidedPrefix(s, i, k - 2);
    var a := ElidedPrefixList(s, i, k - 2);
    ElidedTailSound(s, i, p, a, 6 - k, IPv6Alternative(s, i, k).value);
  }

  /** Each alternative reads an IPv6 address. */
  lemma IPv6AlternativeSound(s: string, i: nat, k: nat)
    requires i <= |s| && k <= 8 && IPv6Alternative(s, i, k).Some?
    ensures IPv6Text(s, i, IPv6Alternative(s, i, k).value)
  {
    if k == 0 {
      Alt0Sound(s, i);
    } else if k == 1 {
      Alt1Sound(s, i);
    } else if k <= 6 {
      ElidedAlternativeSound(s, i, k);
    } else if k == 7 {
      Alt7Sound(s, i);
    } else {
      Alt8Sound(s, i);
    }
  }

  /** Alternative 0 reads eight pieces. */
  lemma Alt0Sound(s: string, i: nat)
    requires i <= |s| && IPv6Alternative(s, i, 0).Some?
    ensures IPv6Text(s, i, IPv6Alternative(s, i, 0).value)
  {
    TrailerPieces(s, i, 6, IPv6Alternative(s, i, 0).value);
  }

  /** Alternative 1 reads "::" and seven pieces. */
  lemma Alt1Sound(s: string, i: nat)
    requires i <= |s| && IPv6Alternative(s, i, 1).Some?
    ensures IPv6Text(s, i, IPv6Alternative(s, i, 1).value)
  {
    ElidedTailSound(s, i, i, 0, 5, IPv6Alternative(s, i, 1).value);
  }

  /** Alternative 7 reads groups, "::" and one group. */
  lemma Alt7Sound(s: string, i: nat)
    requires i <= |s| && IPv6Alternative(s, i, 7).Some?
    ensures IPv6Text(s, i, IPv6Alternative(s, i, 7).value)
  {
    var p := ElidedPrefix(s, i, 5);
    var a := ElidedPrefixList(s, i, 5);
    ElidedGroupSound(s, i, p, a, IPv6Alternative(s, i, 7).value);
  }

  /** Alternative 8 reads groups and "::". */
  lemma Alt8Sound(s: string, i: nat)
    requires i <= |s| && IPv6Alternative(s, i, 8).Some?
    ensures IPv6Text(s, i, IPv6Alternative(s, i, 8).value)
  {
    var p := ElidedPrefix(s, i, 6);
    var a := ElidedPrefixList(s, i, 6);
    ElidedEndSound(s, i, p, a);
  }

  /** The first alternative from `k` on that matches reads an IPv6 address. */
  lemma {:induction false} IPv6FromSound(s: string, i: nat, k: nat)
    requires i <= |s| && k <= 9 && IPv6From(s, i, k).Some?
    ensures IPv6Text(s, i, IPv6From(s, i, k).value)
    decreases 9 - k
  {
    if IPv6Alternative(s, i, k).Some? {
      IPv6AlternativeSound(s, i, k);
    } else {
      IPv6FromSound(s, i, k + 1);
    }
  }

  /** Whatever IPv6address reads is an IPv6 address: eight pieces, or at most
      seven around one "::". */
  lemma IPv6AddressSound(s: string, i: nat)
    requires i <= |s| && IPv6Address(s, i).Some?
    ensures IPv6Text(s, i, IPv6Address(s, i).value)
  {
    IPv6FromSound(s, i, 0);
  }

  // What the alternatives read (completeness)

  /** IPv4address needs a dot after one to three digits, so it does not match
      at hexadecimal digits that neither a dot nor a digit follows. */
  lemma IPv4NeedsDot(s: string, y: nat, p: nat)
    requires y <= p <= |s| && forall k :: y <= k < p ==> IsHexDig(s[k])
    requires p == |s| || (s[p] != '.' && !IsDigit(s[p]))
    ensures IPv4Address(s, y).None?
  {
    DecOctetMatchesOctetText(s, y);
  }

  /** A dotted quad that no digit follows is read whole by IPv4address, while
      h16 stops at the dot after its first octet. */
  lemma QuadReads(s: string, x: nat, j: nat)
    requires DottedQuad(s, x, j) && (j == |s| || !IsDigit(s[j]))
    ensures H16(s, x).Some? && H16(s, x).value < |s| && s[H16(s, x).value] == '.'
    ensures IPv4Address(s, x) == Some(j)
  {
    var a: nat, b: nat, c: nat :| QuadSplit(s, x, a, b, c, j);
    H16Reads(s, x, a);
    IPv4ReadsDottedQuad(s, x, a, b, c, j);
  }

  /** The first group of pieces that end in a dotted quad after some groups. */
  lemma QuadTailFirst(s: string, x: nat, j: nat, b: nat) returns (y: nat)
    requires b > 2
    requires exists k: nat :: HexList(s, x, k, b - 2) && ColonQuad(s, k, j)
    ensures IsH16Span(s, x, y) && y < j <= |s| && s[y] == ':' && Pieces(s, y + 1, j, b - 1)
  {
    var k: nat :| HexList(s, x, k, b - 2) && ColonQuad(s, k, j);
    if b == 3 {
      y := k;
    } else {
      y := HexListFirst(s, x, k, b - 2);
      assert HexList(s, y + 1, k, b - 3) && ColonQuad(s, k, j);
    }
  }

  /** ls32 at the start of at most two pieces that end at the end of the
      input or at "]": it reads two pieces whole and fails on fewer. */
  lemma Ls32Reads(s: string, x: nat, j: nat, b: nat)
    requires x <= j <= |s| && Pieces(s, x, j, b) && b <= 2
    requires j == |s| || s[j] == ']'
    ensures Ls32(s, x) == if b == 2 then Some(j) else None
  {
    if HexList(s, x, j, b) {
      if b == 1 {
        H16Reads(s, x, j);
        IPv4NeedsDot(s, x, j);
      } else if b == 2 {
        var y := HexListFirst(s, x, j, b);
        H16Reads(s, x, y);
        H16Reads(s, y + 1, j);
      }
    } else {
      QuadReads(s, x, j);
    }
  }

  /** At least two pieces are a lone dotted quad, or a first group, a colon
      and the remaining pieces. */
  lemma PiecesFirst(s: string, x: nat, j: nat, b: nat) returns (quad: bool, y: nat)
    requires Pieces(s, x, j, b) && b >= 2
    ensures quad ==> b == 2 && DottedQuad(s, x, j)
    ensures !quad ==> IsH16Span(s, x, y) && y < j <= |s| && s[y] == ':' && Pieces(s, y + 1, j, b - 1)
  {
    if HexList(s, x, j, b) {
      quad := false;
      y := HexListFirst(s, x, j, b);
    } else if b == 2 {
      quad, y := true, x;
    } else {
      quad := false;
      y := QuadTailFirst(s, x, j, b);
    }
  }

  /** n( h16 ":" ), for n >= 1, fails on no piece, on one group, and on a
      dotted quad, when they end at the end of the input or at "]". */
  lemma TailStops(s: string, x: nat, j: nat, n: nat, b: nat)
    requires x <= j <= |s| && (j == |s| || s[j] == ']') && n >= 1
    requires (b <= 1 && Pieces(s, x, j, b)) || (b == 2 && DottedQuad(s, x, j))
    ensures GroupsLs32(s, x, n).None?
  {
    if b == 0 {
      assert HexList(s, x, j, 0);
    } else if b == 1 {
      assert IsH16Span(s, x, j);
      H16Reads(s, x, j);
    } else {
      QuadReads(s, x, j);
    }
    GroupsStop(s, x, n);
  }

  /** n( h16 ":" ) ls32 at the start of `b` pieces that end at the end of the
      input or at "]": it reads them whole when there are n + 2 of them, and
      fails when there are fewer. */
  lemma {:induction false} TailReads(s: string, x: nat, j: nat, n: nat, b: nat)
    requires x <= j <= |s| && Pieces(s, x, j, b) && b <= n + 2
    requires j == |s| || s[j] == ']'
    ensures GroupsLs32(s, x, n) == if b == n + 2 then Some(j) else None
    decreases n
  {
    if n == 0 {
      GroupsLs32Zero(s, x);
      Ls32Reads(s, x, j, b);
    } else if b <= 1 {
      TailStops(s, x, j, n, b);
    } else {
      var quad, y := PiecesFirst(s, x, j, b);
      if quad {
        TailStops(s, x, j, n, b);
      } else {
        H16Reads(s, x, y);
        TailReads(s, y + 1, j, n - 1, b - 1);
        TailCons(s, x, y, j, n, b);
      }
    }
  }

  /** One group and a colon in front of the trailer with one group fewer. */
  lemma TailCons(s: string, x: nat, y: nat, j: nat, n: nat, b: nat)
    requires x <= |s| && n >= 1 && b >= 1 && H16(s, x) == Some(y) && y < |s| && s[y] == ':'
    requires GroupsLs32(s, y + 1, n - 1) == if b - 1 == n + 1 then Some(j) else None
    ensures GroupsLs32(s, x, n) == if b == n + 2 then Some(j) else None
  {
    GroupsCons(s, x, y, n);
  }

  /** n( h16 ":" ) over `c` <= n groups that end at "::": it runs onto the
      second colon of "::" when n == c > 0, and fails when n > c. */
  lemma {:induction false} GroupsIntoElision(s: string, y: nat, p: nat, c: nat, n: nat)
    requires y <= p && HexList(s, y, p, c) && p + 2 <= |s| && s[p] == ':' && s[p + 1] == ':'
    requires c <= n
    ensures Groups(s, y, n) == if n == c then Some(if c == 0 then p else p + 1) else None
    decreases c
  {
    if c == 0 {
      assert y == p;
      if n >= 1 {
        GroupsStop(s, p, n);
      }
    } else {
      var z := HexListFirst(s, y, p, c);
      H16Reads(s, y, z);
      GroupsCons(s, y, z, n);
      if c == 1 {
        if n >= 2 {
          GroupsStop(s, p + 1, n - 1);
        }
      } else {
        GroupsIntoElision(s, z + 1, p, c - 1, n - 1);
      }
    }
  }

  /** n( h16 ":" ) over more than n groups that end at "::": it reads n of
      them, and the rest remain in front of "::". */
  lemma {:induction false} GroupsBeforeElision(s: string, y: nat, p: nat, c: nat, n: nat) returns (g: nat)
    requires y <= p && HexList(s, y, p, c) && p + 2 <= |s| && s[p] == ':' && s[p + 1] == ':'
    requires n < c
    ensures Groups(s, y, n) == Some(g) && HexList(s, g, p, c - n)
    decreases n
  {
    if n == 0 {
      g := y;
    } else {
      var z := HexListFirst(s, y, p, c);
      H16Reads(s, y, z);
      GroupsCons(s, y, z, n);
      g := GroupsBeforeElision(s, z + 1, p, c - 1, n - 1);
    }
  }

  /** *m( ":" h16 ) after a group, with `c` more groups before "::": it reads
      up to "::" when c <= m, and otherwise stops where no "::" follows. */
  lemma {:induction false} MoreGroupsReads(s: string, y: nat, p: nat, c: nat, m: nat)
    requires y <= p && p + 2 <= |s| && s[p] == ':' && s[p + 1] == ':'
    requires c == 0 ==> y == p
    requires c >= 1 ==> s[y] == ':' && HexList(s, y + 1, p, c)
    ensures c <= m ==> MoreGroups(s, y, m) == p
    ensures c > m ==> DoubleColon(s, MoreGroups(s, y, m)).None?
    decreases m
  {
    if c >= 1 {
      var z := HexListFirst(s, y + 1, p, c);
      H16Reads(s, y + 1, z);
      if m >= 1 {
        MoreGroupsReads(s, z, p, c - 1, m - 1);
      }
    }
  }

  /** The prefix `[ h16 *m( ":" h16 ) ]` in front of "::" after `a` groups:
      it reaches "::" when a <= m + 1, and otherwise stops where no "::"
      follows. */
  lemma PrefixReads(s: string, i: nat, p: nat, a: nat, m: nat)
    requires i <= p && HexList(s, i, p, a) && p + 2 <= |s| && s[p] == ':' && s[p + 1] == ':'
    ensures a <= m + 1 ==> ElidedPrefix(s, i, m) == p
    ensures a > m + 1 ==> DoubleColon(s, ElidedPrefix(s, i, m)).None?
  {
    if a >= 1 {
      var y := HexListFirst(s, i, p, a);
      H16Reads(s, i, y);
      MoreGroupsReads(s, y, p, a - 1, m);
    }
  }

  /** ls32 fails on the second colon of "::". */
  lemma Ls32AtColon(s: string, x: nat)
    requires x < |s| && s[x] == ':'
    ensures Ls32(s, x).None?
  {
    DecOctetMatchesOctetText(s, x);
  }

  /** ls32 fails on the last group in front of "::". */
  lemma Ls32BeforeElision(s: string, g: nat, p: nat)
    requires IsH16Span(s, g, p) && p + 2 <= |s| && s[p] == ':' && s[p + 1] == ':'
    ensures Ls32(s, g).None?
  {
    H16Reads(s, g, p);
    IPv4NeedsDot(s, g, p);
    assert Char(s, p, ':') == Some(p + 1);
    assert H16(s, p + 1).None?;
  }

  /** The first alternative, eight pieces without "::", fails on a
      compressed address. */
  lemma Alt0Compressed(s: string, i: nat, p: nat, j: nat, a: nat, b: nat)
    requires Compressed(s, i, p, j, a, b)
    ensures IPv6Alternative(s, i, 0).None?
  {
    HexListBounds(s, i, p, a);
    if a < 6 {
      GroupsIntoElision(s, i, p, a, 6);
      Alt0Stops(s, i);
    } else if a == 6 {
      GroupsIntoElision(s, i, p, a, 6);
      Alt0AtElision(s, i, p);
    } else {
      var g := GroupsBeforeElision(s, i, p, 7, 6);
      assert IsH16Span(s, g, p);
      Alt0BeforeElision(s, i, g, p);
    }
  }

  /** The first alternative fails where its groups do. */
  lemma Alt0Stops(s: string, i: nat)
    requires i <= |s| && Groups(s, i, 6).None?
    ensures IPv6Alternative(s, i, 0).None?
  {
  }

  /** The first alternative fails where its six groups end on the first
      colon of "::", since ls32 cannot start at the second. */
  lemma Alt0AtElision(s: string, i: nat, p: nat)
    requires i <= |s| && p + 2 <= |s| && s[p + 1] == ':' && Groups(s, i, 6) == Some(p + 1)
    ensures IPv6Alternative(s, i, 0).None?
  {
    Ls32AtColon(s, p + 1);
  }

  /** The first alternative fails where its six groups leave a seventh in
      front of "::", since ls32 cannot read that group alone. */
  lemma Alt0BeforeElision(s: string, i: nat, g: nat, p: nat)
    requires i <= |s| && Groups(s, i, 6) == Some(g)
    requires IsH16Span(s, g, p) && p + 2 <= |s| && s[p] == ':' && s[p + 1] == ':'
    ensures IPv6Alternative(s, i, 0).None?
  {
    Ls32BeforeElision(s, g, p);
  }

  /** "::" n( h16 ":" ) ls32 tried at `q`, where either the "::" of a
      compressed address with `b` pieces after it stands, or no "::" does:
      it reads the address whole when there are n + 2 pieces, and fails when
      there are fewer. */
  lemma TailCompressed(s: string, p: nat, j: nat, b: nat, q: nat, n: nat)
    requires p + 2 <= j <= |s| && s[p] == ':' && s[p + 1] == ':' && Pieces(s, p + 2, j, b)
    requires (j == |s| || s[j] == ']') && b <= n + 2
    requires q <= |s| && (q == p || DoubleColon(s, q).None?) && (b == n + 2 ==> q == p)
    ensures ElidedTail(s, q, n) == if b == n + 2 then Some(j) else None
  {
    if q == p {
      assert DoubleColon(s, p) == Some(p + 2);
      TailReads(s, p + 2, j, n, b);
    }
  }

  /** The prefix of an alternative with room for `m` + 1 groups, on a
      compressed address with `a` groups before "::": it reaches "::" when
      the groups fit, and otherwise stops where no "::" stands. */
  lemma PrefixCompressed(s: string, i: nat, p: nat, j: nat, a: nat, b: nat, m: nat)
    requires Compressed(s, i, p, j, a, b)
    ensures ElidedPrefix(s, i, m) == p || DoubleColon(s, ElidedPrefix(s, i, m)).None?
    ensures a <= m + 1 ==> ElidedPrefix(s, i, m) == p
  {
    HexListBounds(s, i, p, a);
    PrefixReads(s, i, p, a, m);
  }

  /** Alternatives 2 to 6 on a compressed address: alternative k reads it
      whole when there are 8 - k pieces after "::", and fails when there are
      fewer. */
  lemma ElidedAltCompressed(s: string, i: nat, p: nat, j: nat, a: nat, b: nat, k: nat)
    requires Compressed(s, i, p, j, a, b) && (j == |s| || s[j] == ']')
    requires 2 <= k <= 6 && b <= 8 - k
    ensures IPv6Alternative(s, i, k) == if k == 8 - b then Some(j) else None
  {
    ElidedTailCompressed(s, i, p, j, a, b, k);
    ElidedAlternative(s, i, k);
  }

  /** The elided tail that alternative `k` reads after its prefix. */
  lemma ElidedTailCompressed(s: string, i: nat, p: nat, j: nat, a: nat, b: nat, k: nat)
    requires Compressed(s, i, p, j, a, b) && (j == |s| || s[j] == ']')
    requires 2 <= k <= 6 && b <= 8 - k
    ensures ElidedTail(s, ElidedPrefix(s, i, k - 2), 6 - k) == if k == 8 - b then Some(j) else None
  {
    PrefixCompressed(s, i, p, j, a, b, k - 2);
    TailCompressed(s, p, j, b, ElidedPrefix(s, i, k - 2), 6 - k);
  }

  /** Alternative 1 on a compressed address: it reads it whole when there
      are seven pieces after "::" and nothing in front. */
  lemma Alt1Compressed(s: string, i: nat, p: nat, j: nat, a: nat, b: nat)
    requires Compressed(s, i, p, j, a, b) && (j == |s| || s[j] == ']')
    ensures IPv6Alternative(s, i, 1) == if b == 7 then Some(j) else None
  {
    HexListBounds(s, i, p, a);
    if a >= 1 {
      var y := HexListFirst(s, i, p, a);
    }
    assert IPv6Alternative(s, i, 1) == ElidedTail(s, i, 5);
    TailCompressed(s, p, j, b, i, 5);
  }

  /** Alternative 7 on a compressed address: it reads it whole when one
      piece follows "::", and fails when none does. */
  lemma Alt7Compressed(s: string, i: nat, p: nat, j: nat, a: nat, b: nat)
    requires Compressed(s, i, p, j, a, b) && (j == |s| || s[j] == ']') && b <= 1
    ensures IPv6Alternative(s, i, 7) == if b == 1 then Some(j) else None
  {
    PrefixCompressed(s, i, p, j, a, b, 5);
    if b == 1 {
      assert IsH16Span(s, p + 2, j);
    } else {
      assert HexList(s, p + 2, j, 0);
    }
    Alt7Reads(s, i, p, j, b == 1);
  }

  /** Alternative 7 where the prefix stops at the "::" at `p` or at no "::":
      it reads the one group after "::" that runs to the end of the input or
      to "]", and fails where that end directly follows "::". */
  lemma Alt7Reads(s: string, i: nat, p: nat, j: nat, group: bool)
    requires i <= |s| && p + 2 <= j <= |s| && s[p] == ':' && s[p + 1] == ':' && (j == |s| || s[j] == ']')
    requires ElidedPrefix(s, i, 5) == p || DoubleColon(s, ElidedPrefix(s, i, 5)).None?
    requires group ==> ElidedPrefix(s, i, 5) == p && IsH16Span(s, p + 2, j)
    requires !group ==> j == p + 2
    ensures IPv6Alternative(s, i, 7) == if group then Some(j) else None
  {
    if group {
      H16Reads(s, p + 2, j);
    }
  }

  /** Alternative 8 reads a compressed address with nothing after "::". */
  lemma Alt8Compressed(s: string, i: nat, p: nat, j: nat, a: nat)
    requires Compressed(s, i, p, j, a, 0)
    ensures IPv6Alternative(s, i, 8) == Some(j)
  {
    PrefixCompressed(s, i, p, j, a, 0, 6);
    assert HexList(s, p + 2, j, 0);
    Alt8Reads(s, i, p);
  }

  /** Alternative 8 reads its six-group prefix and the "::" after it. */
  lemma Alt8Reads(s: string, i: nat, p: nat)
    requires i <= |s| && ElidedPrefix(s, i, 6) == p
    requires p + 2 <= |s| && s[p] == ':' && s[p + 1] == ':'
    ensures IPv6Alternative(s, i, 8) == Some(p + 2)
  {
  }

  /** On a compressed address with `b` pieces after "::", alternative 8 - b
      reads it whole, and the alternatives from 1 to it that come earlier
      fail. */
  lemma CompressedAlternative(s: string, i: nat, p: nat, j: nat, a: nat, b: nat, k: nat)
    requires Compressed(s, i, p, j, a, b) && (j == |s| || s[j] == ']')
    requires 1 <= k <= 8 - b
    ensures IPv6Alternative(s, i, k) == if k == 8 - b then Some(j) else None
  {
    if k == 1 {
      Alt1Compressed(s, i, p, j, a, b);
    } else if k <= 6 {
      ElidedAltCompressed(s, i, p, j, a, b, k);
    } else if k == 7 {
      Alt7Compressed(s, i, p, j, a, b);
    } else {
      Alt8Compressed(s, i, p, j, a);
    }
  }

  /** From any alternative up to 8 - b on, the first that matches reads a
      compressed address whole. */
  lemma {:induction false} IPv6FromCompressed(s: string, i: nat, p: nat, j: nat, a: nat, b: nat, k: nat)
    requires Compressed(s, i, p, j, a, b) && (j == |s| || s[j] == ']')
    requires 1 <= k <= 8 - b
    ensures IPv6From(s, i, k) == Some(j)
    decreases 8 - b - k
  {
    CompressedAlternative(s, i, p, j, a, b, k);
    if k < 8 - b {
      IPv6FromCompressed(s, i, p, j, a, b, k + 1);
    }
  }

  /** IPv6address reads every IPv6 address whole when the input ends after it
      or a "]" follows it, as inside an IP-literal. */
  lemma IPv6AddressComplete(s: string, i: nat, j: nat)
    requires i <= j <= |s| && IPv6Text(s, i, j) && (j == |s| || s[j] == ']')
    ensures IPv6Address(s, i) == Some(j)
  {
    if Pieces(s, i, j, 8) {
      TailReads(s, i, j, 6, 8);
    } else {
      var p: nat, a: nat, b: nat :| Compressed(s, i, p, j, a, b);
      Alt0Compressed(s, i, p, j, a, b);
      IPv6FromCompressed(s, i, p, j, a, b, 1);
    }
  }

  /** "[", an IPv6 address and "]" form an IP-literal, read whole. */
  lemma IPLiteralReadsIPv6(s: string, i: nat, j: nat)
    requires i < j < |s| && s[i] == '[' && IPv6Text(s, i + 1, j) && s[j] == ']'
    ensures IPLiteral(s, i) == Some(j + 1)
  {
    IPv6AddressComplete(s, i + 1, j);
    LiteralBodyIPv6(s, i + 1, j);
    IPLiteralAround(s, i, j);
  }

  /** Inside an IP-literal, an IPv6 address is tried first. */
  lemma LiteralBodyIPv6(s: string, i: nat, j: nat)
    requires i <= |s| && IPv6Address(s, i) == Some(j)
    ensures Or(IPv6Address(s, i), IPvFuture(s, i)) == Some(j)
  {
  }

  /** "[" in front of what the body of an IP-literal reads and "]" after it
      form an IP-literal. */
  lemma IPLiteralAround(s: string, i: nat, j: nat)
    requires i < j < |s| && s[i] == '[' && s[j] == ']'
    requires Or(IPv6Address(s, i + 1), IPvFuture(s, i + 1)) == Some(j)
    ensures IPLiteral(s, i) == Some(j + 1)
  {
    LiteralBodyAscii(s, i + 1);
    CloseBracketAt(s, i, j);
  }

  /** A "]" closes the text that ends before it. */
  lemma CloseBracketAt(s: string, i: nat, j: nat)
    requires i < |s| && s[i] == '[' && i + 3 <= j < |s| && s[j] == ']' && AsciiSpan(s, i + 1, j)
    ensures CloseBracket(s, i, Some(j)) == Some(j + 1)
  {
  }

  // The characters of an address

  /** A list of groups is written with hexadecimal digits and colons. */
  lemma {:induction false} HexListChars(s: string, i: nat, j: nat, n: nat)
    requires HexList(s, i, j, n)
    ensures AddressChars(s, i, j)
    decreases n
  {
    if n >= 2 {
      var k := HexListFirst(s, i, j, n);
      HexListChars(s, k + 1, j, n - 1);
    }
  }

  /** A dotted quad is written with digits and dots. */
  lemma QuadChars(s: string, x: nat, d: nat)
    requires DottedQuad(s, x, d)
    ensures AddressChars(s, x, d)
  {
    var a: nat, b: nat, c: nat :| QuadSplit(s, x, a, b, c, d);
    AddressCharsJoin(s, x, a, b);
    AddressCharsJoin(s, x, b, c);
    AddressCharsJoin(s, x, c, d);
  }

  /** Two runs of address characters joined by one. */
  lemma AddressCharsJoin(s: string, lo: nat, mid: nat, hi: nat)
    requires lo <= mid < hi && AddressChars(s, lo, mid) && AddressChars(s, mid + 1, hi)
    requires mid < |s| && (s[mid] == ':' || s[mid] == '.')
    ensures AddressChars(s, lo, hi)
  {
  }

  /** Pieces are written with hexadecimal digits, colons and dots. */
  lemma PiecesChars(s: string, i: nat, j: nat, n: nat)
    requires Pieces(s, i, j, n)
    ensures AddressChars(s, i, j)
  {
    if HexList(s, i, j, n) {
      HexListChars(s, i, j, n);
    } else if n == 2 {
      QuadChars(s, i, j);
    } else {
      var k: nat :| HexList(s, i, k, n - 2) && ColonQuad(s, k, j);
      HexListChars(s, i, k, n - 2);
      QuadChars(s, k + 1, j);
      AddressCharsJoin(s, i, k, j);
    }
  }

  /** So is every IPv6 address. */
  lemma IPv6TextChars(s: string, i: nat, j: nat)
    requires IPv6Text(s, i, j)
    ensures AddressChars(s, i, j)
  {
    if Pieces(s, i, j, 8) {
      PiecesChars(s, i, j, 8);
    } else {
      var p: nat, a: nat, b: nat :| Compressed(s, i, p, j, a, b);
      CompressedChars(s, i, p, j, a, b);
    }
  }

  /** Groups, "::" and pieces are written with those characters alone. */
  lemma CompressedChars(s: string, i: nat, p: nat, j: nat, a: nat, b: nat)
    requires Compressed(s, i, p, j, a, b)
    ensures AddressChars(s, i, j)
  {
    HexListChars(s, i, p, a);
    PiecesChars(s, p + 2, j, b);
    AddressCharsJoin(s, p + 1, p + 1, j);
    AddressCharsJoin(s, i, p, j);
  }

  /** `s[lo..hi]` holds none of "%", "/", "?" and "#". */
  predicate LiteralChars(s: string, lo: nat, hi: nat) {
    forall k :: lo <= k < hi && k < |s| ==> s[k] != '%' && s[k] != '/' && s[k] != '?' && s[k] != '#'
  }

  /** An IPvFuture holds none of them: its units are unreserved characters,
      sub-delims and colons. */
  lemma FutureChars(s: string, i: nat, m: nat)
    requires IsFutureText(s, i, m)
    ensures LiteralChars(s, i, m)
  {
    var d: nat :| FutureSplit(s, i, d, m);
    forall k | i <= k < m && k < |s|
      ensures s[k] != '%' && s[k] != '/' && s[k] != '?' && s[k] != '#'
    {
      if d < k {
        assert UnitChar(FutureUnit, s[k]);
      }
    }
  }

  /** Nor does an IPv6 address. */
  lemma IPv6AddressChars(s: string, i: nat, m: nat)
    requires i <= |s| && IPv6Address(s, i) == Some(m)
    ensures LiteralChars(s, i, m)
  {
    IPv6AddressSound(s, i);
    IPv6TextChars(s, i, m);
  }

  /** The text inside the brackets of an IP-literal holds none of them. */
  lemma LiteralBodyChars(s: string, j: nat)
    requires j <= |s| && Or(IPv6Address(s, j), IPvFuture(s, j)).Some?
    ensures LiteralChars(s, j, Or(IPv6Address(s, j), IPvFuture(s, j)).value)
  {
    if IPv6Address(s, j).Some? {
      IPv6AddressChars(s, j, IPv6Address(s, j).value);
    } else {
      FutureChars(s, j, IPvFuture(s, j).value);
    }
  }

  /** Brackets around such a text keep it free of them. */
  lemma BracketedChars(s: string, i: nat, l: nat)
    requires i + 1 < l <= |s| && s[i] == '[' && s[l - 1] == ']' && LiteralChars(s, i + 1, l - 1)
    ensures LiteralChars(s, i, l)
  {
  }

  /** An IP-literal holds no "%", "/", "?" or "#": neither an IPv6 address nor
      an IPvFuture is written with them. */
  lemma IPLiteralChars(s: string, i: nat)
    requires i <= |s| && IPLiteral(s, i).Some?
    ensures LiteralChars(s, i, IPLiteral(s, i).value)
  {
    LiteralBodyChars(s, i + 1);
    BracketedChars(s, i, IPLiteral(s, i).value);
  }
}
