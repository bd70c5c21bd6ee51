/** The lexical layer of the URI grammar (RFC 3986, sections 2.1 to 2.3 and the
    core rules of Appendix A), written as PEG matchers.

    Every matcher takes the input `s` and a position `i` and answers either
    `Some(j)`, meaning that it consumed `s[i..j]`, or `None`. Choice is ordered
    and committed, repetition is greedy, and a failed match consumes nothing.
    Every matcher consumes US-ASCII characters only (section 2 of RFC 3986):
    this is what lets the narrow and the wide entry points share one grammar. */
module Lexical {
  import opened Wrappers

  // ---------------------------------------------------------------------------
  // Character classes

  predicate IsAlpha(c: char) { 'A' <= c <= 'Z' || 'a' <= c <= 'z' }

  predicate IsDigit(c: char) { '0' <= c <= '9' }

  predicate IsHexDig(c: char) { IsDigit(c) || 'A' <= c <= 'F' || 'a' <= c <= 'f' }

  /** unreserved = ALPHA / DIGIT / "-" / "." / "_" / "~" */
  predicate IsUnreserved(c: char) {
    IsAlpha(c) || IsDigit(c) || c == '-' || c == '.' || c == '_' || c == '~'
  }

  /** gen-delims = ":" / "/" / "?" / "#" / "[" / "]" / "@" */
  predicate IsGenDelim(c: char) {
    c == ':' || c == '/' || c == '?' || c == '#' || c == '[' || c == ']' || c == '@'
  }

  /** sub-delims = "!" / "$" / "&" / "'" / "(" / ")" / "*" / "+" / "," / ";" / "=" */
  predicate IsSubDelim(c: char) {
    c == '!' || c == '$' || c == '&' || c == '\'' || c == '(' || c == ')'
    || c == '*' || c == '+' || c == ',' || c == ';' || c == '='
  }

  /** The characters of a scheme after its first letter:
      ALPHA / DIGIT / "+" / "-" / "." */
  predicate IsSchemeChar(c: char) {
    IsAlpha(c) || IsDigit(c) || c == '+' || c == '-' || c == '.'
  }

  /** The characters a pchar is written with: those that start one, and the
      hexadecimal digits of a percent-encoding, which are unreserved. */
  predicate IsPCharChar(c: char) {
    IsUnreserved(c) || c == '%' || IsSubDelim(c) || c == ':' || c == '@'
  }

  predicate IsAscii(c: char) { c as int < 128 }

  /** Every character of `s[i..j]` (as far as `s` reaches) is ASCII. */
  predicate AsciiSpan(s: string, i: nat, j: nat) {
    forall k {:trigger IsAscii(s[k])} :: i <= k < j && k < |s| ==> IsAscii(s[k])
  }

  /** An ASCII span between two ASCII delimiters is ASCII with them. */
  lemma DelimitedAscii(s: string, i: nat, k: nat)
    requires i < k < |s| && IsAscii(s[i]) && IsAscii(s[k]) && AsciiSpan(s, i + 1, k)
    ensures AsciiSpan(s, i, k + 1)
  {
  }

  /** Two adjacent ASCII spans form one. */
  lemma AsciiJoin(s: string, i: nat, j: nat, k: nat)
    requires i <= j <= k && AsciiSpan(s, i, j) && AsciiSpan(s, j, k)
    ensures AsciiSpan(s, i, k)
  {
  }

  // ---------------------------------------------------------------------------
  // Single-unit matchers

  /** The literal `c`. */
  function Char(s: string, i: nat, c: char): (r: Option<nat>)
    requires i <= |s|
    ensures r.Some? <==> i < |s| && s[i] == c
    ensures r.Some? ==> r.value == i + 1
  {
    if i < |s| && s[i] == c then Some(i + 1) else None
  }

  function Unreserved(s: string, i: nat): (r: Option<nat>)
    requires i <= |s|
    ensures r.Some? <==> i < |s| && IsUnreserved(s[i])
    ensures r.Some? ==> r.value == i + 1
    ensures r.Some? ==> AsciiSpan(s, i, r.value)
  {
    if i < |s| && IsUnreserved(s[i]) then Some(i + 1) else None
  }

  function GenDelims(s: string, i: nat): (r: Option<nat>)
    requires i <= |s|
    ensures r.Some? <==> i < |s| && IsGenDelim(s[i])
    ensures r.Some? ==> r.value == i + 1
    ensures r.Some? ==> AsciiSpan(s, i, r.value)
  {
    if i < |s| && IsGenDelim(s[i]) then Some(i + 1) else None
  }

  function SubDelims(s: string, i: nat): (r: Option<nat>)
    requires i <= |s|
    ensures r.Some? <==> i < |s| && IsSubDelim(s[i])
    ensures r.Some? ==> r.value == i + 1
    ensures r.Some? ==> AsciiSpan(s, i, r.value)
  {
    if i < |s| && IsSubDelim(s[i]) then Some(i + 1) else None
  }

  /** Ordered choice: the first alternative if it matched, else the second. */
  function Or(first: Option<nat>, second: Option<nat>): Option<nat> {
    if first.Some? then first else second
  }

  /** reserved = gen-delims / sub-delims */
  function Reserved(s: string, i: nat): (r: Option<nat>)
    requires i <= |s|
    ensures r.Some? ==> r.value == i + 1 && i < |s|
  {
    Or(GenDelims(s, i), SubDelims(s, i))
  }

  /** pct-encoded = "%" HEXDIG HEXDIG */
  function PctEncoded(s: string, i: nat): (r: Option<nat>)
    requires i <= |s|
    ensures r.Some? <==> i + 3 <= |s| && s[i] == '%' && IsHexDig(s[i + 1]) && IsHexDig(s[i + 2])
    ensures r.Some? ==> r.value == i + 3
    ensures r.Some? ==> AsciiSpan(s, i, r.value)
  {
    if i + 3 <= |s| && s[i] == '%' && IsHexDig(s[i + 1]) && IsHexDig(s[i + 2])
    then Some(i + 3) else None
  }

  /** pchar = unreserved / pct-encoded / sub-delims / ":" / "@" */
  function PChar(s: string, i: nat): (r: Option<nat>)
    requires i <= |s|
    ensures r.Some? <==>
      && i < |s|
      && (|| IsUnreserved(s[i]) || IsSubDelim(s[i]) || s[i] == ':' || s[i] == '@'
          || (s[i] == '%' && i + 3 <= |s| && IsHexDig(s[i + 1]) && IsHexDig(s[i + 2])))
    ensures r.Some? ==> r.value == (if s[i] == '%' then i + 3 else i + 1) && r.value <= |s|
    ensures r.Some? ==> AsciiSpan(s, i, r.value)
  {
    Or(Unreserved(s, i), Or(PctEncoded(s, i), Or(SubDelims(s, i), Or(Char(s, i, ':'), Char(s, i, '@')))))
  }

  // ---------------------------------------------------------------------------
  // Greedy repetition

  /** The elements that the grammar repeats with `*` or `1*`. */
  datatype Item =
    | UnreservedUnit  // unreserved
    | PCharUnit       // pchar
    | QueryUnit       // pchar / "/" / "?"  (query and fragment)
    | UserinfoUnit    // unreserved / pct-encoded / sub-delims / ":"
    | RegNameUnit     // unreserved / pct-encoded / sub-delims
    | SchemeUnit      // ALPHA / DIGIT / "+" / "-" / "."
    | DigitUnit       // DIGIT
    | HexDigUnit      // HEXDIG
    | FutureUnit      // unreserved / sub-delims / ":"  (IPvFuture)
    | SlashSegment    // "/" segment  (path-abempty)

  /** One occurrence of `e`; every item consumes at least one unit. */
  function One(e: Item, s: string, i: nat): (r: Option<nat>)
    requires i <= |s|
    ensures r.Some? ==> i < r.value <= |s|
    ensures r.Some? ==> AsciiSpan(s, i, r.value)
    decreases |s| - i, 0
  {
    match e
    case UnreservedUnit => Unreserved(s, i)
    case PCharUnit => PChar(s, i)
    case QueryUnit => Or(PChar(s, i), Or(Char(s, i, '/'), Char(s, i, '?')))
    case UserinfoUnit => Or(Unreserved(s, i), Or(PctEncoded(s, i), Or(SubDelims(s, i), Char(s, i, ':'))))
    case RegNameUnit => Or(Unreserved(s, i), Or(PctEncoded(s, i), SubDelims(s, i)))
    case SchemeUnit => if i < |s| && IsSchemeChar(s[i]) then Some(i + 1) else None
    case DigitUnit => if i < |s| && IsDigit(s[i]) then Some(i + 1) else None
    case HexDigUnit => if i < |s| && IsHexDig(s[i]) then Some(i + 1) else None
    case FutureUnit => Or(Unreserved(s, i), Or(SubDelims(s, i), Char(s, i, ':')))
    case SlashSegment =>
      if i < |s| && s[i] == '/' then Star(PCharUnit, s, i + 1) else None
  }

  /** `*e`: as many occurrences of `e` as match, one after the other. */
  function Star(e: Item, s: string, i: nat): (r: Option<nat>)
    requires i <= |s|
    ensures r.Some? ==> i <= r.value <= |s|
    ensures r.Some? ==> AsciiSpan(s, i, r.value)
    decreases |s| - i, 1
  {
    match One(e, s, i)
    case None => Some(i)
    case Some(j) => Star(e, s, j)
  }

  /** `1*e`: one occurrence of `e`, then `*e`. */
  function Plus(e: Item, s: string, i: nat): (r: Option<nat>)
    requires i <= |s|
    ensures r.Some? ==> i < r.value <= |s|
    ensures r.Some? ==> AsciiSpan(s, i, r.value)
  {
    match One(e, s, i)
    case None => None
    case Some(j) => Star(e, s, j)
  }

  // ---------------------------------------------------------------------------
  // What a repetition holds

  /** The characters a unit of `e` is written with. */
  predicate UnitChar(e: Item, c: char) {
    match e
    case UnreservedUnit => IsUnreserved(c)
    case PCharUnit => IsPCharChar(c)
    case QueryUnit => IsPCharChar(c) || c == '/' || c == '?'
    case UserinfoUnit => IsUnreserved(c) || c == '%' || IsSubDelim(c) || c == ':'
    case RegNameUnit => IsUnreserved(c) || c == '%' || IsSubDelim(c)
    case SchemeUnit => IsSchemeChar(c)
    case DigitUnit => IsDigit(c)
    case HexDigUnit => IsHexDig(c)
    case FutureUnit => IsUnreserved(c) || IsSubDelim(c) || c == ':'
    case SlashSegment => IsPCharChar(c) || c == '/'
  }

  /** Every character of `s[lo..hi]` belongs to the class of `e`. */
  predicate CharsIn(e: Item, s: string, lo: nat, hi: nat) {
    forall k :: lo <= k < hi && k < |s| ==> UnitChar(e, s[k])
  }

  /** Every "%" in `s[lo..hi]` starts a percent-encoding, "%" and two
      hexadecimal digits, that ends inside the span (section 2.1 of RFC 3986). */
  predicate PctValid(s: string, lo: nat, hi: nat) {
    forall k :: lo <= k < hi && k < |s| && s[k] == '%' ==>
      k + 3 <= hi && k + 3 <= |s| && IsHexDig(s[k + 1]) && IsHexDig(s[k + 2])
  }

  /** No character of `s[lo..hi]` is `c`. */
  predicate Avoids(s: string, lo: nat, hi: nat, c: char) {
    forall k :: lo <= k < hi && k < |s| ==> s[k] != c
  }

  /** One unit of `e` is written with characters of its class, and every "%"
      in it starts a complete percent-encoding. */
  lemma {:induction false} OneSpan(e: Item, s: string, i: nat)
    requires i <= |s|
    ensures One(e, s, i).Some? ==>
      CharsIn(e, s, i, One(e, s, i).value) && PctValid(s, i, One(e, s, i).value)
    decreases |s| - i, 0
  {
    if e == SlashSegment && i < |s| && s[i] == '/' {
      StarSpan(PCharUnit, s, i + 1);
    }
  }

  /** The same holds for a run of `*e`. */
  lemma {:induction false} StarSpan(e: Item, s: string, i: nat)
    requires i <= |s|
    ensures Star(e, s, i).Some? ==>
      CharsIn(e, s, i, Star(e, s, i).value) && PctValid(s, i, Star(e, s, i).value)
    decreases |s| - i, 1
  {
    match One(e, s, i)
    case None =>
    case Some(j) =>
      OneSpan(e, s, i);
      StarSpan(e, s, j);
  }

  /** And for a run of `1*e`. */
  lemma PlusSpan(e: Item, s: string, i: nat)
    requires i <= |s|
    ensures Plus(e, s, i).Some? ==>
      CharsIn(e, s, i, Plus(e, s, i).value) && PctValid(s, i, Plus(e, s, i).value)
  {
    if One(e, s, i).Some? {
      OneSpan(e, s, i);
      StarSpan(e, s, One(e, s, i).value);
    }
  }

  // ---------------------------------------------------------------------------
  // Properties

  /** reserved is exactly the gen-delims and the sub-delims, two disjoint
      classes, and no unreserved character is reserved. */
  lemma ReservedClasses(s: string, i: nat)
    requires i <= |s|
    ensures Reserved(s, i).Some? <==> i < |s| && (IsGenDelim(s[i]) || IsSubDelim(s[i]))
    ensures i < |s| ==> !(IsGenDelim(s[i]) && IsSubDelim(s[i]))
    ensures i < |s| && IsUnreserved(s[i]) ==> Reserved(s, i).None?
  {
  }

  /** A pchar never starts with a gen-delim other than ":" and "@": in
      particular "/", "?" and "#" end a path segment, a query or a fragment. */
  lemma PCharExcludesDelimiters(s: string, i: nat)
    requires i < |s|
    requires IsGenDelim(s[i]) && s[i] != ':' && s[i] != '@'
    ensures PChar(s, i).None?
  {
  }

  /** `*e` always matches (possibly the empty string). */
  lemma {:induction false} StarTotal(e: Item, s: string, i: nat)
    requires i <= |s|
    ensures Star(e, s, i).Some?
    decreases |s| - i
  {
    match One(e, s, i)
    case None =>
    case Some(j) => StarTotal(e, s, j);
  }

  /** `*e` is greedy: it stops only where one more `e` does not match. */
  lemma {:induction false} StarMaximal(e: Item, s: string, i: nat)
    requires i <= |s|
    requires Star(e, s, i).Some?
    ensures One(e, s, Star(e, s, i).value).None?
    decreases |s| - i
  {
    match One(e, s, i)
    case None =>
    case Some(j) => StarMaximal(e, s, j);
  }

  /** `*e` consumes nothing exactly when `e` does not match at the start. */
  lemma StarEmpty(e: Item, s: string, i: nat)
    requires i <= |s|
    ensures Star(e, s, i) == Some(i) <==> One(e, s, i).None?
  {
  }

  /** Outside a "/"-segment, one unit of `e` is a character of its class,
      where a "%" must open a percent-encoding: `One` matches exactly then,
      and consumes three characters for a percent-encoding and one
      otherwise. */
  lemma OneUnit(e: Item, s: string, i: nat)
    requires i <= |s| && e != SlashSegment
    ensures One(e, s, i).Some? <==>
      i < |s| && UnitChar(e, s[i]) && (s[i] == '%' ==> PctEncoded(s, i).Some?)
    ensures One(e, s, i).Some? ==> One(e, s, i).value == if s[i] == '%' then i + 3 else i + 1
  {
  }

  /** `*e` reads to the end of every run of its class whose "%"s open
      percent-encodings, when no further unit follows the run: with
      `StarSpan` and `StarMaximal`, this characterises what `*e` matches. */
  lemma {:induction false} StarReads(e: Item, s: string, i: nat, j: nat)
    requires i <= j <= |s| && e != SlashSegment
    requires CharsIn(e, s, i, j) && PctValid(s, i, j) && One(e, s, j).None?
    ensures Star(e, s, i) == Some(j)
    decreases j - i
  {
    if i < j {
      OneUnit(e, s, i);
      StarReads(e, s, One(e, s, i).value, j);
    }
  }

  /** `PctValid` in terms of `PctEncoded`: every "%" of the span opens a
      pct-encoded that ends inside the span. */
  lemma PctValidEncoded(s: string, lo: nat, hi: nat)
    requires lo <= hi <= |s|
    ensures PctValid(s, lo, hi) <==>
      forall k :: lo <= k < hi && s[k] == '%' ==> PctEncoded(s, k).Some? && PctEncoded(s, k).value <= hi
  {
  }

  /** A span whose characters are all in the class of `e` holds no
      character outside it. */
  lemma CharsAvoid(e: Item, s: string, lo: nat, hi: nat, c: char)
    requires CharsIn(e, s, lo, hi) && !UnitChar(e, c)
    ensures Avoids(s, lo, hi, c)
  {
  }

  /** Two adjacent spans whose "%"s open percent-encodings, or that avoid
      `c`, make one that does. */
  lemma SpanJoin(s: string, lo: nat, mid: nat, hi: nat, c: char)
    requires lo <= mid <= hi
    ensures PctValid(s, lo, mid) && PctValid(s, mid, hi) ==> PctValid(s, lo, hi)
    ensures Avoids(s, lo, mid, c) && Avoids(s, mid, hi, c) ==> Avoids(s, lo, hi, c)
  {
  }
}
