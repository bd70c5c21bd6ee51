# furi URI parsing, modelled in Dafny

furi splits a URI into six views of the input: scheme, host, port, path,
query and fragment. `parse_uri` first tries `parse_complete`, the RFC 3986
`URI` form (`scheme ":" hier-part [ "?" query ] [ "#" fragment ]`, restricted
to an authority with path-abempty or to the empty path). If that fails it
tries `parse_authority` on fresh parts, the form `authority path-abempty
[ "?" query ] [ "#" fragment ]` without a scheme. If both fail it returns
empty parts. Each function exists twice, for `char` and for `char32_t`
input.

This project models the grammar both entry points run and the assembler in
`src/parse_uri.cpp`, and proves what they accept and what they capture.

## Layout

- `wrappers.dfy`: `Option`.
- `lexical.dfy` (module `Lexical`): the character classes of RFC 3986
  section 2 (unreserved, gen-delims, sub-delims, reserved, pct-encoded,
  pchar). It also holds the PEG combinators the productions are built from:
  a literal character, ordered choice, one unit, and greedy `*` and `+`.
  Every matcher takes the input and a position and answers `Some(end)` or
  `None`. A failed match consumes nothing.
- `address.dfy` (module `Address`): dec-octet, IPv4address, h16, ls32, the
  nine IPv6address alternatives, IPvFuture and IP-literal (section 3.2.2 of
  RFC 3986). It also proves what dec-octet, IPv4address and IPv6address
  read, against reference definitions of their texts.
- `components.dfy` (module `Components`): scheme, userinfo, host, port,
  authority, the path forms, query, fragment, hier-part and URI, with lemmas
  on the characters each can hold.
- `parser.dfy` (module `Parser`): the assembler. A pure specification of
  each attempt (`CompleteAttempt`, `AuthorityAttempt`, `ParseResult`) comes
  first, with lemmas about it. Then come the imperative model: a `UriParts`
  class with one field per view, and methods `ParseComplete`,
  `ParseAuthority` and `ParseUri`. The methods move a cursor and assign the
  fields, and each is proved to equal the specification. Last come the
  `char` overloads, over bytes, and the lemma that they agree with the wide
  ones.
- `uri_test.dfy` (module `UriTest`): every vector of `test/uri_test.cpp`,
  stated about the matcher under test.
- `parse_examples.dfy` (module `ParseExamples`): concrete results of
  `parse_uri`, one for each path through the assembler.

A view of the input is modelled as a `Span(lo, hi)` of offsets.

## Behaviour the model pins down

- `parse_complete` accepts exactly the inputs that RFC 3986 `URI` matches
  in full, except those whose hier-part is a path-absolute or a
  path-rootless. The two branches for those forms are commented out in the
  source (`src/parse_uri.cpp:58-69`). So `"asdf:jkl;"` is a URI by the
  grammar, and the test vectors say so, but `parse_uri` answers nothing for
  it (`ParseExamples.ExampleRootless`).
- reg-name is `*( unreserved / pct-encoded / sub-delims )`, as section
  3.2.2 of RFC 3986 writes it, so it may be empty. As a consequence, host
  never fails (`Components.HostTotal`), and the `"//"` branch of
  `parse_complete` is left only when `"//"` is absent.
- Host tries IP-literal, then IPv4address, then reg-name, in PEG order. Once
  an IPv4address matches a prefix of the host, the host is that prefix
  (`Components.HostCommitsToIPv4`). The vector
  `"http://192.168.0.1%20hello/"` (`test/uri_test.cpp:386`) must fail, and
  it fails only because the IPv4 prefix is committed to.
- `raw[scheme] >> ":"` records the scheme as soon as the scheme matches,
  even when ":" then fails. `CompleteNeedsScheme` states this. `parse_uri`
  discards those parts anyway.
- The matchers consume only US-ASCII characters. That is why the `char` and
  `char32_t` overloads give the same answer on the same text
  (`Parser.OverloadsAgree`), and why both give nothing for non-ASCII text.
- Every "%" in a captured host, path, query or fragment is followed by two
  hexadecimal digits inside the capture; a host holds no "/", "?" or "#", a
  path no "?" or "#", a query or fragment no "#"
  (`Parser.ParseResultContents`).

## Model

| member | source | states |
|---|---|---|
| Lexical.Char | src/parse_uri.cpp:38 | A literal character matches exactly when it is the next character, and consumes one |
| Lexical.Unreserved | test/uri_test.cpp:95-104 | Matches exactly when the next character is unreserved, consumes one ASCII character |
| Lexical.GenDelims | test/uri_test.cpp:47-68 | Matches exactly when the next character is one of the seven gen-delims, consumes one |
| Lexical.SubDelims | test/uri_test.cpp:23-45 | Matches exactly when the next character is one of the eleven sub-delims, consumes one |
| Lexical.Reserved | test/uri_test.cpp:70-93 | A match of reserved is exactly one character |
| Lexical.ReservedClasses | test/uri_test.cpp:70-93 | reserved matches exactly the gen-delims and sub-delims; the two classes are disjoint; no unreserved character is reserved |
| Lexical.PctEncoded | test/uri_test.cpp:107-117 | Matches exactly at "%" followed by two hex digits, and consumes those three ASCII characters |
| Lexical.PChar | test/uri_test.cpp:119-163 | Matches exactly at an unreserved character, a sub-delim, ":", "@" or a complete percent-encoding; consumes three characters for a percent-encoding and one otherwise |
| Lexical.PCharExcludesDelimiters | test/uri_test.cpp:119-163 | No gen-delim except ":" and "@" starts a pchar |
| Lexical.One | src/parse_uri.cpp:78 | One unit of a repetition consumes at least one ASCII character |
| Lexical.Star | src/parse_uri.cpp:78 | A greedy `*` repetition consumes a run of ASCII characters |
| Lexical.Plus | test/uri_test.cpp:100 | A `+` repetition consumes at least one ASCII character |
| Lexical.StarTotal | src/parse_uri.cpp:78 | `*` never fails: the optional parts that use it cannot reject |
| Lexical.StarMaximal | src/parse_uri.cpp:78 | `*` is greedy: no further unit matches where it stops |
| Lexical.StarEmpty | src/parse_uri.cpp:78 | `*` consumes nothing exactly when its first unit fails |
| Lexical.OneSpan | test/uri_test.cpp:107-117 | One unit is written with characters of its class, and every "%" in it opens a percent-encoding inside it |
| Lexical.StarSpan | test/uri_test.cpp:165-179 | The same for every run `*` reads |
| Lexical.PlusSpan | test/uri_test.cpp:119-163 | The same for every run `+` reads |
| Lexical.OneUnit | test/uri_test.cpp:107-117 | Outside a "/"-segment, one unit matches exactly at a character of its class where a "%" opens a percent-encoding, and consumes three or one characters |
| Lexical.StarReads | test/uri_test.cpp:165-179 | Conversely, `*` reads to the end of every run of its class whose "%"s open percent-encodings, when no unit follows |
| Lexical.PctValidEncoded | test/uri_test.cpp:107-117 | A span has every "%" opening a percent-encoding exactly when pct-encoded matches at each "%" and ends inside the span |
| Address.DecOctet | test/uri_test.cpp:181-215 | dec-octet consumes one to three ASCII characters |
| Address.DecOctetMatchesOctetText | test/uri_test.cpp:181-215 | dec-octet matches exactly where a digit is, and what it consumes is the canonical text of a number up to 255 |
| Address.DecOctetReadsOctetText | test/uri_test.cpp:181-215 | Conversely, a canonical octet text not followed by a digit is consumed whole |
| Address.DecOctetWholeInput | test/uri_test.cpp:181-215 | dec-octet consumes a whole input exactly when it is the canonical text of a number 0 to 255 (the valid and invalid vectors) |
| Address.DotOctet | test/uri_test.cpp:217-251 | `"." dec-octet` consumes two to four ASCII characters |
| Address.DotOctetReadsOctetText | test/uri_test.cpp:217-251 | A dot and an octet text not followed by a digit are consumed whole |
| Address.DotOctetMatchIsOctetText | test/uri_test.cpp:217-251 | What `"." dec-octet` consumes is a dot and a canonical octet text |
| Address.IPv4Address | test/uri_test.cpp:217-251 | IPv4address consumes seven to fifteen ASCII characters |
| Address.IPv4ReadsDottedQuad | test/uri_test.cpp:217-251 | Four octet texts joined by dots, not followed by a digit, are consumed whole |
| Address.IPv4MatchIsDottedQuad | test/uri_test.cpp:217-251 | Whatever IPv4address consumes is four canonical octet texts joined by dots |
| Address.HexDigits | test/uri_test.cpp:253-348 | Up to `n` further hex digits: stays within `n` characters and the input |
| Address.HexDigitsLongest | test/uri_test.cpp:253-348 | The run read is all hex digits and stops only at the bound, the end or a non-hex character |
| Address.H16 | test/uri_test.cpp:253-348 | h16 consumes one to four characters |
| Address.H16Ascii | test/uri_test.cpp:253-348 | What h16 consumes is ASCII |
| Address.H16Longest | test/uri_test.cpp:253-348 | h16 matches exactly where a hex digit is and takes the longest run of at most four |
| Address.Groups | test/uri_test.cpp:253-348 | `n( h16 ":" )` consumes between 2n and 5n ASCII characters |
| Address.MoreGroups | test/uri_test.cpp:253-348 | `*m( ":" h16 )` consumes at most 5m ASCII characters |
| Address.ElidedPrefix | test/uri_test.cpp:253-348 | The groups before "::" take at most 4 + 5m ASCII characters |
| Address.DoubleColon | test/uri_test.cpp:253-348 | "::" matches exactly when the next two characters are colons |
| Address.Ls32 | test/uri_test.cpp:253-348 | ls32 consumes at least three ASCII characters |
| Address.ElidedTail | test/uri_test.cpp:253-348 | The part after a prefix consumes at least "::", all ASCII |
| Address.IPv6Alternative | test/uri_test.cpp:253-348 | Each of the nine alternatives consumes at least two ASCII characters |
| Address.IPv6From | test/uri_test.cpp:253-348 | The first alternative that matches consumes at least two ASCII characters |
| Address.IPv6Address | test/uri_test.cpp:253-348 | IPv6address consumes at least two ASCII characters |
| Address.IPv6AlternativeSound | test/uri_test.cpp:253-348 | Whatever each of the nine alternatives reads is an IPv6 address text |
| Address.IPv6FromSound | test/uri_test.cpp:253-348 | So is whatever the first matching alternative reads |
| Address.IPv6AddressSound | test/uri_test.cpp:253-348 | Whatever IPv6address reads is eight 16-bit pieces (the last two possibly a dotted quad), or at most seven around a single "::" |
| Address.IPv6AddressComplete | test/uri_test.cpp:253-348 | Conversely, IPv6address reads every such text whole when the end of the input or a "]" follows it |
| Address.IPvFuture | src/parse_uri.cpp:44 | IPvFuture reads "v" or "V", hex digits, "." and at least one unreserved character, sub-delim or ":", at least four ASCII characters |
| Address.IPLiteral | test/uri_test.cpp:370 | An IP-literal is "[", a complete IPv6address or IPvFuture match, and "]", at least four ASCII characters |
| Address.IPLiteralAround | test/uri_test.cpp:370 | Conversely, brackets around a complete IPv6address or IPvFuture match are read as an IP-literal |
| Address.IPLiteralReadsIPv6 | test/uri_test.cpp:370 | "[", any IPv6 address text and "]" are read whole as an IP-literal |
| Address.IPLiteralChars | test/uri_test.cpp:386 | An IP-literal holds no "%", "/", "?" or "#" |
| Components.Scheme | src/parse_uri.cpp:38 | A scheme starts with a letter and is ASCII |
| Components.SchemeLongest | src/parse_uri.cpp:38 | scheme matches exactly at a letter and reads the longest run of letters, digits, "+", "-" and "." after it |
| Components.SchemeReads | src/parse_uri.cpp:38 | Conversely, a letter and a run of scheme characters that nothing extends is what scheme reads |
| Components.SchemeChars | src/parse_uri.cpp:38-39 | A scheme and its ":" hold no "?", "#" or "%" |
| Components.Userinfo | src/parse_uri.cpp:44 | userinfo consumes a run of ASCII characters |
| Components.UserinfoPrefix | src/parse_uri.cpp:44 | `-(userinfo >> "@")` consumes nothing or ends just after an "@" |
| Components.RegName | src/parse_uri.cpp:44 | reg-name consumes a run of ASCII characters, possibly empty |
| Components.Host | src/parse_uri.cpp:44 | host consumes a run of ASCII characters |
| Components.HostTotal | src/parse_uri.cpp:44 | host never fails, so the "//" branch of parse_complete and parse_authority always find a host |
| Components.HostCommitsToIPv4 | test/uri_test.cpp:386 | When an IPv4address starts the host, the host is exactly that address (why "192.168.0.1%20hello" stops short) |
| Components.HostChars | src/parse_uri.cpp:44 | A host holds no "/", "?" or "#", and every "%" in it opens a percent-encoding |
| Components.UserinfoPrefixChars | src/parse_uri.cpp:44 | The same for a userinfo and its "@" |
| Components.PortSuffixChars | src/parse_uri.cpp:51 | The same for a ":" and a port |
| Components.AuthorityChars | src/parse_uri.cpp:96-97 | The same for a whole authority |
| Components.HostWithoutLiteral | test/uri_test.cpp:386 | A "[" that does not open a valid IP-literal leaves the empty host (why "[google.com]" stops short) |
| Components.Port | src/parse_uri.cpp:51 | port consumes a run of ASCII characters |
| Components.PortSuffix | src/parse_uri.cpp:51 | `-(":" >> port)` consumes nothing or starts with ":" |
| Components.Authority | src/parse_uri.cpp:96-97 | authority consumes a run of ASCII characters |
| Components.AuthorityTotal | src/parse_uri.cpp:96-97 | authority never fails |
| Components.PathAbemptyChars | src/parse_uri.cpp:54 | A path-abempty holds no "?" or "#", and every "%" in it opens a percent-encoding |
| Components.SegmentNzChars | src/parse_uri.cpp:58-69 | The same for a segment-nz |
| Components.PathAbsoluteChars | src/parse_uri.cpp:61-64 | The same for a path-absolute |
| Components.PathRootlessChars | src/parse_uri.cpp:66-69 | The same for a path-rootless |
| Components.NetPathChars | src/parse_uri.cpp:43-56 | The same for "//", an authority and a path-abempty |
| Components.HierPartChars | test/uri_test.cpp:350-400 | The same for every hier-part, whichever form matches |
| Components.SegmentNz | src/parse_uri.cpp:58-69 | segment-nz consumes at least one ASCII character |
| Components.PathAbempty | src/parse_uri.cpp:54 | path-abempty consumes a run of ASCII characters |
| Components.PathAbsolute | src/parse_uri.cpp:61-64 | path-absolute starts with "/" and is ASCII |
| Components.PathRootless | src/parse_uri.cpp:66-69 | path-rootless consumes at least one ASCII character |
| Components.PathEmpty | src/parse_uri.cpp:73 | path-empty matches everywhere and consumes nothing |
| Components.Query | src/parse_uri.cpp:78 | query consumes a run of ASCII characters |
| Components.QueryLongest | test/uri_test.cpp:165-179 | query and fragment always match, read pchars, "/" and "?" with every "%" opening a percent-encoding, stop where no unit follows, and hold no "#" |
| Components.QueryReads | test/uri_test.cpp:165-179 | Conversely, such text that no unit extends is what query and fragment read |
| Components.QuerySuffixChars | src/parse_uri.cpp:78 | A "?" and a query hold no "#", and their "%"s open percent-encodings |
| Components.FragmentSuffixChars | src/parse_uri.cpp:81 | A "#" and a fragment have their "%"s open percent-encodings |
| Components.QuerySuffix | src/parse_uri.cpp:78 | `-("?" >> query)` consumes nothing or starts with "?" |
| Components.Fragment | src/parse_uri.cpp:81 | fragment consumes a run of ASCII characters |
| Components.FragmentSuffix | src/parse_uri.cpp:81 | `-("#" >> fragment)` consumes nothing or starts with "#" |
| Components.DoubleSlash | src/parse_uri.cpp:44 | The literal "//" matches exactly when the next two characters are slashes |
| Components.HierPart | test/uri_test.cpp:350-400 | hier-part consumes a run of ASCII characters |
| Components.Uri | test/uri_test.cpp:350-400 | A URI consumes at least one character, all ASCII |
| Components.UriDelimiters | test/uri_test.cpp:350-400 | In a URI the hier-part after the ":" holds no "?" or "#", a query opens with "?" and holds no "#", a fragment opens with "#", and every "%" opens a percent-encoding |
| Parser.PortCapture | src/parse_uri.cpp:51 | A port capture starts just after a ":" and is a complete match of port |
| Parser.QueryCapture | src/parse_uri.cpp:78 | A query capture starts just after a "?" and is a complete match of query |
| Parser.FragmentCapture | src/parse_uri.cpp:81 | A fragment capture starts just after a "#" and is a complete match of fragment |
| Parser.HostSpan | src/parse_uri.cpp:43-45 | The host capture lies after the optional userinfo and "@" and is a complete match of host |
| Parser.AuthorityForm | src/parse_uri.cpp:87-119 | The reference form parse_authority reads is ASCII |
| Parser.PortCaptureLayout | src/parse_uri.cpp:51-52 | A port is captured exactly when ":" follows the host, and spans all the digits after it |
| Parser.QueryCaptureLayout | src/parse_uri.cpp:78-79 | A query is captured exactly when "?" is next, and spans the whole query |
| Parser.FragmentCaptureLayout | src/parse_uri.cpp:81-82 | A fragment is captured exactly when "#" is next, and spans the whole fragment |
| Parser.QueryFragmentLayout | src/parse_uri.cpp:78-84 | Only query and fragment change, each exactly when its delimiter is there; success exactly when they reach the end |
| Parser.QueryFragmentAccepts | src/parse_uri.cpp:78-84 | The tail accepts exactly when the optional query and fragment reach the end |
| Parser.QueryFragmentWellFormed | src/parse_uri.cpp:78-84 | Query then fragment, in order, each a complete match right after its delimiter; nothing else changes |
| Parser.AfterHostLayout | src/parse_uri.cpp:50-84 | After the host: a port exactly when ":" follows, path-abempty right after, then query and fragment; scheme and host untouched |
| Parser.AfterHostAccepts | src/parse_uri.cpp:50-84 | After the host, acceptance is exactly: port, path-abempty, query and fragment reach the end |
| Parser.AfterHostWellFormed | src/parse_uri.cpp:50-84 | The captures after the host are in order, match their productions, and reach the end on success |
| Parser.CompleteNeedsScheme | src/parse_uri.cpp:38-39 | parse_complete fails without a scheme; with a scheme but no ":" it fails yet leaves the scheme recorded |
| Parser.CompleteHostStep | src/parse_uri.cpp:41-56 | After "scheme://", parse_complete goes on from the end of the host with scheme and host recorded |
| Parser.CompleteRewindStep | src/parse_uri.cpp:71-74 | Without "//" or a host, the cursor returns to just after ":" and the empty path is recorded there |
| Parser.CompleteRewinds | src/parse_uri.cpp:71-84 | Without "//": host and port untouched, empty path after the ":", success exactly when query and fragment reach the end |
| Parser.CompleteTakesAuthority | src/parse_uri.cpp:43-56 | After "scheme://" a host is always recorded after the userinfo, and the path starts after host or port |
| Parser.CompleteAcceptance | src/parse_uri.cpp:28-85 | parse_complete accepts exactly the RFC 3986 URIs whose hier-part is not path-absolute or path-rootless |
| Parser.AuthorityBranchAcceptance | src/parse_uri.cpp:43-56 | With "//", parse_complete accepts exactly the URIs of that shape |
| Parser.RewindBranchAcceptance | src/parse_uri.cpp:71-84 | Without "//", parse_complete accepts exactly the URIs with an empty path |
| Parser.AuthorityAcceptance | src/parse_uri.cpp:87-119 | parse_authority never touches the scheme and accepts exactly authority path-abempty [?query] [#fragment] in full |
| Parser.RewindWellFormed | src/parse_uri.cpp:71-84 | After the rewind: the empty path, query and fragment in order, complete matches on success |
| Parser.HostedWellFormed | src/parse_uri.cpp:50-84 | An attempt that found a host leaves captures in order and, on success, complete matches reaching the end |
| Parser.RewoundWellFormed | src/parse_uri.cpp:71-84 | The same for an attempt that rewound after the scheme |
| Parser.CompleteWellFormed | src/parse_uri.cpp:28-85 | parse_complete on fresh parts leaves captures in source order; on success each is a complete match and the last ends at the end |
| Parser.AuthorityWellFormed | src/parse_uri.cpp:87-119 | The same for parse_authority, which never records a scheme |
| Parser.ParseResultWellFormed | src/parse_uri.cpp:15-26 | parse_uri has a scheme exactly when the complete form accepted; it is empty exactly when both fail; captures in order, complete matches, ending at the end |
| Parser.ParseUriAccepts | src/parse_uri.cpp:15-26 | parse_uri answers something exactly for URIs the complete form takes and for authority-form references |
| Parser.CapturesContents | src/parse_uri.cpp:28-119 | Captures that match their productions hold only their characters: a scheme is a letter and scheme characters, a port digits, a host no "/", "?" or "#", a path no "?" or "#", a query or fragment no "#", every "%" a percent-encoding |
| Parser.ParseResultContents | src/parse_uri.cpp:15-26 | So do the parts parse_uri answers |
| Parser.ParseResultAscii | src/parse_uri.cpp:15-26 | parse_uri answers something only for an all-ASCII input |
| Parser.UriParts.constructor | src/parse_uri.cpp:19 | Fresh parts hold no component |
| Parser.ParseQueryFragment | src/parse_uri.cpp:78-84 | Sets query and fragment as the specification says; the verdict is whether the cursor reached the end |
| Parser.ParseAfterHost | src/parse_uri.cpp:102-118 | Port, path, query and fragment set, and the verdict, as AfterHostStep says |
| Parser.ParseComplete | src/parse_uri.cpp:134-201 | Verdict and new parts are those of CompleteAttempt on the old parts |
| Parser.ParseAuthority | src/parse_uri.cpp:203-244 | Verdict and new parts are those of AuthorityAttempt on the old parts |
| Parser.ParseUri | src/parse_uri.cpp:121-132 | Fresh parts equal to ParseResult of the input |
| Parser.Widen | include/furi/parse_uri.hpp:17-26 | A byte string read as code points keeps its length and every value |
| Parser.WidenAscii | include/furi/parse_uri.hpp:17-37 | Widening keeps a byte string ASCII exactly when it was |
| Parser.OverloadsAgree | src/parse_uri.cpp:121-244 | The char and char32_t overloads give the same parts on corresponding inputs, and nothing on non-ASCII input (through ParseResultAscii) |
| Parser.ParseUriBytes | src/parse_uri.cpp:15-26 | The char overload of parse_uri answers ParseResult of the widened input |
| Parser.ParseCompleteBytes | src/parse_uri.cpp:28-85 | The char overload of parse_complete, as CompleteAttempt of the widened input |
| Parser.ParseAuthorityBytes | src/parse_uri.cpp:87-119 | The char overload of parse_authority, as AuthorityAttempt of the widened input |
| ParseExamples.ExampleSchemeOnly | test/uri_test.cpp:367 | parse_uri("http:") answers the scheme `http` and the empty path after the ":", nothing else |
| ParseExamples.ExampleRootless | test/uri_test.cpp:368 | "asdf:jkl;", a URI by the grammar, gets no parts from parse_uri: neither form accepts a path-rootless |
| ParseExamples.ExampleHostOnly | test/uri_test.cpp:353 | parse_uri("https://www.google.com") answers scheme, host and the empty path-abempty at the end |
| ParseExamples.ExampleAllParts | src/parse_uri.cpp:28-85 | All six parts of "http://user@example.com:8080/p?q#f" at their exact offsets; the userinfo is skipped |
| ParseExamples.ExampleAuthorityForm | src/parse_uri.cpp:87-119 | "example.com:80/a?b#c" has no scheme; the authority form answers host, port, path, query and fragment |
| ParseExamples.ExampleBadLiteral | test/uri_test.cpp:386 | parse_uri("http://[google.com]/") answers nothing: both forms stop before the end |
| UriTest.SubDelimsVectors | test/uri_test.cpp:23-45 | Sub-delims matches each of its eleven characters and not "rawr" (the vector, stated about the model's matcher) |
| UriTest.GenDelimsVectors | test/uri_test.cpp:47-68 | Gen-delims matches each of its seven characters and not "rawr" (the vector, stated about the model's matcher) |
| UriTest.ReservedVectors | test/uri_test.cpp:70-93 | Reserved matches every gen-delim and sub-delim and not "rawr" (the vector, stated about the model's matcher) |
| UriTest.UnreservedRun | test/uri_test.cpp:96 | `1*unreserved` consumes "~~~~Leonine.King1199__---" whole (the vector, stated about the model's matcher) |
| UriTest.PctEncodedVector | test/uri_test.cpp:109 | Pct-encoded consumes "%5B" whole (the vector, stated about the model's matcher) |
| UriTest.PCharRun | test/uri_test.cpp:124 | `1*pchar` consumes "~~:~~Le@on@ine.King1199__--:-" whole (the vector, stated about the model's matcher) |
| UriTest.PCharVectors | test/uri_test.cpp:119-163 | Pchar consumes "%5B" whole, and each sub-delim (the vector, stated about the model's matcher) |
| UriTest.QueryVector | test/uri_test.cpp:168 | Query consumes "/lol?asdfasdfasdf" whole (the vector, stated about the model's matcher) |
| UriTest.FragmentVector | test/uri_test.cpp:168 | Fragment consumes "/lol?asdfasdfasdf" whole (the vector, stated about the model's matcher) |
| UriTest.DecOctetValid | test/uri_test.cpp:181-215 | Dec-octet consumes each valid input whole (the vector, stated about the model's matcher) |
| UriTest.DecOctetInvalid | test/uri_test.cpp:181-215 | Dec-octet does not consume any invalid input whole (the vector, stated about the model's matcher) |
| UriTest.IPv4Valid1 | test/uri_test.cpp:220 | IPv4address consumes "127.0.0.1" whole (the vector, stated about the model's matcher) |
| UriTest.IPv4Valid2 | test/uri_test.cpp:220 | IPv4address consumes "255.255.255.255" whole (the vector, stated about the model's matcher) |
| UriTest.IPv4Valid3 | test/uri_test.cpp:220 | IPv4address consumes "0.0.0.0" whole (the vector, stated about the model's matcher) |
| UriTest.IPv4Valid4 | test/uri_test.cpp:220 | IPv4address consumes "192.68.0.27" whole (the vector, stated about the model's matcher) |
| UriTest.IPv4Invalid1 | test/uri_test.cpp:237 | IPv4address does not consume "127.0.0.01" whole (the vector, stated about the model's matcher) |
| UriTest.IPv4Invalid2 | test/uri_test.cpp:237 | IPv4address does not consume "255.255.255.255.255" whole (the vector, stated about the model's matcher) |
| UriTest.IPv4Invalid3 | test/uri_test.cpp:237 | IPv4address does not consume "a.b.c.d" whole (the vector, stated about the model's matcher) |
| UriTest.IPv4Invalid4 | test/uri_test.cpp:237 | IPv4address does not consume "192.68.334340.2227" whole (the vector, stated about the model's matcher) |
| UriTest.IPv4Invalid5 | test/uri_test.cpp:237 | IPv4address does not consume "127.0.1" whole (the vector, stated about the model's matcher) |
| UriTest.IPv6Valid01 | test/uri_test.cpp:256 | IPv6address consumes "3ffe:1900:4545:3:200:f8ff:fe21:67cf" whole (the vector, stated about the model's matcher) |
| UriTest.IPv6Valid02 | test/uri_test.cpp:257 | IPv6address consumes "fe80:0:0:0:200:f8ff:fe21:67cf" whole (the vector, stated about the model's matcher) |
| UriTest.IPv6Valid03 | test/uri_test.cpp:258 | IPv6address consumes "2001:0db8:0a0b:12f0:0000:0000:0000:0001" whole (the vector, stated about the model's matcher) |
| UriTest.IPv6Valid04 | test/uri_test.cpp:259 | IPv6address consumes "2001:db8:3333:4444:5555:6666:7777:8888" whole (the vector, stated about the model's matcher) |
| UriTest.IPv6Valid05 | test/uri_test.cpp:260 | IPv6address consumes "2001:db8:3333:4444:CCCC:DDDD:EEEE:FFFF" whole (the vector, stated about the model's matcher) |
| UriTest.IPv6Valid06 | test/uri_test.cpp:261 | IPv6address consumes "::" whole (the vector, stated about the model's matcher) |
| UriTest.IPv6Valid07 | test/uri_test.cpp:262 | IPv6address consumes "2001:db8::" whole (the vector, stated about the model's matcher) |
| UriTest.IPv6Valid08 | test/uri_test.cpp:263 | IPv6address consumes "::1234:5678" whole (the vector, stated about the model's matcher) |
| UriTest.IPv6Valid09 | test/uri_test.cpp:264 | IPv6address consumes "2001:db8::1234:5678" whole (the vector, stated about the model's matcher) |
| UriTest.IPv6Valid10 | test/uri_test.cpp:265 | IPv6address consumes "2001:0db8:0001:0000:0000:0ab9:C0A8:0102" whole (the vector, stated about the model's matcher) |
| UriTest.IPv6Valid11 | test/uri_test.cpp:266 | IPv6address consumes "2001:db8:1::ab9:C0A8:102" whole (the vector, stated about the model's matcher) |
| UriTest.IPv6Valid12 | test/uri_test.cpp:267 | IPv6address consumes "684D:1111:222:3333:4444:5555:6:77" whole (the vector, stated about the model's matcher) |
| UriTest.IPv6Valid13 | test/uri_test.cpp:268 | IPv6address consumes "0:0:0:0:0:0:0:0" whole (the vector, stated about the model's matcher) |
| UriTest.IPv6Valid14 | test/uri_test.cpp:269 | IPv6address consumes "0000:0000:0000:0000:0000:0000:0000:0000" whole (the vector, stated about the model's matcher) |
| UriTest.IPv6Valid15 | test/uri_test.cpp:270 | IPv6address consumes "1234:5678:9ABC:DEF0:0000:0000:0000:0000" whole (the vector, stated about the model's matcher) |
| UriTest.IPv6Valid16 | test/uri_test.cpp:271 | IPv6address consumes "3FFE:1900:4545:3:200:F8FF:FE21:67CF" whole (the vector, stated about the model's matcher) |
| UriTest.IPv6Valid17 | test/uri_test.cpp:272 | IPv6address consumes "FE80:0:0:0:200:F8FF:FE21:67CF" whole (the vector, stated about the model's matcher) |
| UriTest.IPv6Valid18 | test/uri_test.cpp:273 | IPv6address consumes "2001:0DB8:0A0B:12F0:0000:0000:0000:0001" whole (the vector, stated about the model's matcher) |
| UriTest.IPv6Valid19 | test/uri_test.cpp:274 | IPv6address consumes "2001:DB8:3333:4444:5555:6666:7777:8888" whole (the vector, stated about the model's matcher) |
| UriTest.IPv6Valid20 | test/uri_test.cpp:275 | IPv6address consumes "2001:DB8:3333:4444:CCCC:DDDD:EEEE:FFFF" whole (the vector, stated about the model's matcher) |
| UriTest.IPv6Valid21 | test/uri_test.cpp:276 | IPv6address consumes "2001:DB8::" whole (the vector, stated about the model's matcher) |
| UriTest.IPv6Valid22 | test/uri_test.cpp:278 | IPv6address consumes "2001:DB8::1234:5678" whole (the vector, stated about the model's matcher) |
| UriTest.IPv6Valid23 | test/uri_test.cpp:279 | IPv6address consumes "2001:0DB8:0001:0000:0000:0AB9:C0A8:0102" whole (the vector, stated about the model's matcher) |
| UriTest.IPv6Valid24 | test/uri_test.cpp:280 | IPv6address consumes "2001:DB8:1::AB9:C0A8:102" whole (the vector, stated about the model's matcher) |
| UriTest.IPv6Valid25 | test/uri_test.cpp:283 | IPv6address consumes "::1:2:3:4:5" whole (the vector, stated about the model's matcher) |
| UriTest.IPv6Valid26 | test/uri_test.cpp:284 | IPv6address consumes "0:0:0:1:2:3:4:5" whole (the vector, stated about the model's matcher) |
| UriTest.IPv6Valid27 | test/uri_test.cpp:285 | IPv6address consumes "1:2::3:4:5" whole (the vector, stated about the model's matcher) |
| UriTest.IPv6Valid28 | test/uri_test.cpp:286 | IPv6address consumes "1:2:0:0:0:3:4:5" whole (the vector, stated about the model's matcher) |
| UriTest.IPv6Valid29 | test/uri_test.cpp:287 | IPv6address consumes "1:2:3:4:5::" whole (the vector, stated about the model's matcher) |
| UriTest.IPv6Valid30 | test/uri_test.cpp:288 | IPv6address consumes "1:2:3:4:5:0:0:0" whole (the vector, stated about the model's matcher) |
| UriTest.IPv6Valid31 | test/uri_test.cpp:289 | IPv6address consumes "0:0:0:0:0:FFFF:102:405" whole (the vector, stated about the model's matcher) |
| UriTest.IPv6Valid32 | test/uri_test.cpp:290 | IPv6address consumes "::0" whole (the vector, stated about the model's matcher) |
| UriTest.IPv6Valid33 | test/uri_test.cpp:291 | IPv6address consumes "::1" whole (the vector, stated about the model's matcher) |
| UriTest.IPv6Valid34 | test/uri_test.cpp:292 | IPv6address consumes "0:0:0::1" whole (the vector, stated about the model's matcher) |
| UriTest.IPv6Valid35 | test/uri_test.cpp:293 | IPv6address consumes "FFFF::1" whole (the vector, stated about the model's matcher) |
| UriTest.IPv6Valid36 | test/uri_test.cpp:294 | IPv6address consumes "FFFF:0:0:0:0:0:0:1" whole (the vector, stated about the model's matcher) |
| UriTest.IPv6Valid37 | test/uri_test.cpp:295 | IPv6address consumes "2001:0DB8:0A0B:12F0:0:0:0:1" whole (the vector, stated about the model's matcher) |
| UriTest.IPv6Valid38 | test/uri_test.cpp:296 | IPv6address consumes "2001:DB8:A0B:12F0::1" whole (the vector, stated about the model's matcher) |
| UriTest.IPv6Valid39 | test/uri_test.cpp:297 | IPv6address consumes "::FFFF:1.2.3.4" whole (the vector, stated about the model's matcher) |
| UriTest.IPv6Valid40 | test/uri_test.cpp:298 | IPv6address consumes "0:0:0:0:0:0:1.2.3.4" whole (the vector, stated about the model's matcher) |
| UriTest.IPv6Valid41 | test/uri_test.cpp:299 | IPv6address consumes "::1.2.3.4" whole (the vector, stated about the model's matcher) |
| UriTest.IPv6Invalid01 | test/uri_test.cpp:314 | IPv6address does not consume "0" whole (the vector, stated about the model's matcher) |
| UriTest.IPv6Invalid02 | test/uri_test.cpp:315 | IPv6address does not consume "0:1.2.3.4" whole (the vector, stated about the model's matcher) |
| UriTest.IPv6Invalid03 | test/uri_test.cpp:316 | IPv6address does not consume "0:0:0:0:0:0:0::1.2.3.4" whole (the vector, stated about the model's matcher) |
| UriTest.IPv6Invalid04 | test/uri_test.cpp:317 | IPv6address does not consume "0:0:0:0:0:0:0:1.2.3.4" whole (the vector, stated about the model's matcher) |
| UriTest.IPv6Invalid05 | test/uri_test.cpp:318 | IPv6address does not consume ":" whole (the vector, stated about the model's matcher) |
| UriTest.IPv6Invalid06 | test/uri_test.cpp:319 | IPv6address does not consume "::0::" whole (the vector, stated about the model's matcher) |
| UriTest.IPv6Invalid07 | test/uri_test.cpp:320 | IPv6address does not consume ":0::" whole (the vector, stated about the model's matcher) |
| UriTest.IPv6Invalid08 | test/uri_test.cpp:321 | IPv6address does not consume "0::0:x" whole (the vector, stated about the model's matcher) |
| UriTest.IPv6Invalid09 | test/uri_test.cpp:322 | IPv6address does not consume "x::" whole (the vector, stated about the model's matcher) |
| UriTest.IPv6Invalid10 | test/uri_test.cpp:323 | IPv6address does not consume "0:12" whole (the vector, stated about the model's matcher) |
| UriTest.IPv6Invalid11 | test/uri_test.cpp:324 | IPv6address does not consume "0:123" whole (the vector, stated about the model's matcher) |
| UriTest.IPv6Invalid12 | test/uri_test.cpp:325 | IPv6address does not consume "::1." whole (the vector, stated about the model's matcher) |
| UriTest.IPv6Invalid13 | test/uri_test.cpp:326 | IPv6address does not consume "::1.2" whole (the vector, stated about the model's matcher) |
| UriTest.IPv6Invalid14 | test/uri_test.cpp:328 | IPv6address does not consume "::1.2x" whole (the vector, stated about the model's matcher) |
| UriTest.IPv6Invalid15 | test/uri_test.cpp:329 | IPv6address does not consume "::1.2." whole (the vector, stated about the model's matcher) |
| UriTest.IPv6Invalid16 | test/uri_test.cpp:330 | IPv6address does not consume "::1.2.3" whole (the vector, stated about the model's matcher) |
| UriTest.IPv6Invalid17 | test/uri_test.cpp:332 | IPv6address does not consume "::1.2.3x" whole (the vector, stated about the model's matcher) |
| UriTest.IPv6Invalid18 | test/uri_test.cpp:333 | IPv6address does not consume "::1.2.3." whole (the vector, stated about the model's matcher) |
| UriTest.IPv6Invalid19 | test/uri_test.cpp:334 | IPv6address does not consume "::1.2.3.4x" whole (the vector, stated about the model's matcher) |
| UriTest.UriValid01 | test/uri_test.cpp:353 | URI consumes "https://www.google.com" whole (the vector, stated about the model's matcher) |
| UriTest.UriValid02 | test/uri_test.cpp:354 | URI consumes "http://example.com/" whole (the vector, stated about the model's matcher) |
| UriTest.UriValid03 | test/uri_test.cpp:355 | URI consumes "http://goo%20%20goo%7C%7C.com/" whole (the vector, stated about the model's matcher) |
| UriTest.UriValid04 | test/uri_test.cpp:356 | URI consumes "http://a.com/" whole (the vector, stated about the model's matcher) |
| UriTest.UriValid05 | test/uri_test.cpp:357 | URI consumes "http://192.168.0.1/" whole (the vector, stated about the model's matcher) |
| UriTest.UriValid06 | test/uri_test.cpp:358 | URI consumes "http://xn--6qqa088eba/" whole (the vector, stated about the model's matcher) |
| UriTest.UriValid07 | test/uri_test.cpp:359 | URI consumes "foobar://www.example.com:80/" whole (the vector, stated about the model's matcher) |
| UriTest.UriValid08 | test/uri_test.cpp:360 | URI consumes "http://example.com/foo%09%C2%91%93" whole (the vector, stated about the model's matcher) |
| UriTest.UriValid09 | test/uri_test.cpp:361 | URI consumes "http://example.com/%7Ffp3%3Eju%3Dduvgw%3Dd" whole (the vector, stated about the model's matcher) |
| UriTest.UriValid10 | test/uri_test.cpp:362 | URI consumes "http://www.example.com/?%02hello%7F%20bye" whole (the vector, stated about the model's matcher) |
| UriTest.UriValid11 | test/uri_test.cpp:363 | URI consumes "http://www.example.com/?q=%26%2355296%3B%26%2355296%3B" whole (the vector, stated about the model's matcher) |
| UriTest.UriValid12 | test/uri_test.cpp:364 | URI consumes "http://www.example.com/?foo=bar" whole (the vector, stated about the model's matcher) |
| UriTest.UriValid13 | test/uri_test.cpp:365 | URI consumes "http://www.example.com/#hello" whole (the vector, stated about the model's matcher) |
| UriTest.UriValid14 | test/uri_test.cpp:366 | URI consumes "http://www.example.com/#%23asdf" whole (the vector, stated about the model's matcher) |
| UriTest.UriValid15 | test/uri_test.cpp:367 | URI consumes "http:" whole (the vector, stated about the model's matcher) |
| UriTest.UriValid16 | test/uri_test.cpp:368 | URI consumes "asdf:jkl;" whole (the vector, stated about the model's matcher) |
| UriTest.UriValid17 | test/uri_test.cpp:350-400 | URI consumes "foof://:;@[::]/@;:??:;@/~@;://#//:;@~/@;:??//:foof" whole (the vector, stated about the model's matcher) |
| UriTest.UriValid18 | test/uri_test.cpp:370 | URI consumes "http://ay%40lmao:password@[fe80::]/p@th?q=@lol" whole (the vector, stated about the model's matcher) |
| UriTest.UriInvalid1 | test/uri_test.cpp:386 | URI does not consume "http://192.168.0.1%20hello/" whole (the vector, stated about the model's matcher) |
| UriTest.UriInvalid2 | test/uri_test.cpp:386 | URI does not consume "http://[google.com]/" whole (the vector, stated about the model's matcher) |

## Left out

- `furi/uri.hpp`, which holds the X3 rules, is not part of this model. The
  productions follow the RFC 3986 ABNF under PEG semantics: ordered choice
  that commits, and greedy repetition. They are pinned down by every vector
  of `test/uri_test.cpp`. Where the rules' exact X3 spelling could differ
  from the RFC in a case no vector covers, the model follows the RFC.
- The elided prefix of IPv6address, `[ *n( h16 ":" ) h16 ]`, is written as
  `[ h16 *n( ":" h16 ) ]`. Both describe the same strings, but only the
  second works under greedy repetition ("2001:db8::" would otherwise fail).
  `Address.IPv6AddressSound` and `Address.IPv6AddressComplete` show that the
  matcher reads exactly the IPv6 address texts.
- Boost.Spirit X3 itself (iterators, attributes, `raw[]`, the parse driver)
  is replaced by positions and spans. `include/furi/error.hpp` and the Catch2
  harness are not modelled.
- The userinfo is matched and skipped, as `parse_complete` does. `UriParts`
  has no userinfo field, because `basic_uri_parts` has none in these
  functions.
- The `if (!match) return false` checks after the optional port, query and
  fragment cannot fire, because optional parsers never fail. They are not
  mirrored as branches.
- `Parser.OverloadsAgree`: a Dafny `char` is a Unicode scalar value, so
  `char32_t` inputs holding surrogates or values above 0x10FFFF are not
  modelled. The character classes of the wide grammar are assumed to be
  ASCII ones, as those of the narrow grammar are. Decoding UTF-8 is not
  modelled. Two inputs correspond when they agree on their ASCII text.
- `Lexical.One`, `Lexical.Star`, `Lexical.Plus`: their contracts give
  bounds and ASCII only; what a unit and a run hold is stated by `OneSpan`,
  `StarSpan`, `PlusSpan`, `OneUnit` and `StarReads`.
- `Address.DecOctet`, `Address.DotOctet`, `Address.IPv4Address`: their
  contracts give bounds and ASCII only; the text they read is stated by
  `DecOctetMatchesOctetText`, `DotOctetMatchIsOctetText`,
  `IPv4MatchIsDottedQuad` and their converses.
- `Address.Groups`, `Address.MoreGroups`, `Address.ElidedPrefix`,
  `Address.Ls32`, `Address.ElidedTail`, `Address.IPv6Alternative`,
  `Address.IPv6From`, `Address.IPv6Address`: their contracts give bounds and
  ASCII only. The IPv6 text they read is stated by lemmas
  (`IPv6AlternativeSound`, `IPv6FromSound`, `IPv6AddressSound`,
  `IPv6AddressComplete`), because a postcondition of that shape would be
  unfolded at every group of every address the vectors spell.
- `Address.H16`: its contract gives bounds only; `H16Longest` and
  `H16Ascii` state what it reads.
- `Components.Userinfo`, `Components.RegName`, `Components.Host`,
  `Components.Port`, `Components.Authority`: their contracts give bounds
  and ASCII only; what they hold is stated by `HostChars`,
  `UserinfoPrefixChars`, `PortSuffixChars` and `AuthorityChars`.
- `Components.SegmentNz`, `Components.PathAbempty`,
  `Components.PathAbsolute`, `Components.PathRootless`,
  `Components.HierPart`: their contracts give bounds and ASCII only; what
  they hold is stated by the matching `...Chars` lemmas.
- `Components.Query`, `Components.Fragment`: their contracts give bounds and
  ASCII only; `QueryLongest` and `QueryReads` state what they read.
- `Components.Uri`: its contract gives bounds and ASCII only;
  `UriDelimiters` states where its parts begin and what they hold.
- `std::string_view` results are spans of offsets into the input, not
  pointers. Aliasing between views and the input is not modelled.
