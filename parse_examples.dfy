/** Concrete outcomes of `parse_uri` (src/parse_uri.cpp), one per form the
    assembler distinguishes. Each is proved, as the test vectors are, through a
    lemma about every string spelled as the example is. Each input is written
    as a concatenation of pieces of at most eight characters, which keeps the
    unfolding of every string literal small for the verifier. */
module ParseExamples {
  import opened Wrappers
  import opened Lexical
  import opened Address
  import opened Components
  import opened Parser

  /** A scheme and an empty path: the complete form. */
  lemma ExampleSchemeOnly()
    ensures ParseResult("http:") == Captures(Some(Span(0, 4)), None, None, Some(Span(5, 5)), None, None)
  {
    ExampleSchemeOnlySpelled("http:");
  }

  lemma ExampleSchemeOnlySpelled(s: string)
    requires |s| == 5 && s[0] == 'h' && s[1] == 't' && s[2] == 't' && s[3] == 'p' && s[4] == ':'
    ensures ParseResult(s) == Captures(Some(Span(0, 4)), None, None, Some(Span(5, 5)), None, None)
  {
    assert One(SchemeUnit, s, 1) == Some(2);
    assert One(SchemeUnit, s, 2) == Some(3);
    assert One(SchemeUnit, s, 3) == Some(4);
    assert One(SchemeUnit, s, 4) == None;
    assert Star(SchemeUnit, s, 4) == Some(4);
    assert Star(SchemeUnit, s, 3) == Some(4);
    assert Star(SchemeUnit, s, 2) == Some(4);
    assert Star(SchemeUnit, s, 1) == Some(4);
    assert Scheme(s, 0) == Some(4);
    assert DoubleSlash(s, 5) == None;
  }

  /** A URI whose hier-part is a path-rootless: both forms reject it, so nothing is returned. */
  lemma ExampleRootless()
    ensures ParseResult("asdf:jkl" + ";") == NoCaptures
  {
    ExampleRootlessSpelled("asdf:jkl" + ";");
  }

  lemma ExampleRootlessStep2(s: string)
    requires |s| == 9 && s[0] == 'a' && s[1] == 's' && s[2] == 'd' && s[3] == 'f' && s[4] == ':'
      && s[5] == 'j' && s[6] == 'k' && s[7] == 'l' && s[8] == ';'
    ensures One(UserinfoUnit, s, 4) == Some(5)
    ensures One(UserinfoUnit, s, 5) == Some(6)
    ensures Star(UserinfoUnit, s, 6) == Some(9)
  {
    assert One(UserinfoUnit, s, 4) == Some(5);
    assert One(UserinfoUnit, s, 5) == Some(6);
    assert One(UserinfoUnit, s, 6) == Some(7);
    assert One(UserinfoUnit, s, 7) == Some(8);
    assert One(UserinfoUnit, s, 8) == Some(9);
    assert One(UserinfoUnit, s, 9) == None;
    assert Star(UserinfoUnit, s, 9) == Some(9);
    assert Star(UserinfoUnit, s, 8) == Some(9);
    assert Star(UserinfoUnit, s, 7) == Some(9);
    assert Star(UserinfoUnit, s, 6) == Some(9);
  }

  lemma ExampleRootlessStep3(s: string)
    requires |s| == 9 && s[0] == 'a' && s[1] == 's' && s[2] == 'd' && s[3] == 'f' && s[4] == ':'
      && s[5] == 'j' && s[6] == 'k' && s[7] == 'l' && s[8] == ';'
    requires One(UserinfoUnit, s, 5) == Some(6)
    requires Star(UserinfoUnit, s, 6) == Some(9)
    ensures Star(UserinfoUnit, s, 5) == Some(9)
  {
    assert Star(UserinfoUnit, s, 5) == Some(9);
  }

  lemma ExampleRootlessStep1(s: string)
    requires |s| == 9 && s[0] == 'a' && s[1] == 's' && s[2] == 'd' && s[3] == 'f' && s[4] == ':'
      && s[5] == 'j' && s[6] == 'k' && s[7] == 'l' && s[8] == ';'
    ensures Star(UserinfoUnit, s, 4) == Some(9)
  {
    ExampleRootlessStep2(s);
    ExampleRootlessStep3(s);
  }

  lemma ExampleRootlessStep5(s: string)
    requires |s| == 9 && s[0] == 'a' && s[1] == 's' && s[2] == 'd' && s[3] == 'f' && s[4] == ':'
      && s[5] == 'j' && s[6] == 'k' && s[7] == 'l' && s[8] == ';'
    ensures IPLiteral(s, 0) == None
    ensures IPv4Address(s, 0) == None
    ensures One(RegNameUnit, s, 0) == Some(1)
    ensures One(RegNameUnit, s, 1) == Some(2)
    ensures Star(RegNameUnit, s, 2) == Some(4)
  {
    assert IPLiteral(s, 0) == None;
    assert IPv4Address(s, 0) == None;
    assert One(RegNameUnit, s, 0) == Some(1);
    assert One(RegNameUnit, s, 1) == Some(2);
    assert One(RegNameUnit, s, 2) == Some(3);
    assert One(RegNameUnit, s, 3) == Some(4);
    assert One(RegNameUnit, s, 4) == None;
    assert Star(RegNameUnit, s, 4) == Some(4);
    assert Star(RegNameUnit, s, 3) == Some(4);
    assert Star(RegNameUnit, s, 2) == Some(4);
  }

  lemma ExampleRootlessStep6(s: string)
    requires |s| == 9 && s[0] == 'a' && s[1] == 's' && s[2] == 'd' && s[3] == 'f' && s[4] == ':'
      && s[5] == 'j' && s[6] == 'k' && s[7] == 'l' && s[8] == ';'
    requires One(RegNameUnit, s, 1) == Some(2)
    requires Star(RegNameUnit, s, 2) == Some(4)
    requires One(RegNameUnit, s, 0) == Some(1)
    ensures Star(RegNameUnit, s, 0) == Some(4)
  {
    assert Star(RegNameUnit, s, 1) == Some(4);
    assert Star(RegNameUnit, s, 0) == Some(4);
  }

  lemma ExampleRootlessStep4(s: string)
    requires |s| == 9 && s[0] == 'a' && s[1] == 's' && s[2] == 'd' && s[3] == 'f' && s[4] == ':'
      && s[5] == 'j' && s[6] == 'k' && s[7] == 'l' && s[8] == ';'
    ensures Host(s, 0) == Some(4)
  {
    ExampleRootlessStep5(s);
    ExampleRootlessStep6(s);
  }

  lemma ExampleRootlessStep7(s: string)
    requires |s| == 9 && s[0] == 'a' && s[1] == 's' && s[2] == 'd' && s[3] == 'f' && s[4] == ':'
      && s[5] == 'j' && s[6] == 'k' && s[7] == 'l' && s[8] == ';'
    ensures Scheme(s, 0) == Some(4)
    ensures DoubleSlash(s, 5) == None
  {
    assert One(SchemeUnit, s, 1) == Some(2);
    assert One(SchemeUnit, s, 2) == Some(3);
    assert One(SchemeUnit, s, 3) == Some(4);
    assert One(SchemeUnit, s, 4) == None;
    assert Star(SchemeUnit, s, 4) == Some(4);
    assert Star(SchemeUnit, s, 3) == Some(4);
    assert Star(SchemeUnit, s, 2) == Some(4);
    assert Star(SchemeUnit, s, 1) == Some(4);
    assert Scheme(s, 0) == Some(4);
    assert DoubleSlash(s, 5) == None;
  }

  lemma ExampleRootlessStep8(s: string)
    requires |s| == 9 && s[0] == 'a' && s[1] == 's' && s[2] == 'd' && s[3] == 'f' && s[4] == ':'
      && s[5] == 'j' && s[6] == 'k' && s[7] == 'l' && s[8] == ';'
    ensures UserinfoPrefix(s, 0) == 0
  {
    assert One(UserinfoUnit, s, 0) == Some(1);
    assert One(UserinfoUnit, s, 1) == Some(2);
    assert One(UserinfoUnit, s, 2) == Some(3);
    assert One(UserinfoUnit, s, 3) == Some(4);
    ExampleRootlessStep1(s);
    assert Star(UserinfoUnit, s, 3) == Some(9);
    assert Star(UserinfoUnit, s, 2) == Some(9);
    assert Star(UserinfoUnit, s, 1) == Some(9);
    assert Star(UserinfoUnit, s, 0) == Some(9);
    assert UserinfoPrefix(s, 0) == 0;
  }

  lemma ExampleRootlessStep9(s: string)
    requires |s| == 9 && s[0] == 'a' && s[1] == 's' && s[2] == 'd' && s[3] == 'f' && s[4] == ':'
      && s[5] == 'j' && s[6] == 'k' && s[7] == 'l' && s[8] == ';'
    ensures Host(s, 0) == Some(4)
    ensures Port(s, 5) == Some(5)
    ensures PathAbempty(s, 5) == Some(5)
  {
    ExampleRootlessStep4(s);
    assert One(DigitUnit, s, 5) == None;
    assert Star(DigitUnit, s, 5) == Some(5);
    assert Port(s, 5) == Some(5);
    assert One(SlashSegment, s, 5) == None;
    assert Star(SlashSegment, s, 5) == Some(5);
    assert PathAbempty(s, 5) == Some(5);
  }

  lemma ExampleRootlessSpelled(s: string)
    requires |s| == 9 && s[0] == 'a' && s[1] == 's' && s[2] == 'd' && s[3] == 'f' && s[4] == ':'
      && s[5] == 'j' && s[6] == 'k' && s[7] == 'l' && s[8] == ';'
    ensures ParseResult(s) == NoCaptures
  {
    ExampleRootlessStep7(s);
    ExampleRootlessStep8(s);
    ExampleRootlessStep9(s);
  }

  /** Scheme, host and the empty path-abempty. */
  lemma ExampleHostOnly()
    ensures ParseResult("https://" + ("www.goog" + "le.com")) == Captures(Some(Span(0, 5)), Some(Span(8, 22)), None, Some(Span(22, 22)), None, None)
  {
    ExampleHostOnlySpelled("https://" + ("www.goog" + "le.com"));
  }

  lemma ExampleHostOnlyStep3(s: string)
    requires |s| == 22 && s[0] == 'h' && s[1] == 't' && s[2] == 't' && s[3] == 'p'
      && s[4] == 's' && s[5] == ':' && s[6] == '/' && s[7] == '/' && s[8] == 'w' && s[9] == 'w'
      && s[10] == 'w' && s[11] == '.' && s[12] == 'g' && s[13] == 'o' && s[14] == 'o'
      && s[15] == 'g' && s[16] == 'l' && s[17] == 'e' && s[18] == '.' && s[19] == 'c'
      && s[20] == 'o' && s[21] == 'm'
    ensures One(UserinfoUnit, s, 17) == Some(18)
    ensures One(UserinfoUnit, s, 18) == Some(19)
    ensures Star(UserinfoUnit, s, 19) == Some(22)
  {
    assert One(UserinfoUnit, s, 17) == Some(18);
    assert One(UserinfoUnit, s, 18) == Some(19);
    assert One(UserinfoUnit, s, 19) == Some(20);
    assert One(UserinfoUnit, s, 20) == Some(21);
    assert One(UserinfoUnit, s, 21) == Some(22);
    assert One(UserinfoUnit, s, 22) == None;
    assert Star(UserinfoUnit, s, 22) == Some(22);
    assert Star(UserinfoUnit, s, 21) == Some(22);
    assert Star(UserinfoUnit, s, 20) == Some(22);
    assert Star(UserinfoUnit, s, 19) == Some(22);
  }

  lemma ExampleHostOnlyStep4(s: string)
    requires |s| == 22 && s[0] == 'h' && s[1] == 't' && s[2] == 't' && s[3] == 'p'
      && s[4] == 's' && s[5] == ':' && s[6] == '/' && s[7] == '/' && s[8] == 'w' && s[9] == 'w'
      && s[10] == 'w' && s[11] == '.' && s[12] == 'g' && s[13] == 'o' && s[14] == 'o'
      && s[15] == 'g' && s[16] == 'l' && s[17] == 'e' && s[18] == '.' && s[19] == 'c'
      && s[20] == 'o' && s[21] == 'm'
    requires One(UserinfoUnit, s, 18) == Some(19)
    requires Star(UserinfoUnit, s, 19) == Some(22)
    ensures Star(UserinfoUnit, s, 18) == Some(22)
  {
    assert Star(UserinfoUnit, s, 18) == Some(22);
  }

  lemma ExampleHostOnlyStep2(s: string)
    requires |s| == 22 && s[0] == 'h' && s[1] == 't' && s[2] == 't' && s[3] == 'p'
      && s[4] == 's' && s[5] == ':' && s[6] == '/' && s[7] == '/' && s[8] == 'w' && s[9] == 'w'
      && s[10] == 'w' && s[11] == '.' && s[12] == 'g' && s[13] == 'o' && s[14] == 'o'
      && s[15] == 'g' && s[16] == 'l' && s[17] == 'e' && s[18] == '.' && s[19] == 'c'
      && s[20] == 'o' && s[21] == 'm'
    ensures Star(UserinfoUnit, s, 17) == Some(22)
  {
    ExampleHostOnlyStep3(s);
    ExampleHostOnlyStep4(s);
  }

  lemma ExampleHostOnlyStep5(s: string)
    requires |s| == 22 && s[0] == 'h' && s[1] == 't' && s[2] == 't' && s[3] == 'p'
      && s[4] == 's' && s[5] == ':' && s[6] == '/' && s[7] == '/' && s[8] == 'w' && s[9] == 'w'
      && s[10] == 'w' && s[11] == '.' && s[12] == 'g' && s[13] == 'o' && s[14] == 'o'
      && s[15] == 'g' && s[16] == 'l' && s[17] == 'e' && s[18] == '.' && s[19] == 'c'
      && s[20] == 'o' && s[21] == 'm'
    ensures One(UserinfoUnit, s, 11) == Some(12)
    ensures One(UserinfoUnit, s, 12) == Some(13)
    ensures One(UserinfoUnit, s, 13) == Some(14)
    ensures Star(UserinfoUnit, s, 14) == Some(22)
  {
    assert One(UserinfoUnit, s, 11) == Some(12);
    assert One(UserinfoUnit, s, 12) == Some(13);
    assert One(UserinfoUnit, s, 13) == Some(14);
    assert One(UserinfoUnit, s, 14) == Some(15);
    assert One(UserinfoUnit, s, 15) == Some(16);
    assert One(UserinfoUnit, s, 16) == Some(17);
    ExampleHostOnlyStep2(s);
    assert Star(UserinfoUnit, s, 16) == Some(22);
    assert Star(UserinfoUnit, s, 15) == Some(22);
    assert Star(UserinfoUnit, s, 14) == Some(22);
  }

  lemma ExampleHostOnlyStep6(s: string)
    requires |s| == 22 && s[0] == 'h' && s[1] == 't' && s[2] == 't' && s[3] == 'p'
      && s[4] == 's' && s[5] == ':' && s[6] == '/' && s[7] == '/' && s[8] == 'w' && s[9] == 'w'
      && s[10] == 'w' && s[11] == '.' && s[12] == 'g' && s[13] == 'o' && s[14] == 'o'
      && s[15] == 'g' && s[16] == 'l' && s[17] == 'e' && s[18] == '.' && s[19] == 'c'
      && s[20] == 'o' && s[21] == 'm'
    requires One(UserinfoUnit, s, 13) == Some(14)
    requires Star(UserinfoUnit, s, 14) == Some(22)
    requires One(UserinfoUnit, s, 12) == Some(13)
    ensures Star(UserinfoUnit, s, 12) == Some(22)
  {
    assert Star(UserinfoUnit, s, 13) == Some(22);
    assert Star(UserinfoUnit, s, 12) == Some(22);
  }

  lemma ExampleHostOnlyStep1(s: string)
    requires |s| == 22 && s[0] == 'h' && s[1] == 't' && s[2] == 't' && s[3] == 'p'
      && s[4] == 's' && s[5] == ':' && s[6] == '/' && s[7] == '/' && s[8] == 'w' && s[9] == 'w'
      && s[10] == 'w' && s[11] == '.' && s[12] == 'g' && s[13] == 'o' && s[14] == 'o'
      && s[15] == 'g' && s[16] == 'l' && s[17] == 'e' && s[18] == '.' && s[19] == 'c'
      && s[20] == 'o' && s[21] == 'm'
    ensures Star(UserinfoUnit, s, 11) == Some(22)
  {
    ExampleHostOnlyStep5(s);
    ExampleHostOnlyStep6(s);
  }

  lemma ExampleHostOnlyStep9(s: string)
    requires |s| == 22 && s[0] == 'h' && s[1] == 't' && s[2] == 't' && s[3] == 'p'
      && s[4] == 's' && s[5] == ':' && s[6] == '/' && s[7] == '/' && s[8] == 'w' && s[9] == 'w'
      && s[10] == 'w' && s[11] == '.' && s[12] == 'g' && s[13] == 'o' && s[14] == 'o'
      && s[15] == 'g' && s[16] == 'l' && s[17] == 'e' && s[18] == '.' && s[19] == 'c'
      && s[20] == 'o' && s[21] == 'm'
    ensures One(RegNameUnit, s, 17) == Some(18)
    ensures One(RegNameUnit, s, 18) == Some(19)
    ensures Star(RegNameUnit, s, 19) == Some(22)
  {
    assert One(RegNameUnit, s, 17) == Some(18);
    assert One(RegNameUnit, s, 18) == Some(19);
    assert One(RegNameUnit, s, 19) == Some(20);
    assert One(RegNameUnit, s, 20) == Some(21);
    assert One(RegNameUnit, s, 21) == Some(22);
    assert One(RegNameUnit, s, 22) == None;
    assert Star(RegNameUnit, s, 22) == Some(22);
    assert Star(RegNameUnit, s, 21) == Some(22);
    assert Star(RegNameUnit, s, 20) == Some(22);
    assert Star(RegNameUnit, s, 19) == Some(22);
  }

  lemma ExampleHostOnlyStep10(s: string)
    requires |s| == 22 && s[0] == 'h' && s[1] == 't' && s[2] == 't' && s[3] == 'p'
      && s[4] == 's' && s[5] == ':' && s[6] == '/' && s[7] == '/' && s[8] == 'w' && s[9] == 'w'
      && s[10] == 'w' && s[11] == '.' && s[12] == 'g' && s[13] == 'o' && s[14] == 'o'
      && s[15] == 'g' && s[16] == 'l' && s[17] == 'e' && s[18] == '.' && s[19] == 'c'
      && s[20] == 'o' && s[21] == 'm'
    requires One(RegNameUnit, s, 18) == Some(19)
    requires Star(RegNameUnit, s, 19) == Some(22)
    ensures Star(RegNameUnit, s, 18) == Some(22)
  {
    assert Star(RegNameUnit, s, 18) == Some(22);
  }

  lemma ExampleHostOnlyStep8(s: string)
    requires |s| == 22 && s[0] == 'h' && s[1] == 't' && s[2] == 't' && s[3] == 'p'
      && s[4] == 's' && s[5] == ':' && s[6] == '/' && s[7] == '/' && s[8] == 'w' && s[9] == 'w'
      && s[10] == 'w' && s[11] == '.' && s[12] == 'g' && s[13] == 'o' && s[14] == 'o'
      && s[15] == 'g' && s[16] == 'l' && s[17] == 'e' && s[18] == '.' && s[19] == 'c'
      && s[20] == 'o' && s[21] == 'm'
    ensures Star(RegNameUnit, s, 17) == Some(22)
  {
    ExampleHostOnlyStep9(s);
    ExampleHostOnlyStep10(s);
  }

  lemma ExampleHostOnlyStep11(s: string)
    requires |s| == 22 && s[0] == 'h' && s[1] == 't' && s[2] == 't' && s[3] == 'p'
      && s[4] == 's' && s[5] == ':' && s[6] == '/' && s[7] == '/' && s[8] == 'w' && s[9] == 'w'
      && s[10] == 'w' && s[11] == '.' && s[12] == 'g' && s[13] == 'o' && s[14] == 'o'
      && s[15] == 'g' && s[16] == 'l' && s[17] == 'e' && s[18] == '.' && s[19] == 'c'
      && s[20] == 'o' && s[21] == 'm'
    ensures One(RegNameUnit, s, 11) == Some(12)
    ensures One(RegNameUnit, s, 12) == Some(13)
    ensures One(RegNameUnit, s, 13) == Some(14)
    ensures Star(RegNameUnit, s, 14) == Some(22)
  {
    assert One(RegNameUnit, s, 11) == Some(12);
    assert One(RegNameUnit, s, 12) == Some(13);
    assert One(RegNameUnit, s, 13) == Some(14);
    assert One(RegNameUnit, s, 14) == Some(15);
    assert One(RegNameUnit, s, 15) == Some(16);
    assert One(RegNameUnit, s, 16) == Some(17);
    ExampleHostOnlyStep8(s);
    assert Star(RegNameUnit, s, 16) == Some(22);
    assert Star(RegNameUnit, s, 15) == Some(22);
    assert Star(RegNameUnit, s, 14) == Some(22);
  }

  lemma ExampleHostOnlyStep12(s: string)
    requires |s| == 22 && s[0] == 'h' && s[1] == 't' && s[2] == 't' && s[3] == 'p'
      && s[4] == 's' && s[5] == ':' && s[6] == '/' && s[7] == '/' && s[8] == 'w' && s[9] == 'w'
      && s[10] == 'w' && s[11] == '.' && s[12] == 'g' && s[13] == 'o' && s[14] == 'o'
      && s[15] == 'g' && s[16] == 'l' && s[17] == 'e' && s[18] == '.' && s[19] == 'c'
      && s[20] == 'o' && s[21] == 'm'
    requires One(RegNameUnit, s, 13) == Some(14)
    requires Star(RegNameUnit, s, 14) == Some(22)
    requires One(RegNameUnit, s, 12) == Some(13)
    ensures Star(RegNameUnit, s, 12) == Some(22)
  {
    assert Star(RegNameUnit, s, 13) == Some(22);
    assert Star(RegNameUnit, s, 12) == Some(22);
  }

  lemma ExampleHostOnlyStep7(s: string)
    requires |s| == 22 && s[0] == 'h' && s[1] == 't' && s[2] == 't' && s[3] == 'p'
      && s[4] == 's' && s[5] == ':' && s[6] == '/' && s[7] == '/' && s[8] == 'w' && s[9] == 'w'
      && s[10] == 'w' && s[11] == '.' && s[12] == 'g' && s[13] == 'o' && s[14] == 'o'
      && s[15] == 'g' && s[16] == 'l' && s[17] == 'e' && s[18] == '.' && s[19] == 'c'
      && s[20] == 'o' && s[21] == 'm'
    ensures Star(RegNameUnit, s, 11) == Some(22)
  {
    ExampleHostOnlyStep11(s);
    ExampleHostOnlyStep12(s);
  }

  lemma ExampleHostOnlyStep13(s: string)
    requires |s| == 22 && s[0] == 'h' && s[1] == 't' && s[2] == 't' && s[3] == 'p'
      && s[4] == 's' && s[5] == ':' && s[6] == '/' && s[7] == '/' && s[8] == 'w' && s[9] == 'w'
      && s[10] == 'w' && s[11] == '.' && s[12] == 'g' && s[13] == 'o' && s[14] == 'o'
      && s[15] == 'g' && s[16] == 'l' && s[17] == 'e' && s[18] == '.' && s[19] == 'c'
      && s[20] == 'o' && s[21] == 'm'
    ensures Star(SchemeUnit, s, 1) == Some(5)
  {
    assert One(SchemeUnit, s, 1) == Some(2);
    assert One(SchemeUnit, s, 2) == Some(3);
    assert One(SchemeUnit, s, 3) == Some(4);
    assert One(SchemeUnit, s, 4) == Some(5);
    assert One(SchemeUnit, s, 5) == None;
    assert Star(SchemeUnit, s, 5) == Some(5);
    assert Star(SchemeUnit, s, 4) == Some(5);
    assert Star(SchemeUnit, s, 3) == Some(5);
    assert Star(SchemeUnit, s, 2) == Some(5);
    assert Star(SchemeUnit, s, 1) == Some(5);
  }

  lemma ExampleHostOnlyStep14(s: string)
    requires |s| == 22 && s[0] == 'h' && s[1] == 't' && s[2] == 't' && s[3] == 'p'
      && s[4] == 's' && s[5] == ':' && s[6] == '/' && s[7] == '/' && s[8] == 'w' && s[9] == 'w'
      && s[10] == 'w' && s[11] == '.' && s[12] == 'g' && s[13] == 'o' && s[14] == 'o'
      && s[15] == 'g' && s[16] == 'l' && s[17] == 'e' && s[18] == '.' && s[19] == 'c'
      && s[20] == 'o' && s[21] == 'm'
    requires Star(SchemeUnit, s, 1) == Some(5)
    ensures Scheme(s, 0) == Some(5)
    ensures DoubleSlash(s, 6) == Some(8)
    ensures UserinfoPrefix(s, 8) == 8
  {
    assert Scheme(s, 0) == Some(5);
    assert DoubleSlash(s, 6) == Some(8);
    assert One(UserinfoUnit, s, 8) == Some(9);
    assert One(UserinfoUnit, s, 9) == Some(10);
    assert One(UserinfoUnit, s, 10) == Some(11);
    ExampleHostOnlyStep1(s);
    assert Star(UserinfoUnit, s, 10) == Some(22);
    assert Star(UserinfoUnit, s, 9) == Some(22);
    assert Star(UserinfoUnit, s, 8) == Some(22);
    assert UserinfoPrefix(s, 8) == 8;
  }

  lemma ExampleHostOnlyStep15(s: string)
    requires |s| == 22 && s[0] == 'h' && s[1] == 't' && s[2] == 't' && s[3] == 'p'
      && s[4] == 's' && s[5] == ':' && s[6] == '/' && s[7] == '/' && s[8] == 'w' && s[9] == 'w'
      && s[10] == 'w' && s[11] == '.' && s[12] == 'g' && s[13] == 'o' && s[14] == 'o'
      && s[15] == 'g' && s[16] == 'l' && s[17] == 'e' && s[18] == '.' && s[19] == 'c'
      && s[20] == 'o' && s[21] == 'm'
    ensures Host(s, 8) == Some(22)
  {
    assert IPLiteral(s, 8) == None;
    assert IPv4Address(s, 8) == None;
    assert One(RegNameUnit, s, 8) == Some(9);
    assert One(RegNameUnit, s, 9) == Some(10);
    assert One(RegNameUnit, s, 10) == Some(11);
    ExampleHostOnlyStep7(s);
    assert Star(RegNameUnit, s, 10) == Some(22);
    assert Star(RegNameUnit, s, 9) == Some(22);
    assert Star(RegNameUnit, s, 8) == Some(22);
    assert Host(s, 8) == Some(22);
  }

  lemma ExampleHostOnlyStep16(s: string)
    requires |s| == 22 && s[0] == 'h' && s[1] == 't' && s[2] == 't' && s[3] == 'p'
      && s[4] == 's' && s[5] == ':' && s[6] == '/' && s[7] == '/' && s[8] == 'w' && s[9] == 'w'
      && s[10] == 'w' && s[11] == '.' && s[12] == 'g' && s[13] == 'o' && s[14] == 'o'
      && s[15] == 'g' && s[16] == 'l' && s[17] == 'e' && s[18] == '.' && s[19] == 'c'
      && s[20] == 'o' && s[21] == 'm'
    ensures PathAbempty(s, 22) == Some(22)
  {
    assert One(SlashSegment, s, 22) == None;
    assert Star(SlashSegment, s, 22) == Some(22);
    assert PathAbempty(s, 22) == Some(22);
  }

  lemma ExampleHostOnlySpelled(s: string)
    requires |s| == 22 && s[0] == 'h' && s[1] == 't' && s[2] == 't' && s[3] == 'p'
      && s[4] == 's' && s[5] == ':' && s[6] == '/' && s[7] == '/' && s[8] == 'w' && s[9] == 'w'
      && s[10] == 'w' && s[11] == '.' && s[12] == 'g' && s[13] == 'o' && s[14] == 'o'
      && s[15] == 'g' && s[16] == 'l' && s[17] == 'e' && s[18] == '.' && s[19] == 'c'
      && s[20] == 'o' && s[21] == 'm'
    ensures ParseResult(s) == Captures(Some(Span(0, 5)), Some(Span(8, 22)), None, Some(Span(22, 22)), None, None)
  {
    ExampleHostOnlyStep13(s);
    ExampleHostOnlyStep14(s);
    ExampleHostOnlyStep15(s);
    ExampleHostOnlyStep16(s);
  }

  /** Every component; the userinfo is skipped, not captured. */
  lemma ExampleAllParts()
    ensures ParseResult(("http://u" + "ser@exam") + ("ple.com:" + ("8080/p?q" + "#f"))) == Captures(Some(Span(0, 4)), Some(Span(12, 23)), Some(Span(24, 28)), Some(Span(28, 30)), Some(Span(31, 32)), Some(Span(33, 34)))
  {
    ExampleAllPartsSpelled(("http://u" + "ser@exam") + ("ple.com:" + ("8080/p?q" + "#f")));
  }

  lemma ExampleAllPartsStep3(s: string)
    requires |s| == 34 && s[0] == 'h' && s[1] == 't' && s[2] == 't' && s[3] == 'p'
      && s[4] == ':' && s[5] == '/' && s[6] == '/' && s[7] == 'u' && s[8] == 's' && s[9] == 'e'
      && s[10] == 'r' && s[11] == '@' && s[12] == 'e' && s[13] == 'x' && s[14] == 'a'
      && s[15] == 'm' && s[16] == 'p' && s[17] == 'l' && s[18] == 'e' && s[19] == '.'
      && s[20] == 'c' && s[21] == 'o' && s[22] == 'm' && s[23] == ':' && s[24] == '8'
      && s[25] == '0' && s[26] == '8' && s[27] == '0' && s[28] == '/' && s[29] == 'p'
      && s[30] == '?' && s[31] == 'q' && s[32] == '#' && s[33] == 'f'
    ensures One(RegNameUnit, s, 18) == Some(19)
    ensures One(RegNameUnit, s, 19) == Some(20)
    ensures Star(RegNameUnit, s, 20) == Some(23)
  {
    assert One(RegNameUnit, s, 18) == Some(19);
    assert One(RegNameUnit, s, 19) == Some(20);
    assert One(RegNameUnit, s, 20) == Some(21);
    assert One(RegNameUnit, s, 21) == Some(22);
    assert One(RegNameUnit, s, 22) == Some(23);
    assert One(RegNameUnit, s, 23) == None;
    assert Star(RegNameUnit, s, 23) == Some(23);
    assert Star(RegNameUnit, s, 22) == Some(23);
    assert Star(RegNameUnit, s, 21) == Some(23);
    assert Star(RegNameUnit, s, 20) == Some(23);
  }

  lemma ExampleAllPartsStep4(s: string)
    requires |s| == 34 && s[0] == 'h' && s[1] == 't' && s[2] == 't' && s[3] == 'p'
      && s[4] == ':' && s[5] == '/' && s[6] == '/' && s[7] == 'u' && s[8] == 's' && s[9] == 'e'
      && s[10] == 'r' && s[11] == '@' && s[12] == 'e' && s[13] == 'x' && s[14] == 'a'
      && s[15] == 'm' && s[16] == 'p' && s[17] == 'l' && s[18] == 'e' && s[19] == '.'
      && s[20] == 'c' && s[21] == 'o' && s[22] == 'm' && s[23] == ':' && s[24] == '8'
      && s[25] == '0' && s[26] == '8' && s[27] == '0' && s[28] == '/' && s[29] == 'p'
      && s[30] == '?' && s[31] == 'q' && s[32] == '#' && s[33] == 'f'
    requires One(RegNameUnit, s, 19) == Some(20)
    requires Star(RegNameUnit, s, 20) == Some(23)
    ensures Star(RegNameUnit, s, 19) == Some(23)
  {
    assert Star(RegNameUnit, s, 19) == Some(23);
  }

  lemma ExampleAllPartsStep2(s: string)
    requires |s| == 34 && s[0] == 'h' && s[1] == 't' && s[2] == 't' && s[3] == 'p'
      && s[4] == ':' && s[5] == '/' && s[6] == '/' && s[7] == 'u' && s[8] == 's' && s[9] == 'e'
      && s[10] == 'r' && s[11] == '@' && s[12] == 'e' && s[13] == 'x' && s[14] == 'a'
      && s[15] == 'm' && s[16] == 'p' && s[17] == 'l' && s[18] == 'e' && s[19] == '.'
      && s[20] == 'c' && s[21] == 'o' && s[22] == 'm' && s[23] == ':' && s[24] == '8'
      && s[25] == '0' && s[26] == '8' && s[27] == '0' && s[28] == '/' && s[29] == 'p'
      && s[30] == '?' && s[31] == 'q' && s[32] == '#' && s[33] == 'f'
    ensures Star(RegNameUnit, s, 18) == Some(23)
  {
    ExampleAllPartsStep3(s);
    ExampleAllPartsStep4(s);
  }

  lemma ExampleAllPartsStep5(s: string)
    requires |s| == 34 && s[0] == 'h' && s[1] == 't' && s[2] == 't' && s[3] == 'p'
      && s[4] == ':' && s[5] == '/' && s[6] == '/' && s[7] == 'u' && s[8] == 's' && s[9] == 'e'
      && s[10] == 'r' && s[11] == '@' && s[12] == 'e' && s[13] == 'x' && s[14] == 'a'
      && s[15] == 'm' && s[16] == 'p' && s[17] == 'l' && s[18] == 'e' && s[19] == '.'
      && s[20] == 'c' && s[21] == 'o' && s[22] == 'm' && s[23] == ':' && s[24] == '8'
      && s[25] == '0' && s[26] == '8' && s[27] == '0' && s[28] == '/' && s[29] == 'p'
      && s[30] == '?' && s[31] == 'q' && s[32] == '#' && s[33] == 'f'
    ensures One(RegNameUnit, s, 12) == Some(13)
    ensures One(RegNameUnit, s, 13) == Some(14)
    ensures One(RegNameUnit, s, 14) == Some(15)
    ensures Star(RegNameUnit, s, 15) == Some(23)
  {
    assert One(RegNameUnit, s, 12) == Some(13);
    assert One(RegNameUnit, s, 13) == Some(14);
    assert One(RegNameUnit, s, 14) == Some(15);
    assert One(RegNameUnit, s, 15) == Some(16);
    assert One(RegNameUnit, s, 16) == Some(17);
    assert One(RegNameUnit, s, 17) == Some(18);
    ExampleAllPartsStep2(s);
    assert Star(RegNameUnit, s, 17) == Some(23);
    assert Star(RegNameUnit, s, 16) == Some(23);
    assert Star(RegNameUnit, s, 15) == Some(23);
  }

  lemma ExampleAllPartsStep6(s: string)
    requires |s| == 34 && s[0] == 'h' && s[1] == 't' && s[2] == 't' && s[3] == 'p'
      && s[4] == ':' && s[5] == '/' && s[6] == '/' && s[7] == 'u' && s[8] == 's' && s[9] == 'e'
      && s[10] == 'r' && s[11] == '@' && s[12] == 'e' && s[13] == 'x' && s[14] == 'a'
      && s[15] == 'm' && s[16] == 'p' && s[17] == 'l' && s[18] == 'e' && s[19] == '.'
      && s[20] == 'c' && s[21] == 'o' && s[22] == 'm' && s[23] == ':' && s[24] == '8'
      && s[25] == '0' && s[26] == '8' && s[27] == '0' && s[28] == '/' && s[29] == 'p'
      && s[30] == '?' && s[31] == 'q' && s[32] == '#' && s[33] == 'f'
    requires One(RegNameUnit, s, 14) == Some(15)
    requires Star(RegNameUnit, s, 15) == Some(23)
    requires One(RegNameUnit, s, 13) == Some(14)
    ensures Star(RegNameUnit, s, 13) == Some(23)
  {
    assert Star(RegNameUnit, s, 14) == Some(23);
    assert Star(RegNameUnit, s, 13) == Some(23);
  }

  lemma ExampleAllPartsStep1(s: string)
    requires |s| == 34 && s[0] == 'h' && s[1] == 't' && s[2] == 't' && s[3] == 'p'
      && s[4] == ':' && s[5] == '/' && s[6] == '/' && s[7] == 'u' && s[8] == 's' && s[9] == 'e'
      && s[10] == 'r' && s[11] == '@' && s[12] == 'e' && s[13] == 'x' && s[14] == 'a'
      && s[15] == 'm' && s[16] == 'p' && s[17] == 'l' && s[18] == 'e' && s[19] == '.'
      && s[20] == 'c' && s[21] == 'o' && s[22] == 'm' && s[23] == ':' && s[24] == '8'
      && s[25] == '0' && s[26] == '8' && s[27] == '0' && s[28] == '/' && s[29] == 'p'
      && s[30] == '?' && s[31] == 'q' && s[32] == '#' && s[33] == 'f'
    ensures Star(RegNameUnit, s, 12) == Some(23)
  {
    ExampleAllPartsStep5(s);
    ExampleAllPartsStep6(s);
  }

  lemma ExampleAllPartsStep7(s: string)
    requires |s| == 34 && s[0] == 'h' && s[1] == 't' && s[2] == 't' && s[3] == 'p'
      && s[4] == ':' && s[5] == '/' && s[6] == '/' && s[7] == 'u' && s[8] == 's' && s[9] == 'e'
      && s[10] == 'r' && s[11] == '@' && s[12] == 'e' && s[13] == 'x' && s[14] == 'a'
      && s[15] == 'm' && s[16] == 'p' && s[17] == 'l' && s[18] == 'e' && s[19] == '.'
      && s[20] == 'c' && s[21] == 'o' && s[22] == 'm' && s[23] == ':' && s[24] == '8'
      && s[25] == '0' && s[26] == '8' && s[27] == '0' && s[28] == '/' && s[29] == 'p'
      && s[30] == '?' && s[31] == 'q' && s[32] == '#' && s[33] == 'f'
    ensures Scheme(s, 0) == Some(4)
    ensures DoubleSlash(s, 5) == Some(7)
  {
    assert One(SchemeUnit, s, 1) == Some(2);
    assert One(SchemeUnit, s, 2) == Some(3);
    assert One(SchemeUnit, s, 3) == Some(4);
    assert One(SchemeUnit, s, 4) == None;
    assert Star(SchemeUnit, s, 4) == Some(4);
    assert Star(SchemeUnit, s, 3) == Some(4);
    assert Star(SchemeUnit, s, 2) == Some(4);
    assert Star(SchemeUnit, s, 1) == Some(4);
    assert Scheme(s, 0) == Some(4);
    assert DoubleSlash(s, 5) == Some(7);
  }

  lemma ExampleAllPartsStep8(s: string)
    requires |s| == 34 && s[0] == 'h' && s[1] == 't' && s[2] == 't' && s[3] == 'p'
      && s[4] == ':' && s[5] == '/' && s[6] == '/' && s[7] == 'u' && s[8] == 's' && s[9] == 'e'
      && s[10] == 'r' && s[11] == '@' && s[12] == 'e' && s[13] == 'x' && s[14] == 'a'
      && s[15] == 'm' && s[16] == 'p' && s[17] == 'l' && s[18] == 'e' && s[19] == '.'
      && s[20] == 'c' && s[21] == 'o' && s[22] == 'm' && s[23] == ':' && s[24] == '8'
      && s[25] == '0' && s[26] == '8' && s[27] == '0' && s[28] == '/' && s[29] == 'p'
      && s[30] == '?' && s[31] == 'q' && s[32] == '#' && s[33] == 'f'
    ensures Star(UserinfoUnit, s, 7) == Some(11)
  {
    assert One(UserinfoUnit, s, 7) == Some(8);
    assert One(UserinfoUnit, s, 8) == Some(9);
    assert One(UserinfoUnit, s, 9) == Some(10);
    assert One(UserinfoUnit, s, 10) == Some(11);
    assert One(UserinfoUnit, s, 11) == None;
    assert Star(UserinfoUnit, s, 11) == Some(11);
    assert Star(UserinfoUnit, s, 10) == Some(11);
    assert Star(UserinfoUnit, s, 9) == Some(11);
    assert Star(UserinfoUnit, s, 8) == Some(11);
    assert Star(UserinfoUnit, s, 7) == Some(11);
  }

  lemma ExampleAllPartsStep9(s: string)
    requires |s| == 34 && s[0] == 'h' && s[1] == 't' && s[2] == 't' && s[3] == 'p'
      && s[4] == ':' && s[5] == '/' && s[6] == '/' && s[7] == 'u' && s[8] == 's' && s[9] == 'e'
      && s[10] == 'r' && s[11] == '@' && s[12] == 'e' && s[13] == 'x' && s[14] == 'a'
      && s[15] == 'm' && s[16] == 'p' && s[17] == 'l' && s[18] == 'e' && s[19] == '.'
      && s[20] == 'c' && s[21] == 'o' && s[22] == 'm' && s[23] == ':' && s[24] == '8'
      && s[25] == '0' && s[26] == '8' && s[27] == '0' && s[28] == '/' && s[29] == 'p'
      && s[30] == '?' && s[31] == 'q' && s[32] == '#' && s[33] == 'f'
    requires Star(UserinfoUnit, s, 7) == Some(11)
    ensures UserinfoPrefix(s, 7) == 12
    ensures Host(s, 12) == Some(23)
    ensures One(DigitUnit, s, 24) == Some(25)
    ensures One(DigitUnit, s, 25) == Some(26)
    ensures One(DigitUnit, s, 26) == Some(27)
    ensures One(DigitUnit, s, 27) == Some(28)
    ensures One(DigitUnit, s, 28) == None
  {
    assert UserinfoPrefix(s, 7) == 12;
    assert IPLiteral(s, 12) == None;
    assert IPv4Address(s, 12) == None;
    ExampleAllPartsStep1(s);
    assert Host(s, 12) == Some(23);
    assert One(DigitUnit, s, 24) == Some(25);
    assert One(DigitUnit, s, 25) == Some(26);
    assert One(DigitUnit, s, 26) == Some(27);
    assert One(DigitUnit, s, 27) == Some(28);
    assert One(DigitUnit, s, 28) == None;
  }

  lemma ExampleAllPartsStep10(s: string)
    requires |s| == 34 && s[0] == 'h' && s[1] == 't' && s[2] == 't' && s[3] == 'p'
      && s[4] == ':' && s[5] == '/' && s[6] == '/' && s[7] == 'u' && s[8] == 's' && s[9] == 'e'
      && s[10] == 'r' && s[11] == '@' && s[12] == 'e' && s[13] == 'x' && s[14] == 'a'
      && s[15] == 'm' && s[16] == 'p' && s[17] == 'l' && s[18] == 'e' && s[19] == '.'
      && s[20] == 'c' && s[21] == 'o' && s[22] == 'm' && s[23] == ':' && s[24] == '8'
      && s[25] == '0' && s[26] == '8' && s[27] == '0' && s[28] == '/' && s[29] == 'p'
      && s[30] == '?' && s[31] == 'q' && s[32] == '#' && s[33] == 'f'
    requires One(DigitUnit, s, 28) == None
    requires One(DigitUnit, s, 27) == Some(28)
    requires One(DigitUnit, s, 26) == Some(27)
    requires One(DigitUnit, s, 25) == Some(26)
    requires One(DigitUnit, s, 24) == Some(25)
    ensures Port(s, 24) == Some(28)
    ensures Star(PCharUnit, s, 29) == Some(30)
  {
    assert Star(DigitUnit, s, 28) == Some(28);
    assert Star(DigitUnit, s, 27) == Some(28);
    assert Star(DigitUnit, s, 26) == Some(28);
    assert Star(DigitUnit, s, 25) == Some(28);
    assert Star(DigitUnit, s, 24) == Some(28);
    assert Port(s, 24) == Some(28);
    assert One(PCharUnit, s, 29) == Some(30);
    assert One(PCharUnit, s, 30) == None;
    assert Star(PCharUnit, s, 30) == Some(30);
    assert Star(PCharUnit, s, 29) == Some(30);
  }

  lemma ExampleAllPartsStep11(s: string)
    requires |s| == 34 && s[0] == 'h' && s[1] == 't' && s[2] == 't' && s[3] == 'p'
      && s[4] == ':' && s[5] == '/' && s[6] == '/' && s[7] == 'u' && s[8] == 's' && s[9] == 'e'
      && s[10] == 'r' && s[11] == '@' && s[12] == 'e' && s[13] == 'x' && s[14] == 'a'
      && s[15] == 'm' && s[16] == 'p' && s[17] == 'l' && s[18] == 'e' && s[19] == '.'
      && s[20] == 'c' && s[21] == 'o' && s[22] == 'm' && s[23] == ':' && s[24] == '8'
      && s[25] == '0' && s[26] == '8' && s[27] == '0' && s[28] == '/' && s[29] == 'p'
      && s[30] == '?' && s[31] == 'q' && s[32] == '#' && s[33] == 'f'
    requires Star(PCharUnit, s, 29) == Some(30)
    ensures PathAbempty(s, 28) == Some(30)
    ensures Query(s, 31) == Some(32)
  {
    assert One(SlashSegment, s, 28) == Some(30);
    assert One(SlashSegment, s, 30) == None;
    assert Star(SlashSegment, s, 30) == Some(30);
    assert Star(SlashSegment, s, 28) == Some(30);
    assert PathAbempty(s, 28) == Some(30);
    assert One(QueryUnit, s, 31) == Some(32);
    assert One(QueryUnit, s, 32) == None;
    assert Star(QueryUnit, s, 32) == Some(32);
    assert Star(QueryUnit, s, 31) == Some(32);
    assert Query(s, 31) == Some(32);
  }

  lemma ExampleAllPartsStep12(s: string)
    requires |s| == 34 && s[0] == 'h' && s[1] == 't' && s[2] == 't' && s[3] == 'p'
      && s[4] == ':' && s[5] == '/' && s[6] == '/' && s[7] == 'u' && s[8] == 's' && s[9] == 'e'
      && s[10] == 'r' && s[11] == '@' && s[12] == 'e' && s[13] == 'x' && s[14] == 'a'
      && s[15] == 'm' && s[16] == 'p' && s[17] == 'l' && s[18] == 'e' && s[19] == '.'
      && s[20] == 'c' && s[21] == 'o' && s[22] == 'm' && s[23] == ':' && s[24] == '8'
      && s[25] == '0' && s[26] == '8' && s[27] == '0' && s[28] == '/' && s[29] == 'p'
      && s[30] == '?' && s[31] == 'q' && s[32] == '#' && s[33] == 'f'
    ensures Fragment(s, 33) == Some(34)
  {
    assert One(QueryUnit, s, 33) == Some(34);
    assert One(QueryUnit, s, 34) == None;
    assert Star(QueryUnit, s, 34) == Some(34);
    assert Star(QueryUnit, s, 33) == Some(34);
    assert Query(s, 33) == Some(34);
    assert Fragment(s, 33) == Some(34);
  }

  lemma ExampleAllPartsSpelled(s: string)
    requires |s| == 34 && s[0] == 'h' && s[1] == 't' && s[2] == 't' && s[3] == 'p'
      && s[4] == ':' && s[5] == '/' && s[6] == '/' && s[7] == 'u' && s[8] == 's' && s[9] == 'e'
      && s[10] == 'r' && s[11] == '@' && s[12] == 'e' && s[13] == 'x' && s[14] == 'a'
      && s[15] == 'm' && s[16] == 'p' && s[17] == 'l' && s[18] == 'e' && s[19] == '.'
      && s[20] == 'c' && s[21] == 'o' && s[22] == 'm' && s[23] == ':' && s[24] == '8'
      && s[25] == '0' && s[26] == '8' && s[27] == '0' && s[28] == '/' && s[29] == 'p'
      && s[30] == '?' && s[31] == 'q' && s[32] == '#' && s[33] == 'f'
    ensures ParseResult(s) == Captures(Some(Span(0, 4)), Some(Span(12, 23)), Some(Span(24, 28)), Some(Span(28, 30)), Some(Span(31, 32)), Some(Span(33, 34)))
  {
    ExampleAllPartsStep7(s);
    ExampleAllPartsStep8(s);
    ExampleAllPartsStep9(s);
    ExampleAllPartsStep10(s);
    ExampleAllPartsStep11(s);
    ExampleAllPartsStep12(s);
  }

  /** No scheme: the authority form captures host, port, path, query and fragment. */
  lemma ExampleAuthorityForm()
    ensures ParseResult("example." + ("com:80/a" + "?b#c")) == Captures(None, Some(Span(0, 11)), Some(Span(12, 14)), Some(Span(14, 16)), Some(Span(17, 18)), Some(Span(19, 20)))
  {
    ExampleAuthorityFormSpelled("example." + ("com:80/a" + "?b#c"));
  }

  lemma ExampleAuthorityFormStep3(s: string)
    requires |s| == 20 && s[0] == 'e' && s[1] == 'x' && s[2] == 'a' && s[3] == 'm'
      && s[4] == 'p' && s[5] == 'l' && s[6] == 'e' && s[7] == '.' && s[8] == 'c' && s[9] == 'o'
      && s[10] == 'm' && s[11] == ':' && s[12] == '8' && s[13] == '0' && s[14] == '/'
      && s[15] == 'a' && s[16] == '?' && s[17] == 'b' && s[18] == '#' && s[19] == 'c'
    ensures One(SchemeUnit, s, 6) == Some(7)
    ensures One(SchemeUnit, s, 7) == Some(8)
    ensures Star(SchemeUnit, s, 8) == Some(11)
  {
    assert One(SchemeUnit, s, 6) == Some(7);
    assert One(SchemeUnit, s, 7) == Some(8);
    assert One(SchemeUnit, s, 8) == Some(9);
    assert One(SchemeUnit, s, 9) == Some(10);
    assert One(SchemeUnit, s, 10) == Some(11);
    assert One(SchemeUnit, s, 11) == None;
    assert Star(SchemeUnit, s, 11) == Some(11);
    assert Star(SchemeUnit, s, 10) == Some(11);
    assert Star(SchemeUnit, s, 9) == Some(11);
    assert Star(SchemeUnit, s, 8) == Some(11);
  }

  lemma ExampleAuthorityFormStep4(s: string)
    requires |s| == 20 && s[0] == 'e' && s[1] == 'x' && s[2] == 'a' && s[3] == 'm'
      && s[4] == 'p' && s[5] == 'l' && s[6] == 'e' && s[7] == '.' && s[8] == 'c' && s[9] == 'o'
      && s[10] == 'm' && s[11] == ':' && s[12] == '8' && s[13] == '0' && s[14] == '/'
      && s[15] == 'a' && s[16] == '?' && s[17] == 'b' && s[18] == '#' && s[19] == 'c'
    requires One(SchemeUnit, s, 7) == Some(8)
    requires Star(SchemeUnit, s, 8) == Some(11)
    ensures Star(SchemeUnit, s, 7) == Some(11)
  {
    assert Star(SchemeUnit, s, 7) == Some(11);
  }

  lemma ExampleAuthorityFormStep2(s: string)
    requires |s| == 20 && s[0] == 'e' && s[1] == 'x' && s[2] == 'a' && s[3] == 'm'
      && s[4] == 'p' && s[5] == 'l' && s[6] == 'e' && s[7] == '.' && s[8] == 'c' && s[9] == 'o'
      && s[10] == 'm' && s[11] == ':' && s[12] == '8' && s[13] == '0' && s[14] == '/'
      && s[15] == 'a' && s[16] == '?' && s[17] == 'b' && s[18] == '#' && s[19] == 'c'
    ensures Star(SchemeUnit, s, 6) == Some(11)
  {
    ExampleAuthorityFormStep3(s);
    ExampleAuthorityFormStep4(s);
  }

  lemma ExampleAuthorityFormStep5(s: string)
    requires |s| == 20 && s[0] == 'e' && s[1] == 'x' && s[2] == 'a' && s[3] == 'm'
      && s[4] == 'p' && s[5] == 'l' && s[6] == 'e' && s[7] == '.' && s[8] == 'c' && s[9] == 'o'
      && s[10] == 'm' && s[11] == ':' && s[12] == '8' && s[13] == '0' && s[14] == '/'
      && s[15] == 'a' && s[16] == '?' && s[17] == 'b' && s[18] == '#' && s[19] == 'c'
    ensures One(SchemeUnit, s, 1) == Some(2)
    ensures Star(SchemeUnit, s, 2) == Some(11)
  {
    assert One(SchemeUnit, s, 1) == Some(2);
    assert One(SchemeUnit, s, 2) == Some(3);
    assert One(SchemeUnit, s, 3) == Some(4);
    assert One(SchemeUnit, s, 4) == Some(5);
    assert One(SchemeUnit, s, 5) == Some(6);
    ExampleAuthorityFormStep2(s);
    assert Star(SchemeUnit, s, 5) == Some(11);
    assert Star(SchemeUnit, s, 4) == Some(11);
    assert Star(SchemeUnit, s, 3) == Some(11);
    assert Star(SchemeUnit, s, 2) == Some(11);
  }

  lemma ExampleAuthorityFormStep6(s: string)
    requires |s| == 20 && s[0] == 'e' && s[1] == 'x' && s[2] == 'a' && s[3] == 'm'
      && s[4] == 'p' && s[5] == 'l' && s[6] == 'e' && s[7] == '.' && s[8] == 'c' && s[9] == 'o'
      && s[10] == 'm' && s[11] == ':' && s[12] == '8' && s[13] == '0' && s[14] == '/'
      && s[15] == 'a' && s[16] == '?' && s[17] == 'b' && s[18] == '#' && s[19] == 'c'
    requires One(SchemeUnit, s, 1) == Some(2)
    requires Star(SchemeUnit, s, 2) == Some(11)
    ensures Star(SchemeUnit, s, 1) == Some(11)
  {
    assert Star(SchemeUnit, s, 1) == Some(11);
  }

  lemma ExampleAuthorityFormStep1(s: string)
    requires |s| == 20 && s[0] == 'e' && s[1] == 'x' && s[2] == 'a' && s[3] == 'm'
      && s[4] == 'p' && s[5] == 'l' && s[6] == 'e' && s[7] == '.' && s[8] == 'c' && s[9] == 'o'
      && s[10] == 'm' && s[11] == ':' && s[12] == '8' && s[13] == '0' && s[14] == '/'
      && s[15] == 'a' && s[16] == '?' && s[17] == 'b' && s[18] == '#' && s[19] == 'c'
    ensures Scheme(s, 0) == Some(11)
  {
    ExampleAuthorityFormStep5(s);
    ExampleAuthorityFormStep6(s);
  }

  lemma ExampleAuthorityFormStep9(s: string)
    requires |s| == 20 && s[0] == 'e' && s[1] == 'x' && s[2] == 'a' && s[3] == 'm'
      && s[4] == 'p' && s[5] == 'l' && s[6] == 'e' && s[7] == '.' && s[8] == 'c' && s[9] == 'o'
      && s[10] == 'm' && s[11] == ':' && s[12] == '8' && s[13] == '0' && s[14] == '/'
      && s[15] == 'a' && s[16] == '?' && s[17] == 'b' && s[18] == '#' && s[19] == 'c'
    ensures One(UserinfoUnit, s, 9) == Some(10)
    ensures One(UserinfoUnit, s, 10) == Some(11)
    ensures Star(UserinfoUnit, s, 11) == Some(14)
  {
    assert One(UserinfoUnit, s, 9) == Some(10);
    assert One(UserinfoUnit, s, 10) == Some(11);
    assert One(UserinfoUnit, s, 11) == Some(12);
    assert One(UserinfoUnit, s, 12) == Some(13);
    assert One(UserinfoUnit, s, 13) == Some(14);
    assert One(UserinfoUnit, s, 14) == None;
    assert Star(UserinfoUnit, s, 14) == Some(14);
    assert Star(UserinfoUnit, s, 13) == Some(14);
    assert Star(UserinfoUnit, s, 12) == Some(14);
    assert Star(UserinfoUnit, s, 11) == Some(14);
  }

  lemma ExampleAuthorityFormStep10(s: string)
    requires |s| == 20 && s[0] == 'e' && s[1] == 'x' && s[2] == 'a' && s[3] == 'm'
      && s[4] == 'p' && s[5] == 'l' && s[6] == 'e' && s[7] == '.' && s[8] == 'c' && s[9] == 'o'
      && s[10] == 'm' && s[11] == ':' && s[12] == '8' && s[13] == '0' && s[14] == '/'
      && s[15] == 'a' && s[16] == '?' && s[17] == 'b' && s[18] == '#' && s[19] == 'c'
    requires One(UserinfoUnit, s, 10) == Some(11)
    requires Star(UserinfoUnit, s, 11) == Some(14)
    ensures Star(UserinfoUnit, s, 10) == Some(14)
  {
    assert Star(UserinfoUnit, s, 10) == Some(14);
  }

  lemma ExampleAuthorityFormStep8(s: string)
    requires |s| == 20 && s[0] == 'e' && s[1] == 'x' && s[2] == 'a' && s[3] == 'm'
      && s[4] == 'p' && s[5] == 'l' && s[6] == 'e' && s[7] == '.' && s[8] == 'c' && s[9] == 'o'
      && s[10] == 'm' && s[11] == ':' && s[12] == '8' && s[13] == '0' && s[14] == '/'
      && s[15] == 'a' && s[16] == '?' && s[17] == 'b' && s[18] == '#' && s[19] == 'c'
    ensures Star(UserinfoUnit, s, 9) == Some(14)
  {
    ExampleAuthorityFormStep9(s);
    ExampleAuthorityFormStep10(s);
  }

  lemma ExampleAuthorityFormStep11(s: string)
    requires |s| == 20 && s[0] == 'e' && s[1] == 'x' && s[2] == 'a' && s[3] == 'm'
      && s[4] == 'p' && s[5] == 'l' && s[6] == 'e' && s[7] == '.' && s[8] == 'c' && s[9] == 'o'
      && s[10] == 'm' && s[11] == ':' && s[12] == '8' && s[13] == '0' && s[14] == '/'
      && s[15] == 'a' && s[16] == '?' && s[17] == 'b' && s[18] == '#' && s[19] == 'c'
    ensures One(UserinfoUnit, s, 3) == Some(4)
    ensures One(UserinfoUnit, s, 4) == Some(5)
    ensures One(UserinfoUnit, s, 5) == Some(6)
    ensures Star(UserinfoUnit, s, 6) == Some(14)
  {
    assert One(UserinfoUnit, s, 3) == Some(4);
    assert One(UserinfoUnit, s, 4) == Some(5);
    assert One(UserinfoUnit, s, 5) == Some(6);
    assert One(UserinfoUnit, s, 6) == Some(7);
    assert One(UserinfoUnit, s, 7) == Some(8);
    assert One(UserinfoUnit, s, 8) == Some(9);
    ExampleAuthorityFormStep8(s);
    assert Star(UserinfoUnit, s, 8) == Some(14);
    assert Star(UserinfoUnit, s, 7) == Some(14);
    assert Star(UserinfoUnit, s, 6) == Some(14);
  }

  lemma ExampleAuthorityFormStep12(s: string)
    requires |s| == 20 && s[0] == 'e' && s[1] == 'x' && s[2] == 'a' && s[3] == 'm'
      && s[4] == 'p' && s[5] == 'l' && s[6] == 'e' && s[7] == '.' && s[8] == 'c' && s[9] == 'o'
      && s[10] == 'm' && s[11] == ':' && s[12] == '8' && s[13] == '0' && s[14] == '/'
      && s[15] == 'a' && s[16] == '?' && s[17] == 'b' && s[18] == '#' && s[19] == 'c'
    requires One(UserinfoUnit, s, 5) == Some(6)
    requires Star(UserinfoUnit, s, 6) == Some(14)
    requires One(UserinfoUnit, s, 4) == Some(5)
    ensures Star(UserinfoUnit, s, 4) == Some(14)
  {
    assert Star(UserinfoUnit, s, 5) == Some(14);
    assert Star(UserinfoUnit, s, 4) == Some(14);
  }

  lemma ExampleAuthorityFormStep7(s: string)
    requires |s| == 20 && s[0] == 'e' && s[1] == 'x' && s[2] == 'a' && s[3] == 'm'
      && s[4] == 'p' && s[5] == 'l' && s[6] == 'e' && s[7] == '.' && s[8] == 'c' && s[9] == 'o'
      && s[10] == 'm' && s[11] == ':' && s[12] == '8' && s[13] == '0' && s[14] == '/'
      && s[15] == 'a' && s[16] == '?' && s[17] == 'b' && s[18] == '#' && s[19] == 'c'
    ensures Star(UserinfoUnit, s, 3) == Some(14)
  {
    ExampleAuthorityFormStep11(s);
    ExampleAuthorityFormStep12(s);
  }

  lemma ExampleAuthorityFormStep15(s: string)
    requires |s| == 20 && s[0] == 'e' && s[1] == 'x' && s[2] == 'a' && s[3] == 'm'
      && s[4] == 'p' && s[5] == 'l' && s[6] == 'e' && s[7] == '.' && s[8] == 'c' && s[9] == 'o'
      && s[10] == 'm' && s[11] == ':' && s[12] == '8' && s[13] == '0' && s[14] == '/'
      && s[15] == 'a' && s[16] == '?' && s[17] == 'b' && s[18] == '#' && s[19] == 'c'
    ensures One(RegNameUnit, s, 6) == Some(7)
    ensures One(RegNameUnit, s, 7) == Some(8)
    ensures Star(RegNameUnit, s, 8) == Some(11)
  {
    assert One(RegNameUnit, s, 6) == Some(7);
    assert One(RegNameUnit, s, 7) == Some(8);
    assert One(RegNameUnit, s, 8) == Some(9);
    assert One(RegNameUnit, s, 9) == Some(10);
    assert One(RegNameUnit, s, 10) == Some(11);
    assert One(RegNameUnit, s, 11) == None;
    assert Star(RegNameUnit, s, 11) == Some(11);
    assert Star(RegNameUnit, s, 10) == Some(11);
    assert Star(RegNameUnit, s, 9) == Some(11);
    assert Star(RegNameUnit, s, 8) == Some(11);
  }

  lemma ExampleAuthorityFormStep16(s: string)
    requires |s| == 20 && s[0] == 'e' && s[1] == 'x' && s[2] == 'a' && s[3] == 'm'
      && s[4] == 'p' && s[5] == 'l' && s[6] == 'e' && s[7] == '.' && s[8] == 'c' && s[9] == 'o'
      && s[10] == 'm' && s[11] == ':' && s[12] == '8' && s[13] == '0' && s[14] == '/'
      && s[15] == 'a' && s[16] == '?' && s[17] == 'b' && s[18] == '#' && s[19] == 'c'
    requires One(RegNameUnit, s, 7) == Some(8)
    requires Star(RegNameUnit, s, 8) == Some(11)
    ensures Star(RegNameUnit, s, 7) == Some(11)
  {
    assert Star(RegNameUnit, s, 7) == Some(11);
  }

  lemma ExampleAuthorityFormStep14(s: string)
    requires |s| == 20 && s[0] == 'e' && s[1] == 'x' && s[2] == 'a' && s[3] == 'm'
      && s[4] == 'p' && s[5] == 'l' && s[6] == 'e' && s[7] == '.' && s[8] == 'c' && s[9] == 'o'
      && s[10] == 'm' && s[11] == ':' && s[12] == '8' && s[13] == '0' && s[14] == '/'
      && s[15] == 'a' && s[16] == '?' && s[17] == 'b' && s[18] == '#' && s[19] == 'c'
    ensures Star(RegNameUnit, s, 6) == Some(11)
  {
    ExampleAuthorityFormStep15(s);
    ExampleAuthorityFormStep16(s);
  }

  lemma ExampleAuthorityFormStep17(s: string)
    requires |s| == 20 && s[0] == 'e' && s[1] == 'x' && s[2] == 'a' && s[3] == 'm'
      && s[4] == 'p' && s[5] == 'l' && s[6] == 'e' && s[7] == '.' && s[8] == 'c' && s[9] == 'o'
      && s[10] == 'm' && s[11] == ':' && s[12] == '8' && s[13] == '0' && s[14] == '/'
      && s[15] == 'a' && s[16] == '?' && s[17] == 'b' && s[18] == '#' && s[19] == 'c'
    ensures One(RegNameUnit, s, 0) == Some(1)
    ensures One(RegNameUnit, s, 1) == Some(2)
    ensures One(RegNameUnit, s, 2) == Some(3)
    ensures Star(RegNameUnit, s, 3) == Some(11)
  {
    assert One(RegNameUnit, s, 0) == Some(1);
    assert One(RegNameUnit, s, 1) == Some(2);
    assert One(RegNameUnit, s, 2) == Some(3);
    assert One(RegNameUnit, s, 3) == Some(4);
    assert One(RegNameUnit, s, 4) == Some(5);
    assert One(RegNameUnit, s, 5) == Some(6);
    ExampleAuthorityFormStep14(s);
    assert Star(RegNameUnit, s, 5) == Some(11);
    assert Star(RegNameUnit, s, 4) == Some(11);
    assert Star(RegNameUnit, s, 3) == Some(11);
  }

  lemma ExampleAuthorityFormStep18(s: string)
    requires |s| == 20 && s[0] == 'e' && s[1] == 'x' && s[2] == 'a' && s[3] == 'm'
      && s[4] == 'p' && s[5] == 'l' && s[6] == 'e' && s[7] == '.' && s[8] == 'c' && s[9] == 'o'
      && s[10] == 'm' && s[11] == ':' && s[12] == '8' && s[13] == '0' && s[14] == '/'
      && s[15] == 'a' && s[16] == '?' && s[17] == 'b' && s[18] == '#' && s[19] == 'c'
    requires One(RegNameUnit, s, 2) == Some(3)
    requires Star(RegNameUnit, s, 3) == Some(11)
    requires One(RegNameUnit, s, 1) == Some(2)
    ensures Star(RegNameUnit, s, 1) == Some(11)
  {
    assert Star(RegNameUnit, s, 2) == Some(11);
    assert Star(RegNameUnit, s, 1) == Some(11);
  }

  lemma ExampleAuthorityFormStep13(s: string)
    requires |s| == 20 && s[0] == 'e' && s[1] == 'x' && s[2] == 'a' && s[3] == 'm'
      && s[4] == 'p' && s[5] == 'l' && s[6] == 'e' && s[7] == '.' && s[8] == 'c' && s[9] == 'o'
      && s[10] == 'm' && s[11] == ':' && s[12] == '8' && s[13] == '0' && s[14] == '/'
      && s[15] == 'a' && s[16] == '?' && s[17] == 'b' && s[18] == '#' && s[19] == 'c'
    ensures Star(RegNameUnit, s, 0) == Some(11)
  {
    ExampleAuthorityFormStep17(s);
    ExampleAuthorityFormStep18(s);
  }

  lemma ExampleAuthorityFormStep19(s: string)
    requires |s| == 20 && s[0] == 'e' && s[1] == 'x' && s[2] == 'a' && s[3] == 'm'
      && s[4] == 'p' && s[5] == 'l' && s[6] == 'e' && s[7] == '.' && s[8] == 'c' && s[9] == 'o'
      && s[10] == 'm' && s[11] == ':' && s[12] == '8' && s[13] == '0' && s[14] == '/'
      && s[15] == 'a' && s[16] == '?' && s[17] == 'b' && s[18] == '#' && s[19] == 'c'
    ensures Scheme(s, 0) == Some(11)
    ensures DoubleSlash(s, 12) == None
    ensures UserinfoPrefix(s, 0) == 0
  {
    ExampleAuthorityFormStep1(s);
    assert DoubleSlash(s, 12) == None;
    assert One(UserinfoUnit, s, 0) == Some(1);
    assert One(UserinfoUnit, s, 1) == Some(2);
    assert One(UserinfoUnit, s, 2) == Some(3);
    ExampleAuthorityFormStep7(s);
    assert Star(UserinfoUnit, s, 2) == Some(14);
    assert Star(UserinfoUnit, s, 1) == Some(14);
    assert Star(UserinfoUnit, s, 0) == Some(14);
    assert UserinfoPrefix(s, 0) == 0;
  }

  lemma ExampleAuthorityFormStep20(s: string)
    requires |s| == 20 && s[0] == 'e' && s[1] == 'x' && s[2] == 'a' && s[3] == 'm'
      && s[4] == 'p' && s[5] == 'l' && s[6] == 'e' && s[7] == '.' && s[8] == 'c' && s[9] == 'o'
      && s[10] == 'm' && s[11] == ':' && s[12] == '8' && s[13] == '0' && s[14] == '/'
      && s[15] == 'a' && s[16] == '?' && s[17] == 'b' && s[18] == '#' && s[19] == 'c'
    ensures Host(s, 0) == Some(11)
    ensures Star(DigitUnit, s, 12) == Some(14)
  {
    assert IPLiteral(s, 0) == None;
    assert IPv4Address(s, 0) == None;
    ExampleAuthorityFormStep13(s);
    assert Host(s, 0) == Some(11);
    assert One(DigitUnit, s, 12) == Some(13);
    assert One(DigitUnit, s, 13) == Some(14);
    assert One(DigitUnit, s, 14) == None;
    assert Star(DigitUnit, s, 14) == Some(14);
    assert Star(DigitUnit, s, 13) == Some(14);
    assert Star(DigitUnit, s, 12) == Some(14);
  }

  lemma ExampleAuthorityFormStep21(s: string)
    requires |s| == 20 && s[0] == 'e' && s[1] == 'x' && s[2] == 'a' && s[3] == 'm'
      && s[4] == 'p' && s[5] == 'l' && s[6] == 'e' && s[7] == '.' && s[8] == 'c' && s[9] == 'o'
      && s[10] == 'm' && s[11] == ':' && s[12] == '8' && s[13] == '0' && s[14] == '/'
      && s[15] == 'a' && s[16] == '?' && s[17] == 'b' && s[18] == '#' && s[19] == 'c'
    requires Star(DigitUnit, s, 12) == Some(14)
    ensures Port(s, 12) == Some(14)
    ensures PathAbempty(s, 14) == Some(16)
  {
    assert Port(s, 12) == Some(14);
    assert One(PCharUnit, s, 15) == Some(16);
    assert One(PCharUnit, s, 16) == None;
    assert Star(PCharUnit, s, 16) == Some(16);
    assert Star(PCharUnit, s, 15) == Some(16);
    assert One(SlashSegment, s, 14) == Some(16);
    assert One(SlashSegment, s, 16) == None;
    assert Star(SlashSegment, s, 16) == Some(16);
    assert Star(SlashSegment, s, 14) == Some(16);
    assert PathAbempty(s, 14) == Some(16);
  }

  lemma ExampleAuthorityFormStep22(s: string)
    requires |s| == 20 && s[0] == 'e' && s[1] == 'x' && s[2] == 'a' && s[3] == 'm'
      && s[4] == 'p' && s[5] == 'l' && s[6] == 'e' && s[7] == '.' && s[8] == 'c' && s[9] == 'o'
      && s[10] == 'm' && s[11] == ':' && s[12] == '8' && s[13] == '0' && s[14] == '/'
      && s[15] == 'a' && s[16] == '?' && s[17] == 'b' && s[18] == '#' && s[19] == 'c'
    ensures Query(s, 17) == Some(18)
    ensures Query(s, 19) == Some(20)
  {
    assert One(QueryUnit, s, 17) == Some(18);
    assert One(QueryUnit, s, 18) == None;
    assert Star(QueryUnit, s, 18) == Some(18);
    assert Star(QueryUnit, s, 17) == Some(18);
    assert Query(s, 17) == Some(18);
    assert One(QueryUnit, s, 19) == Some(20);
    assert One(QueryUnit, s, 20) == None;
    assert Star(QueryUnit, s, 20) == Some(20);
    assert Star(QueryUnit, s, 19) == Some(20);
    assert Query(s, 19) == Some(20);
  }

  lemma ExampleAuthorityFormStep23(s: string)
    requires |s| == 20 && s[0] == 'e' && s[1] == 'x' && s[2] == 'a' && s[3] == 'm'
      && s[4] == 'p' && s[5] == 'l' && s[6] == 'e' && s[7] == '.' && s[8] == 'c' && s[9] == 'o'
      && s[10] == 'm' && s[11] == ':' && s[12] == '8' && s[13] == '0' && s[14] == '/'
      && s[15] == 'a' && s[16] == '?' && s[17] == 'b' && s[18] == '#' && s[19] == 'c'
    requires Query(s, 19) == Some(20)
    ensures Fragment(s, 19) == Some(20)
  {
    assert Fragment(s, 19) == Some(20);
  }

  lemma ExampleAuthorityFormSpelled(s: string)
    requires |s| == 20 && s[0] == 'e' && s[1] == 'x' && s[2] == 'a' && s[3] == 'm'
      && s[4] == 'p' && s[5] == 'l' && s[6] == 'e' && s[7] == '.' && s[8] == 'c' && s[9] == 'o'
      && s[10] == 'm' && s[11] == ':' && s[12] == '8' && s[13] == '0' && s[14] == '/'
      && s[15] == 'a' && s[16] == '?' && s[17] == 'b' && s[18] == '#' && s[19] == 'c'
    ensures ParseResult(s) == Captures(None, Some(Span(0, 11)), Some(Span(12, 14)), Some(Span(14, 16)), Some(Span(17, 18)), Some(Span(19, 20)))
  {
    ExampleAuthorityFormStep19(s);
    ExampleAuthorityFormStep20(s);
    ExampleAuthorityFormStep21(s);
    ExampleAuthorityFormStep22(s);
    ExampleAuthorityFormStep23(s);
  }

  /** Not an IP-literal: both forms stop short of the end. */
  lemma ExampleBadLiteral()
    ensures ParseResult("http://[" + ("google.c" + "om]/")) == NoCaptures
  {
    ExampleBadLiteralSpelled("http://[" + ("google.c" + "om]/"));
  }

  lemma ExampleBadLiteralStep4(s: string)
    requires |s| == 20 && s[0] == 'h' && s[1] == 't' && s[2] == 't' && s[3] == 'p'
      && s[4] == ':' && s[5] == '/' && s[6] == '/' && s[7] == '[' && s[8] == 'g' && s[9] == 'o'
      && s[10] == 'o' && s[11] == 'g' && s[12] == 'l' && s[13] == 'e' && s[14] == '.'
      && s[15] == 'c' && s[16] == 'o' && s[17] == 'm' && s[18] == ']' && s[19] == '/'
    ensures IPv6Alternative(s, 8, 6) == None
    ensures IPv6Alternative(s, 8, 7) == None
    ensures IPv6From(s, 8, 8) == None
  {
    assert ElidedPrefix(s, 8, 4) == 8;
    assert DoubleColon(s, 8) == None;
    assert ElidedTail(s, 8, 0) == None;
    assert IPv6Alternative(s, 8, 6) == None;
    assert ElidedPrefix(s, 8, 5) == 8;
    assert IPv6Alternative(s, 8, 7) == None;
    assert ElidedPrefix(s, 8, 6) == 8;
    assert IPv6Alternative(s, 8, 8) == None;
    assert IPv6From(s, 8, 9) == None;
    assert IPv6From(s, 8, 8) == None;
  }

  lemma ExampleBadLiteralStep5(s: string)
    requires |s| == 20 && s[0] == 'h' && s[1] == 't' && s[2] == 't' && s[3] == 'p'
      && s[4] == ':' && s[5] == '/' && s[6] == '/' && s[7] == '[' && s[8] == 'g' && s[9] == 'o'
      && s[10] == 'o' && s[11] == 'g' && s[12] == 'l' && s[13] == 'e' && s[14] == '.'
      && s[15] == 'c' && s[16] == 'o' && s[17] == 'm' && s[18] == ']' && s[19] == '/'
    requires IPv6Alternative(s, 8, 7) == None
    requires IPv6From(s, 8, 8) == None
    ensures IPv6From(s, 8, 7) == None
  {
    assert IPv6From(s, 8, 7) == None;
  }

  lemma ExampleBadLiteralStep3(s: string)
    requires |s| == 20 && s[0] == 'h' && s[1] == 't' && s[2] == 't' && s[3] == 'p'
      && s[4] == ':' && s[5] == '/' && s[6] == '/' && s[7] == '[' && s[8] == 'g' && s[9] == 'o'
      && s[10] == 'o' && s[11] == 'g' && s[12] == 'l' && s[13] == 'e' && s[14] == '.'
      && s[15] == 'c' && s[16] == 'o' && s[17] == 'm' && s[18] == ']' && s[19] == '/'
    ensures IPv6From(s, 8, 6) == None
  {
    ExampleBadLiteralStep4(s);
    ExampleBadLiteralStep5(s);
  }

  lemma ExampleBadLiteralStep6(s: string)
    requires |s| == 20 && s[0] == 'h' && s[1] == 't' && s[2] == 't' && s[3] == 'p'
      && s[4] == ':' && s[5] == '/' && s[6] == '/' && s[7] == '[' && s[8] == 'g' && s[9] == 'o'
      && s[10] == 'o' && s[11] == 'g' && s[12] == 'l' && s[13] == 'e' && s[14] == '.'
      && s[15] == 'c' && s[16] == 'o' && s[17] == 'm' && s[18] == ']' && s[19] == '/'
    ensures IPv6Alternative(s, 8, 3) == None
    ensures IPv6Alternative(s, 8, 4) == None
    ensures IPv6Alternative(s, 8, 5) == None
  {
    assert ElidedPrefix(s, 8, 1) == 8;
    assert DoubleColon(s, 8) == None;
    assert ElidedTail(s, 8, 3) == None;
    assert IPv6Alternative(s, 8, 3) == None;
    assert ElidedPrefix(s, 8, 2) == 8;
    assert ElidedTail(s, 8, 2) == None;
    assert IPv6Alternative(s, 8, 4) == None;
    assert ElidedPrefix(s, 8, 3) == 8;
    assert ElidedTail(s, 8, 1) == None;
    assert IPv6Alternative(s, 8, 5) == None;
  }

  lemma ExampleBadLiteralStep7(s: string)
    requires |s| == 20 && s[0] == 'h' && s[1] == 't' && s[2] == 't' && s[3] == 'p'
      && s[4] == ':' && s[5] == '/' && s[6] == '/' && s[7] == '[' && s[8] == 'g' && s[9] == 'o'
      && s[10] == 'o' && s[11] == 'g' && s[12] == 'l' && s[13] == 'e' && s[14] == '.'
      && s[15] == 'c' && s[16] == 'o' && s[17] == 'm' && s[18] == ']' && s[19] == '/'
    requires IPv6Alternative(s, 8, 5) == None
    requires IPv6Alternative(s, 8, 4) == None
    ensures IPv6From(s, 8, 4) == None
  {
    ExampleBadLiteralStep3(s);
    assert IPv6From(s, 8, 5) == None;
    assert IPv6From(s, 8, 4) == None;
  }

  lemma ExampleBadLiteralStep2(s: string)
    requires |s| == 20 && s[0] == 'h' && s[1] == 't' && s[2] == 't' && s[3] == 'p'
      && s[4] == ':' && s[5] == '/' && s[6] == '/' && s[7] == '[' && s[8] == 'g' && s[9] == 'o'
      && s[10] == 'o' && s[11] == 'g' && s[12] == 'l' && s[13] == 'e' && s[14] == '.'
      && s[15] == 'c' && s[16] == 'o' && s[17] == 'm' && s[18] == ']' && s[19] == '/'
    ensures IPv6From(s, 8, 3) == None
  {
    ExampleBadLiteralStep6(s);
    ExampleBadLiteralStep7(s);
  }

  lemma ExampleBadLiteralStep8(s: string)
    requires |s| == 20 && s[0] == 'h' && s[1] == 't' && s[2] == 't' && s[3] == 'p'
      && s[4] == ':' && s[5] == '/' && s[6] == '/' && s[7] == '[' && s[8] == 'g' && s[9] == 'o'
      && s[10] == 'o' && s[11] == 'g' && s[12] == 'l' && s[13] == 'e' && s[14] == '.'
      && s[15] == 'c' && s[16] == 'o' && s[17] == 'm' && s[18] == ']' && s[19] == '/'
    ensures IPv6Alternative(s, 8, 0) == None
    ensures IPv6Alternative(s, 8, 1) == None
    ensures IPv6Alternative(s, 8, 2) == None
    ensures IPv6From(s, 8, 3) == None
  {
    assert Groups(s, 8, 6) == None;
    assert GroupsLs32(s, 8, 6) == None;
    assert IPv6Alternative(s, 8, 0) == None;
    assert DoubleColon(s, 8) == None;
    assert ElidedTail(s, 8, 5) == None;
    assert IPv6Alternative(s, 8, 1) == None;
    assert ElidedPrefix(s, 8, 0) == 8;
    assert ElidedTail(s, 8, 4) == None;
    assert IPv6Alternative(s, 8, 2) == None;
    ExampleBadLiteralStep2(s);
  }

  lemma ExampleBadLiteralStep9(s: string)
    requires |s| == 20 && s[0] == 'h' && s[1] == 't' && s[2] == 't' && s[3] == 'p'
      && s[4] == ':' && s[5] == '/' && s[6] == '/' && s[7] == '[' && s[8] == 'g' && s[9] == 'o'
      && s[10] == 'o' && s[11] == 'g' && s[12] == 'l' && s[13] == 'e' && s[14] == '.'
      && s[15] == 'c' && s[16] == 'o' && s[17] == 'm' && s[18] == ']' && s[19] == '/'
    requires IPv6Alternative(s, 8, 2) == None
    requires IPv6From(s, 8, 3) == None
    requires IPv6Alternative(s, 8, 1) == None
    ensures IPv6From(s, 8, 1) == None
  {
    assert IPv6From(s, 8, 2) == None;
    assert IPv6From(s, 8, 1) == None;
  }

  lemma ExampleBadLiteralStep1(s: string)
    requires |s| == 20 && s[0] == 'h' && s[1] == 't' && s[2] == 't' && s[3] == 'p'
      && s[4] == ':' && s[5] == '/' && s[6] == '/' && s[7] == '[' && s[8] == 'g' && s[9] == 'o'
      && s[10] == 'o' && s[11] == 'g' && s[12] == 'l' && s[13] == 'e' && s[14] == '.'
      && s[15] == 'c' && s[16] == 'o' && s[17] == 'm' && s[18] == ']' && s[19] == '/'
    ensures IPv6From(s, 8, 0) == None
  {
    ExampleBadLiteralStep8(s);
    ExampleBadLiteralStep9(s);
  }

  lemma ExampleBadLiteralStep11(s: string)
    requires |s| == 20 && s[0] == 'h' && s[1] == 't' && s[2] == 't' && s[3] == 'p'
      && s[4] == ':' && s[5] == '/' && s[6] == '/' && s[7] == '[' && s[8] == 'g' && s[9] == 'o'
      && s[10] == 'o' && s[11] == 'g' && s[12] == 'l' && s[13] == 'e' && s[14] == '.'
      && s[15] == 'c' && s[16] == 'o' && s[17] == 'm' && s[18] == ']' && s[19] == '/'
    ensures One(UserinfoUnit, s, 0) == Some(1)
    ensures One(UserinfoUnit, s, 1) == Some(2)
    ensures Star(UserinfoUnit, s, 2) == Some(5)
  {
    assert One(UserinfoUnit, s, 0) == Some(1);
    assert One(UserinfoUnit, s, 1) == Some(2);
    assert One(UserinfoUnit, s, 2) == Some(3);
    assert One(UserinfoUnit, s, 3) == Some(4);
    assert One(UserinfoUnit, s, 4) == Some(5);
    assert One(UserinfoUnit, s, 5) == None;
    assert Star(UserinfoUnit, s, 5) == Some(5);
    assert Star(UserinfoUnit, s, 4) == Some(5);
    assert Star(UserinfoUnit, s, 3) == Some(5);
    assert Star(UserinfoUnit, s, 2) == Some(5);
  }

  lemma ExampleBadLiteralStep12(s: string)
    requires |s| == 20 && s[0] == 'h' && s[1] == 't' && s[2] == 't' && s[3] == 'p'
      && s[4] == ':' && s[5] == '/' && s[6] == '/' && s[7] == '[' && s[8] == 'g' && s[9] == 'o'
      && s[10] == 'o' && s[11] == 'g' && s[12] == 'l' && s[13] == 'e' && s[14] == '.'
      && s[15] == 'c' && s[16] == 'o' && s[17] == 'm' && s[18] == ']' && s[19] == '/'
    requires One(UserinfoUnit, s, 1) == Some(2)
    requires Star(UserinfoUnit, s, 2) == Some(5)
    ensures Star(UserinfoUnit, s, 1) == Some(5)
  {
    assert Star(UserinfoUnit, s, 1) == Some(5);
  }

  lemma ExampleBadLiteralStep10(s: string)
    requires |s| == 20 && s[0] == 'h' && s[1] == 't' && s[2] == 't' && s[3] == 'p'
      && s[4] == ':' && s[5] == '/' && s[6] == '/' && s[7] == '[' && s[8] == 'g' && s[9] == 'o'
      && s[10] == 'o' && s[11] == 'g' && s[12] == 'l' && s[13] == 'e' && s[14] == '.'
      && s[15] == 'c' && s[16] == 'o' && s[17] == 'm' && s[18] == ']' && s[19] == '/'
    ensures Star(UserinfoUnit, s, 0) == Some(5)
  {
    ExampleBadLiteralStep11(s);
    ExampleBadLiteralStep12(s);
  }

  lemma ExampleBadLiteralStep14(s: string)
    requires |s| == 20 && s[0] == 'h' && s[1] == 't' && s[2] == 't' && s[3] == 'p'
      && s[4] == ':' && s[5] == '/' && s[6] == '/' && s[7] == '[' && s[8] == 'g' && s[9] == 'o'
      && s[10] == 'o' && s[11] == 'g' && s[12] == 'l' && s[13] == 'e' && s[14] == '.'
      && s[15] == 'c' && s[16] == 'o' && s[17] == 'm' && s[18] == ']' && s[19] == '/'
    ensures IPLiteral(s, 0) == None
    ensures IPv4Address(s, 0) == None
    ensures One(RegNameUnit, s, 0) == Some(1)
    ensures One(RegNameUnit, s, 1) == Some(2)
    ensures Star(RegNameUnit, s, 2) == Some(4)
  {
    assert IPLiteral(s, 0) == None;
    assert IPv4Address(s, 0) == None;
    assert One(RegNameUnit, s, 0) == Some(1);
    assert One(RegNameUnit, s, 1) == Some(2);
    assert One(RegNameUnit, s, 2) == Some(3);
    assert One(RegNameUnit, s, 3) == Some(4);
    assert One(RegNameUnit, s, 4) == None;
    assert Star(RegNameUnit, s, 4) == Some(4);
    assert Star(RegNameUnit, s, 3) == Some(4);
    assert Star(RegNameUnit, s, 2) == Some(4);
  }

  lemma ExampleBadLiteralStep15(s: string)
    requires |s| == 20 && s[0] == 'h' && s[1] == 't' && s[2] == 't' && s[3] == 'p'
      && s[4] == ':' && s[5] == '/' && s[6] == '/' && s[7] == '[' && s[8] == 'g' && s[9] == 'o'
      && s[10] == 'o' && s[11] == 'g' && s[12] == 'l' && s[13] == 'e' && s[14] == '.'
      && s[15] == 'c' && s[16] == 'o' && s[17] == 'm' && s[18] == ']' && s[19] == '/'
    requires One(RegNameUnit, s, 1) == Some(2)
    requires Star(RegNameUnit, s, 2) == Some(4)
    requires One(RegNameUnit, s, 0) == Some(1)
    ensures Star(RegNameUnit, s, 0) == Some(4)
  {
    assert Star(RegNameUnit, s, 1) == Some(4);
    assert Star(RegNameUnit, s, 0) == Some(4);
  }

  lemma ExampleBadLiteralStep13(s: string)
    requires |s| == 20 && s[0] == 'h' && s[1] == 't' && s[2] == 't' && s[3] == 'p'
      && s[4] == ':' && s[5] == '/' && s[6] == '/' && s[7] == '[' && s[8] == 'g' && s[9] == 'o'
      && s[10] == 'o' && s[11] == 'g' && s[12] == 'l' && s[13] == 'e' && s[14] == '.'
      && s[15] == 'c' && s[16] == 'o' && s[17] == 'm' && s[18] == ']' && s[19] == '/'
    ensures Host(s, 0) == Some(4)
  {
    ExampleBadLiteralStep14(s);
    ExampleBadLiteralStep15(s);
  }

  lemma ExampleBadLiteralStep16(s: string)
    requires |s| == 20 && s[0] == 'h' && s[1] == 't' && s[2] == 't' && s[3] == 'p'
      && s[4] == ':' && s[5] == '/' && s[6] == '/' && s[7] == '[' && s[8] == 'g' && s[9] == 'o'
      && s[10] == 'o' && s[11] == 'g' && s[12] == 'l' && s[13] == 'e' && s[14] == '.'
      && s[15] == 'c' && s[16] == 'o' && s[17] == 'm' && s[18] == ']' && s[19] == '/'
    ensures Scheme(s, 0) == Some(4)
    ensures DoubleSlash(s, 5) == Some(7)
  {
    assert One(SchemeUnit, s, 1) == Some(2);
    assert One(SchemeUnit, s, 2) == Some(3);
    assert One(SchemeUnit, s, 3) == Some(4);
    assert One(SchemeUnit, s, 4) == None;
    assert Star(SchemeUnit, s, 4) == Some(4);
    assert Star(SchemeUnit, s, 3) == Some(4);
    assert Star(SchemeUnit, s, 2) == Some(4);
    assert Star(SchemeUnit, s, 1) == Some(4);
    assert Scheme(s, 0) == Some(4);
    assert DoubleSlash(s, 5) == Some(7);
  }

  lemma ExampleBadLiteralStep17(s: string)
    requires |s| == 20 && s[0] == 'h' && s[1] == 't' && s[2] == 't' && s[3] == 'p'
      && s[4] == ':' && s[5] == '/' && s[6] == '/' && s[7] == '[' && s[8] == 'g' && s[9] == 'o'
      && s[10] == 'o' && s[11] == 'g' && s[12] == 'l' && s[13] == 'e' && s[14] == '.'
      && s[15] == 'c' && s[16] == 'o' && s[17] == 'm' && s[18] == ']' && s[19] == '/'
    ensures UserinfoPrefix(s, 7) == 7
    ensures Host(s, 7) == Some(7)
    ensures One(SlashSegment, s, 7) == None
  {
    assert One(UserinfoUnit, s, 7) == None;
    assert Star(UserinfoUnit, s, 7) == Some(7);
    assert UserinfoPrefix(s, 7) == 7;
    ExampleBadLiteralStep1(s);
    assert IPLiteral(s, 7) == None;
    assert IPv4Address(s, 7) == None;
    assert One(RegNameUnit, s, 7) == None;
    assert Star(RegNameUnit, s, 7) == Some(7);
    assert Host(s, 7) == Some(7);
    assert One(SlashSegment, s, 7) == None;
  }

  lemma ExampleBadLiteralStep18(s: string)
    requires |s| == 20 && s[0] == 'h' && s[1] == 't' && s[2] == 't' && s[3] == 'p'
      && s[4] == ':' && s[5] == '/' && s[6] == '/' && s[7] == '[' && s[8] == 'g' && s[9] == 'o'
      && s[10] == 'o' && s[11] == 'g' && s[12] == 'l' && s[13] == 'e' && s[14] == '.'
      && s[15] == 'c' && s[16] == 'o' && s[17] == 'm' && s[18] == ']' && s[19] == '/'
    requires One(SlashSegment, s, 7) == None
    ensures Star(SlashSegment, s, 7) == Some(7)
    ensures PathAbempty(s, 7) == Some(7)
    ensures UserinfoPrefix(s, 0) == 0
    ensures Host(s, 0) == Some(4)
    ensures Port(s, 5) == Some(5)
    ensures Star(PCharUnit, s, 6) == Some(6)
  {
    assert Star(SlashSegment, s, 7) == Some(7);
    assert PathAbempty(s, 7) == Some(7);
    ExampleBadLiteralStep10(s);
    assert UserinfoPrefix(s, 0) == 0;
    ExampleBadLiteralStep13(s);
    assert One(DigitUnit, s, 5) == None;
    assert Star(DigitUnit, s, 5) == Some(5);
    assert Port(s, 5) == Some(5);
    assert One(PCharUnit, s, 6) == None;
    assert Star(PCharUnit, s, 6) == Some(6);
  }

  lemma ExampleBadLiteralStep19(s: string)
    requires |s| == 20 && s[0] == 'h' && s[1] == 't' && s[2] == 't' && s[3] == 'p'
      && s[4] == ':' && s[5] == '/' && s[6] == '/' && s[7] == '[' && s[8] == 'g' && s[9] == 'o'
      && s[10] == 'o' && s[11] == 'g' && s[12] == 'l' && s[13] == 'e' && s[14] == '.'
      && s[15] == 'c' && s[16] == 'o' && s[17] == 'm' && s[18] == ']' && s[19] == '/'
    requires Star(PCharUnit, s, 6) == Some(6)
    requires Star(SlashSegment, s, 7) == Some(7)
    ensures PathAbempty(s, 5) == Some(7)
  {
    assert One(SlashSegment, s, 5) == Some(6);
    assert One(PCharUnit, s, 7) == None;
    assert Star(PCharUnit, s, 7) == Some(7);
    assert One(SlashSegment, s, 6) == Some(7);
    assert Star(SlashSegment, s, 6) == Some(7);
    assert Star(SlashSegment, s, 5) == Some(7);
    assert PathAbempty(s, 5) == Some(7);
  }

  lemma ExampleBadLiteralSpelled(s: string)
    requires |s| == 20 && s[0] == 'h' && s[1] == 't' && s[2] == 't' && s[3] == 'p'
      && s[4] == ':' && s[5] == '/' && s[6] == '/' && s[7] == '[' && s[8] == 'g' && s[9] == 'o'
      && s[10] == 'o' && s[11] == 'g' && s[12] == 'l' && s[13] == 'e' && s[14] == '.'
      && s[15] == 'c' && s[16] == 'o' && s[17] == 'm' && s[18] == ']' && s[19] == '/'
    ensures ParseResult(s) == NoCaptures
  {
    ExampleBadLiteralStep16(s);
    ExampleBadLiteralStep17(s);
    ExampleBadLiteralStep18(s);
    ExampleBadLiteralStep19(s);
  }
}
