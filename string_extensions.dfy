/**
 * String+TexturedMaaku: the character-header matcher `^(\d{1,2}|\w)\.\s`
 * and the `+`/percent space decoder used on URL fragments.
 */
module StringExtensions {
  import opened Foundation

  /**
   * The Unicode properties the matcher depends on, kept abstract: the
   * regular-expression engine's classes `\d`, `\w` and `\s`, and two
   * Grapheme_Cluster_Break groups of Unicode Standard Annex #29 that decide
   * where Swift's Characters begin. `isControl` holds for Control, CR and LF,
   * after which a Character ends (except CR before LF); `isExtend` holds for
   * Extend, ZWJ and SpacingMark, which join the Character before them.
   */
  datatype CharClasses = CharClasses(
    isDigit: char -> bool,
    isWord: char -> bool,
    isSpace: char -> bool,
    isControl: char -> bool,
    isExtend: char -> bool)

  predicate AllIn(x: string, cls: char -> bool) {
    forall i :: 0 <= i < |x| ==> cls(x[i])
  }

  /** What may stand before the dot: one or two digits, or a single word character. */
  predicate IsHeaderLead(x: string, cc: CharClasses) {
    (1 <= |x| <= 2 && AllIn(x, cc.isDigit)) || (|x| == 1 && cc.isWord(x[0]))
  }

  /** `p` is, as a whole, a word of the language `(\d{1,2}|\w)\.\s`. */
  predicate IsHeaderToken(p: string, cc: CharClasses) {
    |p| >= 3 && p[|p| - 2] == '.' && cc.isSpace(p[|p| - 1]) && IsHeaderLead(p[..|p| - 2], cc)
  }

  /**
   * A Character of `s` begins at `k`, where `s[k - 1]` is whitespace. No
   * whitespace character joins the one after it, so the only joins left are
   * CR with LF, and a non-control character with an Extend, ZWJ or
   * SpacingMark after it.
   */
  predicate BoundaryAfterSpace(s: string, k: nat, cc: CharClasses)
    requires 0 < k <= |s|
  {
    k == |s| || (!(s[k - 1] == '\r' && s[k] == '\n') && (cc.isControl(s[k - 1]) || !cc.isExtend(s[k])))
  }

  /**
   * The first match of the anchored pattern `^(\d{1,2}|\w)\.\s`, trying the
   * alternatives in the engine's order (two digits, one digit, one word
   * character). A match is a prefix of `s` and a header token; when there is
   * none, no prefix of `s` is a header token.
   */
  function HeaderRegexMatch(s: string, cc: CharClasses): (r: Option<string>)
    ensures r.Some? ==> IsHeaderToken(r.value, cc) && HasPrefix(s, r.value)
    ensures r.None? ==> forall n :: 0 <= n <= |s| ==> !IsHeaderToken(s[..n], cc)
  {
    if |s| >= 4 && cc.isDigit(s[0]) && cc.isDigit(s[1]) && s[2] == '.' && cc.isSpace(s[3]) then
      assert s[..4][..2] == s[..2];
      Some(s[..4])
    else if |s| >= 3 && cc.isDigit(s[0]) && s[1] == '.' && cc.isSpace(s[2]) then
      assert s[..3][..1] == s[..1];
      Some(s[..3])
    else if |s| >= 3 && cc.isWord(s[0]) && s[1] == '.' && cc.isSpace(s[2]) then
      assert s[..3][..1] == s[..1];
      Some(s[..3])
    else
      NoHeaderPrefix(s, cc);
      None
  }

  /**
   * characterHeaderMatch(): the regular expression's match, converted to a
   * range of the string's Characters. The conversion fails, and the call
   * with it, when the match ends inside a Character: before a combining mark,
   * or between CR and LF. So a result is a whole header token that ends
   * where a Character begins, and it is the regular expression's match.
   */
  function CharacterHeaderMatch(s: string, cc: CharClasses): (r: Option<string>)
    ensures r.Some? ==> IsHeaderToken(r.value, cc) && HasPrefix(s, r.value) && BoundaryAfterSpace(s, |r.value|, cc)
    ensures r.Some? ==> r == HeaderRegexMatch(s, cc)
    ensures r.None? && HeaderRegexMatch(s, cc).Some? ==> !BoundaryAfterSpace(s, |HeaderRegexMatch(s, cc).value|, cc)
  {
    var m := HeaderRegexMatch(s, cc);
    if m.Some? && BoundaryAfterSpace(s, |m.value|, cc) then m else None
  }

  /** A string none of whose three alternatives applies has no header-token prefix. */
  lemma NoHeaderPrefix(s: string, cc: CharClasses)
    requires !(|s| >= 4 && cc.isDigit(s[0]) && cc.isDigit(s[1]) && s[2] == '.' && cc.isSpace(s[3]))
    requires !(|s| >= 3 && cc.isDigit(s[0]) && s[1] == '.' && cc.isSpace(s[2]))
    requires !(|s| >= 3 && cc.isWord(s[0]) && s[1] == '.' && cc.isSpace(s[2]))
    ensures forall n :: 0 <= n <= |s| ==> !IsHeaderToken(s[..n], cc)
  {
    forall n | 0 <= n <= |s| ensures !IsHeaderToken(s[..n], cc) {
      if 3 <= n <= 4 {
        var lead := s[..n][..n - 2];
        assert |lead| == n - 2 && lead[0] == s[0];
        if n == 4 {
          assert lead[1] == s[1];
        }
      }
    }
  }

  /**
   * When '.' is not a digit, a string has at most one header-token prefix,
   * so the ordered alternation returns exactly that prefix whenever one exists.
   */
  lemma MatchIsTheHeaderPrefix(s: string, cc: CharClasses, n: nat)
    requires !cc.isDigit('.')
    requires n <= |s| && IsHeaderToken(s[..n], cc)
    ensures HeaderRegexMatch(s, cc) == Some(s[..n])
  {
    var r := HeaderRegexMatch(s, cc);
    var m := |r.value|;
    assert r.value == s[..m];
    assert |s[..n][..n - 2]| == n - 2;
    assert |r.value[..m - 2]| == m - 2;
  }

  /**
   * When '.' is not a digit, characterHeaderMatch() finds a header exactly
   * when some prefix is a header token ending where a Character begins, and
   * then it returns that prefix.
   */
  lemma {:induction false} CharacterHeaderIsTheWholePrefix(s: string, cc: CharClasses, n: nat)
    requires !cc.isDigit('.')
    requires n <= |s| && IsHeaderToken(s[..n], cc)
    ensures CharacterHeaderMatch(s, cc) == (if BoundaryAfterSpace(s, n, cc) then Some(s[..n]) else None)
  {
    MatchIsTheHeaderPrefix(s, cc, n);
  }

  /** A match ends with a dot and exactly one whitespace character, after one or two leading characters. */
  lemma MatchShape(s: string, cc: CharClasses)
    requires CharacterHeaderMatch(s, cc).Some?
    ensures var m := CharacterHeaderMatch(s, cc).value;
      (|m| == 3 || |m| == 4) && m[|m| - 2] == '.' && cc.isSpace(m[|m| - 1]) && m == s[..|m|]
  {
    var m := CharacterHeaderMatch(s, cc).value;
    assert |m[..|m| - 2]| == |m| - 2;
  }

  /** A leading number of three or more digits never matches. */
  lemma ThreeDigitsNeverMatch(s: string, cc: CharClasses)
    requires !cc.isDigit('.')
    requires |s| >= 3 && cc.isDigit(s[0]) && cc.isDigit(s[1]) && cc.isDigit(s[2])
    ensures CharacterHeaderMatch(s, cc) == None
  {
  }

  lemma SingleDigitExample(cc: CharClasses)
    requires cc.isDigit('1') && cc.isSpace(' ') && !cc.isExtend('h')
    ensures CharacterHeaderMatch("1. heading text", cc) == Some("1. ")
  {
    var s := "1. heading text";
    assert s[0] == '1' && s[1] == '.' && s[2] == ' ' && s[..3] == "1. ";
  }

  lemma DoubleDigitExample(cc: CharClasses)
    requires cc.isDigit('2') && cc.isSpace(' ') && !cc.isExtend('h')
    ensures CharacterHeaderMatch("22. heading text", cc) == Some("22. ")
  {
    var s := "22. heading text";
    assert s[0] == '2' && s[1] == '2' && s[2] == '.' && s[3] == ' ' && s[..4] == "22. ";
  }

  lemma KanjiExample(cc: CharClasses)
    requires cc.isWord('雪') && cc.isSpace(' ') && !cc.isExtend('h')
    ensures CharacterHeaderMatch("雪. heading text", cc) == Some("雪. ")
  {
    var s := "雪. heading text";
    assert s[0] == '雪' && s[1] == '.' && s[2] == ' ' && s[..3] == "雪. ";
  }

  /** No whitespace after the dot: no match. */
  lemma NoSpaceAfterDotExample(cc: CharClasses)
    requires !cc.isSpace('h')
    ensures CharacterHeaderMatch("1.heading text", cc) == None
  {
  }

  /** A combining mark after the space joins it, so "1. \U{0301}Intro" has no header. */
  lemma CombiningMarkExample(cc: CharClasses)
    requires cc.isDigit('1') && cc.isSpace(' ') && !cc.isControl(' ') && cc.isExtend('\U{0301}')
    ensures CharacterHeaderMatch("1. \U{0301}Intro", cc) == None
  {
    var s := "1. \U{0301}Intro";
    assert s[1] == '.' && s[2] == ' ' && s[3] == '\U{0301}' && s[..3] == "1. ";
  }

  /** "\r\n" is one Character, so a match ending at the CR is no header. */
  lemma CrLfExample(cc: CharClasses)
    requires cc.isDigit('1') && cc.isSpace('\r')
    ensures CharacterHeaderMatch("1.\r\nIntro", cc) == None
  {
    var s := "1.\r\nIntro";
    assert s[1] == '.' && s[2] == '\r' && s[3] == '\n' && s[..3] == "1.\r";
  }

  // ---------------------------------------------------------------------
  // urlSpaceDecoded

  type Byte = b: int | 0 <= b < 256

  /** Every '+' becomes a space; nothing else changes. */
  function ReplacePlus(s: string): (r: string)
    ensures |r| == |s|
    ensures forall i :: 0 <= i < |s| ==> r[i] == if s[i] == '+' then ' ' else s[i]
    ensures '+' !in r
  {
    seq(|s|, i requires 0 <= i < |s| => if s[i] == '+' then ' ' else s[i])
  }

  predicate IsHexDigit(c: char) {
    '0' <= c <= '9' || 'a' <= c <= 'f' || 'A' <= c <= 'F'
  }

  function HexValue(c: char): (v: nat)
    requires IsHexDigit(c)
    ensures v < 16
  {
    if '0' <= c <= '9' then c as int - '0' as int
    else if 'a' <= c <= 'f' then c as int - 'a' as int + 10
    else c as int - 'A' as int + 10
  }

  function Join(a: Option<string>, b: Option<string>): Option<string> {
    if a.Some? && b.Some? then Some(a.value + b.value) else None
  }

  /** Hands a run of escaped non-ASCII bytes to the UTF-8 decoder. */
  function Flush(pending: seq<Byte>, utf8: seq<Byte> -> Option<string>): Option<string> {
    if pending == [] then Some("") else utf8(pending)
  }

  /**
   * Percent-decoding (section 2.1 of RFC 3986): "%" followed by two hex
   * digits stands for one octet. An escaped ASCII octet is that character;
   * a maximal run of escaped octets 0x80 and above must be valid UTF-8, which
   * the opaque `utf8` decoder decides. A '%' without two hex digits after it
   * makes the whole decoding fail.
   */
  function DecodeFrom(s: string, pending: seq<Byte>, utf8: seq<Byte> -> Option<string>): Option<string>
    decreases |s|
  {
    if |s| == 0 then Flush(pending, utf8)
    else if s[0] == '%' then
      if |s| >= 3 && IsHexDigit(s[1]) && IsHexDigit(s[2]) then
        var b := HexValue(s[1]) * 16 + HexValue(s[2]);
        if b < 128 then Join(Flush(pending, utf8), Join(Some([b as char]), DecodeFrom(s[3..], [], utf8)))
        else DecodeFrom(s[3..], pending + [b], utf8)
      else None
    else Join(Flush(pending, utf8), Join(Some([s[0]]), DecodeFrom(s[1..], [], utf8)))
  }

  /** removingPercentEncoding */
  function PercentDecoded(s: string, utf8: seq<Byte> -> Option<string>): Option<string> {
    DecodeFrom(s, [], utf8)
  }

  /**
   * urlSpaceDecoded: '+' becomes a space, then the result is percent-decoded;
   * when decoding fails the plus-replaced string is returned.
   */
  function UrlSpaceDecoded(s: string, utf8: seq<Byte> -> Option<string>): (r: string)
    ensures PercentDecoded(ReplacePlus(s), utf8).None? ==> r == ReplacePlus(s)
    ensures PercentDecoded(ReplacePlus(s), utf8).Some? ==> r == PercentDecoded(ReplacePlus(s), utf8).value
    ensures '+' !in s && '%' !in s ==> r == s
  {
    var plusReplaced := ReplacePlus(s);
    if '+' !in s && '%' !in s then
      assert plusReplaced == s;
      NoEscapeDecodesToItself(s, utf8);
      PercentDecoded(plusReplaced, utf8).GetOr(plusReplaced)
    else
      PercentDecoded(plusReplaced, utf8).GetOr(plusReplaced)
  }

  /** A plain character is copied through and decoding goes on after it. */
  lemma PlainCharDecodes(c: char, t: string, utf8: seq<Byte> -> Option<string>)
    requires c != '%'
    ensures DecodeFrom([c] + t, [], utf8) == Join(Some([c]), DecodeFrom(t, [], utf8))
  {
    var s := [c] + t;
    assert s[0] == c && s[1..] == t;
    var d := DecodeFrom(t, [], utf8);
    if d.Some? {
      assert "" + ([c] + d.value) == [c] + d.value;
    }
  }

  /** Splitting off the first character of a string without '%'. */
  lemma SplitPlain(p: string, rest: string)
    requires |p| > 0 && '%' !in p
    ensures p[0] != '%' && '%' !in p[1..]
    ensures p + rest == [p[0]] + (p[1..] + rest)
  {
    assert p[0] in p;
    assert forall x :: x in p[1..] ==> x in p;
  }

  /** Copied text before copied text is their concatenation. */
  lemma JoinCons(c: char, q: string, d: Option<string>)
    ensures Join(Some([c]), Join(Some(q), d)) == Join(Some([c] + q), d)
  {
    if d.Some? {
      assert [c] + (q + d.value) == ([c] + q) + d.value;
    }
  }

  /** One step of the copying: the first plain character, then the rest as decoded. */
  lemma PlainPrefixStep(p: string, rest: string, utf8: seq<Byte> -> Option<string>)
    requires |p| > 0 && '%' !in p
    requires DecodeFrom(p[1..] + rest, [], utf8) == Join(Some(p[1..]), DecodeFrom(rest, [], utf8))
    ensures DecodeFrom(p + rest, [], utf8) == Join(Some(p), DecodeFrom(rest, [], utf8))
  {
    var c, q, d := p[0], p[1..], DecodeFrom(rest, [], utf8);
    SplitPlain(p, rest);
    assert p == [c] + q;
    calc {
      DecodeFrom(p + rest, [], utf8);
      DecodeFrom([c] + (q + rest), [], utf8);
      { PlainCharDecodes(c, q + rest, utf8); }
      Join(Some([c]), DecodeFrom(q + rest, [], utf8));
      Join(Some([c]), Join(Some(q), d));
      { JoinCons(c, q, d); }
      Join(Some(p), d);
    }
  }

  /** Plain characters before the first '%' are copied through. */
  lemma {:induction false} PlainPrefixDecodes(p: string, rest: string, utf8: seq<Byte> -> Option<string>)
    requires '%' !in p
    ensures DecodeFrom(p + rest, [], utf8) == Join(Some(p), DecodeFrom(rest, [], utf8))
  {
    if |p| == 0 {
      assert p + rest == rest;
      var d := DecodeFrom(rest, [], utf8);
      if d.Some? {
        assert p + d.value == d.value;
      }
    } else {
      SplitPlain(p, rest);
      PlainPrefixDecodes(p[1..], rest, utf8);
      PlainPrefixStep(p, rest, utf8);
    }
  }

  /** A string without '%' decodes to itself. */
  lemma NoEscapeDecodesToItself(s: string, utf8: seq<Byte> -> Option<string>)
    requires '%' !in s
    ensures PercentDecoded(s, utf8) == Some(s)
  {
    PlainPrefixDecodes(s, "", utf8);
    assert s + "" == s;
  }

  lemma ReplacePlusExample()
    ensures ReplacePlus("test%20test+test") == "test%20test test"
  {
    var r := ReplacePlus("test%20test+test");
    assert forall i :: 0 <= i < |r| ==> r[i] == "test%20test test"[i];
  }

  /** An escape of an ASCII octet decodes to that character. */
  lemma AsciiEscapeDecodes(h1: char, h2: char, rest: string, utf8: seq<Byte> -> Option<string>)
    requires IsHexDigit(h1) && IsHexDigit(h2) && HexValue(h1) * 16 + HexValue(h2) < 128
    ensures DecodeFrom(['%', h1, h2] + rest, [], utf8)
         == Join(Some([(HexValue(h1) * 16 + HexValue(h2)) as char]), DecodeFrom(rest, [], utf8))
  {
    var s := ['%', h1, h2] + rest;
    assert s[0] == '%' && s[1] == h1 && s[2] == h2 && s[3..] == rest;
    var d := DecodeFrom(rest, [], utf8);
    if d.Some? {
      var c := [(HexValue(h1) * 16 + HexValue(h2)) as char];
      assert "" + (c + d.value) == c + d.value;
    }
  }

  /** "%20" between two plain strings decodes to a space. */
  lemma EscapedSpaceDecodes(a: string, b: string, utf8: seq<Byte> -> Option<string>)
    requires '%' !in a && '%' !in b
    ensures PercentDecoded(a + "%20" + b, utf8) == Some(a + " " + b)
  {
    assert a + "%20" + b == a + (['%', '2', '0'] + b);
    NoEscapeDecodesToItself(b, utf8);
    AsciiEscapeDecodes('2', '0', b, utf8);
    assert [32 as char] == " ";
    PlainPrefixDecodes(a, ['%', '2', '0'] + b, utf8);
    assert a + (" " + b) == a + " " + b;
  }

  /** "test%20test+test" decodes to "test test test". */
  lemma PercentAndPlusExample(utf8: seq<Byte> -> Option<string>)
    ensures UrlSpaceDecoded("test%20test+test", utf8) == "test test test"
  {
    ReplacePlusExample();
    assert "test%20test test" == "test" + "%20" + "test test";
    EscapedSpaceDecodes("test", "test test", utf8);
    assert "test" + " " + "test test" == "test test test";
  }

  /** Every '%' in `s` starts an escaped space "%20". */
  predicate OnlySpaceEscapes(s: string) {
    forall i :: 0 <= i < |s| && s[i] == '%' ==> i + 2 < |s| && s[i + 1] == '2' && s[i + 2] == '0'
  }

  /**
   * Reference reading of a fragment whose only escapes are spaces: read left
   * to right, every "%20" and every '+' is a space.
   */
  function SpacesDecoded(s: string): (r: string)
    ensures |r| <= |s|
    ensures '+' !in r
    decreases |s|
  {
    if |s| == 0 then ""
    else if |s| >= 3 && s[0] == '%' && s[1] == '2' && s[2] == '0' then " " + SpacesDecoded(s[3..])
    else if s[0] == '+' then " " + SpacesDecoded(s[1..])
    else if s[0] == '%' then "%" + SpacesDecoded(s[1..])
    else [s[0]] + SpacesDecoded(s[1..])
  }

  lemma OnlySpaceEscapesSuffix(s: string, k: nat)
    requires OnlySpaceEscapes(s) && k <= |s|
    ensures OnlySpaceEscapes(s[k..])
  {
    forall i | 0 <= i < |s[k..]| && s[k..][i] == '%'
      ensures i + 2 < |s[k..]| && s[k..][i + 1] == '2' && s[k..][i + 2] == '0'
    {
      assert s[k + i] == '%';
    }
  }

  lemma ReplacePlusSuffix(s: string, k: nat)
    requires k <= |s|
    ensures ReplacePlus(s)[k..] == ReplacePlus(s[k..])
  {
    assert forall i :: 0 <= i < |s| - k ==> ReplacePlus(s)[k..][i] == ReplacePlus(s[k..])[i];
  }

  /** Percent-decoding a '+'-replaced fragment whose escapes are all spaces gives the reference reading. */
  lemma {:induction false} SpaceEscapesDecode(s: string, utf8: seq<Byte> -> Option<string>)
    requires OnlySpaceEscapes(s)
    ensures DecodeFrom(ReplacePlus(s), [], utf8) == Some(SpacesDecoded(s))
    decreases |s|
  {
    var t := ReplacePlus(s);
    if |s| == 0 {
      assert t == [];
    } else if s[0] == '%' {
      OnlySpaceEscapesSuffix(s, 3);
      ReplacePlusSuffix(s, 3);
      SpaceEscapesDecode(s[3..], utf8);
      assert t == ['%', '2', '0'] + ReplacePlus(s[3..]);
      AsciiEscapeDecodes('2', '0', ReplacePlus(s[3..]), utf8);
      assert [(HexValue('2') * 16 + HexValue('0')) as char] == " ";
    } else {
      OnlySpaceEscapesSuffix(s, 1);
      ReplacePlusSuffix(s, 1);
      SpaceEscapesDecode(s[1..], utf8);
      assert t == [t[0]] + ReplacePlus(s[1..]);
      PlainCharDecodes(t[0], ReplacePlus(s[1..]), utf8);
    }
  }

  /**
   * urlSpaceDecoded turns every '+' and every "%20" into a space, for any
   * fragment whose only escapes are "%20", whatever the UTF-8 decoder.
   */
  lemma UrlSpaceDecodedSpaces(s: string, utf8: seq<Byte> -> Option<string>)
    requires OnlySpaceEscapes(s)
    ensures UrlSpaceDecoded(s, utf8) == SpacesDecoded(s)
  {
    SpaceEscapesDecode(s, utf8);
  }

  /** Plain text followed by "%20" decodes to that text and a space, then decoding goes on. */
  lemma SpaceEscapeStep(a: string, rest: string, utf8: seq<Byte> -> Option<string>)
    requires '%' !in a
    ensures DecodeFrom(a + "%20" + rest, [], utf8) == Join(Some(a + " "), DecodeFrom(rest, [], utf8))
  {
    assert a + "%20" + rest == a + (['%', '2', '0'] + rest);
    AsciiEscapeDecodes('2', '0', rest, utf8);
    assert [32 as char] == " ";
    PlainPrefixDecodes(a, ['%', '2', '0'] + rest, utf8);
    var d := DecodeFrom(rest, [], utf8);
    if d.Some? {
      assert a + (" " + d.value) == (a + " ") + d.value;
    }
  }

  /** A string without '+' is left alone by the '+' replacement. */
  lemma NoPlusUnchanged(x: string)
    requires '+' !in x
    ensures ReplacePlus(x) == x
  {
    assert forall i :: 0 <= i < |x| ==> x[i] in x;
  }

  /** Two "%20" escapes between plain texts both become spaces. */
  lemma TwoSpaceEscapes(a: string, b: string, c: string, utf8: seq<Byte> -> Option<string>)
    requires '%' !in a && '%' !in b && '%' !in c
    requires '+' !in a && '+' !in b && '+' !in c
    ensures UrlSpaceDecoded(a + "%20" + b + "%20" + c, utf8) == a + " " + b + " " + c
  {
    var s := a + "%20" + b + "%20" + c;
    assert s == a + "%20" + (b + "%20" + c);
    assert '+' !in s;
    NoPlusUnchanged(s);
    SpaceEscapeStep(a, b + "%20" + c, utf8);
    EscapedSpaceDecodes(b, c, utf8);
    assert a + " " + (b + " " + c) == a + " " + b + " " + c;
  }

  /** "test%20test%20test" decodes to "test test test". */
  lemma PercentSpacesExample(utf8: seq<Byte> -> Option<string>)
    ensures UrlSpaceDecoded("test%20test%20test", utf8) == "test test test"
  {
    TestWordsJoined();
    TwoSpaceEscapes("test", "test", "test", utf8);
  }

  lemma TestWordsJoined()
    ensures "test" + "%20" + "test" + "%20" + "test" == "test%20test%20test"
    ensures "test" + " " + "test" + " " + "test" == "test test test"
  {
  }

  /** "test+test+test" decodes to "test test test". */
  lemma PlusSpacesExample(utf8: seq<Byte> -> Option<string>)
    ensures UrlSpaceDecoded("test+test+test", utf8) == "test test test"
  {
    var r := ReplacePlus("test+test+test");
    assert forall i :: 0 <= i < |r| ==> r[i] == "test test test"[i];
    assert r == "test test test";
    NoEscapeDecodesToItself("test test test", utf8);
  }
}
