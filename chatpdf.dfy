/**
 * The text helpers of the PDF chat (backend/src/utils/chatpdf-helper.ts):
 * stripping non-ASCII characters, truncating a string to a number of UTF-8
 * bytes (encode, cut the bytes, decode), cleaning a page before it is
 * split, and clipping the retrieved context. UTF-8 follows section 3 of
 * RFC 3629.
 */
module ChatPdf {
  import opened Strings
  import opened Bytes

  /** `replace(/[^\x00-\x7F]/g, "")`: every character above 0x7F removed, the rest kept in order. */
  function ConvertToAscii(s: string): (r: string)
    ensures |r| <= |s|
    ensures forall i :: 0 <= i < |r| ==> r[i] as int <= 0x7F
    decreases |s|
  {
    if s == [] then []
    else (if s[0] as int <= 0x7F then [s[0]] else []) + ConvertToAscii(s[1..])
  }

  predicate IsAscii(s: string) {
    forall i :: 0 <= i < |s| ==> s[i] as int <= 0x7F
  }

  /** ASCII input is returned unchanged. */
  lemma {:induction false} AsciiUnchanged(s: string)
    requires IsAscii(s)
    ensures ConvertToAscii(s) == s
    decreases |s|
  {
    if s != [] {
      AsciiUnchanged(s[1..]);
      assert s == [s[0]] + s[1..];
    }
  }

  /** Stripping twice strips nothing more. */
  lemma ConvertToAsciiIdempotent(s: string)
    ensures ConvertToAscii(ConvertToAscii(s)) == ConvertToAscii(s)
  {
    AsciiUnchanged(ConvertToAscii(s));
  }

  /** The stripped string keeps exactly the ASCII characters: each ASCII character of `s` is counted as often in the result. */
  lemma {:induction false} ConvertToAsciiKeepsAscii(s: string, c: char)
    ensures c as int <= 0x7F ==> multiset(ConvertToAscii(s))[c] == multiset(s)[c]
    ensures c as int > 0x7F ==> multiset(ConvertToAscii(s))[c] == 0
    decreases |s|
  {
    if s != [] {
      ConvertToAsciiKeepsAscii(s[1..], c);
      assert s == [s[0]] + s[1..];
    }
  }

  /** Stripping works piece by piece: it distributes over concatenation, so the kept characters keep their order. */
  lemma {:induction false} ConvertToAsciiAppend(a: string, b: string)
    ensures ConvertToAscii(a + b) == ConvertToAscii(a) + ConvertToAscii(b)
    decreases |a|
  {
    if a == [] {
      assert a + b == b;
    } else {
      assert (a + b)[1..] == a[1..] + b;
      ConvertToAsciiAppend(a[1..], b);
    }
  }

  /** One character is kept exactly when it is ASCII. */
  lemma ConvertToAsciiChar(c: char)
    ensures ConvertToAscii([c]) == if c as int <= 0x7F then [c] else []
  {
    assert [c][1..] == [];
  }

  /** The number of bytes RFC 3629 uses for one character. */
  function CharLen(c: char): (n: nat)
    ensures 1 <= n <= 4
  {
    var v := c as int;
    if v < 0x80 then 1 else if v < 0x800 then 2 else if v < 0x10000 then 3 else 4
  }

  /** The UTF-8 encoding of one character. */
  function EncodeChar(c: char): (bs: seq<byte>)
    ensures |bs| == CharLen(c)
  {
    var v := c as int;
    if v < 0x80 then [v as byte]
    else if v < 0x800 then [(0xC0 + v / 64) as byte, (0x80 + v % 64) as byte]
    else if v < 0x10000 then [(0xE0 + v / 64 / 64) as byte, (0x80 + v / 64 % 64) as byte, (0x80 + v % 64) as byte]
    else [(0xF0 + v / 64 / 64 / 64) as byte, (0x80 + v / 64 / 64 % 64) as byte, (0x80 + v / 64 % 64) as byte, (0x80 + v % 64) as byte]
  }

  /** `TextEncoder.encode`. */
  function Encode(s: string): (bs: seq<byte>)
    decreases |s|
  {
    if s == [] then [] else EncodeChar(s[0]) + Encode(s[1..])
  }

  /** The length of the sequence a lead byte starts. */
  function SequenceLen(b: byte): (n: nat)
    ensures 1 <= n <= 4
  {
    if b < 0xC0 then 1 else if b < 0xE0 then 2 else if b < 0xF0 then 3 else 4
  }

  const Replacement: char := '�'

  predicate IsScalar(v: int) {
    (0 <= v < 0xD800) || (0xE000 <= v < 0x110000)
  }

  /** The code point a complete sequence spells. */
  function SequenceValue(bs: seq<byte>): int
    requires 1 <= |bs| <= 4
  {
    if |bs| == 1 then bs[0] as int
    else if |bs| == 2 then (bs[0] as int - 0xC0) * 64 + (bs[1] as int - 0x80)
    else if |bs| == 3 then (bs[0] as int - 0xE0) * 4096 + (bs[1] as int - 0x80) * 64 + (bs[2] as int - 0x80)
    else (bs[0] as int - 0xF0) * 262144 + (bs[1] as int - 0x80) * 4096 + (bs[2] as int - 0x80) * 64 + (bs[3] as int - 0x80)
  }

  /**
   * `TextDecoder.decode` on byte strings that are a prefix of a well-formed
   * encoding: every complete sequence gives its character, and a final
   * sequence cut short gives one U+FFFD.
   */
  function Decode(bs: seq<byte>): string
    decreases |bs|
  {
    if bs == [] then []
    else
      var n := SequenceLen(bs[0]);
      if |bs| < n then [Replacement]
      else
        var v := SequenceValue(bs[..n]);
        [if IsScalar(v) then v as char else Replacement] + Decode(bs[n..])
  }

  /** Each character's encoding starts with a lead byte announcing its length and spells its value. */
  lemma EncodeCharDecodes(c: char)
    ensures SequenceLen(EncodeChar(c)[0]) == CharLen(c)
    ensures SequenceValue(EncodeChar(c)) == c as int
  {
    var v := c as int;
    var q1, d0 := v / 64, v % 64;
    var q2, d1 := q1 / 64, q1 % 64;
    var q3, d2 := q2 / 64, q2 % 64;
    assert v == 64 * q1 + d0 && 0 <= d0 < 64;
    assert q1 == 64 * q2 + d1 && 0 <= d1 < 64;
    assert q2 == 64 * q3 + d2 && 0 <= d2 < 64;
  }

  lemma {:induction false} EncodeAppend(s: string, t: string)
    ensures Encode(s + t) == Encode(s) + Encode(t)
    decreases |s|
  {
    if s == [] {
      assert s + t == t;
    } else {
      assert (s + t)[0] == s[0];
      assert (s + t)[1..] == s[1..] + t;
      EncodeAppend(s[1..], t);
    }
  }

  /** One encoded character in front of more bytes decodes to that character. */
  lemma DecodeCons(c: char, tail: seq<byte>)
    ensures Decode(EncodeChar(c) + tail) == [c] + Decode(tail)
  {
    var e := EncodeChar(c);
    var bs := e + tail;
    EncodeCharDecodes(c);
    assert bs[0] == e[0];
    assert bs[..|e|] == e;
    assert bs[|e|..] == tail;
  }

  /** Decoding an encoded non-empty string followed by more bytes yields its first character first. */
  lemma DecodeAfterFirst(s: string, rest: seq<byte>)
    requires s != []
    ensures Decode(Encode(s) + rest) == [s[0]] + Decode(Encode(s[1..]) + rest)
  {
    var e := Encode(s[1..]);
    assert Encode(s) + rest == EncodeChar(s[0]) + (e + rest);
    DecodeCons(s[0], e + rest);
  }

  /** Decoding an encoded string followed by more bytes yields the string, then the decoding of the rest. */
  lemma {:induction false} DecodeAfterEncoded(s: string, rest: seq<byte>)
    ensures Decode(Encode(s) + rest) == s + Decode(rest)
    decreases |s|
  {
    if s == [] {
      assert Encode(s) + rest == rest;
    } else {
      DecodeAfterFirst(s, rest);
      DecodeAfterEncoded(s[1..], rest);
      ConsThenAppend(s, Decode(Encode(s) + rest), Decode(Encode(s[1..]) + rest), Decode(rest));
    }
  }

  lemma ConsThenAppend(s: string, whole: string, tail: string, d: string)
    requires s != [] && whole == [s[0]] + tail && tail == s[1..] + d
    ensures whole == s + d
  {
    assert s == [s[0]] + s[1..];
  }

  /** Decoding undoes encoding. */
  lemma DecodeEncode(s: string)
    ensures Decode(Encode(s)) == s
  {
    DecodeAfterEncoded(s, []);
    assert Encode(s) + [] == Encode(s);
  }

  /** A character's encoding cut short decodes to a single U+FFFD. */
  lemma CutCharacter(c: char, k: nat)
    requires 0 < k < CharLen(c)
    ensures Decode(EncodeChar(c)[..k]) == [Replacement]
  {
    EncodeCharDecodes(c);
  }

  /** How many leading characters of `s` fit in `n` bytes. */
  function FittingChars(s: string, n: nat): (k: nat)
    ensures k <= |s|
    ensures |Encode(s[..k])| <= n
    ensures k < |s| ==> |Encode(s[..k + 1])| > n
    decreases |s|
  {
    if s == [] then 0
    else if CharLen(s[0]) > n then
      assert s[..1] == [s[0]] && Encode([s[0]][1..]) == [];
      0
    else
      var k := FittingChars(s[1..], n - CharLen(s[0]));
      assert s[..k + 1] == [s[0]] + s[1..][..k];
      assert k < |s[1..]| ==> s[..k + 2] == [s[0]] + s[1..][..k + 1];
      k + 1
  }

  /** U+FEFF, the byte-order mark, and its three bytes in UTF-8. */
  const ByteOrderMark: char := '\U{FEFF}'
  const BomBytes: seq<byte> := [0xEF, 0xBB, 0xBF]

  /** `new TextDecoder("utf-8").decode`: `ignoreBOM` is false by default, so a leading byte-order mark is dropped. */
  function TextDecode(bs: seq<byte>): string {
    if |bs| >= 3 && bs[..3] == BomBytes then Decode(bs[3..]) else Decode(bs)
  }

  /** A text without its leading byte-order mark, if it has one. */
  function StripBom(s: string): string {
    if s != [] && s[0] == ByteOrderMark then s[1..] else s
  }

  /** `truncateStringByBytes`: encode, keep the first `bytes` bytes (the slice clamps), decode. */
  function TruncateByBytes(s: string, bytes: nat): string {
    var e := Encode(s);
    TextDecode(e[..if bytes < |e| then bytes else |e|])
  }

  lemma {:induction false} EncodeLen(s: string)
    ensures |Encode(s)| >= |s|
    decreases |s|
  {
    if s != [] { EncodeLen(s[1..]); }
  }

  /** An encoding starts with the byte-order mark's bytes exactly when the text starts with U+FEFF. */
  lemma BomLead(s: string)
    ensures (|Encode(s)| >= 3 && Encode(s)[..3] == BomBytes) <==> (s != [] && s[0] == ByteOrderMark)
  {
    if s != [] {
      var c := s[0];
      assert Encode(s) == EncodeChar(c) + Encode(s[1..]);
      EncodeCharDecodes(c);
      var e := Encode(s);
      if |e| >= 3 && e[..3] == BomBytes {
        assert e[0] == e[..3][0] == EncodeChar(c)[0];
        assert EncodeChar(c) == e[..3];
      }
    }
  }

  /** Bytes that start with the byte-order mark's encoding decode to U+FEFF first. */
  lemma DecodeBomLead(bs: seq<byte>)
    requires |bs| >= 3 && bs[..3] == BomBytes
    ensures Decode(bs) == [ByteOrderMark] + Decode(bs[3..])
  {
    assert bs[0] == 0xEF;
  }

  /** A string whose encoding fits is returned whole, apart from a leading byte-order mark, which the decoder drops. */
  lemma TruncateFits(s: string, bytes: nat)
    requires |Encode(s)| <= bytes
    ensures TruncateByBytes(s, bytes) == StripBom(s)
  {
    var e := Encode(s);
    assert e[..|e|] == e;
    BomLead(s);
    if s != [] && s[0] == ByteOrderMark {
      assert e == EncodeChar(s[0]) + Encode(s[1..]);
      assert EncodeChar(ByteOrderMark) == BomBytes;
      assert e[3..] == Encode(s[1..]);
      DecodeEncode(s[1..]);
    } else {
      DecodeEncode(s);
    }
  }

  lemma EncodeSingle(c: char)
    ensures Encode([c]) == EncodeChar(c)
  {
    assert [c][1..] == [];
  }

  /** The encoding around the `k`-th character: the prefix's bytes, that character's, then the rest's. */
  lemma EncodeAround(s: string, k: nat)
    requires k < |s|
    ensures Encode(s) == Encode(s[..k]) + EncodeChar(s[k]) + Encode(s[k + 1..])
  {
    var p, c, t := s[..k], s[k], s[k + 1..];
    assert Encode(s) == Encode(p) + Encode([c] + t) by {
      SplitAt(s, k);
      EncodeAppend(p, [c] + t);
    }
    assert Encode([c] + t) == EncodeChar(c) + Encode(t) by {
      EncodeAppend([c], t);
      EncodeSingle(c);
    }
    ConcatAssoc(Encode(s), Encode(p), Encode([c] + t), EncodeChar(c), Encode(t));
  }

  lemma SplitAt<T>(s: seq<T>, k: nat)
    requires k < |s|
    ensures s == s[..k] + ([s[k]] + s[k + 1..])
  {
  }

  lemma ConcatAssoc<T>(whole: seq<T>, a: seq<T>, rest: seq<T>, b: seq<T>, c: seq<T>)
    requires whole == a + rest && rest == b + c
    ensures whole == a + b + c
  {
  }

  /** Cutting after a prefix's bytes and `cut` bytes of the next character decodes to the prefix, plus U+FFFD when `cut > 0`. */
  lemma DecodeCut(p: string, c: char, rest: seq<byte>, cut: nat)
    requires cut < CharLen(c)
    ensures Decode((Encode(p) + EncodeChar(c) + rest)[..|Encode(p)| + cut]) == p + (if cut == 0 then [] else [Replacement])
  {
    var e := Encode(p) + EncodeChar(c) + rest;
    if cut == 0 {
      assert e[..|Encode(p)|] == Encode(p) + [];
      DecodeAfterEncoded(p, []);
    } else {
      assert e[..|Encode(p)| + cut] == Encode(p) + EncodeChar(c)[..cut];
      DecodeAfterEncoded(p, EncodeChar(c)[..cut]);
      CutCharacter(c, cut);
    }
  }

  /** Cutting an encoding that does not fit decodes to the longest prefix that fits, plus one U+FFFD when the cut falls inside a character. */
  lemma DecodeCutLongestPrefix(s: string, bytes: nat)
    requires |Encode(s)| > bytes
    ensures var k := FittingChars(s, bytes);
      k < |s| &&
      Decode(Encode(s)[..bytes]) == s[..k] + (if |Encode(s[..k])| == bytes then [] else [Replacement])
  {
    var k := FittingChars(s, bytes);
    assert k < |s|;
    var p, c := s[..k], s[k];
    var cut := bytes - |Encode(p)|;
    assert 0 <= cut < CharLen(c) by {
      assert s[..k + 1] == p + [c];
      EncodeAppend(p, [c]);
      EncodeSingle(c);
    }
    assert Encode(s) == Encode(p) + EncodeChar(c) + Encode(s[k + 1..]) by {
      EncodeAround(s, k);
    }
    DecodeCut(p, c, Encode(s[k + 1..]), cut);
  }

  /** A prefix that starts with U+FEFF and fits the cut leaves the byte-order mark's bytes at the front of the cut. */
  lemma BomSurvivesCut(s: string, k: nat, bytes: nat)
    requires 0 < k <= |s| && s[0] == ByteOrderMark
    requires |Encode(s[..k])| <= bytes <= |Encode(s)|
    ensures |Encode(s)[..bytes]| >= 3 && Encode(s)[..bytes][..3] == BomBytes
  {
    BomLead(s[..k]);
    assert s == s[..k] + s[k..];
    EncodeAppend(s[..k], s[k..]);
  }

  /**
   * Otherwise the result is the longest prefix whose encoding fits, followed
   * by one U+FFFD when the cut falls inside a character, and without a
   * leading byte-order mark.
   */
  lemma TruncateLongestPrefix(s: string, bytes: nat)
    requires |Encode(s)| > bytes
    ensures var k := FittingChars(s, bytes);
      k < |s| &&
      TruncateByBytes(s, bytes) == StripBom(s[..k] + (if |Encode(s[..k])| == bytes then [] else [Replacement]))
  {
    var k := FittingChars(s, bytes);
    var bs := Encode(s)[..bytes];
    var raw := s[..k] + (if |Encode(s[..k])| == bytes then [] else [Replacement]);
    DecodeCutLongestPrefix(s, bytes);
    if |bs| >= 3 && bs[..3] == BomBytes {
      DecodeBomLead(bs);
    } else {
      if k > 0 && s[0] == ByteOrderMark {
        BomSurvivesCut(s, k, bytes);
        assert false;
      }
      assert k > 0 ==> raw[0] == s[0];
    }
  }

  /** A page as the PDF loader yields it. */
  datatype Page = Page(pageContent: string, pageNumber: nat)

  /** The document handed to the splitter: the cleaned text and its metadata. */
  datatype PageDocument = PageDocument(pageContent: string, pageNumber: nat, text: string)

  const MetadataBytes: nat := 36000

  /** `replace(/\n/g, "")`: every newline removed. */
  function RemoveNewlines(s: string): (r: string)
    ensures '\n' !in r
  {
    ReplaceNewlines(s, "")
  }

  /** Removing newlines works piece by piece: it distributes over concatenation, so the other characters keep their order. */
  lemma RemoveNewlinesAppend(a: string, b: string)
    ensures RemoveNewlines(a + b) == RemoveNewlines(a) + RemoveNewlines(b)
  {
    ReplaceNewlinesAppend(a, b, "");
  }

  /** One character is removed exactly when it is a newline. */
  lemma RemoveNewlinesChar(c: char)
    ensures RemoveNewlines([c]) == if c == '\n' then [] else [c]
  {
    ReplaceNewlinesChar(c, "");
  }

  /** `prepareDocument` up to the splitter: newlines removed, metadata text cut to 36000 bytes. */
  function PrepareDocument(page: Page): (d: PageDocument)
    ensures d.pageContent == RemoveNewlines(page.pageContent) && '\n' !in d.pageContent
    ensures d.pageNumber == page.pageNumber
    ensures d.text == TruncateByBytes(d.pageContent, MetadataBytes)
  {
    var cleaned := RemoveNewlines(page.pageContent);
    PageDocument(cleaned, page.pageNumber, TruncateByBytes(cleaned, MetadataBytes))
  }

  /** A page whose cleaned text fits in 36000 bytes keeps all of it in the metadata, apart from a leading byte-order mark. */
  lemma ShortPageKeepsText(page: Page)
    requires |Encode(PrepareDocument(page).pageContent)| <= MetadataBytes
    ensures PrepareDocument(page).text == StripBom(PrepareDocument(page).pageContent)
  {
    TruncateFits(PrepareDocument(page).pageContent, MetadataBytes);
  }

  const ContextLimit: nat := 3000

  /** `getContext` after retrieval: the match texts joined by newlines, clipped to 3000 characters. */
  function ContextOf(texts: seq<string>): (r: string)
    ensures |r| <= ContextLimit
    ensures StartsWith(Join(texts, "\n"), r)
    ensures |Join(texts, "\n")| <= ContextLimit ==> r == Join(texts, "\n")
    ensures |Join(texts, "\n")| > ContextLimit ==> |r| == ContextLimit
  {
    var joined := Join(texts, "\n");
    joined[..if |joined| < ContextLimit then |joined| else ContextLimit]
  }
}
