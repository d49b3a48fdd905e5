/** The `setHeaders` hook of the static `/uploads` route: a path ending in
    `.pdf` gets `Content-Type: application/pdf` and a Content-Disposition
    of `inline; filename*=UTF-8''` followed by `encodeURIComponent` of the
    file's base name (the ext-value of section 3.2 of RFC 5987, used by
    section 4.3 of RFC 6266). */
module PdfHeaders {
  import opened Common

  // ---------------------------------------------------------------------
  // UTF-8
  // ---------------------------------------------------------------------

  /** The UTF-8 encoding of one Unicode scalar value. */
  function Utf8(c: char): (r: seq<Byte>)
    ensures 1 <= |r| <= 4
  {
    var cp := c as int;
    if cp < 0x80 then [cp]
    else if cp < 0x800 then [0xC0 + cp / 64, 0x80 + cp % 64]
    else if cp < 0x10000 then [0xE0 + cp / 4096, 0x80 + (cp / 64) % 64, 0x80 + cp % 64]
    else [0xF0 + cp / 262144, 0x80 + (cp / 4096) % 64, 0x80 + (cp / 64) % 64, 0x80 + cp % 64]
  }

  function Utf8All(s: string): seq<Byte>
  {
    if s == [] then [] else Utf8(s[0]) + Utf8All(s[1..])
  }

  /** The length of the sequence a lead byte starts; 0 for a byte that
      cannot start one. */
  function LeadLength(b: Byte): nat
  {
    if b < 0x80 then 1
    else if 0xC2 <= b < 0xE0 then 2
    else if 0xE0 <= b < 0xF0 then 3
    else if 0xF0 <= b < 0xF5 then 4
    else 0
  }

  predicate IsContinuation(b: Byte) {
    0x80 <= b < 0xC0
  }

  predicate IsScalar(cp: int) {
    0 <= cp < 0xD800 || 0xE000 <= cp < 0x110000
  }

  /** One well-formed sequence: continuation bytes, no overlong form, no
      surrogate, nothing above U+10FFFF. */
  function DecodeUnit(u: seq<Byte>): Option<char>
    requires 1 <= |u| <= 4
  {
    var cp :=
      if |u| == 1 then u[0] as int
      else if |u| == 2 then (u[0] as int - 0xC0) * 64 + (u[1] as int - 0x80)
      else if |u| == 3 then (u[0] as int - 0xE0) * 4096 + (u[1] as int - 0x80) * 64 + (u[2] as int - 0x80)
      else (u[0] as int - 0xF0) * 262144 + (u[1] as int - 0x80) * 4096 + (u[2] as int - 0x80) * 64
           + (u[3] as int - 0x80);
    var least := if |u| == 1 then 0 else if |u| == 2 then 0x80 else if |u| == 3 then 0x800 else 0x10000;
    if (forall k :: 1 <= k < |u| ==> IsContinuation(u[k])) && least <= cp && IsScalar(cp)
    then Some(cp as char)
    else None
  }

  /** UTF-8 decoding that rejects every ill-formed input. */
  function Utf8Decode(bs: seq<Byte>): Option<string>
    decreases |bs|
  {
    if bs == [] then Some([])
    else
      var n := LeadLength(bs[0]);
      if n == 0 || |bs| < n then None
      else match DecodeUnit(bs[..n])
        case None => None
        case Some(c) =>
          match Utf8Decode(bs[n..])
          case None => None
          case Some(rest) => Some([c] + rest)
  }

  lemma Utf8Unit2(c: char)
    requires 0x80 <= c as int < 0x800
    ensures LeadLength(Utf8(c)[0]) == 2 && DecodeUnit(Utf8(c)) == Some(c)
  {
    var cp := c as int;
    var hi, lo := cp / 64, cp % 64;
    assert hi * 64 + lo == cp;
    assert 2 <= hi < 32;
  }

  lemma Utf8Unit3(c: char)
    requires 0x800 <= c as int < 0x10000
    ensures LeadLength(Utf8(c)[0]) == 3 && DecodeUnit(Utf8(c)) == Some(c)
  {
    var cp := c as int;
    var a, b, d := cp / 4096, (cp / 64) % 64, cp % 64;
    assert (cp / 64) == a * 64 + b;
    assert a * 4096 + b * 64 + d == cp;
    assert a < 16;
  }

  lemma Utf8Unit4(c: char)
    requires 0x10000 <= c as int
    ensures LeadLength(Utf8(c)[0]) == 4 && DecodeUnit(Utf8(c)) == Some(c)
  {
    var cp := c as int;
    assert cp < 0x110000;
    var a, b, d, e := cp / 262144, (cp / 4096) % 64, (cp / 64) % 64, cp % 64;
    assert cp / 4096 == a * 64 + b;
    assert cp / 64 == (cp / 4096) * 64 + d;
    assert a * 262144 + b * 4096 + d * 64 + e == cp;
    assert a < 5;
  }

  lemma Utf8Unit(c: char)
    ensures LeadLength(Utf8(c)[0]) == |Utf8(c)|
    ensures DecodeUnit(Utf8(c)) == Some(c)
  {
    var cp := c as int;
    if cp < 0x80 {
    } else if cp < 0x800 {
      Utf8Unit2(c);
    } else if cp < 0x10000 {
      Utf8Unit3(c);
    } else {
      Utf8Unit4(c);
    }
  }

  /** Decoding the UTF-8 bytes of a string gives the string back. */
  lemma {:induction false} Utf8RoundTrip(s: string)
    ensures Utf8Decode(Utf8All(s)) == Some(s)
  {
    if s != [] {
      var u := Utf8(s[0]);
      var bs := Utf8All(s);
      Utf8Unit(s[0]);
      Utf8RoundTrip(s[1..]);
      assert bs == u + Utf8All(s[1..]);
      assert bs[0] == u[0];
      assert bs[..|u|] == u;
      assert bs[|u|..] == Utf8All(s[1..]);
      assert [s[0]] + s[1..] == s;
    }
  }

  // ---------------------------------------------------------------------
  // Percent-encoding
  // ---------------------------------------------------------------------

  const HexDigits: string := "0123456789ABCDEF"

  /** `%XX` with upper-case hexadecimal digits. */
  function Pct(b: Byte): (r: string)
    ensures |r| == 3 && r[0] == '%'
  {
    ['%', HexDigits[b / 16], HexDigits[b % 16]]
  }

  function PctAll(bs: seq<Byte>): string
  {
    if bs == [] then [] else Pct(bs[0]) + PctAll(bs[1..])
  }

  predicate IsAsciiAlphaNum(c: char) {
    'A' <= c <= 'Z' || 'a' <= c <= 'z' || '0' <= c <= '9'
  }

  /** The characters an encoder leaves as they are: those of
      `encodeURIComponent`, or the attr-chars of section 3.2.1 of RFC 5987. */
  datatype Kept = UriUnreserved | AttrChar

  predicate Keeps(kept: Kept, c: char) {
    match kept
    case UriUnreserved => IsAsciiAlphaNum(c) || c in "-_.!~*'()"
    case AttrChar => IsAsciiAlphaNum(c) || c in "!#$&+-.^_`|~"
  }

  /** Kept characters are ASCII and never `%`. */
  lemma KeptIsAscii(kept: Kept, c: char)
    requires Keeps(kept, c)
    ensures (c as int) < 0x80 && c != '%'
  {
  }

  function EncodeChar(kept: Kept, c: char): string
  {
    if Keeps(kept, c) then [c] else PctAll(Utf8(c))
  }

  function Encode(kept: Kept, s: string): string
  {
    if s == [] then [] else EncodeChar(kept, s[0]) + Encode(kept, s[1..])
  }

  lemma EncodeCons(kept: Kept, c: char, rest: string)
    ensures Encode(kept, [c] + rest) == EncodeChar(kept, c) + Encode(kept, rest)
  {
    assert ([c] + rest)[1..] == rest;
  }

  /** JavaScript `encodeURIComponent` on a string of scalar values. */
  function EncodeURIComponent(s: string): (r: string)
    ensures DecodeValue(r) == Some(s)
  {
    EncodeRoundTrip(UriUnreserved, s);
    Encode(UriUnreserved, s)
  }

  function HexValue(c: char): Option<nat>
  {
    if '0' <= c <= '9' then Some(c as int - '0' as int)
    else if 'A' <= c <= 'F' then Some(c as int - 'A' as int + 10)
    else if 'a' <= c <= 'f' then Some(c as int - 'a' as int + 10)
    else None
  }

  function PrependByte(b: Byte, o: Option<seq<Byte>>): Option<seq<Byte>>
  {
    match o
    case None => None
    case Some(bs) => Some([b] + bs)
  }

  /** The octets a percent-encoded value denotes: `%XX` is one octet, any
      other ASCII character its own code; anything else is malformed. */
  function PercentBytes(s: string): Option<seq<Byte>>
  {
    if s == [] then Some([])
    else if s[0] == '%' then
      if |s| < 3 || HexValue(s[1]).None? || HexValue(s[2]).None? then None
      else PrependByte(HexValue(s[1]).value * 16 + HexValue(s[2]).value, PercentBytes(s[3..]))
    else if (s[0] as int) < 0x80 then PrependByte(s[0] as int, PercentBytes(s[1..]))
    else None
  }

  /** Percent-decoding followed by UTF-8 decoding, as a recipient of an
      ext-value with charset UTF-8 reads it. */
  function DecodeValue(s: string): Option<string>
  {
    match PercentBytes(s)
    case None => None
    case Some(bs) => Utf8Decode(bs)
  }

  function PrependBytes(bs: seq<Byte>, o: Option<seq<Byte>>): Option<seq<Byte>>
  {
    match o
    case None => None
    case Some(t) => Some(bs + t)
  }

  /** One `%XX` triple denotes its octet. */
  lemma PercentBytesOfOne(b: Byte, rest: string)
    ensures PercentBytes(Pct(b) + rest) == PrependByte(b, PercentBytes(rest))
  {
    var hi, lo := b / 16, b % 16;
    HexValueOfDigit(hi);
    HexValueOfDigit(lo);
    PercentBytesOfTriple(HexDigits[hi], HexDigits[lo], rest, hi, lo);
    assert Pct(b) + rest == ['%', HexDigits[hi], HexDigits[lo]] + rest;
    assert hi * 16 + lo == b;
  }

  lemma HexValueOfDigit(d: nat)
    requires d < 16
    ensures HexValue(HexDigits[d]) == Some(d)
  {
    if d < 10 {
      assert HexDigits[d] == ('0' as int + d) as char;
    } else {
      assert HexDigits[d] == ('A' as int + d - 10) as char;
    }
  }

  lemma PercentBytesOfTriple(c1: char, c2: char, rest: string, hi: nat, lo: nat)
    requires HexValue(c1) == Some(hi) && HexValue(c2) == Some(lo) && hi < 16 && lo < 16
    ensures PercentBytes(['%', c1, c2] + rest) == PrependByte(hi * 16 + lo, PercentBytes(rest))
  {
    assert (['%', c1, c2] + rest)[3..] == rest;
  }

  lemma PrependOneThenMany(b: Byte, bs: seq<Byte>, o: Option<seq<Byte>>)
    ensures PrependByte(b, PrependBytes(bs, o)) == PrependBytes([b] + bs, o)
  {
    if o.Some? {
      assert [b] + (bs + o.value) == ([b] + bs) + o.value;
    }
  }

  lemma {:induction false} PercentBytesOfPct(bs: seq<Byte>, rest: string)
    ensures PercentBytes(PctAll(bs) + rest) == PrependBytes(bs, PercentBytes(rest))
  {
    if bs == [] {
      assert PctAll(bs) + rest == rest;
      if PercentBytes(rest).Some? {
        assert bs + PercentBytes(rest).value == PercentBytes(rest).value;
      }
    } else {
      var tail := PctAll(bs[1..]) + rest;
      assert PctAll(bs) + rest == Pct(bs[0]) + tail;
      PercentBytesOfOne(bs[0], tail);
      PercentBytesOfPct(bs[1..], rest);
      PrependOneThenMany(bs[0], bs[1..], PercentBytes(rest));
      assert [bs[0]] + bs[1..] == bs;
    }
  }

  /** The encoded characters denote the UTF-8 bytes of the string. */
  lemma {:induction false} PercentBytesOfEncode(kept: Kept, s: string)
    ensures PercentBytes(Encode(kept, s)) == Some(Utf8All(s))
  {
    if s != [] {
      var c := s[0];
      PercentBytesOfEncode(kept, s[1..]);
      var tail := Encode(kept, s[1..]);
      if Keeps(kept, c) {
        KeptIsAscii(kept, c);
        assert ([c] + tail)[1..] == tail;
      } else {
        PercentBytesOfPct(Utf8(c), tail);
      }
    }
  }

  /** Decoding the encoded string gives it back, for either set of kept
      characters. */
  lemma EncodeRoundTrip(kept: Kept, s: string)
    ensures DecodeValue(Encode(kept, s)) == Some(s)
  {
    PercentBytesOfEncode(kept, s);
    Utf8RoundTrip(s);
  }

  /** The characters an encoding is made of: kept characters, `%` and
      upper-case hexadecimal digits. */
  predicate EncodedChars(kept: Kept, e: string) {
    forall k :: 0 <= k < |e| ==> Keeps(kept, e[k]) || e[k] == '%' || e[k] in HexDigits
  }

  lemma {:induction false} PctAllChars(kept: Kept, bs: seq<Byte>)
    ensures EncodedChars(kept, PctAll(bs))
  {
    if bs != [] {
      PctAllChars(kept, bs[1..]);
      var p := Pct(bs[0]);
      var e := PctAll(bs);
      assert e == p + PctAll(bs[1..]);
      forall k | 0 <= k < |e| ensures Keeps(kept, e[k]) || e[k] == '%' || e[k] in HexDigits {
        if k >= 3 {
          assert e[k] == PctAll(bs[1..])[k - 3];
        }
      }
    }
  }

  lemma {:induction false} EncodeChars(kept: Kept, s: string)
    ensures EncodedChars(kept, Encode(kept, s))
  {
    if s != [] {
      EncodeChars(kept, s[1..]);
      var head := EncodeChar(kept, s[0]);
      var e := Encode(kept, s);
      if !Keeps(kept, s[0]) {
        PctAllChars(kept, Utf8(s[0]));
      }
      forall k | 0 <= k < |e| ensures Keeps(kept, e[k]) || e[k] == '%' || e[k] in HexDigits {
        if k >= |head| {
          assert e[k] == Encode(kept, s[1..])[k - |head|];
        } else {
          assert e[k] == head[k];
        }
      }
    }
  }

  /** `encodeURIComponent` output cannot end the header value early: it
      holds no space, no `;`, no `,` and no `"`. */
  lemma EncodedIsHeaderSafe(s: string)
    ensures forall k :: 0 <= k < |EncodeURIComponent(s)| ==>
              EncodeURIComponent(s)[k] !in " ;,\""
  {
    EncodeChars(UriUnreserved, s);
  }

  // ---------------------------------------------------------------------
  // The header rule
  // ---------------------------------------------------------------------

  const DispositionPrefix: string := "inline; filename*=UTF-8''"

  /** `path.basename` of a path that does not end in `/`: the text after
      the last `/`. */
  function Basename(filePath: string): (r: string)
    ensures NoneIn(r, {'/'}) && EndsWith(filePath, r)
    ensures NoneIn(filePath, {'/'}) ==> r == filePath
  {
    LastSegmentProperties(filePath, {'/'});
    LastSegment(filePath, {'/'})
  }

  function ContentDisposition(name: string): (r: string)
    ensures StartsWith(r, DispositionPrefix)
    ensures DecodeValue(r[|DispositionPrefix|..]) == Some(name)
  {
    var r := DispositionPrefix + EncodeURIComponent(name);
    assert r[|DispositionPrefix|..] == EncodeURIComponent(name);
    r
  }

  /** The value after the prefix decodes to the file's base name. */
  lemma ContentDispositionRoundTrip(filePath: string)
    ensures var h := ContentDisposition(Basename(filePath));
            DecodeValue(h[|DispositionPrefix|..]) == Some(Basename(filePath))
  {
    var h := ContentDisposition(Basename(filePath));
    assert h[|DispositionPrefix|..] == EncodeURIComponent(Basename(filePath));
    EncodeRoundTrip(UriUnreserved, Basename(filePath));
  }

  /** The response headers, by name. */
  class ResponseHeaders {
    var headers: map<string, string>

    constructor ()
      ensures headers == map[]
    {
      headers := map[];
    }

    /** `setHeaders(res, filePath)`: only a path ending in `.pdf` (exactly
        these lower-case letters) gets the two headers. */
    method SetHeaders(filePath: string)
      modifies this
      ensures EndsWith(filePath, ".pdf") ==>
                headers == old(headers)["Content-Type" := "application/pdf"]
                                       ["Content-Disposition" := ContentDisposition(Basename(filePath))]
      ensures !EndsWith(filePath, ".pdf") ==> headers == old(headers)
    {
      if EndsWith(filePath, ".pdf") {
        headers := headers["Content-Type" := "application/pdf"];
        var filename := Basename(filePath);
        var encodedFilename := EncodeURIComponent(filename);
        headers := headers["Content-Disposition" := DispositionPrefix + encodedFilename];
      }
    }
  }

  // ---------------------------------------------------------------------
  // Characters RFC 5987 does not allow unencoded
  // ---------------------------------------------------------------------

  /** `encodeURIComponent` leaves `(`, `)`, `'` and `*` unencoded, but the
      ext-value grammar of section 3.2.1 of RFC 5987 admits only attr-chars
      and `%XX` triples: any base name with a `(` in it, `a(1).pdf` for
      one, yields a header value outside the grammar. */
  lemma {:induction false} UriEncodingLeavesParenthesis(name: string)
    requires '(' in name
    ensures '(' in EncodeURIComponent(name)
    ensures !EncodedChars(AttrChar, EncodeURIComponent(name))
  {
    var e := EncodeURIComponent(name);
    var head := EncodeChar(UriUnreserved, name[0]);
    EncodeCons(UriUnreserved, name[0], name[1..]);
    assert name == [name[0]] + name[1..];
    assert e == head + EncodeURIComponent(name[1..]);
    if name[0] == '(' {
      assert head == ['('];
      ParenthesisOutsideAttrChars(e, 0);
    } else {
      assert '(' in name[1..];
      UriEncodingLeavesParenthesis(name[1..]);
      var t := EncodeURIComponent(name[1..]);
      var k :| 0 <= k < |t| && t[k] == '(';
      assert e[|head| + k] == '(';
      ParenthesisOutsideAttrChars(e, |head| + k);
    }
  }

  lemma ParenthesisOutsideAttrChars(e: string, i: nat)
    requires i < |e| && e[i] == '('
    ensures !EncodedChars(AttrChar, e)
  {
    assert !('(' in HexDigits);
    assert !(Keeps(AttrChar, e[i]) || e[i] == '%' || e[i] in HexDigits);
  }

  /** The disposition with the attr-char encoding: inside the grammar for
      every base name, and still decoding to the base name. */
  function ContentDispositionRfc5987(name: string): (r: string)
    ensures StartsWith(r, DispositionPrefix)
    ensures EncodedChars(AttrChar, r[|DispositionPrefix|..])
    ensures DecodeValue(r[|DispositionPrefix|..]) == Some(name)
  {
    var r := DispositionPrefix + Encode(AttrChar, name);
    assert r[|DispositionPrefix|..] == Encode(AttrChar, name);
    EncodeChars(AttrChar, name);
    EncodeRoundTrip(AttrChar, name);
    r
  }
}
