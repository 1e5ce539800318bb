/** `getFallbackImage`: the ui-avatars placeholder URL built from an entity type
    and an optional name, together with the `encodeURIComponent` it applies to
    the name and, as its inverse, `decodeURIComponent`. */
module Placeholder {
  import opened Wrappers
  import opened Text
  import opened Json

  const BaseUrl := "https://ui-avatars.com/api/"
  /** Everything after the colour: fixed rendering options. */
  const Options := "&color=fff&size=200&bold=true&rounded=true&length=2"
  const DefaultColour := "6b7280"

  /** Background colour per entity type. */
  const ColourTable: map<string, string> := map[
    "movie" := "1e40af",
    "tv_show" := "4338ca",
    "book" := "7c3aed",
    "brand" := "059669",
    "person" := "9d174d",
    "podcast" := "9a3412",
    "artist" := "713f12",
    "destination" := "164e63",
    "place" := "1e40af"]

  predicate IsLowerHex(c: char) {
    '0' <= c <= '9' || 'a' <= c <= 'f'
  }

  /** Six lower-case hexadecimal digits. */
  predicate IsColour(s: string) {
    |s| == 6 && forall i | 0 <= i < 6 :: IsLowerHex(s[i])
  }

  /** `colors[entityType] || '6b7280'`. */
  function Colour(entityType: string): (r: string)
    ensures entityType in ColourTable ==> r == ColourTable[entityType]
    ensures entityType !in ColourTable ==> r == DefaultColour
  {
    if entityType in ColourTable then ColourTable[entityType] else DefaultColour
  }

  /** Every colour, from the table or the default, is six lower-case hex digits. */
  lemma ColoursAreHex(entityType: string)
    ensures IsColour(Colour(entityType))
  {
    var c := Colour(entityType);
    assert c in ColourTable.Values + {DefaultColour};
    forall v | v in ColourTable.Values + {DefaultColour} ensures IsColour(v) {
    }
  }

  // ---------------------------------------------------------------------------
  // encodeURIComponent and decodeURIComponent (section 19.2.6 of ECMA-262)
  // ---------------------------------------------------------------------------

  type Byte = b: int | 0 <= b < 256

  /** The characters `encodeURIComponent` leaves as they are. */
  predicate Unreserved(c: char) {
    || 'A' <= c <= 'Z' || 'a' <= c <= 'z' || '0' <= c <= '9'
    || c == '-' || c == '_' || c == '.' || c == '!' || c == '~'
    || c == '*' || c == '\'' || c == '(' || c == ')'
  }

  predicate IsHexDigit(c: char) {
    '0' <= c <= '9' || 'A' <= c <= 'F' || 'a' <= c <= 'f'
  }

  function HexValue(c: char): (r: nat)
    requires IsHexDigit(c)
    ensures r < 16
  {
    if '0' <= c <= '9' then c as int - 48
    else if 'A' <= c <= 'F' then c as int - 55
    else c as int - 87
  }

  /** An upper-case hexadecimal digit, as escapes are written. */
  function HexDigit(d: nat): (r: char)
    requires d < 16
    ensures IsHexDigit(r) && HexValue(r) == d
    ensures Unreserved(r)
  {
    if d < 10 then (48 + d) as char else (55 + d) as char
  }

  /** The UTF-8 encoding of one code point. */
  function Utf8(c: char): (r: seq<Byte>)
    ensures 1 <= |r| <= 4
    ensures |r| == 1 <==> (c as int) < 0x80
  {
    var n := c as int;
    if n < 0x80 then [n]
    else if n < 0x800 then [0xC0 + n / 64, 0x80 + n % 64]
    else if n < 0x10000 then [0xE0 + n / 4096, 0x80 + (n / 64) % 64, 0x80 + n % 64]
    else [0xF0 + n / 262144, 0x80 + (n / 4096) % 64, 0x80 + (n / 64) % 64, 0x80 + n % 64]
  }

  /** `%XY` for one byte. */
  function Escape(b: Byte): (r: string)
    ensures |r| == 3
  {
    ['%', HexDigit(b / 16), HexDigit(b % 16)]
  }

  function EscapeAll(bs: seq<Byte>): (r: string)
    ensures |r| == 3 * |bs|
  {
    if |bs| == 0 then [] else Escape(bs[0]) + EscapeAll(bs[1..])
  }

  function EncodeChar(c: char): (r: string)
    ensures |r| > 0
  {
    if Unreserved(c) then [c] else EscapeAll(Utf8(c))
  }

  /** A query-parameter value: unreserved characters and `%` escapes only, so
      never a `&`, `=`, `#`, `?` or space that would end or split the parameter. */
  ghost predicate QuerySafe(s: string) {
    forall i | 0 <= i < |s| :: Unreserved(s[i]) || s[i] == '%'
  }

  lemma EscapeAllQuerySafe(bs: seq<Byte>)
    ensures QuerySafe(EscapeAll(bs))
  {
    if |bs| > 0 {
      EscapeAllQuerySafe(bs[1..]);
      var e := Escape(bs[0]);
      var r := EscapeAll(bs[1..]);
      assert forall i | 0 <= i < |e + r| :: (e + r)[i] == if i < 3 then e[i] else r[i - 3];
    }
  }

  lemma EncodeCharQuerySafe(c: char)
    ensures QuerySafe(EncodeChar(c))
  {
    if !Unreserved(c) {
      EscapeAllQuerySafe(Utf8(c));
    }
  }

  /** `encodeURIComponent(s)`. */
  function EncodeURIComponent(s: string): (r: string)
    ensures QuerySafe(r)
    ensures |r| >= |s|
  {
    if |s| == 0 then []
    else
      var head := EncodeChar(s[0]);
      var tail := EncodeURIComponent(s[1..]);
      EncodeCharQuerySafe(s[0]);
      assert forall i | 0 <= i < |head + tail| :: (head + tail)[i] == if i < |head| then head[i] else tail[i - |head|];
      head + tail
  }

  /** A `%XY` escape at the start of `s`. */
  function ReadByte(s: string): (r: Option<Byte>)
    ensures r.Some? ==> |s| >= 3
  {
    if |s| >= 3 && s[0] == '%' && IsHexDigit(s[1]) && IsHexDigit(s[2])
    then Some(HexValue(s[1]) * 16 + HexValue(s[2]))
    else None
  }

  /** `n` consecutive escapes at the start of `s`. */
  function ReadBytes(s: string, n: nat): (r: Option<seq<Byte>>)
    ensures r.Some? ==> |r.value| == n && 3 * n <= |s|
    decreases n
  {
    if n == 0 then Some([])
    else
      match ReadByte(s)
      case None => None
      case Some(b) =>
        match ReadBytes(s[3..], n - 1)
        case None => None
        case Some(bs) => Some([b] + bs)
  }

  /** The length of the sequence a leading byte announces; 0 when it cannot lead. */
  function SequenceLength(b: Byte): nat {
    if b < 0x80 then 1
    else if 0xC0 <= b < 0xE0 then 2
    else if 0xE0 <= b < 0xF0 then 3
    else if 0xF0 <= b < 0xF8 then 4
    else 0
  }

  /** The code point the payload bits of a 1- to 4-byte sequence spell. */
  function Assemble(bs: seq<Byte>): int
    requires 1 <= |bs| <= 4
  {
    var b := seq(|bs|, i requires 0 <= i < |bs| => bs[i] as int);
    if |b| == 1 then b[0]
    else if |b| == 2 then (b[0] - 0xC0) * 64 + (b[1] - 0x80)
    else if |b| == 3 then (b[0] - 0xE0) * 4096 + (b[1] - 0x80) * 64 + (b[2] - 0x80)
    else (b[0] - 0xF0) * 262144 + (b[1] - 0x80) * 4096 + (b[2] - 0x80) * 64 + (b[3] - 0x80)
  }

  /** The character a byte sequence encodes, if it is the valid UTF-8 encoding of
      one: overlong forms, surrogates, bad continuation bytes and values past
      U+10FFFF are refused (a `URIError`). */
  function DecodeOctets(bs: seq<Byte>): (r: Option<char>)
    requires 1 <= |bs| <= 4
    ensures r.Some? ==> Utf8(r.value) == bs
  {
    var cp := Assemble(bs);
    if (0 <= cp < 0xD800 || 0xE000 <= cp < 0x11_0000) && Utf8(cp as char) == bs
    then Some(cp as char)
    else None
  }

  /** `decodeURIComponent(s)`; `None` where it throws a `URIError`. */
  function DecodeURIComponent(s: string): (r: Option<string>)
    decreases |s|
  {
    if |s| == 0 then Some([])
    else if s[0] != '%' then
      match DecodeURIComponent(s[1..])
      case None => None
      case Some(t) => Some([s[0]] + t)
    else
      match ReadByte(s)
      case None => None
      case Some(b0) =>
        var n := SequenceLength(b0);
        if n == 0 then None
        else
          match ReadBytes(s, n)
          case None => None
          case Some(bs) =>
            match DecodeOctets(bs)
            case None => None
            case Some(c) =>
              match DecodeURIComponent(s[3 * n..])
              case None => None
              case Some(t) => Some([c] + t)
  }

  lemma ReadEscape(b: Byte, rest: string)
    ensures ReadByte(Escape(b) + rest) == Some(b)
  {
    var s := Escape(b) + rest;
    assert s[0] == '%' && s[1] == HexDigit(b / 16) && s[2] == HexDigit(b % 16);
  }

  lemma {:induction false} ReadEscapes(bs: seq<Byte>, rest: string)
    ensures ReadBytes(EscapeAll(bs) + rest, |bs|) == Some(bs)
  {
    if |bs| > 0 {
      var s := EscapeAll(bs) + rest;
      assert s == Escape(bs[0]) + (EscapeAll(bs[1..]) + rest);
      ReadEscape(bs[0], EscapeAll(bs[1..]) + rest);
      assert s[3..] == EscapeAll(bs[1..]) + rest;
      ReadEscapes(bs[1..], rest);
      assert [bs[0]] + bs[1..] == bs;
    }
  }

  /** The payload bits of `Utf8(c)` spell `c` again. */
  lemma AssembleUtf8(c: char)
    ensures Assemble(Utf8(c)) == c as int
  {
    var n := c as int;
    var q := n / 64;
    assert n == q * 64 + n % 64;
    if n >= 0x800 {
      var q2 := q / 64;
      assert q == q2 * 64 + q % 64;
      assert n / 4096 == q2;
      if n >= 0x10000 {
        var q3 := q2 / 64;
        assert q2 == q3 * 64 + q2 % 64;
        assert n / 262144 == q3;
        assert (n / 4096) % 64 == q2 % 64;
      }
    }
  }

  lemma LeadAnnouncesLength(c: char)
    ensures SequenceLength(Utf8(c)[0]) == |Utf8(c)|
  {
  }

  lemma DecodeOctetsUtf8(c: char)
    ensures DecodeOctets(Utf8(c)) == Some(c)
  {
    AssembleUtf8(c);
    assert (Assemble(Utf8(c)) as char) == c;
  }

  /** Decoding undoes the encoding of one character. */
  lemma DecodeEncodedChar(c: char, rest: string)
    ensures DecodeURIComponent(EncodeChar(c) + rest) ==
      (match DecodeURIComponent(rest) case None => None case Some(t) => Some([c] + t))
  {
    if Unreserved(c) {
      DecodeUnreservedChar(c, rest);
    } else {
      DecodeEscapedChar(c, rest);
    }
  }

  lemma DecodeUnreservedChar(c: char, rest: string)
    requires Unreserved(c)
    ensures DecodeURIComponent(EncodeChar(c) + rest) ==
      (match DecodeURIComponent(rest) case None => None case Some(t) => Some([c] + t))
  {
    assert (EncodeChar(c) + rest)[1..] == rest;
  }

  lemma DecodeEscapedChar(c: char, rest: string)
    requires !Unreserved(c)
    ensures DecodeURIComponent(EncodeChar(c) + rest) ==
      (match DecodeURIComponent(rest) case None => None case Some(t) => Some([c] + t))
  {
    LeadAnnouncesLength(c);
    DecodeOctetsUtf8(c);
    DecodeEscapes(Utf8(c), c, rest);
  }

  /** The escapes of a complete UTF-8 sequence decode to its character. */
  lemma DecodeEscapes(bs: seq<Byte>, c: char, rest: string)
    requires |bs| > 0 && SequenceLength(bs[0]) == |bs| && DecodeOctets(bs) == Some(c)
    ensures DecodeURIComponent(EscapeAll(bs) + rest) ==
      (match DecodeURIComponent(rest) case None => None case Some(t) => Some([c] + t))
  {
    var s := EscapeAll(bs) + rest;
    assert s == Escape(bs[0]) + (EscapeAll(bs[1..]) + rest);
    ReadEscape(bs[0], EscapeAll(bs[1..]) + rest);
    ReadEscapes(bs, rest);
    assert s[3 * |bs|..] == rest;
  }

  /** `decodeURIComponent(encodeURIComponent(s)) === s` for every string of code points. */
  lemma {:induction false} DecodeEncode(s: string)
    ensures DecodeURIComponent(EncodeURIComponent(s)) == Some(s)
  {
    if |s| > 0 {
      var t := s[1..];
      DecodeEncode(t);
      DecodeStep(s[0], EncodeURIComponent(t), t);
      EncodeCons(s);
      assert [s[0]] + t == s;
    }
  }

  lemma DecodeStep(c: char, rest: string, t: string)
    requires DecodeURIComponent(rest) == Some(t)
    ensures DecodeURIComponent(EncodeChar(c) + rest) == Some([c] + t)
  {
    DecodeEncodedChar(c, rest);
  }

  lemma EncodeCons(s: string)
    requires |s| > 0
    ensures EncodeURIComponent(s) == EncodeChar(s[0]) + EncodeURIComponent(s[1..])
  {
  }

  /** Different strings encode differently. */
  lemma EncodeInjective(s: string, t: string)
    requires EncodeURIComponent(s) == EncodeURIComponent(t)
    ensures s == t
  {
    DecodeEncode(s);
    DecodeEncode(t);
  }

  // ---------------------------------------------------------------------------
  // The URL
  // ---------------------------------------------------------------------------

  /** The URL for a given `name` parameter and colour. */
  function AvatarUrl(text: string, colour: string): string {
    BaseUrl + "?name=" + text + "&background=" + colour + Options
  }

  /** The text drawn on the avatar: up to two characters of a non-empty string
      name, upper-cased and encoded; otherwise the type's first character
      upper-cased, unencoded. A truthy name that is not a string has no
      `substring` method, so the call throws. */
  function AvatarText(entityType: string, name: Option<Value>): (r: Result<string, string>)
    ensures r.Err? <==> TruthyOpt(name) && !name.value.Str?
    ensures r.Ok? && TruthyOpt(name) ==>
      DecodeURIComponent(r.value) == Some(Upper(name.value.s[..if |name.value.s| < 2 then |name.value.s| else 2]))
    ensures r.Ok? && !TruthyOpt(name) ==>
      r.value == if |entityType| == 0 then "" else [UpperChar(entityType[0])]
  {
    if TruthyOpt(name) then
      match name.value
      case Str(s) =>
        var prefix := Upper(s[..if |s| < 2 then |s| else 2]);
        DecodeEncode(prefix);
        Ok(EncodeURIComponent(prefix))
      case _ => Err("name.substring is not a function")
    else if |entityType| == 0 then Ok("")
    else Ok([UpperChar(entityType[0])])
  }

  /** `getFallbackImage(entityType, name)`; an absent name takes the default `''`. */
  function FallbackImage(entityType: string, name: Option<Value>): (r: Result<string, string>)
    ensures r.Err? <==> TruthyOpt(name) && !name.value.Str?
    ensures r.Ok? ==> exists text :: r.value == AvatarUrl(text, Colour(entityType)) && AvatarText(entityType, name) == Ok(text)
  {
    match AvatarText(entityType, name)
    case Err(e) => Err(e)
    case Ok(text) => Ok(AvatarUrl(text, Colour(entityType)))
  }

  /** Reads the `name` and `background` parameters back out of a URL. */
  function ParseAvatarUrl(url: string): (r: Option<(string, string)>) {
    ParseQuery(url, BaseUrl + "?name=", "&background=", Options)
  }

  /** The parser over its fixed pieces: `head` then the name text up to the
      first `&`, then `mid`, six colour digits and `tail`. */
  function ParseQuery(url: string, head: string, mid: string, tail: string): (r: Option<(string, string)>) {
    if |url| < |head| || url[..|head|] != head then None
    else
      var query := url[|head|..];
      match FirstIndexOf(query, '&', 0)
      case None => None
      case Some(amp) =>
        var text := query[..amp];
        var after := query[amp..];
        if |after| == |mid| + 6 + |tail| && after[..|mid|] == mid && after[|mid| + 6..] == tail
        then Some((text, after[|mid|..|mid| + 6]))
        else None
  }

  /** The URL determines its `name` text and its colour: neither can leak into
      the other, since the text never holds a `&`. */
  lemma ParseAvatarUrlInverts(text: string, colour: string)
    requires '&' !in text && |colour| == 6
    ensures ParseAvatarUrl(AvatarUrl(text, colour)) == Some((text, colour))
  {
    var mid := "&background=";
    assert mid[0] == '&';
    ParseQueryInverts(BaseUrl + "?name=", text, mid, colour, Options);
  }

  lemma ParseQueryInverts(head: string, text: string, mid: string, colour: string, tail: string)
    requires '&' !in text && |colour| == 6 && |mid| > 0 && mid[0] == '&'
    ensures ParseQuery(head + text + mid + colour + tail, head, mid, tail) == Some((text, colour))
  {
    var rest := mid + colour + tail;
    var url := head + text + mid + colour + tail;
    assert url == head + (text + rest);
    SplitAfter(head, text + rest);
    FirstAmpersand(text, rest);
    SplitAfter(text, rest);
    ThreeParts(mid, colour, tail);
  }

  lemma SplitAfter(x: string, y: string)
    ensures |x + y| >= |x| && (x + y)[..|x|] == x && (x + y)[|x|..] == y
  {
  }

  /** The first `&` of a query is the one that ends an ampersand-free text. */
  lemma FirstAmpersand(text: string, rest: string)
    requires '&' !in text && |rest| > 0 && rest[0] == '&'
    ensures FirstIndexOf(text + rest, '&', 0) == Some(|text|)
  {
    var q := text + rest;
    assert q[|text|] == '&';
    assert forall k | 0 <= k < |text| :: q[k] == text[k];
  }

  lemma ThreeParts(a: string, b: string, c: string)
    ensures var s := a + b + c;
            && |s| == |a| + |b| + |c|
            && s[..|a|] == a && s[|a|..|a| + |b|] == b && s[|a| + |b|..] == c
  {
    var s := a + b + c;
    assert s[..|a|] == a;
    assert s[|a|..|a| + |b|] == b;
    assert s[|a| + |b|..] == c;
  }

  /** Two placeholder URLs are equal only when their texts and colours are (for
      types that do not start with `&`, the one character the unencoded type
      letter could carry into the query structure). */
  lemma FallbackImageDeterminesParts(t1: string, n1: Option<Value>, t2: string, n2: Option<Value>)
    requires |t1| == 0 || t1[0] != '&'
    requires |t2| == 0 || t2[0] != '&'
    requires FallbackImage(t1, n1).Ok? && FallbackImage(t2, n2).Ok?
    requires FallbackImage(t1, n1) == FallbackImage(t2, n2)
    ensures Colour(t1) == Colour(t2) && AvatarText(t1, n1) == AvatarText(t2, n2)
  {
    var a := AvatarText(t1, n1).value;
    var b := AvatarText(t2, n2).value;
    TextHasNoAmpersand(t1, n1);
    TextHasNoAmpersand(t2, n2);
    ColoursAreHex(t1);
    ColoursAreHex(t2);
    ParseAvatarUrlInverts(a, Colour(t1));
    ParseAvatarUrlInverts(b, Colour(t2));
  }

  lemma TextHasNoAmpersand(entityType: string, name: Option<Value>)
    requires |entityType| == 0 || entityType[0] != '&'
    requires AvatarText(entityType, name).Ok?
    ensures '&' !in AvatarText(entityType, name).value
  {
    var r := AvatarText(entityType, name).value;
    if TruthyOpt(name) {
      assert QuerySafe(r);
      forall i | 0 <= i < |r| ensures r[i] != '&' {
        assert Unreserved(r[i]) || r[i] == '%';
      }
    }
  }
}
