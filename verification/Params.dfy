/** A Grafana query body on its way through the parameter string: percent-encoded in the gateway
    (gate/main.c), extracted and decoded in the backend (src/handler.c). */
module Params {
  import opened CStrings

  // ----- percent encoding -----

  /** The bytes that would break the parameter string. */
  predicate Special(c: char) { c == '&' || c == '=' || c == '%' || c == '+' }

  function HexUpper(d: nat): char
    requires d < 16
  {
    if d < 10 then ('0' as int + d) as char else ('A' as int + d - 10) as char
  }

  /** One byte on the way out: itself, or `%` and two upper-case hex digits. */
  function EncodeByte(c: char): string {
    if Special(c) then ['%', HexUpper(c as int / 16), HexUpper(c as int % 16)] else [c]
  }

  function Encode(s: string): string {
    if s == "" then "" else EncodeByte(s[0]) + Encode(s[1..])
  }

  method UrlEncode(s: string) returns (out: string)
    ensures out == Encode(s)
  {
    out := "";
    var i := 0;
    while i < |s|
      invariant 0 <= i <= |s|
      invariant out + Encode(s[i..]) == Encode(s)
    {
      assert s[i..][0] == s[i] && s[i..][1..] == s[i + 1..];
      assert out + (EncodeByte(s[i]) + Encode(s[i + 1..])) == (out + EncodeByte(s[i])) + Encode(s[i + 1..]);
      out := out + EncodeByte(s[i]);
      i := i + 1;
    }
    assert s[i..] == "" && out + "" == out;
  }

  // ----- decoding -----

  function HexVal(c: char): int {
    if '0' <= c <= '9' then c as int - '0' as int
    else if 'a' <= c <= 'f' then c as int - 'a' as int + 10
    else if 'A' <= c <= 'F' then c as int - 'A' as int + 10
    else -1
  }

  predicate IsHexDigit(c: char) { '0' <= c <= '9' || 'a' <= c <= 'f' || 'A' <= c <= 'F' }

  /** The byte at the head of `s` decoded, and how many bytes it took. */
  function DecodeHead(s: string): (r: (char, nat))
    requires s != ""
    ensures 1 <= r.1 <= |s|
  {
    if s[0] == '+' then (' ', 1)
    else if s[0] == '%' && 2 < |s| && IsHexDigit(s[1]) && IsHexDigit(s[2]) then
      ((HexVal(s[1]) * 16 + HexVal(s[2])) as char, 3)
    else (s[0], 1)
  }

  function Decode(s: string): string
    decreases |s|
  {
    if s == "" then "" else [DecodeHead(s).0] + Decode(s[DecodeHead(s).1..])
  }

  method UrlDecode(enc: string) returns (out: string)
    ensures out == Decode(enc)
  {
    out := "";
    var i := 0;
    while i < |enc|
      invariant 0 <= i <= |enc|
      invariant out + Decode(enc[i..]) == Decode(enc)
    {
      DecodeStep(out, enc, i);
      var c := enc[i];
      if c == '+' {
        out := out + [' '];
      } else if c == '%' && i + 2 < |enc| && IsHexDigit(enc[i + 1]) && IsHexDigit(enc[i + 2]) {
        var hi, lo := HexVal(enc[i + 1]), HexVal(enc[i + 2]);
        out := out + [(hi * 16 + lo) as char];
        i := i + 2;
      } else {
        out := out + [c];
      }
      i := i + 1;
    }
    assert enc[i..] == "" && out + "" == out;
  }

  lemma DecodeStep(out: string, enc: string, i: nat)
    requires i < |enc|
    ensures var (c, n) := DecodeHead(enc[i..]);
            i + n <= |enc| && out + Decode(enc[i..]) == (out + [c]) + Decode(enc[i + n..])
  {
    var rest := enc[i..];
    var (c, n) := DecodeHead(rest);
    assert rest[n..] == enc[i + n..];
    assert out + ([c] + Decode(rest[n..])) == (out + [c]) + Decode(rest[n..]);
  }

  /** Decoding undoes encoding, byte for byte, whatever the text around it. */
  lemma {:induction false} DecodeEncode(s: string)
    ensures Decode(Encode(s)) == s
  {
    if s != "" {
      var e, rest := EncodeByte(s[0]), Encode(s[1..]);
      DecodeEncodedByte(s[0], rest);
      assert (e + rest)[|e|..] == rest;
      DecodeEncode(s[1..]);
      assert s == [s[0]] + s[1..];
    }
  }

  lemma DecodeEncodedByte(c: char, rest: string)
    ensures DecodeHead(EncodeByte(c) + rest) == (c, |EncodeByte(c)|)
  {
    var t := EncodeByte(c) + rest;
    if Special(c) {
      assert t[0] == '%' && t[1] == HexUpper(c as int / 16) && t[2] == HexUpper(c as int % 16);
    } else {
      assert t[0] == c;
    }
  }

  /** Encoded text holds no separators of the parameter string. */
  lemma {:induction false} EncodeHasNoSeparators(s: string)
    ensures '&' !in Encode(s) && '=' !in Encode(s) && '+' !in Encode(s)
  {
    if s != "" {
      EncodeHasNoSeparators(s[1..]);
    }
  }

  // ----- parameters -----

  /** `handler_get_param`: the text after the first `key=`, up to the next `&`. The search text is cut
      at 255 bytes. */
  function GetParam(params: string, key: string): Option<string> {
    var search := Cut(key + "=", 255);
    match StrStr(params, search)
    case None => None
    case Some(p) => Some(Until(p[|search|..], '&'))
  }

  const QUERY := "endpoint=_grafana/query&body="

  /** What the gateway sends for a query body, unless it is longer than the parameter buffer. */
  function QueryParams(body: string, cap: nat): Option<string>
  {
    var params := QUERY + Encode(body);
    if |params| >= cap then None else Some(params)
  }

  predicate EndsWith(s: string, key: string) {
    |key| <= |s| && s[|s| - |key|..] == key
  }

  /** A key is found exactly when the text before some equals sign ends with it. */
  lemma KeyBeforeEquals(s: string, key: string)
    requires |key| < 255
    ensures GetParam(s, key).Some? <==> exists e :: 0 <= e < |s| && s[e] == '=' && EndsWith(s[..e], key)
  {
    var pat := key + "=";
    StrStrSome(s, pat);
    forall i | 0 <= i <= |s| && pat <= s[i..]
      ensures i + |key| < |s| && s[i + |key|] == '=' && EndsWith(s[..i + |key|], key)
    {
      KeyHere(s, key, i);
    }
    forall e | 0 <= e < |s| && s[e] == '=' && EndsWith(s[..e], key)
      ensures pat <= s[e - |key|..]
    {
      KeyHere(s, key, e - |key|);
    }
  }

  lemma KeyHere(s: string, key: string, i: nat)
    requires i <= |s|
    ensures key + "=" <= s[i..] <==> i + |key| < |s| && s[i + |key|] == '=' && EndsWith(s[..i + |key|], key)
  {
    var pat := key + "=";
    if i + |key| < |s| {
      assert s[..i + |key|][i..] == s[i..][..|key|];
      assert s[i..][..|pat|] == s[i..][..|key|] + [s[i + |key|]];
      assert pat[..|key|] == key && pat[|key|] == '=';
      assert pat <= s[i..] <==> pat == s[i..][..|pat|];
    }
  }

  lemma QueryEquals(enc: string)
    requires '=' !in enc
    ensures forall e :: 0 <= e < |QUERY + enc| && (QUERY + enc)[e] == '=' ==> e == 8 || e == 28
    ensures (QUERY + enc)[8] == '=' && (QUERY + enc)[28] == '='
    ensures (QUERY + enc)[..8] == "endpoint" && (QUERY + enc)[..28] == "endpoint=" + "_grafana/query&body"
  {
    var s := QUERY + enc;
    assert forall e :: |QUERY| <= e < |s| ==> s[e] == enc[e - |QUERY|] && s[e] in enc;
  }

  /** Which keys can be found in what the gateway sends, for any body: only "endpoint" and "body" and
      the texts they end with. */
  lemma QueryKeys(body: string, key: string)
    requires '=' !in key && |key| < 255
    ensures GetParam(QUERY + Encode(body), key).Some?
      <==> EndsWith("endpoint", key) || EndsWith("_grafana/query&body", key)
  {
    var enc := Encode(body);
    var s := QUERY + enc;
    EncodeHasNoSeparators(body);
    KeyBeforeEquals(s, key);
    QueryEquals(enc);
    SuffixAfter("endpoint=", "_grafana/query&body", key);
    assert s[8] == '=' && s[28] == '=';
  }

  /** A text without equals signs that ends `a` + `b`, where `a` ends with one, ends `b`. */
  lemma SuffixAfter(a: string, b: string, key: string)
    requires a != "" && a[|a| - 1] == '=' && '=' !in key
    ensures EndsWith(a + b, key) <==> EndsWith(b, key)
  {
    var t := a + b;
    if EndsWith(t, key) {
      assert forall k :: 0 <= k < |key| ==> key[k] in key && key[k] == t[|t| - |key| + k];
      assert t[|a| - 1] == '=';
      assert |key| <= |b| ==> t[|t| - |key|..] == b[|b| - |key|..];
    }
    if EndsWith(b, key) {
      assert t[|t| - |key|..] == b[|b| - |key|..];
    }
  }

  /** No body can smuggle in another parameter the backend looks for. */
  lemma NoOtherParameter(body: string, key: string)
    requires key in {"period", "width", "height", "theme"}
    ensures GetParam(QUERY + Encode(body), key) == None
  {
    QueryKeys(body, key);
    var a, b := "endpoint", "_grafana/query&body";
    assert a[7] == 't' && a[6] == 'n' && b[18] == 'y';
    if key == "height" {
      assert key[5] == 't' && key[4] == 'h';
      assert a[|a| - 6..][4] == 'n';
      assert b[|b| - 6..][5] == 'y';
    } else {
      var n := |key|;
      assert key[n - 1] == 'd' || key[n - 1] == 'h' || key[n - 1] == 'e';
      assert a[|a| - n..][n - 1] == 't';
      assert b[|b| - n..][n - 1] == 'y';
    }
  }

  /** A body is turned away exactly when its encoded form does not fit the buffer; else the backend reads
      back the endpoint and, after decoding, exactly the body. */
  lemma BodyArrives(body: string, cap: nat)
    ensures var params := QueryParams(body, cap);
            if |Encode(body)| >= cap - 29 then params == None
            else params.Some? && GetParam(params.value, "endpoint") == Some("_grafana/query")
                 && GetParam(params.value, "body").Some? && Decode(GetParam(params.value, "body").value) == body
  {
    EncodeHasNoSeparators(body);
    DecodeEncode(body);
    EndpointParam(Encode(body));
    BodyParam(Encode(body));
  }

  lemma EndpointParam(enc: string)
    ensures GetParam(QUERY + enc, "endpoint") == Some("_grafana/query")
  {
    var after := "_grafana/query" + ['&'] + ("body=" + enc);
    assert QUERY + enc == "endpoint=" + after;
    assert "endpoint" + "=" == "endpoint=";
    UntilAt("_grafana/query", "body=" + enc, '&');
  }

  lemma BodyParam(enc: string)
    requires '&' !in enc
    ensures GetParam(QUERY + enc, "body") == Some(enc)
  {
    var pre := "endpoint=_grafana/query&";
    assert QUERY + enc == pre + ("body=" + enc);
    assert "body" + "=" == "body=";
    StrStrSkip(pre, "body=" + enc, "body=");
    assert ("body=" + enc)[5..] == enc;
    UntilAt(enc, "", '&');
  }

  // ----- what else the decoder understands -----

  /** Any byte may come escaped, in digits of either case, and a blank may come as a plus sign. */
  predicate Stands(piece: string, c: char) {
    (piece == [c] && c != '%' && c != '+')
    || (piece == "+" && c == ' ')
    || (|piece| == 3 && piece[0] == '%' && IsHexDigit(piece[1]) && IsHexDigit(piece[2])
        && c as int == 16 * Digit(piece[1]) + Digit(piece[2]))
  }

  function Digit(c: char): int
    requires IsHexDigit(c)
  {
    if c <= '9' then c as int - 48 else if c <= 'F' then c as int - 55 else c as int - 87
  }

  function Glued(pieces: seq<string>): string { if pieces == [] then "" else pieces[0] + Glued(pieces[1..]) }

  /** However the bytes of a text are written, the text is decoded. */
  lemma {:induction false} DecodePieces(pieces: seq<string>, s: string)
    requires |pieces| == |s| && forall i :: 0 <= i < |s| ==> Stands(pieces[i], s[i])
    ensures Decode(Glued(pieces)) == s
  {
    if s != "" {
      var rest := Glued(pieces[1..]);
      assert forall i :: 0 <= i < |s| - 1 ==> pieces[1..][i] == pieces[i + 1] && s[1..][i] == s[i + 1];
      DecodePieces(pieces[1..], s[1..]);
      StandsDecoded(pieces[0], s[0], rest);
      assert [s[0]] + s[1..] == s;
    }
  }

  lemma StandsDecoded(piece: string, c: char, rest: string)
    requires Stands(piece, c)
    ensures piece + rest != "" && DecodeHead(piece + rest) == (c, |piece|) && (piece + rest)[|piece|..] == rest
  {
    var enc := piece + rest;
    assert enc[0] == piece[0];
    if |piece| == 3 {
      assert enc[1] == piece[1] && enc[2] == piece[2];
      DigitIsHex(piece[1]);
      DigitIsHex(piece[2]);
    }
  }

  lemma DigitIsHex(c: char)
    requires IsHexDigit(c)
    ensures HexVal(c) == Digit(c)
  {
  }

  /** A percent sign that two hex digits do not follow stands for itself. */
  lemma IncompleteEscape(rest: string)
    requires |rest| < 2 || !IsHexDigit(rest[0]) || !IsHexDigit(rest[1])
    ensures Decode("%" + rest) == "%" + Decode(rest)
  {
    assert ("%" + rest)[1..] == rest;
  }

  /** How many bytes have to be escaped. */
  function Breaking(s: string): nat {
    if s == "" then 0 else (if s[0] in {'&', '=', '%', '+'} then 1 else 0) + Breaking(s[1..])
  }

  /** Encoding adds two bytes for each ampersand, equals, percent and plus sign, and nothing else. */
  lemma {:induction false} EncodedLength(s: string)
    ensures |Encode(s)| == |s| + 2 * Breaking(s)
  {
    if s != "" {
      EncodedLength(s[1..]);
    }
  }

  /** The four escapes, in upper-case digits. */
  lemma EscapesAre()
    ensures Encode("&=%+") == "%26%3D%25%2B"
  {
    var s := "&=%+";
    assert s[1..] == "=%+" && s[1..][1..] == "%+" && s[1..][1..][1..] == "+";
    assert EncodeByte('&') == "%26" && EncodeByte('=') == "%3D" && EncodeByte('%') == "%25";
    assert EncodeByte('+') == "%2B" && Encode(s[1..][1..][1..]) == "%2B";
  }
}
