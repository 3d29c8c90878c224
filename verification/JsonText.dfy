/** The text of JSON strings (RFC 8259, section 7): what stands for itself, and what the escapes mean.
    Texts are bytes; an escaped code point means its UTF-8 bytes. */
module JsonText {
  import opened CStrings
  import opened Params

  /** A character that stands for itself inside a string. */
  predicate Plain(c: char) { c != '"' && c != '\\' && c >= ' ' }

  predicate PlainText(s: string) { forall c :: c in s ==> Plain(c) }

  /** The UTF-8 encoding of a code point. */
  function Utf8Of(u: nat): (s: string)
    requires u < 0x11_0000
    ensures 1 <= |s| <= 4
  {
    if u < 0x80 then [u as char]
    else if u < 0x800 then [(0xc0 + u / 64) as char, (0x80 + u % 64) as char]
    else if u < 0x1_0000 then
      [(0xe0 + u / 4096) as char, (0x80 + u / 64 % 64) as char, (0x80 + u % 64) as char]
    else
      [(0xf0 + u / 262144) as char, (0x80 + u / 4096 % 64) as char,
       (0x80 + u / 64 % 64) as char, (0x80 + u % 64) as char]
  }

  function Hex4(s: string): (n: Option<nat>)
    requires |s| == 4
    ensures n.Some? ==> n.value < 0x1_0000
  {
    if IsHexDigit(s[0]) && IsHexDigit(s[1]) && IsHexDigit(s[2]) && IsHexDigit(s[3]) then
      Some(((HexVal(s[0]) * 16 + HexVal(s[1])) * 16 + HexVal(s[2])) * 16 + HexVal(s[3]))
    else None
  }

  /** The code of a `u` escape at the head of the text. */
  function UnicodeAt(s: string): (u: Option<nat>)
    ensures u.Some? ==> u.value < 0x1_0000 && |s| >= 6
  {
    if |s| >= 6 && s[0] == '\\' && s[1] == 'u' then Hex4(s[2..6]) else None
  }

  /** A `u` escape, or two that are a surrogate pair: the bytes and the length. */
  function UnescapeUnicode(s: string): (r: Option<(string, nat)>)
    ensures r.Some? ==> |r.value.0| < r.value.1 <= |s|
  {
    var u := UnicodeAt(s);
    if u.None? then None
    else
      var low := if |s| >= 6 then UnicodeAt(s[6..]) else None;
      if 0xd800 <= u.value < 0xdc00 && low.Some? && 0xdc00 <= low.value < 0xe000 then
        Some((Utf8Of(0x1_0000 + (u.value - 0xd800) * 0x400 + (low.value - 0xdc00)), 12))
      else Some((Utf8Of(u.value), 6))
  }

  function Simple(c: char): Option<char> {
    if c == '"' || c == '\\' || c == '/' then Some(c)
    else if c == 'b' then Some(8 as char)
    else if c == 'f' then Some(12 as char)
    else if c == 'n' then Some('\n')
    else if c == 'r' then Some('\r')
    else if c == 't' then Some('\t')
    else None
  }

  /** The byte or escape at the head of the text: the bytes it means and its length. Every escape is
      longer than what it means. */
  function UnescapeHead(s: string): (r: Option<(string, nat)>)
    requires s != ""
    ensures r.Some? ==> 1 <= r.value.1 <= |s|
    ensures r.Some? && s[0] == '\\' ==> |r.value.0| < r.value.1
    ensures Plain(s[0]) ==> r == Some(([s[0]], 1))
    ensures !Plain(s[0]) && s[0] != '\\' ==> r == None
  {
    if s[0] == '"' || s[0] < ' ' then None
    else if s[0] != '\\' then Some(([s[0]], 1))
    else if |s| >= 2 && Simple(s[1]).Some? then Some(([Simple(s[1]).value], 2))
    else UnescapeUnicode(s)
  }

  /** The meaning of a text, if it is well formed. */
  function Unescape(s: string): Option<string>
    decreases |s|
  {
    if s == "" then Some("")
    else
      var h := UnescapeHead(s);
      if h.None? then None
      else
        var t := Unescape(s[h.value.1..]);
        if t.None? then None else Some(h.value.0 + t.value)
  }

  /** The text up to the closing quote: its meaning, and what follows the quote. */
  function StringTail(s: string): (r: Option<(string, string)>)
    ensures r.Some? ==> |r.value.1| < |s|
    decreases |s|
  {
    if s == "" then None
    else if s[0] == '"' then Some(("", s[1..]))
    else
      var h := UnescapeHead(s);
      if h.None? then None
      else
        var t := StringTail(s[h.value.1..]);
        if t.None? then None else Some((h.value.0 + t.value.0, t.value.1))
  }

  lemma {:induction false} PlainTail(text: string, rest: string)
    requires PlainText(text)
    ensures StringTail(text + "\"" + rest) == Some((text, rest))
  {
    var s := text + "\"" + rest;
    if text == "" {
      assert s[1..] == rest;
    } else {
      assert s[0] == text[0] && s[1..] == text[1..] + "\"" + rest;
      assert text[0] in text;
      PlainTail(text[1..], rest);
      assert [text[0]] + text[1..] == text;
    }
  }

  /** The quote and the meaning are never longer than the text, and as long only if nothing was escaped. */
  lemma {:induction false} TailShorter(s: string)
    requires StringTail(s).Some?
    ensures var t := StringTail(s).value;
            |t.0| + 1 + |t.1| <= |s| && (|t.0| + 1 + |t.1| == |s| ==> PlainText(t.0) && s == t.0 + "\"" + t.1)
    decreases |s|
  {
    if s[0] == '"' {
      assert s == "\"" + s[1..];
    } else {
      var n := UnescapeHead(s).value.1;
      TailShorter(s[n..]);
      if s[0] != '\\' {
        var t := StringTail(s[1..]).value;
        assert s == [s[0]] + s[1..];
        OneMore(s[0], t.0, t.1);
      }
    }
  }

  lemma OneMore(c: char, t: string, r: string)
    ensures [c] + (t + "\"" + r) == ([c] + t) + "\"" + r
  {
  }
}
