/** Escaping into a bounded buffer (src/cfg.c, `json_escape`) against the strings of JSON (RFC 8259,
    sections 7 and 8.1). What does not fit is left out, byte by byte. */
module JsonEscape {
  import opened CStrings
  import opened JsonText
  import Utf8

  predicate IsByte(c: char) { c as int < 256 }

  /** `iscntrl` in the C locale. */
  predicate Control(c: char) { c < ' ' || c as int == 127 }

  function HexLower(d: nat): char
    requires d < 16
  {
    if d < 10 then ('0' as int + d) as char else ('a' as int + d - 10) as char
  }

  /** The bytes a character takes on its way out. */
  function Width(c: char): (w: nat) {
    if c == '"' || c == '\\' || c == '\n' || c == '\r' || c == '\t' then 2 else if Control(c) then 6 else 1
  }

  /** One character on its way out: itself, a two-character escape, or a `u` escape with four digits. */
  function EscapeChar(c: char): (e: string)
    requires IsByte(c)
    ensures |e| == Width(c)
    ensures |e| == 1 ==> e == [c]
  {
    if c == '"' || c == '\\' then ['\\', c]
    else if c == '\n' then "\\n"
    else if c == '\r' then "\\r"
    else if c == '\t' then "\\t"
    else if Control(c) then "\\u00" + [HexLower(c as int / 16), HexLower(c as int % 16)]
    else [c]
  }

  /** The room tests at offset `j`. A `u` escape also needs the place of the NUL that `snprintf` adds,
      and one more. */
  predicate Fits(w: nat, j: nat, size: nat) {
    if w == 6 then j + 7 < size
    else if w == 2 then j + 2 < size
    else j + 1 < size
  }

  predicate AllBytes(s: string) { forall i :: 0 <= i < |s| ==> IsByte(s[i]) }

  /** The text written from offset `j` on. */
  function Written(src: string, j: nat, size: nat): (w: string)
    requires AllBytes(src) && size >= 7
    ensures j < size ==> j + |w| < size
  {
    if src == "" || j >= size - 1 then ""
    else
      var w := Width(src[0]);
      if Fits(w, j, size) then EscapeChar(src[0]) + Written(src[1..], j + w, size) else Written(src[1..], j, size)
  }

  /** The characters that got in. */
  function Kept(src: string, j: nat, size: nat): (k: string)
    ensures |k| <= |src|
  {
    if src == "" || j >= size - 1 then ""
    else
      var w := Width(src[0]);
      if Fits(w, j, size) then [src[0]] + Kept(src[1..], j + w, size) else Kept(src[1..], j, size)
  }

  // ----- the loop -----

  method Put(dest: array<char>, j: nat, e: string) returns (j': nat)
    requires j + |e| <= dest.Length
    modifies dest
    ensures j' == j + |e| && dest[..j'] == old(dest[..j]) + e
  {
    forall k | 0 <= k < |e| { dest[j + k] := e[k]; }
    j' := j + |e|;
  }

  /** `json_escape`, whose room tests need a buffer of seven bytes or more. */
  method Escape(src: string, dest: array<char>) returns (j: nat)
    requires AllBytes(src) && dest.Length >= 7
    modifies dest
    ensures j < dest.Length && dest[j] == '\0'
    ensures dest[..j] == Written(src, 0, dest.Length)
  {
    j := 0;
    var i := 0;
    assert src[0..] == src;
    while i < |src| && j < dest.Length - 1
      invariant i <= |src| && j < dest.Length
      invariant dest[..j] + Written(src[i..], j, dest.Length) == Written(src, 0, dest.Length)
    {
      var c := src[i];
      var e := EscapeChar(c);
      ghost var before := dest[..j];
      assert src[i..][0] == c && src[i..][1..] == src[i + 1..];
      if Fits(|e|, j, dest.Length) {
        Assoc(before, e, Written(src[i + 1..], j + |e|, dest.Length));
        j := Put(dest, j, e);
      }
      i := i + 1;
    }
    assert Written(src[i..], j, dest.Length) == "";
    assert dest[..j] + "" == dest[..j];
    dest[j] := '\0';
  }

  // ----- reading the text back -----

  lemma HexBack(n: nat)
    requires n < 256
    ensures Hex4("00" + [HexLower(n / 16), HexLower(n % 16)]) == Some(n)
  {
  }

  lemma UnicodeBack(c: char, rest: string)
    requires IsByte(c) && |EscapeChar(c)| == 6
    ensures UnescapeUnicode(EscapeChar(c) + rest) == Some(([c], 6))
  {
    var s := EscapeChar(c) + rest;
    HexBack(c as int);
    assert s[2..6] == "00" + [HexLower(c as int / 16), HexLower(c as int % 16)];
  }

  lemma UnescapeChar(c: char, rest: string)
    requires IsByte(c)
    ensures UnescapeHead(EscapeChar(c) + rest) == Some(([c], |EscapeChar(c)|))
  {
    var s := EscapeChar(c) + rest;
    if |EscapeChar(c)| == 6 {
      UnicodeBack(c, rest);
    }
  }

  /** Whatever was cut, the text keeps to the grammar of section 7, every escape complete, and means the
      kept bytes. */
  lemma {:induction false} WrittenMeansKept(src: string, j: nat, size: nat)
    requires AllBytes(src) && size >= 7
    ensures Unescape(Written(src, j, size)) == Some(Kept(src, j, size))
  {
    if src != "" && j < size - 1 {
      var e := EscapeChar(src[0]);
      if Fits(|e|, j, size) {
        var w := Written(src[1..], j + |e|, size);
        UnescapeChar(src[0], w);
        assert (e + w)[|e|..] == w;
        WrittenMeansKept(src[1..], j + |e|, size);
      } else {
        WrittenMeansKept(src[1..], j, size);
      }
    }
  }

  predicate Subsequence(a: string, b: string) {
    if a == "" then true
    else if b == "" then false
    else if a[0] == b[0] && Subsequence(a[1..], b[1..]) then true
    else Subsequence(a, b[1..])
  }

  lemma {:induction false} KeptInOrder(src: string, j: nat, size: nat)
    requires AllBytes(src) && size >= 7
    ensures Subsequence(Kept(src, j, size), src)
  {
    if src != "" && j < size - 1 {
      var e := EscapeChar(src[0]);
      if Fits(|e|, j, size) {
        KeptInOrder(src[1..], j + |e|, size);
        var k := Kept(src[1..], j + |e|, size);
        assert ([src[0]] + k)[1..] == k;
      } else {
        KeptInOrder(src[1..], j, size);
      }
    }
  }

  // ----- when nothing is lost -----

  function Length(src: string): nat {
    if src == "" then 0 else Width(src[0]) + Length(src[1..])
  }

  /** Room for the whole escaped text: all but one byte of the buffer, unless the text ends with a `u`
      escape; then one less. */
  predicate Roomy(src: string, j: nat, size: nat) {
    src == "" || j + Length(src) + (if Width(src[|src| - 1]) == 6 then 2 else 1) <= size
  }

  lemma {:induction false} KeptAll(src: string, j: nat, size: nat)
    requires AllBytes(src) && size >= 7
    ensures Kept(src, j, size) == src <==> Roomy(src, j, size)
  {
    if src != "" && j < size - 1 {
      var e, rest := EscapeChar(src[0]), src[1..];
      assert src == [src[0]] + rest;
      if Fits(|e|, j, size) {
        KeptAll(rest, j + |e|, size);
        assert Kept(src, j, size)[1..] == Kept(rest, j + |e|, size);
        assert rest != "" ==> rest[|rest| - 1] == src[|src| - 1];
      } else {
        assert |Kept(src, j, size)| < |src|;
        assert rest != "" ==> Length(rest) >= 1;
      }
    }
  }

  /** Escaping into `size` bytes keeps the whole input exactly when the escaped text is at least two
      bytes shorter than the buffer, or one byte shorter and does not end with a `u` escape. */
  lemma Lossless(src: string, size: nat)
    requires AllBytes(src) && size >= 7
    ensures Unescape(Written(src, 0, size)) == Some(src) <==> Roomy(src, 0, size)
  {
    WrittenMeansKept(src, 0, size);
    KeptAll(src, 0, size);
  }

  // ----- when whole UTF-8 characters survive -----

  /** How many bytes of the input the loop looks at before the buffer is full. */
  function Looked(src: string, j: nat, size: nat): (n: nat)
    ensures n <= |src|
  {
    if src == "" || j >= size - 1 then 0
    else
      var w := Width(src[0]);
      1 + Looked(src[1..], if Fits(w, j, size) then j + w else j, size)
  }

  predicate High(c: char) { IsByte(c) && !Utf8.Ascii(c) }

  lemma HighByte(src: string, j: nat, size: nat)
    requires AllBytes(src) && size >= 7 && src != "" && High(src[0]) && j + 1 < size
    ensures Written(src, j, size) == [src[0]] + Written(src[1..], j + 1, size)
    ensures Looked(src, j, size) == 1 + Looked(src[1..], j + 1, size)
  {
    assert Width(src[0]) == 1 && Fits(1, j, size);
  }

  predicate StartsHigh(s: string, n: nat) { n <= |s| && forall i :: 0 <= i < n ==> High(s[i]) }

  lemma HighTail(s: string, n: nat)
    requires StartsHigh(s, n) && n > 0
    ensures StartsHigh(s[1..], n - 1)
  {
    assert forall i :: 0 <= i < n - 1 ==> s[1..][i] == s[i + 1];
  }

  lemma Slices(src: string, n: nat, x: string)
    requires 0 < n <= |src|
    ensures [src[0]] + (src[1..][..n - 1] + x) == src[..n] + x && src[1..][n - 1..] == src[n..]
  {
    assert [src[0]] + src[1..][..n - 1] == src[..n];
  }

  /** Bytes of multi-byte characters are copied as they are, one by one, until the buffer is full. */
  lemma {:induction false} HighWritten(src: string, j: nat, size: nat, n: nat)
    requires AllBytes(src) && size >= 7 && n <= |src| && j + n <= size - 1 && StartsHigh(src, n)
    ensures Written(src, j, size) == src[..n] + Written(src[n..], j + n, size)
  {
    if n == 0 {
      assert src[0..] == src && src[..0] == "";
    } else {
      HighByte(src, j, size);
      HighTail(src, n);
      HighWritten(src[1..], j + 1, size, n - 1);
      Slices(src, n, Written(src[n..], j + n, size));
    }
  }

  lemma {:induction false} HighLooked(src: string, j: nat, size: nat, n: nat)
    requires AllBytes(src) && size >= 7 && n <= |src| && j + n <= size - 1 && StartsHigh(src, n)
    ensures Looked(src, j, size) == n + Looked(src[n..], j + n, size)
  {
    if n == 0 {
      assert src[0..] == src;
    } else {
      HighByte(src, j, size);
      HighTail(src, n);
      HighLooked(src[1..], j + 1, size, n - 1);
      assert src[1..][n - 1..] == src[n..];
    }
  }

  lemma HeadBytes(src: string)
    requires AllBytes(src) && src != "" && Utf8.Head(src) > 1
    ensures StartsHigh(src, Utf8.Head(src))
  {
  }

  lemma EscapeAscii(c: char)
    requires IsByte(c) && Utf8.Ascii(c)
    ensures forall x :: x in EscapeChar(c) ==> Utf8.Ascii(x)
  {
  }

  /** The loop stops between two characters: at the end, or before a byte that starts one. */
  predicate StopsBetween(src: string, j: nat, size: nat) {
    var n := Looked(src, j, size);
    n == |src| || !Utf8.Continuation(src[n])
  }

  /** For an input in UTF-8, what is written is in UTF-8 exactly when the loop did not run out of room inside
      a character. Characters left out earlier do no harm. */
  lemma {:induction false} WholeCharacters(src: string, j: nat, size: nat)
    requires AllBytes(src) && size >= 7 && j < size && Utf8.Valid(src)
    ensures Utf8.Valid(Written(src, j, size)) <==> StopsBetween(src, j, size)
    decreases |src|, 2
  {
    if src == "" {
    } else if j >= size - 1 {
      assert Utf8.Head(src) > 0 && !Utf8.Continuation(src[0]);
    } else if Utf8.Ascii(src[0]) {
      AsciiStep(src, j, size);
    } else {
      HighStep(src, j, size);
    }
  }

  lemma {:induction false} AsciiStep(src: string, j: nat, size: nat)
    requires AllBytes(src) && size >= 7 && j < size - 1 && Utf8.Valid(src) && src != "" && Utf8.Ascii(src[0])
    ensures Utf8.Valid(Written(src, j, size)) <==> StopsBetween(src, j, size)
    decreases |src|, 0
  {
    var e, rest := EscapeChar(src[0]), src[1..];
    var j' := if Fits(|e|, j, size) then j + |e| else j;
    assert Utf8.Head(src) == 1;
    WholeCharacters(rest, j', size);
    EscapeAscii(src[0]);
    Utf8.AsciiPrefix(e, Written(rest, j', size));
    var n := Looked(rest, j', size);
    assert n < |rest| ==> src[n + 1] == rest[n];
  }

  lemma {:induction false} HighStep(src: string, j: nat, size: nat)
    requires AllBytes(src) && size >= 7 && j < size - 1 && Utf8.Valid(src) && src != "" && !Utf8.Ascii(src[0])
    ensures Utf8.Valid(Written(src, j, size)) <==> StopsBetween(src, j, size)
    decreases |src|, 1
  {
    HeadBytes(src);
    if j + Utf8.Head(src) <= size - 1 {
      HighFits(src, j, size);
    } else {
      HighCut(src, j, size);
    }
  }

  lemma {:induction false} HighFits(src: string, j: nat, size: nat)
    requires AllBytes(src) && size >= 7 && Utf8.Valid(src) && src != ""
    requires StartsHigh(src, Utf8.Head(src)) && j + Utf8.Head(src) <= size - 1
    ensures Utf8.Valid(Written(src, j, size)) <==> StopsBetween(src, j, size)
    decreases |src|, 0
  {
    var h := Utf8.Head(src);
    HighWritten(src, j, size, h);
    HighLooked(src, j, size, h);
    WholeCharacters(src[h..], j + h, size);
    Utf8.HeadStands(src, Written(src[h..], j + h, size));
    var n := Looked(src[h..], j + h, size);
    assert n < |src[h..]| ==> src[h + n] == src[h..][n];
  }

  lemma HighCut(src: string, j: nat, size: nat)
    requires AllBytes(src) && size >= 7 && src != "" && j < size - 1
    requires StartsHigh(src, Utf8.Head(src)) && j + Utf8.Head(src) > size - 1
    ensures !Utf8.Valid(Written(src, j, size)) && !StopsBetween(src, j, size)
  {
    var m := size - 1 - j;
    HighWritten(src, j, size, m);
    HighLooked(src, j, size, m);
    assert Written(src[m..], j + m, size) == "" && src[..m] + "" == src[..m];
    Utf8.BrokenHead(src, m);
  }

  // ----- the same in terms of the input -----

  lemma {:induction false} LookedAll(src: string, j: nat, size: nat)
    requires size >= 7 && Roomy(src, j, size)
    ensures Looked(src, j, size) == |src|
  {
    if src != "" {
      var rest := src[1..];
      LengthAtLeast(rest);
      assert rest != "" ==> rest[|rest| - 1] == src[|src| - 1];
      LookedAll(rest, j + Width(src[0]), size);
    }
  }

  lemma LengthAtLeast(src: string)
    ensures Length(src) >= |src|
    ensures src != "" ==> Length(src) >= Width(src[|src| - 1])
  {
  }

  /** Where nothing is lost, UTF-8 stays UTF-8. */
  lemma RoomyWhole(src: string, size: nat)
    requires AllBytes(src) && size >= 7 && Utf8.Valid(src) && Roomy(src, 0, size)
    ensures Utf8.Valid(Written(src, 0, size))
  {
    LookedAll(src, 0, size);
    WholeCharacters(src, 0, size);
  }

  /** No character needs an escape. */
  predicate NoEscapes(src: string) { forall i :: 0 <= i < |src| ==> Width(src[i]) == 1 }

  lemma {:induction false} LookedPlain(src: string, j: nat, size: nat)
    requires size >= 7 && j < size && NoEscapes(src)
    ensures Looked(src, j, size) == if |src| <= size - 1 - j then |src| else size - 1 - j
  {
    if src != "" && j < size - 1 {
      assert Width(src[0]) == 1 && Fits(1, j, size);
      assert NoEscapes(src[1..]);
      LookedPlain(src[1..], j + 1, size);
    }
  }

  /** An input in UTF-8 without characters to escape stays UTF-8 exactly when it is shorter than the buffer,
      or its first byte that does not fit starts a character. */
  lemma PlainWhole(src: string, size: nat)
    requires AllBytes(src) && size >= 7 && Utf8.Valid(src) && NoEscapes(src)
    ensures Utf8.Valid(Written(src, 0, size)) <==> |src| < size || !Utf8.Continuation(src[size - 1])
  {
    LookedPlain(src, 0, size);
    WholeCharacters(src, 0, size);
  }

  /** Text that JSON takes as it is, and that holds no delete character, is copied, up to the size of the buffer. */
  lemma {:induction false} PlainCopied(src: string, j: nat, size: nat)
    requires AllBytes(src) && size >= 7 && j < size
    requires forall i :: 0 <= i < |src| ==> Plain(src[i]) && src[i] as int != 127
    ensures Written(src, j, size) == src[..if |src| <= size - 1 - j then |src| else size - 1 - j]
  {
    if src != "" && j < size - 1 {
      assert Width(src[0]) == 1 && Fits(1, j, size);
      PlainCopied(src[1..], j + 1, size);
      var n := if |src| <= size - 1 - j then |src| else size - 1 - j;
      assert src[..n] == [src[0]] + src[1..][..n - 1];
    }
  }

  /** No control character is written as it is, the delete character included. */
  lemma {:induction false} NoControls(src: string, j: nat, size: nat)
    requires AllBytes(src) && size >= 7
    ensures forall c :: c in Written(src, j, size) ==> c >= ' ' && c as int != 127
  {
    if src != "" && j < size - 1 {
      EscapedVisible(src[0]);
      NoControls(src[1..], if Fits(Width(src[0]), j, size) then j + Width(src[0]) else j, size);
    }
  }

  lemma EscapedVisible(c: char)
    requires IsByte(c)
    ensures forall x :: x in EscapeChar(c) ==> x >= ' ' && x as int != 127
  {
  }

  predicate Shorthand(c: char) { c in {'"', '\\', '\n', '\r', '\t'} }

  function Short(src: string): nat {
    if src == "" then 0 else (if Shorthand(src[0]) then 1 else 0) + Short(src[1..])
  }

  /** The other control characters and the delete character. */
  function Long(src: string): nat {
    if src == "" then 0
    else (if !Shorthand(src[0]) && (src[0] < ' ' || src[0] as int == 127) then 1 else 0) + Long(src[1..])
  }

  /** Escaping adds one byte for each quote, backslash, newline, return and tab, five for each other control
      character, and nothing else. */
  lemma {:induction false} EscapedLength(src: string)
    ensures Length(src) == |src| + Short(src) + 5 * Long(src)
  {
    if src != "" {
      EscapedLength(src[1..]);
    }
  }
}
