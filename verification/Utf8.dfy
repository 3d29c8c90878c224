/** Well-formed UTF-8 (RFC 3629, section 4), over bytes. */
module Utf8 {

  predicate Continuation(c: char) { 0x80 <= c as int < 0xc0 }

  predicate Ascii(c: char) { c as int < 0x80 }

  /** The length of the character a text starts with, or 0 if it starts with none. */
  function Head(s: string): (n: nat)
    requires s != ""
    ensures n <= 4 && n <= |s|
  {
    var b := s[0] as int;
    if b < 0x80 then 1
    else if 0xc2 <= b < 0xe0 && |s| >= 2 && Continuation(s[1]) then 2
    else if 0xe0 <= b < 0xf0 && |s| >= 3 && Continuation(s[1]) && Continuation(s[2])
         && (b == 0xe0 ==> s[1] as int >= 0xa0) && (b == 0xed ==> (s[1] as int) < 0xa0) then 3
    else if 0xf0 <= b < 0xf5 && |s| >= 4 && Continuation(s[1]) && Continuation(s[2]) && Continuation(s[3])
         && (b == 0xf0 ==> s[1] as int >= 0x90) && (b == 0xf4 ==> (s[1] as int) < 0x90) then 4
    else 0
  }

  predicate Valid(s: string) {
    s == "" || (Head(s) > 0 && Valid(s[Head(s)..]))
  }

  /** A character is recognised by its own bytes, whatever follows them. */
  lemma HeadOfPrefix(a: string, b: string)
    requires a != "" && (b == "" || !Continuation(b[0]))
    ensures Head(a + b) == Head(a)
  {
    var s := a + b;
    assert s[0] == a[0];
    assert |a| == 1 ==> |s| > 1 ==> s[1] == b[0];
    assert |a| == 2 ==> |s| > 2 ==> s[2] == b[0];
    assert |a| == 3 ==> |s| > 3 ==> s[3] == b[0];
    assert |a| > 1 ==> s[1] == a[1];
    assert |a| > 2 ==> s[2] == a[2];
    assert |a| > 3 ==> s[3] == a[3];
  }

  /** Two texts, the second of which starts no continuation, are well formed together exactly when each is. */
  lemma {:induction false} Append(a: string, b: string)
    requires b == "" || !Continuation(b[0])
    ensures Valid(a + b) <==> Valid(a) && Valid(b)
  {
    if a == "" {
      assert a + b == b;
    } else {
      HeadOfPrefix(a, b);
      if Head(a) > 0 {
        assert (a + b)[Head(a)..] == a[Head(a)..] + b;
        Append(a[Head(a)..], b);
      }
    }
  }

  lemma {:induction false} AsciiPrefix(a: string, b: string)
    requires forall c :: c in a ==> Ascii(c)
    ensures Valid(a + b) <==> Valid(b)
  {
    if a == "" {
      assert a + b == b;
    } else {
      assert (a + b)[0] == a[0] && (a + b)[1..] == a[1..] + b;
      assert a[0] in a;
      AsciiPrefix(a[1..], b);
    }
  }

  lemma AsciiValid(a: string)
    requires forall c :: c in a ==> Ascii(c)
    ensures Valid(a)
  {
    AsciiPrefix(a, "");
    assert a + "" == a;
  }

  /** A well-formed text broken off inside its first character is not well formed. */
  lemma BrokenHead(s: string, m: nat)
    requires s != "" && 0 < m < Head(s)
    ensures !Valid(s[..m]) && Continuation(s[m])
  {
    var t := s[..m];
    assert t[0] == s[0];
    assert m > 1 ==> t[1] == s[1];
    assert m > 2 ==> t[2] == s[2];
  }

  /** The first character stands, whatever replaces the text behind it. */
  lemma HeadStands(s: string, x: string)
    requires s != "" && Head(s) > 0
    ensures Valid(s[..Head(s)] + x) <==> Valid(x)
  {
    var n := Head(s);
    var t := s[..n] + x;
    assert t[0] == s[0];
    assert n > 1 ==> t[1] == s[1];
    assert n > 2 ==> t[2] == s[2];
    assert n > 3 ==> t[3] == s[3];
    assert t[n..] == x;
  }
}
