/** Reading one HTTP request off a connection (gate/main.c, the receive loop of `main`): TCP may cut the
    bytes anywhere, and the loop must stop exactly at the end of the request (RFC 9112, section 6). */
module Framing {
  import opened CStrings

  const MAX_REQUEST_LEN := 65536

  const BLANK := "\r\n\r\n"
  const LENGTH := "Content-Length:"

  /** The loop's test on the bytes received so far. The searches see the bytes before the first NUL; a
      negative length becomes a huge unsigned one, so it is never reached. */
  predicate Complete(bytes: string) {
    var text := Until(bytes, '\0');
    var blank := StrStr(text, BLANK);
    |bytes| >= 4 && blank.Some? &&
      var length := StrStr(text, LENGTH);
      (length.None? ||
        var n := Atoi(length.value[|LENGTH|..]);
        n >= 0 && |bytes| - (|text| - |blank.value| + 4) >= n)
  }

  // ----- a request -----

  /** A head up to and including its blank line. */
  predicate Head(h: string) { '\0' !in h && StrStr(h, BLANK) == Some(BLANK) }

  /** `n` body bytes announced: by the first `Content-Length:`, or none at all and none announced. */
  predicate Announces(h: string, n: nat) {
    var length := StrStr(h, LENGTH);
    if length.Some? then Atoi(length.value[|LENGTH|..]) == n else n == 0
  }

  /** One whole request: a head and the body it announces. The body may hold any bytes. */
  ghost predicate Request(bytes: string) {
    exists k: nat :: k <= |bytes| && Head(bytes[..k]) && Announces(bytes[..k], |bytes| - k)
  }

  // ----- searching a growing text -----

  lemma {:induction false} StrStrExtends(s: string, x: string, pat: string)
    requires pat != "" && StrStr(s, pat).Some?
    ensures StrStr(s + x, pat) == Some(StrStr(s, pat).value + x)
  {
    if pat <= s {
      assert pat <= s + x;
    } else {
      assert (s + x)[1..] == s[1..] + x;
      StrStrExtends(s[1..], x, pat);
      if pat <= s + x {
        Earlier(s, x, pat);
      }
    }
  }

  lemma Earlier(s: string, x: string, pat: string)
    requires pat <= s + x && |pat| <= |s|
    ensures pat <= s
  {
    assert forall i :: 0 <= i < |pat| ==> pat[i] == (s + x)[i] == s[i];
  }

  lemma {:induction false} SkipSpaceSuffix(s: string)
    ensures s[|s| - |SkipSpace(s)|..] == SkipSpace(s)
  {
    if s != "" && IsSpace(s[0]) {
      SkipSpaceSuffix(s[1..]);
    }
  }

  lemma {:induction false} SkipSpaceExtends(s: string, x: string)
    requires SkipSpace(s) != ""
    ensures SkipSpace(s + x) == SkipSpace(s) + x
  {
    assert (s + x)[1..] == s[1..] + x;
    if IsSpace(s[0]) {
      SkipSpaceExtends(s[1..], x);
    }
  }

  lemma DigitsExtend(s: string, x: string)
    requires s != "" && !IsDigit(s[|s| - 1])
    ensures Digits(s + x) == Digits(s)
  {
    var d := Digits(s);
    assert |d| > 0 ==> d[|d| - 1] in d;
    assert s + x == d + (s[|d|..] + x);
    DigitsStop(d, s[|d|..] + x);
  }

  /** A number other than zero is read the same whatever comes after the text it ends in. */
  lemma AtoiExtends(s: string, x: string)
    requires s != "" && !IsDigit(s[|s| - 1]) && Atoi(s) != 0
    ensures Atoi(s + x) == Atoi(s)
  {
    var t := SkipSpace(s);
    SkipSpaceSuffix(s);
    SkipSpaceExtends(s, x);
    assert t[|t| - 1] == s[|s| - 1];
    if t[0] == '+' || t[0] == '-' {
      assert (t + x)[1..] == t[1..] + x;
      assert |t| > 1;
      DigitsExtend(t[1..], x);
    } else {
      DigitsExtend(t, x);
    }
  }

  // ----- the test holds exactly at the end of the request -----

  lemma HeadEnds(h: string)
    requires Head(h)
    ensures |h| >= 4 && h[|h| - 1] == '\n'
  {
    StrStrSuffix(h, BLANK);
  }

  lemma LengthEnds(h: string)
    requires Head(h) && StrStr(h, LENGTH).Some?
    ensures var p := StrStr(h, LENGTH).value; |p| > |LENGTH| && p[|p| - 1] == '\n'
  {
    HeadEnds(h);
    StrStrSuffix(h, LENGTH);
    FieldName();
    var p := StrStr(h, LENGTH).value;
    assert p[|p| - 1] == h[|h| - 1];
    Longer(p, LENGTH);
  }

  lemma FieldName()
    ensures |LENGTH| == 15 && LENGTH[14] == ':'
  {
  }

  lemma Longer(p: string, pat: string)
    requires pat != "" && pat <= p && p[|p| - 1] != pat[|pat| - 1]
    ensures |p| > |pat|
  {
  }

  lemma {:induction false} StrStrSuffix(s: string, pat: string)
    requires StrStr(s, pat).Some?
    ensures var p := StrStr(s, pat).value; s[|s| - |p|..] == p
  {
    if !(pat <= s) {
      StrStrSuffix(s[1..], pat);
    }
  }

  lemma BeforeBlank(h: string, n: nat)
    requires Head(h) && n < |h|
    ensures !Complete(h[..n])
  {
    var s := h[..n];
    assert h == s + h[n..];
    UntilAt(s, "", '\0');
    if StrStr(s, BLANK).Some? {
      StrStrExtends(s, h[n..], BLANK);
    }
  }

  lemma LengthRead(h: string, x: string, n: nat)
    requires Head(h) && StrStr(h, LENGTH).Some? && Announces(h, n) && (n == 0 ==> x == "")
    ensures StrStr(h + x, LENGTH).Some? && Atoi(StrStr(h + x, LENGTH).value[|LENGTH|..]) == n
  {
    var p := StrStr(h, LENGTH).value;
    StrStrExtends(h, x, LENGTH);
    LengthEnds(h);
    var a := p[|LENGTH|..];
    assert (p + x)[|LENGTH|..] == a + x;
    if n > 0 {
      AtoiExtends(a, x);
    } else {
      assert a + x == a;
    }
  }

  lemma AfterBlank(h: string, received: string, n: nat)
    requires Head(h) && Announces(h, n) && |received| <= n
    ensures Complete(h + received) <==> |received| == n
  {
    var x := Until(received, '\0');
    UntilSkip(h, received, '\0');
    StrStrExtends(h, x, BLANK);
    HeadEnds(h);
    if StrStr(h, LENGTH).Some? {
      LengthRead(h, x, n);
    } else {
      assert h + x == h;
    }
  }

  /** A `Content-Length:` field written in decimal announces that length, when it is the first. */
  lemma FieldAnnounces(before: string, n: nat, after: string)
    requires StrStr(before + LENGTH, LENGTH) == Some(LENGTH) && NoDigitFirst(after)
    ensures Announces(before + LENGTH + (" " + (Decimal(n) + after)), n)
  {
    var x := " " + (Decimal(n) + after);
    StrStrExtends(before + LENGTH, x, LENGTH);
    assert (LENGTH + x)[|LENGTH|..] == x;
    AtoiDecimal(n, after);
  }

  /** Of all the prefixes of a request, the test accepts the whole one only. */
  lemma CompleteExactly(bytes: string, n: nat)
    requires Request(bytes) && n <= |bytes|
    ensures Complete(bytes[..n]) <==> n == |bytes|
  {
    var k: nat :| k <= |bytes| && Head(bytes[..k]) && Announces(bytes[..k], |bytes| - k);
    if n < k {
      CutInHead(bytes, k, n);
    } else {
      CutInBody(bytes, k, n);
    }
  }

  lemma CutInHead(bytes: string, k: nat, n: nat)
    requires n < k <= |bytes| && Head(bytes[..k])
    ensures !Complete(bytes[..n])
  {
    assert bytes[..k][..n] == bytes[..n];
    BeforeBlank(bytes[..k], n);
  }

  lemma CutInBody(bytes: string, k: nat, n: nat)
    requires k <= n <= |bytes| && Head(bytes[..k]) && Announces(bytes[..k], |bytes| - k)
    ensures Complete(bytes[..n]) <==> n == |bytes|
  {
    assert bytes[..n] == bytes[..k] + bytes[k..n];
    AfterBlank(bytes[..k], bytes[k..n], |bytes| - k);
  }

  lemma {:induction false} StrStrCut(s: string, pat: string)
    requires StrStr(s, pat).Some?
    ensures var k := |s| - |StrStr(s, pat).value| + |pat|; k <= |s| && StrStr(s[..k], pat) == Some(pat)
  {
    if pat <= s {
      assert s[..|pat|] == pat;
    } else {
      StrStrCut(s[1..], pat);
      var k := |s| - |StrStr(s, pat).value| + |pat|;
      assert s[..k][1..] == s[1..][..k - 1];
      CutKeeps(s, pat, k);
    }
  }

  lemma CutKeeps(s: string, pat: string, k: nat)
    requires k <= |s|
    ensures pat <= s[..k] ==> pat <= s
  {
    assert pat <= s[..k] ==> forall i :: 0 <= i < |pat| ==> pat[i] == s[..k][i];
  }

  /** The length that the whole text shows is the one its head announces, if the head shows one. */
  lemma AnnouncedWithin(h: string, x: string, room: nat) returns (n: nat)
    requires Head(h)
    requires StrStr(h + x, LENGTH).Some? ==> 0 <= Atoi(StrStr(h + x, LENGTH).value[|LENGTH|..]) <= room
    ensures n <= room && Announces(h, n)
  {
    n := 0;
    if StrStr(h, LENGTH).Some? {
      var p := StrStr(h, LENGTH).value;
      StrStrExtends(h, x, LENGTH);
      LengthEnds(h);
      assert (p + x)[|LENGTH|..] == p[|LENGTH|..] + x;
      if Atoi(p[|LENGTH|..]) != 0 {
        AtoiExtends(p[|LENGTH|..], x);
        n := Atoi(p[|LENGTH|..]);
      }
    }
  }

  /** Where the test holds there is a head, and behind it are at least the bytes that it announces. */
  lemma CompleteHasHead(bytes: string) returns (k: nat, n: nat)
    requires Complete(bytes)
    ensures k + n <= |bytes| && Head(bytes[..k]) && Announces(bytes[..k], n)
  {
    var text := Until(bytes, '\0');
    k := |text| - |StrStr(text, BLANK).value| + 4;
    StrStrSuffix(text, BLANK);
    StrStrCut(text, BLANK);
    UntilPrefix(bytes, '\0');
    assert bytes[..k] == text[..k] && text == text[..k] + text[k..];
    n := AnnouncedWithin(text[..k], text[k..], |bytes| - k);
  }

  lemma {:induction false} UntilPrefix(s: string, c: char)
    ensures Until(s, c) <= s && c !in Until(s, c)
  {
    if s != "" && s[0] != c {
      UntilPrefix(s[1..], c);
    }
  }

  /** A text is one whole request exactly when the test holds for it and for none of its proper prefixes. */
  lemma RequestExactly(bytes: string)
    ensures Request(bytes) <==> Complete(bytes) && forall n :: 0 <= n < |bytes| ==> !Complete(bytes[..n])
  {
    assert bytes[..|bytes|] == bytes;
    if Request(bytes) {
      CompleteExactly(bytes, |bytes|);
      forall n | 0 <= n < |bytes| ensures !Complete(bytes[..n]) { CompleteExactly(bytes, n); }
    }
    if Complete(bytes) && forall n :: 0 <= n < |bytes| ==> !Complete(bytes[..n]) {
      var k, n := CompleteHasHead(bytes);
      var whole := bytes[..k + n];
      assert whole[..k] == bytes[..k] && whole[..|whole|] == whole;
      assert Request(whole);
      CompleteExactly(whole, |whole|);
    }
  }

  // ----- the loop -----

  /** Only the bytes up to the terminator are seen, whatever an earlier request left behind them. */
  lemma StaleBytes(bytes: string, rest: string)
    requires rest != "" && rest[0] == '\0'
    ensures Until(bytes + rest, '\0') == Until(bytes, '\0')
  {
    if '\0' in bytes {
      UntilFirst(bytes, rest, '\0');
    } else {
      UntilSkip(bytes, rest, '\0');
      UntilAt(bytes, "", '\0');
    }
  }

  lemma {:induction false} UntilFirst(a: string, b: string, c: char)
    requires c in a
    ensures Until(a + b, c) == Until(a, c)
  {
    if a[0] != c {
      assert (a + b)[1..] == a[1..] + b;
      UntilFirst(a[1..], b, c);
    }
  }

  /** `recv` and the terminator behind what it read: some of what the client has sent and not more than
      there is room for; nothing once the client has no more to send, or when nothing arrives within the
      receive timeout (`burst` is none). */
  method Recv(buffer: array<char>, total: nat, wire: string, burst: Option<nat>) returns (n: nat)
    requires total < buffer.Length - 1 && total <= |wire| && buffer[..total] == wire[..total]
    modifies buffer
    ensures n == if burst.None? then 0 else Min(Min(burst.value + 1, buffer.Length - 1 - total), |wire| - total)
    ensures buffer[..total + n] == wire[..total + n] && (n > 0 ==> buffer[total + n] == '\0')
  {
    if burst.None? {
      return 0;
    }
    n := Min(Min(burst.value + 1, buffer.Length - 1 - total), |wire| - total);
    forall i | 0 <= i < n { buffer[total + i] := wire[total + i]; }
    if n > 0 {
      buffer[total + n] := '\0';
    }
  }

  /** The test as the loop makes it: on the whole buffer, which may hold stale bytes after the NUL. */
  method Test(buffer: array<char>, total: nat) returns (done: bool)
    requires total < buffer.Length && buffer[total] == '\0'
    ensures done <==> Complete(buffer[..total])
  {
    assert buffer[..] == buffer[..total] + buffer[total..];
    StaleBytes(buffer[..total], buffer[total..]);
    var text := Until(buffer[..], '\0');
    var blank := StrStr(text, BLANK);
    done := false;
    if total >= 4 && blank.Some? {
      var length := StrStr(text, LENGTH);
      if length.Some? {
        var contentLen := Atoi(length.value[|LENGTH|..]);
        var headerSize := |text| - |blank.value| + 4;
        done := contentLen >= 0 && total - headerSize >= contentLen;
      } else {
        done := true;
      }
    }
  }

  /** The receive loop over a connection on which the client sends `wire`; `arrives(k)` decides how much
      the `k`-th `recv` returns, or that it times out. The result says whether the last `recv` returned
      nothing (`idle`) and how many returned something before it (`k`). However the bytes arrive, a whole
      request that fits is read to its end and without waiting for more; it is cut short exactly when a `recv`
      times out before that. */
  method ReadRequest(buffer: array<char>, wire: string, arrives: nat -> Option<nat>)
    returns (total: nat, idle: bool, k: nat)
    requires buffer.Length == 65536
    modifies buffer
    ensures total <= |wire| && total < 65536 && buffer[..total] == wire[..total]
    ensures if idle then total == |wire| || arrives(k).None?
            else Complete(wire[..total]) || total == 65535
    ensures forall i :: 0 <= i < k ==> arrives(i).Some?
    ensures Request(wire) && |wire| <= 65535 ==>
      if idle then total < |wire| && arrives(k).None? else total == |wire|
  {
    total, idle, k := 0, false, 0;
    while total < MAX_REQUEST_LEN - 1
      invariant total <= |wire| && total < MAX_REQUEST_LEN && buffer[..total] == wire[..total]
      invariant !idle && !Complete(wire[..total])
      invariant forall i :: 0 <= i < k ==> arrives(i).Some?
      decreases MAX_REQUEST_LEN - total
    {
      var n := Recv(buffer, total, wire, arrives(k));
      if n == 0 {
        idle := true;
        break;
      }
      total, k := total + n, k + 1;
      var done := Test(buffer, total);
      if done { break; }
    }
    StopsAtEnd(wire, total, idle, arrives(k).None?);
  }

  lemma StopsAtEnd(wire: string, total: nat, idle: bool, late: bool)
    requires total <= |wire| && total < MAX_REQUEST_LEN
    requires if idle then !Complete(wire[..total]) && (total == |wire| || late)
             else Complete(wire[..total]) || total == MAX_REQUEST_LEN - 1
    ensures Request(wire) && |wire| < MAX_REQUEST_LEN ==> if idle then total < |wire| && late else total == |wire|
  {
    if Request(wire) && |wire| < MAX_REQUEST_LEN {
      CompleteExactly(wire, total);
    }
  }
}
