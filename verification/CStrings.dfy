/** The C string library calls the program leans on, over NUL-free strings (one `char` per byte).
    A `char *` into a string is modelled by the suffix it points at, so `p + n` is `p[n..]`,
    a null result is `None`, and the distance `q - p` is `|p| - |q|`. */
module CStrings {

  datatype Option<+T> = None | Some(value: T)

  /** C division: toward zero. */
  function TruncDiv(a: int, b: int): int
    requires b > 0
  {
    if a >= 0 then a / b else -((-a) / b)
  }

  function Min(a: int, b: int): int { if a < b then a else b }

  /** `strchr`: the suffix starting at the first `c`. */
  function StrChr(s: string, c: char): (r: Option<string>)
    ensures r.Some? ==> 0 < |r.value| <= |s| && r.value[0] == c
  {
    if s == "" then None
    else if s[0] == c then Some(s)
    else StrChr(s[1..], c)
  }

  /** `strstr`: the suffix starting at the first occurrence of `pat`. */
  function StrStr(s: string, pat: string): (r: Option<string>)
    ensures r.Some? ==> |r.value| <= |s| && pat <= r.value
  {
    if pat <= s then Some(s)
    else if s == "" then None
    else StrStr(s[1..], pat)
  }

  /** The text up to the first `c`, or the whole text: the `end ? end - p : strlen(p)` idiom. */
  function Until(s: string, c: char): (r: string)
    ensures r <= s && c !in r
    ensures |r| < |s| ==> s[|r|] == c
  {
    if s == "" || s[0] == c then "" else [s[0]] + Until(s[1..], c)
  }

  /** `strncpy` of at most `n` bytes followed by a terminator. */
  function Cut(s: string, n: nat): (r: string)
    ensures r <= s && |r| <= n
    ensures |s| <= n ==> r == s
  {
    if |s| <= n then s else s[..n]
  }

  lemma {:induction false} StrChrSkip(a: string, b: string, c: char)
    requires c !in a
    ensures StrChr(a + b, c) == StrChr(b, c)
  {
    if a == "" {
      assert a + b == b;
    } else {
      assert (a + b)[1..] == a[1..] + b;
      StrChrSkip(a[1..], b, c);
    }
  }

  lemma StrChrFirst(a: string, b: string, c: char)
    requires c !in a
    ensures StrChr(a + [c] + b, c) == Some([c] + b)
  {
    assert a + [c] + b == a + ([c] + b);
    StrChrSkip(a, [c] + b, c);
  }

  /** No occurrence of `pat` can start inside `a` when its first byte is not there. */
  lemma {:induction false} StrStrSkip(a: string, b: string, pat: string)
    requires pat != "" && pat[0] !in a
    ensures StrStr(a + b, pat) == StrStr(b, pat)
  {
    if a == "" {
      assert a + b == b;
    } else {
      assert (a + b)[1..] == a[1..] + b;
      StrStrSkip(a[1..], b, pat);
    }
  }

  lemma {:induction false} StrStrAbsent(s: string, pat: string, c: char)
    requires c in pat && c !in s
    ensures StrStr(s, pat) == None
  {
    if s != "" {
      StrStrAbsent(s[1..], pat, c);
    }
  }

  /** `strstr` finds something exactly when the pattern stands somewhere. */
  lemma {:induction false} StrStrSome(s: string, pat: string)
    ensures StrStr(s, pat).Some? <==> exists i :: 0 <= i <= |s| && pat <= s[i..]
  {
    assert s[0..] == s;
    if pat <= s {
      assert pat <= s[0..];
    } else if s == "" {
      assert s[0..] == "";
    } else {
      StrStrSome(s[1..], pat);
      assert forall i :: 0 <= i <= |s[1..]| ==> s[1..][i..] == s[i + 1..];
      if i :| 0 <= i <= |s| && pat <= s[i..] {
        assert i > 0;
        assert pat <= s[1..][i - 1..];
      }
    }
  }

  lemma {:induction false} UntilAt(a: string, b: string, c: char)
    requires c !in a
    ensures Until(a, c) == a
    ensures Until(a + [c] + b, c) == a
  {
    if a != "" {
      assert (a + [c] + b)[1..] == a[1..] + [c] + b;
      UntilAt(a[1..], b, c);
    }
  }

  // ----- decimal numbers: %d and atoi -----

  predicate IsDigit(c: char) { '0' <= c <= '9' }

  predicate NoDigitFirst(s: string) { s == "" || !IsDigit(s[0]) }

  predicate IsSpace(c: char) {
    c == ' ' || c == '\t' || c == '\n' || c == '\r' || c as int == 11 || c as int == 12
  }

  function DigitChar(d: nat): (c: char)
    requires d < 10
    ensures IsDigit(c) && c as int - '0' as int == d
  {
    ('0' as int + d) as char
  }

  function Decimal(n: nat): (s: string)
    ensures |s| > 0 && forall c :: c in s ==> IsDigit(c)
    ensures n > 0 ==> s[0] != '0'
    ensures |s| > 1 ==> s[0] != '0'
  {
    if n < 10 then [DigitChar(n)] else Decimal(n / 10) + [DigitChar(n % 10)]
  }

  /** `%d` */
  function IntText(n: int): (s: string)
    ensures |s| > 0
    ensures forall c :: c in s ==> IsDigit(c) || c == '-'
  {
    if n < 0 then "-" + Decimal(-n) else Decimal(n)
  }

  /** The leading digits of `s`. */
  function Digits(s: string): (d: string)
    ensures d <= s && forall c :: c in d ==> IsDigit(c)
    ensures |d| < |s| ==> !IsDigit(s[|d|])
  {
    if s == "" || !IsDigit(s[0]) then "" else [s[0]] + Digits(s[1..])
  }

  function NatValue(d: string): (n: nat)
    requires forall c :: c in d ==> IsDigit(c)
  {
    if d == "" then 0
    else
      var last := d[|d| - 1];
      assert last in d && IsDigit(last);
      NatValue(d[..|d| - 1]) * 10 + (last as int - '0' as int)
  }

  function SkipSpace(s: string): (r: string)
    ensures |r| <= |s|
  {
    if s != "" && IsSpace(s[0]) then SkipSpace(s[1..]) else s
  }

  /** `atoi`/`atol` on values that fit their type. */
  function Atoi(s: string): (n: int)
  {
    var t := SkipSpace(s);
    if t != "" && t[0] == '-' then 0 - NatValue(Digits(t[1..]))
    else if t != "" && t[0] == '+' then NatValue(Digits(t[1..]))
    else NatValue(Digits(t))
  }

  lemma {:induction false} NatValueDecimal(n: nat)
    ensures NatValue(Decimal(n)) == n
  {
    if n < 10 {
      assert Decimal(n)[..0] == "";
    } else {
      NatValueDecimal(n / 10);
      assert Decimal(n)[..|Decimal(n)| - 1] == Decimal(n / 10);
    }
  }

  lemma DecimalInjective(m: nat, n: nat)
    requires Decimal(m) == Decimal(n)
    ensures m == n
  {
    NatValueDecimal(m);
    NatValueDecimal(n);
  }

  lemma IntTextInjective(m: int, n: int)
    requires IntText(m) == IntText(n)
    ensures m == n
  {
    var a, b := Decimal(if m < 0 then -m else m), Decimal(if n < 0 then -n else n);
    assert a[0] in a && b[0] in b;
    assert m < 0 <==> n < 0;
    assert a == b by {
      if m < 0 {
        assert IntText(m)[1..] == a && IntText(n)[1..] == b;
      }
    }
    DecimalInjective(if m < 0 then -m else m, if n < 0 then -n else n);
  }

  lemma {:induction false} DigitsStop(d: string, rest: string)
    requires forall c :: c in d ==> IsDigit(c)
    requires NoDigitFirst(rest)
    ensures Digits(d + rest) == d
  {
    if d == "" {
      assert d + rest == rest;
    } else {
      assert (d + rest)[1..] == d[1..] + rest;
      DigitsStop(d[1..], rest);
    }
  }

  lemma NoSpaceFirst(s: string)
    requires s != "" && IsDigit(s[0])
    ensures SkipSpace(s) == s && SkipSpace(" " + s) == s
  {
    assert (" " + s)[1..] == s;
  }

  lemma AtoiDigits(s: string)
    requires s != "" && IsDigit(s[0])
    ensures Atoi(s) == NatValue(Digits(s)) && Atoi(" " + s) == NatValue(Digits(s))
  {
    NoSpaceFirst(s);
  }

  /** Reading back what `%d` wrote, whatever non-digit follows. */
  lemma AtoiDecimal(n: nat, rest: string)
    requires NoDigitFirst(rest)
    ensures Atoi(Decimal(n) + rest) == n
    ensures Atoi(" " + (Decimal(n) + rest)) == n
  {
    DigitsStop(Decimal(n), rest);
    NatValueDecimal(n);
    var t := Decimal(n) + rest;
    assert t[0] == Decimal(n)[0];
    AtoiDigits(t);
  }

  lemma {:induction false} DecimalLength(n: nat, k: nat)
    requires n < Pow10(k) && k > 0
    ensures |Decimal(n)| <= k
  {
    if n >= 10 {
      DecimalLength(n / 10, k - 1);
    }
  }

  function Pow10(k: nat): nat { if k == 0 then 1 else 10 * Pow10(k - 1) }

  lemma AtoiIntText(n: int)
    ensures Atoi(IntText(n)) == n
  {
    var d := Decimal(if n < 0 then -n else n);
    assert d + "" == d;
    if n < 0 {
      AtoiNegative(d);
      NatValueDecimal(-n);
      DigitsStop(d, "");
    } else {
      AtoiDecimal(n, "");
    }
  }

  lemma AtoiNegative(s: string)
    ensures Atoi("-" + s) == 0 - NatValue(Digits(s))
  {
    assert ("-" + s)[1..] == s;
  }

  // ----- small facts about searching and joining -----

  lemma Assoc(a: string, b: string, c: string)
    ensures (a + b) + c == a + (b + c)
  {
  }

  lemma {:induction false} StrChrNone(s: string, c: char)
    requires c !in s
    ensures StrChr(s, c) == None
  {
    if s != "" {
      StrChrNone(s[1..], c);
    }
  }

  lemma {:induction false} UntilChr(s: string, c: char)
    ensures StrChr(s, c).None? <==> |Until(s, c)| == |s|
    ensures StrChr(s, c).Some? ==> |s| - |StrChr(s, c).value| == |Until(s, c)|
  {
    if s != "" && s[0] != c {
      UntilChr(s[1..], c);
    }
  }

  lemma {:induction false} UntilSkip(a: string, b: string, c: char)
    requires c !in a
    ensures Until(a + b, c) == a + Until(b, c)
  {
    if a == "" {
      assert a + b == b;
    } else {
      assert (a + b)[1..] == a[1..] + b;
      UntilSkip(a[1..], b, c);
    }
  }
}
