/** JSON (RFC 8259): values, their print without white space and without escapes, and a parser of the whole
    grammar, with white space, literals, escapes and the UTF-8 encoding of section 8.1. */
module Json {
  import opened CStrings
  import opened JsonText
  import Utf8

  datatype Json =
    | JWord(word: string)        // true, false or null
    | JNum(token: string)
    | JStr(text: string)
    | JArr(items: seq<Json>)
    | JObj(fields: seq<Field>)

  datatype Field = Field(name: string, value: Json)

  // ----- lexical grammar -----

  /** `[ minus ] int [ frac ] [ exp ]` (section 6). */
  predicate IsNumber(t: string) { IsUnsigned(if t != "" && t[0] == '-' then t[1..] else t) }

  predicate IsUnsigned(u: string) {
    var d := Digits(u);
    d != "" && (|d| == 1 || d[0] != '0') && IsFraction(u[|d|..])
  }

  predicate IsFraction(s: string) {
    if s != "" && s[0] == '.' then
      var d := Digits(s[1..]);
      d != "" && IsExponent(s[1 + |d|..])
    else IsExponent(s)
  }

  predicate IsExponent(s: string) {
    s == "" ||
      ((s[0] == 'e' || s[0] == 'E') &&
        var u := if |s| > 1 && (s[1] == '+' || s[1] == '-') then s[2..] else s[1..];
        u != "" && Digits(u) == u)
  }

  predicate IsWord(t: string) { t == "true" || t == "false" || t == "null" }

  predicate Structural(c: char) { c == ',' || c == ']' || c == '}' }

  predicate White(c: char) { c == ' ' || c == '\t' || c == '\n' || c == '\r' }

  /** The text after leading white space (section 2). */
  function SkipWhite(s: string): (r: string)
    ensures |r| <= |s| && (|r| == |s| ==> r == s)
    ensures r != "" ==> !White(r[0])
    ensures s != "" && !White(s[0]) ==> r == s
  {
    if s != "" && White(s[0]) then SkipWhite(s[1..]) else s
  }

  /** What can follow a number or a word. */
  predicate Delimited(s: string) { s == "" || Structural(s[0]) || White(s[0]) }

  /** The text before the first delimiter. */
  function Token(s: string): (t: string)
    ensures t <= s && forall c :: c in t ==> !Structural(c) && !White(c)
    ensures Delimited(s[|t|..])
  {
    if Delimited(s) then "" else [s[0]] + Token(s[1..])
  }

  // ----- printing -----

  function Print(v: Json): string {
    match v
    case JWord(word) => word
    case JNum(token) => token
    case JStr(text) => "\"" + text + "\""
    case JArr(items) => if items == [] then "[]" else "[" + PrintItems(items)
    case JObj(fields) => if fields == [] then "{}" else "{" + PrintFields(fields)
  }

  /** The elements and the closing bracket. */
  function PrintItems(items: seq<Json>): string
    requires items != []
  {
    Print(items[0]) + (if |items| == 1 then "]" else "," + PrintItems(items[1..]))
  }

  function PrintField(f: Field): string { "\"" + f.name + "\":" + Print(f.value) }

  function PrintFields(fields: seq<Field>): string
    requires fields != []
  {
    PrintField(fields[0])
    + (if |fields| == 1 then "}" else "," + PrintFields(fields[1..]))
  }

  // ----- parsing -----

  function ParseString(s: string): (r: Option<(string, string)>)
    ensures r.Some? ==> |r.value.1| < |s|
  {
    if s == "" || s[0] != '"' then None else StringTail(s[1..])
  }

  /** A string, a word or a number. */
  function ParseScalar(s: string): (r: Option<(Json, string)>)
    requires s != ""
    ensures r.Some? ==> |r.value.1| < |s|
  {
    if s[0] == '"' then
      match ParseString(s)
      case None => None
      case Some(p) => Some((JStr(p.0), p.1))
    else
      var t := Token(s);
      match TokenValue(t)
      case None => None
      case Some(v) => Some((v, s[|t|..]))
  }

  function TokenValue(t: string): (r: Option<Json>)
    ensures r.Some? ==> t != ""
  {
    if IsWord(t) then Some(JWord(t)) else if IsNumber(t) then Some(JNum(t)) else None
  }

  /** The value at the head of the text and the text after it. */
  function ParseValue(s: string): (r: Option<(Json, string)>)
    ensures r.Some? ==> |r.value.1| < |s|
    decreases |s|, 2
  {
    ParseHere(SkipWhite(s))
  }

  function ParseHere(s: string): (r: Option<(Json, string)>)
    ensures r.Some? ==> |r.value.1| < |s|
    decreases |s|, 1
  {
    if s == "" then None
    else if s[0] == '[' then ParseArray(SkipWhite(s[1..]))
    else if s[0] == '{' then ParseObject(SkipWhite(s[1..]))
    else ParseScalar(s)
  }

  function ParseArray(s: string): (r: Option<(Json, string)>)
    ensures r.Some? ==> |r.value.1| <= |s|
    decreases |s|, 4
  {
    if s != "" && s[0] == ']' then Some((JArr([]), s[1..]))
    else
      match ParseItems(s)
      case None => None
      case Some(p) => Some((JArr(p.0), p.1))
  }

  function ParseObject(s: string): (r: Option<(Json, string)>)
    ensures r.Some? ==> |r.value.1| <= |s|
    decreases |s|, 5
  {
    if s != "" && s[0] == '}' then Some((JObj([]), s[1..]))
    else
      match ParseFields(s)
      case None => None
      case Some(p) => Some((JObj(p.0), p.1))
  }

  function ParseItems(s: string): (r: Option<(seq<Json>, string)>)
    ensures r.Some? ==> |r.value.1| < |s| && r.value.0 != []
    decreases |s|, 3
  {
    match ParseValue(s)
    case None => None
    case Some(v) =>
      var t := SkipWhite(v.1);
      if t == "" then None
      else if t[0] == ']' then Some(([v.0], t[1..]))
      else if t[0] == ',' then
        match ParseItems(t[1..])
        case None => None
        case Some(p) => Some(([v.0] + p.0, p.1))
      else None
  }

  function ParseField(s: string): (r: Option<(Field, string)>)
    ensures r.Some? ==> |r.value.1| < |s|
    decreases |s|, 3
  {
    match ParseString(SkipWhite(s))
    case None => None
    case Some(n) =>
      var t := SkipWhite(n.1);
      if t == "" || t[0] != ':' then None
      else
        match ParseValue(t[1..])
        case None => None
        case Some(v) => Some((Field(n.0, v.0), v.1))
  }

  function ParseFields(s: string): (r: Option<(seq<Field>, string)>)
    ensures r.Some? ==> |r.value.1| < |s| && r.value.0 != []
    decreases |s|, 4
  {
    match ParseField(s)
    case None => None
    case Some(f) =>
      var t := SkipWhite(f.1);
      if t == "" then None
      else if t[0] == '}' then Some(([f.0], t[1..]))
      else if t[0] == ',' then
        match ParseFields(t[1..])
        case None => None
        case Some(p) => Some(([f.0] + p.0, p.1))
      else None
  }

  /** A text in UTF-8 that is one value, with white space around it. */
  function Parse(s: string): Option<Json> {
    if !Utf8.Valid(s) then None
    else
      match ParseValue(s)
      case None => None
      case Some(p) => if SkipWhite(p.1) == "" then Some(p.0) else None
  }

  // ----- which values print as JSON -----

  predicate WellFormed(v: Json) {
    match v
    case JWord(word) => IsWord(word)
    case JNum(token) => IsNumber(token)
    case JStr(text) => PlainText(text)
    case JArr(items) => AllWellFormed(items)
    case JObj(fields) => FieldsWellFormed(fields)
  }

  predicate AllWellFormed(items: seq<Json>) { forall i :: 0 <= i < |items| ==> WellFormed(items[i]) }

  predicate FieldsWellFormed(fields: seq<Field>) {
    forall i :: 0 <= i < |fields| ==> PlainText(fields[i].name) && WellFormed(fields[i].value)
  }

  // ----- parsing undoes printing -----

  lemma {:induction false} TokenAll(t: string, rest: string)
    requires (forall c :: c in t ==> !Structural(c) && !White(c)) && Delimited(rest)
    ensures Token(t + rest) == t
  {
    if t == "" {
      assert t + rest == rest;
    } else {
      assert (t + rest)[1..] == t[1..] + rest;
      assert t[0] in t && (t + rest)[0] == t[0];
      TokenAll(t[1..], rest);
    }
  }

  predicate NumberChar(c: char) { IsDigit(c) || c == '-' || c == '+' || c == '.' || c == 'e' || c == 'E' }

  lemma ExponentChars(s: string)
    requires IsExponent(s)
    ensures forall c :: c in s ==> NumberChar(c)
  {
    if s != "" {
      var k := if |s| > 1 && (s[1] == '+' || s[1] == '-') then 2 else 1;
      assert s == s[..k] + s[k..];
    }
  }

  lemma FractionChars(s: string)
    requires IsFraction(s)
    ensures forall c :: c in s ==> NumberChar(c)
  {
    if s != "" && s[0] == '.' {
      var d := Digits(s[1..]);
      assert s == "." + d + s[1 + |d|..];
      ExponentChars(s[1 + |d|..]);
    } else {
      ExponentChars(s);
    }
  }

  lemma UnsignedChars(u: string)
    requires IsUnsigned(u)
    ensures u != "" && forall c :: c in u ==> NumberChar(c)
  {
    var d := Digits(u);
    var f := u[|d|..];
    assert u == d + f;
    FractionChars(f);
  }

  lemma NumberChars(t: string)
    requires IsNumber(t)
    ensures t != "" && forall c :: c in t ==> NumberChar(c)
  {
    if t != "" && t[0] == '-' {
      assert t == "-" + t[1..];
      UnsignedChars(t[1..]);
    } else {
      UnsignedChars(t);
    }
  }

  lemma DecimalNumber(n: nat)
    ensures IsNumber(Decimal(n)) && Digits(Decimal(n)) == Decimal(n)
  {
    DigitsStop(Decimal(n), "");
    assert Decimal(n) + "" == Decimal(n);
    assert Decimal(n)[0] in Decimal(n);
  }

  lemma IntNumber(n: int)
    ensures IsNumber(IntText(n))
  {
    if n < 0 {
      DecimalNumber(-n);
      assert IntText(n)[1..] == Decimal(-n);
    } else {
      DecimalNumber(n);
    }
  }

  lemma ReadToken(t: string, rest: string)
    requires t != "" && (forall c :: c in t ==> !Structural(c) && !White(c)) && Delimited(rest)
    requires t[0] != '[' && t[0] != '{' && t[0] != '"'
    ensures ParseValue(t + rest) == if IsWord(t) then Some((JWord(t), rest))
                                    else if IsNumber(t) then Some((JNum(t), rest)) else None
  {
    var s := t + rest;
    assert t[0] in t && s[0] == t[0];
    TokenAll(t, rest);
    assert s[|t|..] == rest;
    assert ParseHere(s) == ParseScalar(s);
  }

  lemma WordChars(t: string)
    requires IsWord(t)
    ensures t != "" && (t[0] == 't' || t[0] == 'f' || t[0] == 'n')
    ensures forall c :: c in t ==> 'a' <= c <= 'z'
  {
  }

  lemma NumberIsNoWord(t: string)
    requires IsNumber(t)
    ensures !IsWord(t)
  {
    NumberChars(t);
    assert t[0] in t;
  }

  lemma ReadString(text: string, rest: string)
    requires PlainText(text)
    ensures ParseString("\"" + text + "\"" + rest) == Some((text, rest))
  {
    var s := "\"" + text + "\"" + rest;
    assert s[1..] == text + "\"" + rest;
    PlainTail(text, rest);
  }

  lemma ReadStringValue(text: string, rest: string)
    requires PlainText(text)
    ensures ParseValue("\"" + text + "\"" + rest) == Some((JStr(text), rest))
  {
    var s := "\"" + text + "\"" + rest;
    ReadString(text, rest);
    assert s[0] == '"' && ParseHere(s) == ParseScalar(s);
  }

  /** A printed value starts with a character that cannot end a list and is no white space. */
  lemma FirstChar(v: Json)
    requires WellFormed(v)
    ensures Print(v) != "" && !Structural(Print(v)[0]) && !White(Print(v)[0])
  {
    if v.JNum? {
      NumberChars(v.token);
      assert v.token[0] in v.token;
    } else if v.JWord? {
      WordChars(v.word);
    }
  }

  lemma {:induction false} ReadValue(v: Json, rest: string)
    requires WellFormed(v) && Delimited(rest)
    ensures ParseValue(Print(v) + rest) == Some((v, rest))
  {
    match v
    case JWord(word) =>
      WordChars(word);
      ReadToken(word, rest);
    case JNum(token) =>
      NumberChars(token);
      assert token[0] in token;
      NumberIsNoWord(token);
      ReadToken(token, rest);
    case JStr(text) => ReadStringValue(text, rest);
    case JArr(items) =>
      if items == [] {
        ReadEmpty('[', ']', rest);
      } else {
        ReadItems(items, rest);
        FirstChar(items[0]);
        Bracket('[', PrintItems(items), rest);
        ReadArray(items, Print(v) + rest, rest);
      }
    case JObj(fields) =>
      if fields == [] {
        ReadEmpty('{', '}', rest);
      } else {
        ReadFields(fields, rest);
        Bracket('{', PrintFields(fields), rest);
        ReadObject(fields, Print(v) + rest, rest);
      }
  }

  lemma ReadEmpty(open: char, close: char, rest: string)
    requires (open == '[' && close == ']') || (open == '{' && close == '}')
    ensures ParseValue([open, close] + rest) == Some((if open == '[' then JArr([]) else JObj([]), rest))
  {
    var s := [open, close] + rest;
    assert s[1..] == [close] + rest && s[1..][1..] == rest;
    assert ParseHere(s) == if open == '[' then ParseArray(s[1..]) else ParseObject(s[1..]);
  }

  lemma ReadArray(items: seq<Json>, s: string, rest: string)
    requires |s| > 1 && s[0] == '[' && s[1] != ']' && !White(s[1]) && ParseItems(s[1..]) == Some((items, rest))
    ensures ParseValue(s) == Some((JArr(items), rest))
  {
    assert ParseHere(s) == ParseArray(s[1..]);
  }

  lemma ReadObject(fields: seq<Field>, s: string, rest: string)
    requires |s| > 1 && s[0] == '{' && s[1] == '"' && ParseFields(s[1..]) == Some((fields, rest))
    ensures ParseValue(s) == Some((JObj(fields), rest))
  {
    assert ParseHere(s) == ParseObject(s[1..]);
  }

  lemma Bracket(c: char, text: string, rest: string)
    requires text != ""
    ensures var s := [c] + text + rest; s[0] == c && s[1] == text[0] && s[1..] == text + rest
  {
  }

  /** `x` and the closing character `c`, with text after them; or a comma and `more` after it. */
  lemma Ending(x: string, c: char, rest: string)
    ensures x + [c] + rest == x + ([c] + rest) && ([c] + rest)[0] == c && ([c] + rest)[1..] == rest
  {
  }

  lemma Continuing(x: string, more: string, rest: string)
    ensures x + ("," + more) + rest == x + ("," + (more + rest)) && ("," + (more + rest))[1..] == more + rest
  {
  }

  lemma ItemsLast(s: string, v: Json, rest: string)
    requires ParseValue(s) == Some((v, "]" + rest))
    ensures ParseItems(s) == Some(([v], rest))
  {
    assert ("]" + rest)[1..] == rest;
  }

  lemma ItemsMore(s: string, v: Json, more: string, items: seq<Json>, rest: string)
    requires ParseValue(s) == Some((v, "," + more)) && ParseItems(more) == Some((items, rest))
    ensures ParseItems(s) == Some(([v] + items, rest))
  {
    assert ("," + more)[1..] == more;
  }

  lemma {:induction false} ReadItems(items: seq<Json>, rest: string)
    requires items != [] && AllWellFormed(items)
    ensures ParseItems(PrintItems(items) + rest) == Some((items, rest))
  {
    if |items| == 1 {
      Ending(Print(items[0]), ']', rest);
      ReadValue(items[0], "]" + rest);
      ItemsLast(PrintItems(items) + rest, items[0], rest);
      assert items == [items[0]];
    } else {
      var more := PrintItems(items[1..]);
      Continuing(Print(items[0]), more, rest);
      ReadValue(items[0], "," + (more + rest));
      ReadItems(items[1..], rest);
      ItemsMore(PrintItems(items) + rest, items[0], more + rest, items[1..], rest);
      assert items == [items[0]] + items[1..];
    }
  }

  lemma {:induction false} ReadField(f: Field, rest: string)
    requires PlainText(f.name) && WellFormed(f.value) && Delimited(rest)
    ensures ParseField(PrintField(f) + rest) == Some((f, rest))
  {
    ReadValue(f.value, rest);
    ReadNamed(f.name, f.value, Print(f.value), rest);
  }

  lemma ReadNamed(name: string, v: Json, text: string, rest: string)
    requires PlainText(name) && ParseValue(text + rest) == Some((v, rest))
    ensures ParseField("\"" + name + "\":" + text + rest) == Some((Field(name, v), rest))
  {
    var s := "\"" + name + "\":" + text + rest;
    assert s == "\"" + name + "\"" + (":" + (text + rest));
    ReadString(name, ":" + (text + rest));
    assert (":" + (text + rest))[1..] == text + rest;
    assert SkipWhite(s) == s && SkipWhite(":" + (text + rest)) == ":" + (text + rest);
  }

  lemma FieldsLast(s: string, f: Field, rest: string)
    requires ParseField(s) == Some((f, "}" + rest))
    ensures ParseFields(s) == Some(([f], rest))
  {
    assert ("}" + rest)[1..] == rest;
  }

  lemma FieldsMore(s: string, f: Field, more: string, fields: seq<Field>, rest: string)
    requires ParseField(s) == Some((f, "," + more)) && ParseFields(more) == Some((fields, rest))
    ensures ParseFields(s) == Some(([f] + fields, rest))
  {
    assert ("," + more)[1..] == more;
  }

  lemma {:induction false} ReadFields(fields: seq<Field>, rest: string)
    requires fields != [] && FieldsWellFormed(fields)
    ensures ParseFields(PrintFields(fields) + rest) == Some((fields, rest))
  {
    var f := fields[0];
    if |fields| == 1 {
      Ending(PrintField(f), '}', rest);
      ReadField(f, "}" + rest);
      FieldsLast(PrintFields(fields) + rest, f, rest);
      assert fields == [f];
    } else {
      var more := PrintFields(fields[1..]);
      Continuing(PrintField(f), more, rest);
      ReadField(f, "," + (more + rest));
      ReadFields(fields[1..], rest);
      FieldsMore(PrintFields(fields) + rest, f, more + rest, fields[1..], rest);
      assert fields == [f] + fields[1..];
    }
  }

  // ----- the print is the shortest text -----

  /** The print of what was read, and the text after it, are never longer than the text read, and as long
      only if that text was the print. */
  lemma {:induction false} ValueShortest(s: string)
    requires ParseValue(s).Some?
    ensures var p := ParseValue(s).value;
            |Print(p.0)| + |p.1| <= |s| && (|Print(p.0)| + |p.1| == |s| ==> WellFormed(p.0) && s == Print(p.0) + p.1)
    decreases |s|, 2
  {
    HereShortest(SkipWhite(s));
  }

  lemma {:induction false} HereShortest(s: string)
    requires ParseHere(s).Some?
    ensures var p := ParseHere(s).value;
            |Print(p.0)| + |p.1| <= |s| && (|Print(p.0)| + |p.1| == |s| ==> WellFormed(p.0) && s == Print(p.0) + p.1)
    decreases |s|, 1
  {
    if s[0] == '[' {
      ArrayShortest(s);
    } else if s[0] == '{' {
      ObjectShortest(s);
    } else {
      ScalarShortest(s);
    }
  }

  lemma ScalarShortest(s: string)
    requires s != "" && ParseScalar(s).Some?
    ensures var p := ParseScalar(s).value;
            |Print(p.0)| + |p.1| <= |s| && (|Print(p.0)| + |p.1| == |s| ==> WellFormed(p.0) && s == Print(p.0) + p.1)
  {
    if s[0] == '"' {
      StringShortest(s);
    } else {
      TokenShortest(s);
    }
  }

  lemma TokenShortest(s: string)
    requires s != "" && s[0] != '"' && ParseScalar(s).Some?
    ensures var p := ParseScalar(s).value; WellFormed(p.0) && s == Print(p.0) + p.1
  {
    var t := Token(s);
    assert s == t + s[|t|..];
    TokenText(t);
  }

  lemma TokenText(t: string)
    requires TokenValue(t).Some?
    ensures WellFormed(TokenValue(t).value) && Print(TokenValue(t).value) == t
  {
  }

  lemma StringShortest(s: string)
    requires ParseString(s).Some?
    ensures var p := ParseString(s).value;
            |p.0| + 2 + |p.1| <= |s| && (|p.0| + 2 + |p.1| == |s| ==> PlainText(p.0) && s == "\"" + p.0 + "\"" + p.1)
  {
    TailShorter(s[1..]);
    var p := ParseString(s).value;
    assert s == "\"" + s[1..];
    Assoc("\"" + p.0, "\"", p.1);
    Assoc("\"", p.0, "\"" + p.1);
    Assoc(p.0, "\"", p.1);
  }

  lemma {:induction false} ArrayShortest(s: string)
    requires s != "" && s[0] == '[' && ParseArray(SkipWhite(s[1..])).Some?
    ensures var p := ParseArray(SkipWhite(s[1..])).value;
            |Print(p.0)| + |p.1| <= |s| && (|Print(p.0)| + |p.1| == |s| ==> WellFormed(p.0) && s == Print(p.0) + p.1)
    decreases |s|, 0
  {
    var t := SkipWhite(s[1..]);
    if t[0] == ']' {
      assert |t| == |s| - 1 ==> s == "[]" + t[1..];
    } else {
      ItemsShortest(t);
      var p := ParseItems(t).value;
      Opened(s, '[', t, PrintItems(p.0), p.1);
    }
  }

  lemma {:induction false} ObjectShortest(s: string)
    requires s != "" && s[0] == '{' && ParseObject(SkipWhite(s[1..])).Some?
    ensures var p := ParseObject(SkipWhite(s[1..])).value;
            |Print(p.0)| + |p.1| <= |s| && (|Print(p.0)| + |p.1| == |s| ==> WellFormed(p.0) && s == Print(p.0) + p.1)
    decreases |s|, 0
  {
    var t := SkipWhite(s[1..]);
    if t[0] == '}' {
      assert |t| == |s| - 1 ==> s == "{}" + t[1..];
    } else {
      FieldsShortest(t);
      var p := ParseFields(t).value;
      Opened(s, '{', t, PrintFields(p.0), p.1);
    }
  }

  /** A bracket and what follows it, with nothing skipped in between if the lengths agree. */
  lemma Opened(s: string, c: char, t: string, a: string, rest: string)
    requires s != "" && s[0] == c && |t| <= |s| - 1 && (|t| == |s| - 1 ==> t == s[1..])
    requires |a| + |rest| <= |t| && (|a| + |rest| == |t| ==> t == a + rest)
    ensures |[c] + a| + |rest| <= |s| && (|[c] + a| + |rest| == |s| ==> s == [c] + a + rest)
  {
    assert s == [c] + s[1..];
    Assoc([c], a, rest);
  }

  lemma {:induction false} ItemsShortest(s: string)
    requires ParseItems(s).Some?
    ensures var p := ParseItems(s).value;
            |PrintItems(p.0)| + |p.1| <= |s|
            && (|PrintItems(p.0)| + |p.1| == |s| ==> AllWellFormed(p.0) && s == PrintItems(p.0) + p.1)
    decreases |s|, 3
  {
    ValueShortest(s);
    var v := ParseValue(s).value;
    var t := SkipWhite(v.1);
    if t[0] == ',' {
      ItemsShortest(t[1..]);
      var p := ParseItems(t[1..]).value;
      assert ([v.0] + p.0)[1..] == p.0;
      Continued(s, Print(v.0), v.1, t, PrintItems(p.0), p.1);
      assert AllWellFormed([v.0]) && AllWellFormed(p.0) ==> AllWellFormed([v.0] + p.0);
    } else {
      Closed(s, Print(v.0), v.1, t, ']');
    }
  }

  lemma Closed(s: string, a: string, s1: string, t: string, c: char)
    requires |a| + |s1| <= |s| && (|a| + |s1| == |s| ==> s == a + s1)
    requires t != "" && t[0] == c && |t| <= |s1| && (|t| == |s1| ==> t == s1)
    ensures |a + [c]| + |t[1..]| <= |s| && (|a + [c]| + |t[1..]| == |s| ==> s == a + [c] + t[1..] && |a| + |s1| == |s|)
  {
    assert t == [c] + t[1..];
    Assoc(a, [c], t[1..]);
  }

  lemma Continued(s: string, a: string, s1: string, t: string, b: string, rest: string)
    requires |a| + |s1| <= |s| && (|a| + |s1| == |s| ==> s == a + s1)
    requires t != "" && t[0] == ',' && |t| <= |s1| && (|t| == |s1| ==> t == s1)
    requires |b| + |rest| <= |t| - 1 && (|b| + |rest| == |t| - 1 ==> t[1..] == b + rest)
    ensures |a + ("," + b)| + |rest| <= |s|
    ensures |a + ("," + b)| + |rest| == |s| ==>
      s == a + ("," + b) + rest && |a| + |s1| == |s| && |b| + |rest| == |t| - 1
  {
    assert t == "," + t[1..];
    Assoc(",", b, rest);
    Assoc(a, "," + b, rest);
  }

  lemma FieldShortest(s: string)
    requires ParseField(s).Some?
    ensures var p := ParseField(s).value;
            |PrintField(p.0)| + |p.1| <= |s|
            && (|PrintField(p.0)| + |p.1| == |s| ==> FieldsWellFormed([p.0]) && s == PrintField(p.0) + p.1)
    decreases |s|, 3
  {
    var n := ParseString(SkipWhite(s)).value;
    StringShortest(SkipWhite(s));
    var t := SkipWhite(n.1);
    ValueShortest(t[1..]);
    var v := ParseValue(t[1..]).value;
    Named(s, n.0, n.1, t, Print(v.0), v.1);
  }

  lemma Named(s: string, name: string, s1: string, t: string, b: string, rest: string)
    requires |name| + 2 + |s1| <= |s| && (|name| + 2 + |s1| == |s| ==> s == "\"" + name + "\"" + s1)
    requires t != "" && t[0] == ':' && |t| <= |s1| && (|t| == |s1| ==> t == s1)
    requires |b| + |rest| <= |t| - 1 && (|b| + |rest| == |t| - 1 ==> t[1..] == b + rest)
    ensures |"\"" + name + "\":" + b| + |rest| <= |s|
    ensures |"\"" + name + "\":" + b| + |rest| == |s| ==>
      s == "\"" + name + "\":" + b + rest && |name| + 2 + |s1| == |s| && |b| + |rest| == |t| - 1
  {
    assert t == ":" + t[1..];
    var q := "\"" + name;
    assert q + "\"" + (":" + (b + rest)) == q + "\":" + b + rest;
  }

  lemma {:induction false} FieldsShortest(s: string)
    requires ParseFields(s).Some?
    ensures var p := ParseFields(s).value;
            |PrintFields(p.0)| + |p.1| <= |s|
            && (|PrintFields(p.0)| + |p.1| == |s| ==> FieldsWellFormed(p.0) && s == PrintFields(p.0) + p.1)
    decreases |s|, 4
  {
    FieldShortest(s);
    var f := ParseField(s).value;
    var t := SkipWhite(f.1);
    if t[0] == ',' {
      FieldsShortest(t[1..]);
      var p := ParseFields(t[1..]).value;
      assert ([f.0] + p.0)[1..] == p.0 && [f.0][0] == f.0;
      Continued(s, PrintField(f.0), f.1, t, PrintFields(p.0), p.1);
    } else {
      Closed(s, PrintField(f.0), f.1, t, '}');
    }
  }

  // ----- encoding -----

  /** The names and texts are well-formed UTF-8. */
  predicate Encoded(v: Json) {
    match v
    case JWord(_) => true
    case JNum(_) => true
    case JStr(text) => Utf8.Valid(text)
    case JArr(items) => AllEncoded(items)
    case JObj(fields) => FieldsEncoded(fields)
  }

  predicate AllEncoded(items: seq<Json>) { forall i :: 0 <= i < |items| ==> Encoded(items[i]) }

  predicate FieldsEncoded(fields: seq<Field>) {
    forall i :: 0 <= i < |fields| ==> Utf8.Valid(fields[i].name) && Encoded(fields[i].value)
  }

  predicate AsciiFirst(s: string) { s == "" || Utf8.Ascii(s[0]) }

  lemma QuotedValid(text: string, rest: string)
    requires AsciiFirst(rest)
    ensures Utf8.Valid("\"" + text + "\"" + rest) <==> Utf8.Valid(text) && Utf8.Valid(rest)
  {
    assert "\"" + text + "\"" + rest == "\"" + (text + ("\"" + rest));
    Utf8.AsciiPrefix("\"", text + ("\"" + rest));
    Utf8.Append(text, "\"" + rest);
    Utf8.AsciiPrefix("\"", rest);
  }

  /** A printed value is well-formed UTF-8 exactly when its names and texts are. */
  lemma {:induction false} PrintValid(v: Json, rest: string)
    requires WellFormed(v) && AsciiFirst(rest)
    ensures Utf8.Valid(Print(v) + rest) <==> Encoded(v) && Utf8.Valid(rest)
  {
    match v
    case JWord(word) =>
      WordChars(word);
      Utf8.AsciiPrefix(word, rest);
    case JNum(token) =>
      NumberChars(token);
      Utf8.AsciiPrefix(token, rest);
    case JStr(text) => QuotedValid(text, rest);
    case JArr(items) =>
      if items == [] {
        Utf8.AsciiPrefix("[]", rest);
      } else {
        ItemsValid(items, rest);
        Assoc("[", PrintItems(items), rest);
        Utf8.AsciiPrefix("[", PrintItems(items) + rest);
      }
    case JObj(fields) =>
      if fields == [] {
        Utf8.AsciiPrefix("{}", rest);
      } else {
        FieldsValid(fields, rest);
        Assoc("{", PrintFields(fields), rest);
        Utf8.AsciiPrefix("{", PrintFields(fields) + rest);
      }
  }

  lemma {:induction false} ItemsValid(items: seq<Json>, rest: string)
    requires items != [] && AllWellFormed(items) && AsciiFirst(rest)
    ensures Utf8.Valid(PrintItems(items) + rest) <==> AllEncoded(items) && Utf8.Valid(rest)
  {
    var x := Print(items[0]);
    if |items| == 1 {
      Ending(x, ']', rest);
      PrintValid(items[0], "]" + rest);
      Utf8.AsciiPrefix("]", rest);
    } else {
      var more := PrintItems(items[1..]);
      Continuing(x, more, rest);
      PrintValid(items[0], "," + (more + rest));
      Utf8.AsciiPrefix(",", more + rest);
      ItemsValid(items[1..], rest);
      assert AllEncoded(items) <==> Encoded(items[0]) && AllEncoded(items[1..]) by { AllSplit(items); }
    }
  }

  lemma AllSplit(items: seq<Json>)
    requires items != []
    ensures AllEncoded(items) <==> Encoded(items[0]) && AllEncoded(items[1..])
  {
    assert forall i :: 0 < i < |items| ==> items[i] == items[1..][i - 1];
  }

  lemma {:induction false} FieldValid(f: Field, rest: string)
    requires PlainText(f.name) && WellFormed(f.value) && AsciiFirst(rest)
    ensures Utf8.Valid(PrintField(f) + rest) <==> Utf8.Valid(f.name) && Encoded(f.value) && Utf8.Valid(rest)
  {
    var x := ":" + (Print(f.value) + rest);
    assert PrintField(f) + rest == "\"" + f.name + "\"" + x;
    QuotedValid(f.name, x);
    Utf8.AsciiPrefix(":", Print(f.value) + rest);
    PrintValid(f.value, rest);
  }

  lemma {:induction false} FieldsValid(fields: seq<Field>, rest: string)
    requires fields != [] && FieldsWellFormed(fields) && AsciiFirst(rest)
    ensures Utf8.Valid(PrintFields(fields) + rest) <==> FieldsEncoded(fields) && Utf8.Valid(rest)
  {
    var x := PrintField(fields[0]);
    if |fields| == 1 {
      Ending(x, '}', rest);
      FieldValid(fields[0], "}" + rest);
      Utf8.AsciiPrefix("}", rest);
    } else {
      var more := PrintFields(fields[1..]);
      Continuing(x, more, rest);
      FieldValid(fields[0], "," + (more + rest));
      Utf8.AsciiPrefix(",", more + rest);
      FieldsValid(fields[1..], rest);
      FieldsSplit(fields);
    }
  }

  lemma FieldsSplit(fields: seq<Field>)
    requires fields != []
    ensures FieldsEncoded(fields)
       <==> Utf8.Valid(fields[0].name) && Encoded(fields[0].value) && FieldsEncoded(fields[1..])
  {
    assert forall i :: 0 < i < |fields| ==> fields[i] == fields[1..][i - 1];
  }

  // ----- reading what was printed -----

  /** Of all texts that read as a value, its print is the shortest. */
  lemma PrintShortest(s: string, v: Json)
    requires Parse(s) == Some(v)
    ensures |Print(v)| <= |s|
    ensures |Print(v)| == |s| ==> s == Print(v)
  {
    ValueShortest(s);
    assert Print(v) + "" == Print(v);
  }

  /** A printed value is read back exactly when it is well formed, needs no escapes and is in UTF-8. */
  lemma ReadsBack(v: Json)
    ensures Parse(Print(v)) == Some(v) <==> WellFormed(v) && Encoded(v)
  {
    var s := Print(v);
    assert s + "" == s;
    if Parse(s) == Some(v) {
      ValueShortest(s);
      PrintValid(v, "");
    }
    if WellFormed(v) && Encoded(v) {
      ReadValue(v, "");
      PrintValid(v, "");
    }
  }
}
