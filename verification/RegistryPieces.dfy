/** The datasource file, piece by piece: the printed text is quote-free pieces separated by quotes, so a
    key search finds the first piece that equals the key, be it a key or a value. */
module RegistryPieces {
  import opened CStrings
  import opened Registry
  import opened RegistryFile

  // ----- text in pieces -----

  function Text(parts: seq<string>, rest: string): string {
    if parts == [] then rest else parts[0] + ("\"" + Text(parts[1..], rest))
  }

  predicate QuoteFree(parts: seq<string>) {
    forall i :: 0 <= i < |parts| ==> '"' !in parts[i]
  }

  /** The place of the first piece after the first one that equals `k`. */
  function FirstPiece(parts: seq<string>, k: string): nat
    requires |parts| > 0
  {
    if |parts| == 1 then 1 else if parts[1] == k then 1 else 1 + FirstPiece(parts[1..], k)
  }

  /** A quoted key is a prefix of a quoted piece only if they are equal. */
  lemma QuotedPrefix(k: string, part: string, rest: string)
    requires '"' !in k && '"' !in part
    ensures "\"" + k + "\"" <= "\"" + (part + ("\"" + rest)) <==> k == part
  {
    var key, text := "\"" + k + "\"", "\"" + (part + ("\"" + rest));
    if key <= text {
      assert key[|k| + 1] == text[|k| + 1] == '"';
      assert forall i :: 1 <= i < |part| + 1 ==> text[i] == part[i - 1];
      assert text[|part| + 1] == '"';
      assert |k| >= |part|;
      assert forall i :: 1 <= i < |k| + 1 ==> key[i] == k[i - 1];
      assert |k| == |part|;
      assert k == key[1..|k| + 1] == text[1..|part| + 1] == part;
    }
    assert k == part ==> text == key + rest;
  }

  lemma {:induction false} FindKey(parts: seq<string>, rest: string, k: string)
    requires parts != [] && QuoteFree(parts) && '"' !in k && FirstPiece(parts, k) < |parts|
    ensures StrStr(Text(parts, rest), "\"" + k + "\"") == Some("\"" + Text(parts[FirstPiece(parts, k)..], rest))
    decreases |parts|
  {
    var pat, tail := "\"" + k + "\"", parts[1..];
    var here := "\"" + Text(tail, rest);
    StrStrSkip(parts[0], here, pat);
    QuotedPrefix(k, tail[0], Text(tail[1..], rest));
    if tail[0] != k {
      assert here[1..] == Text(tail, rest);
      FindKey(tail, rest, k);
      assert parts[1..][FirstPiece(tail, k)..] == parts[1 + FirstPiece(tail, k)..];
    }
  }

  lemma QuotedText(a: string, b: string, rest: string)
    requires '"' !in a && '"' !in b
    ensures Quoted(a + ("\"" + (b + ("\"" + rest)))) == Some(b)
  {
    var q := b + ("\"" + rest);
    StrChrFirst(a, q, '"');
    assert a + ['"'] + q == a + ("\"" + q);
    StrChrFirst(b, rest, '"');
    assert b + ['"'] + rest == q && (['"'] + q)[1..] == q;
  }

  lemma TextTwo(parts: seq<string>, rest: string)
    requires |parts| >= 2
    ensures Text(parts, rest) == parts[0] + ("\"" + (parts[1] + ("\"" + Text(parts[2..], rest))))
  {
    assert parts[1..][1..] == parts[2..];
  }

  /** After a key, the piece after next is the quoted text. */
  lemma QuotedPiece(parts: seq<string>, rest: string)
    requires QuoteFree(parts) && |parts| >= 2
    ensures Quoted(Text(parts, rest)) == Some(parts[1])
  {
    TextTwo(parts, rest);
    QuotedText(parts[0], parts[1], Text(parts[2..], rest));
  }

  lemma FieldPiece(parts: seq<string>, rest: string, k: string, max: nat)
    requires parts != [] && QuoteFree(parts) && '"' !in k && FirstPiece(parts, k) + 2 < |parts|
    ensures Field(Text(parts, rest), "\"" + k + "\"", max)
         == if |parts[FirstPiece(parts, k) + 2]| < max then Some(parts[FirstPiece(parts, k) + 2]) else None
  {
    var i := FirstPiece(parts, k);
    FindKey(parts, rest, k);
    PieceIs(parts, k);
    assert parts[i..][1..] == parts[i + 1..];
    AfterKey(k, Text(parts[i + 1..], rest));
    QuotedPiece(parts[i + 1..], rest);
  }

  lemma AfterKey(k: string, rest: string)
    ensures ("\"" + (k + ("\"" + rest)))[|"\"" + k + "\""|..] == rest
  {
    assert "\"" + (k + ("\"" + rest)) == ("\"" + k + "\"") + rest;
  }

  lemma {:induction false} PieceIs(parts: seq<string>, k: string)
    requires |parts| > 0 && FirstPiece(parts, k) < |parts|
    ensures parts[FirstPiece(parts, k)] == k
    decreases |parts|
  {
    if |parts| > 1 && parts[1] != k {
      PieceIs(parts[1..], k);
    }
  }

  // ----- one object -----

  predicate Printable(d: Source) {
    SourceFits(d) && d.host != "" && '"' !in d.name && '"' !in d.host
  }

  function ObjParts(d: Source): seq<string> {
    ["{", "name", ": ", d.name, ", ", "host", ": ", d.host, ", ", "port"]
  }

  /** The end of an object, from the colon after the last key. */
  function PortText(d: Source, rest: string): string {
    ": " + (IntText(d.port) + ("}" + rest))
  }

  lemma TextCons(part: string, parts: seq<string>, rest: string)
    ensures Text([part] + parts, rest) == part + ("\"" + Text(parts, rest))
  {
    assert ([part] + parts)[1..] == parts;
  }

  // The three literals of an object, cut at their quotes.

  lemma NameLiteral(x: string)
    ensures "{\"name\": \"" + x == "{" + ("\"" + ("name" + ("\"" + (": " + ("\"" + x)))))
  {
  }

  lemma HostLiteral(x: string)
    ensures "\", \"host\": \"" + x == "\"" + (", " + ("\"" + ("host" + ("\"" + (": " + ("\"" + x))))))
  {
  }

  lemma PortLiteral(x: string)
    ensures "\", \"port\": " + x == "\"" + (", " + ("\"" + ("port" + ("\"" + (": " + x)))))
  {
  }

  lemma ObjPartsCons(d: Source) returns (p: seq<seq<string>>)
    ensures |p| == 11 && p[0] == ObjParts(d) && p[10] == []
    ensures p[0] == ["{"] + p[1] && p[1] == ["name"] + p[2] && p[2] == [": "] + p[3] && p[3] == [d.name] + p[4]
    ensures p[4] == [", "] + p[5] && p[5] == ["host"] + p[6] && p[6] == [": "] + p[7] && p[7] == [d.host] + p[8]
    ensures p[8] == [", "] + p[9] && p[9] == ["port"] + p[10]
  {
    var p8 := [", "] + (["port"] + []);
    var p6 := [": "] + ([d.host] + p8);
    var p4 := [", "] + (["host"] + p6);
    var p2 := [": "] + ([d.name] + p4);
    var p0 := ["{"] + (["name"] + p2);
    p := [p0, ["name"] + p2, p2, [d.name] + p4, p4, ["host"] + p6, p6, [d.host] + p8, p8, ["port"] + [], []];
    assert p8 == [", ", "port"] && p6 == [": ", d.host, ", ", "port"];
    assert p4 == [", ", "host", ": ", d.host, ", ", "port"];
    assert p0 == ObjParts(d);
  }

  lemma ObjText(d: Source, rest: string)
    ensures Obj(d) + rest == Text(ObjParts(d), PortText(d, rest))
  {
    var tail := PortText(d, rest);
    var p := ObjPartsCons(d);
    TextCons("port", p[10], tail);
    TextCons(", ", p[9], tail);
    PortLiteral(IntText(d.port) + ("}" + rest));
    TextCons(d.host, p[8], tail);
    TextCons(": ", p[7], tail);
    TextCons("host", p[6], tail);
    TextCons(", ", p[5], tail);
    HostLiteral(Text(p[7], tail));
    TextCons(d.name, p[4], tail);
    TextCons(": ", p[3], tail);
    TextCons("name", p[2], tail);
    TextCons("{", p[1], tail);
    NameLiteral(Text(p[3], tail));
    ObjFlat("{\"name\": \"", d.name, "\", \"host\": \"", d.host, "\", \"port\": ", IntText(d.port), "}", rest);
  }

  lemma ObjFlat(a: string, b: string, c: string, d: string, e: string, f: string, g: string, rest: string)
    ensures a + b + c + d + e + f + g + rest == a + (b + (c + (d + (e + (f + (g + rest))))))
  {
    Assoc(a + b + c + d + e + f, g, rest);
    Assoc(a + b + c + d + e, f, g + rest);
    Assoc(a + b + c + d, e, f + (g + rest));
    Assoc(a + b + c, d, e + (f + (g + rest)));
    Assoc(a + b, c, d + (e + (f + (g + rest))));
    Assoc(a, b, c + (d + (e + (f + (g + rest)))));
  }

  /** What reading an object gives: a name equal to a later key hides that key. */
  function Reread(d: Source): Source {
    Source(d.name, if d.name == "host" then "host" else d.host, if d.name == "port" then 0 else d.port)
  }

  lemma {:induction false} FirstPieceIs(parts: seq<string>, k: string, i: nat)
    requires 1 <= i < |parts| && parts[i] == k && forall j :: 1 <= j < i ==> parts[j] != k
    ensures FirstPiece(parts, k) == i
  {
    if i > 1 {
      FirstPieceIs(parts[1..], k, i - 1);
    }
  }

  lemma PartsQuoteFree(d: Source)
    requires Printable(d)
    ensures QuoteFree(ObjParts(d))
  {
    var p := ObjParts(d);
    assert p[3] == d.name && p[7] == d.host;
  }

  lemma ReadName(d: Source, rest: string)
    requires Printable(d)
    ensures Field(Text(ObjParts(d), rest), "\"name\"", MAX_NAME) == Some(d.name)
  {
    PartsQuoteFree(d);
    FirstPieceIs(ObjParts(d), "name", 1);
    assert "\"name\"" == "\"" + "name" + "\"";
    FieldPiece(ObjParts(d), rest, "name", MAX_NAME);
  }

  lemma ReadHost(d: Source, rest: string)
    requires Printable(d)
    ensures Field(Text(ObjParts(d), rest), "\"host\"", MAX_HOST) == Some(Reread(d).host)
  {
    PartsQuoteFree(d);
    FirstPieceIs(ObjParts(d), "host", if d.name == "host" then 3 else 5);
    assert "\"host\"" == "\"" + "host" + "\"";
    FieldPiece(ObjParts(d), rest, "host", MAX_HOST);
  }

  lemma ColonNumberAt(pre: string, x: string)
    requires ':' !in pre
    ensures ColonNumber(pre + (":" + x)) == Atoi(x)
  {
    StrChrFirst(pre, x, ':');
    assert pre + [':'] + x == pre + (":" + x);
  }

  lemma PortTextNumber(d: Source, rest: string, pre: string)
    requires d.port > 0 && ':' !in pre
    ensures ColonNumber(pre + PortText(d, rest)) == d.port
  {
    var num := IntText(d.port) + ("}" + rest);
    assert PortText(d, rest) == ":" + (" " + num);
    ColonNumberAt(pre, " " + num);
    AtoiDecimal(d.port, "}" + rest);
  }

  /** A name equal to "port" leads to the colon after the host's key, where there is no number. */
  lemma NoNumber(d: Source, tail: string)
    ensures ColonNumber(Text(ObjParts(d)[4..], tail)) == 0
  {
    var p := ObjParts(d);
    assert p[4..] == [", "] + p[5..] && p[5..] == ["host"] + p[6..] && p[6..] == [": "] + p[7..];
    TextCons(", ", p[5..], tail);
    TextCons("host", p[6..], tail);
    TextCons(": ", p[7..], tail);
    var more := " \"" + Text(p[7..], tail);
    assert Text(p[4..], tail) == ", \"host\"" + (":" + more);
    ColonNumberAt(", \"host\"", more);
    assert SkipSpace(more) == more[1..];
  }

  lemma HostAsKey(d: Source, tail: string)
    ensures Text(ObjParts(d)[8..], tail) == ", \"port\"" + tail
  {
    assert ObjParts(d)[8..] == [", "] + ["port"] && ["port"] == ["port"] + [];
    TextCons(", ", ["port"], tail);
    TextCons("port", [], tail);
  }

  lemma PortAfterPiece(parts: seq<string>, rest: string, i: nat)
    requires QuoteFree(parts) && 1 <= i < |parts| && parts[i] == "port"
    requires forall j :: 1 <= j < i ==> parts[j] != "port"
    ensures PortField(Text(parts, rest)) == ColonNumber(Text(parts[i + 1..], rest))
  {
    FirstPieceIs(parts, "port", i);
    assert "\"port\"" == "\"" + "port" + "\"";
    FindKey(parts, rest, "port");
    assert parts[i..][1..] == parts[i + 1..];
    AfterKey("port", Text(parts[i + 1..], rest));
  }

  lemma ReadPort(d: Source, rest: string)
    requires Printable(d)
    ensures PortField(Text(ObjParts(d), PortText(d, rest))) == Reread(d).port
  {
    var p, tail := ObjParts(d), PortText(d, rest);
    PartsQuoteFree(d);
    if d.name == "port" {
      PortAfterPiece(p, tail, 3);
      NoNumber(d, tail);
    } else if d.host == "port" {
      PortAfterPiece(p, tail, 7);
      HostAsKey(d, tail);
      PortTextNumber(d, rest, ", \"port\"");
    } else {
      PortAfterPiece(p, tail, 9);
      PortTextNumber(d, rest, "");
      assert p[10..] == [] && "" + tail == tail;
    }
  }

  lemma ReadObjText(d: Source, rest: string)
    requires Printable(d)
    ensures ReadObj(Obj(d) + rest) == Reread(d)
  {
    ObjText(d, rest);
    ReadName(d, PortText(d, rest));
    ReadHost(d, PortText(d, rest));
    ReadPort(d, rest);
  }

  // ----- the head of the file -----

  function HeadParts(default: string): seq<string> {
    ["{\n  ", "default", ": ", default, ",\n  ", "datasources"]
  }

  lemma DefaultLiteral(x: string)
    ensures "{\n  \"default\": \"" + x == "{\n  " + ("\"" + ("default" + ("\"" + (": " + ("\"" + x)))))
  {
  }

  lemma DatasourcesLiteral(x: string)
    ensures "\",\n  \"datasources\": [\n" + x
         == "\"" + (",\n  " + ("\"" + ("datasources" + ("\"" + (": [\n" + x)))))
  {
  }

  lemma HeadPartsCons(default: string) returns (p: seq<seq<string>>)
    ensures |p| == 7 && p[0] == HeadParts(default) && p[6] == []
    ensures p[0] == ["{\n  "] + p[1] && p[1] == ["default"] + p[2] && p[2] == [": "] + p[3]
    ensures p[3] == [default] + p[4] && p[4] == [",\n  "] + p[5] && p[5] == ["datasources"] + p[6]
  {
    p := seq(7, i requires 0 <= i < 7 => HeadParts(default)[i..]);
  }

  lemma HeadText(default: string, rest: string)
    ensures Head(default) + rest == Text(HeadParts(default), ": [\n" + rest)
  {
    var tail := ": [\n" + rest;
    var p := HeadPartsCons(default);
    TextCons("datasources", p[6], tail);
    TextCons(",\n  ", p[5], tail);
    DatasourcesLiteral(rest);
    TextCons(default, p[4], tail);
    TextCons(": ", p[3], tail);
    TextCons("default", p[2], tail);
    TextCons("{\n  ", p[1], tail);
    DefaultLiteral(Text(p[3], tail));
    HeadFlat("{\n  \"default\": \"", default, "\",\n  \"datasources\": [\n", rest);
  }

  lemma HeadFlat(a: string, b: string, c: string, rest: string)
    ensures a + b + c + rest == a + (b + (c + rest))
  {
    Assoc(a + b, c, rest);
    Assoc(a, b, c + rest);
  }

  lemma ReadDefault(default: string, rest: string)
    requires '"' !in default && |default| < MAX_NAME
    ensures Field(Head(default) + rest, "\"default\"", MAX_NAME) == Some(default)
  {
    HeadText(default, rest);
    var p := HeadParts(default);
    assert QuoteFree(p) by { assert p[3] == default; }
    FirstPieceIs(p, "default", 1);
    assert "\"default\"" == "\"" + "default" + "\"";
    FieldPiece(p, ": [\n" + rest, "default", MAX_NAME);
  }

  /** A default named "datasources" is found instead of the key, but the array behind it is the same. */
  lemma FindArray(default: string, rest: string)
    requires '"' !in default
    ensures var p := StrStr(Head(default) + rest, "\"datasources\"");
            p.Some? && StrChr(p.value, '[') == Some("[\n" + rest)
  {
    HeadText(default, rest);
    var p, tail := HeadParts(default), ": [\n" + rest;
    assert QuoteFree(p) by { assert p[3] == default; }
    var i := if default == "datasources" then 3 else 5;
    FirstPieceIs(p, "datasources", i);
    assert "\"datasources\"" == "\"" + "datasources" + "\"";
    FindKey(p, tail, "datasources");
    KeyToArray(default, rest);
  }

  lemma KeyToArray(default: string, rest: string)
    ensures StrChr("\"" + Text(HeadParts(default)[5..], ": [\n" + rest), '[') == Some("[\n" + rest)
    ensures default == "datasources" ==>
      StrChr("\"" + Text(HeadParts(default)[3..], ": [\n" + rest), '[') == Some("[\n" + rest)
  {
    var p, tail, open := HeadParts(default), ": [\n" + rest, "[\n" + rest;
    assert tail == ": " + open;
    StrChrSkip(": ", open, '[');
    SkipPieces(p[5..], tail, '[');
    if default == "datasources" {
      SkipPieces(p[3..], tail, '[');
    }
  }

  lemma {:induction false} SkipPieces(parts: seq<string>, rest: string, c: char)
    requires c != '"' && forall part :: part in parts ==> c !in part
    ensures StrChr("\"" + Text(parts, rest), c) == StrChr(rest, c)
  {
    StrChrSkip("\"", Text(parts, rest), c);
    if parts != [] {
      SkipPieces(parts[1..], rest, c);
      StrChrSkip(parts[0], "\"" + Text(parts[1..], rest), c);
    }
  }
}
