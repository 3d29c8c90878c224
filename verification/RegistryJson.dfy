/** The datasource file of gate/main.c is a JSON text (RFC 8259): a standard reader gets the default and the list
    from it, whatever the gateway's own reader makes of it. */
module RegistryJson {
  import opened CStrings
  import opened J = Json
  import opened JsonText
  import opened Registry
  import opened RegistryFile
  import Utf8

  // ----- white space between the tokens -----

  predicate AllWhite(s: string) { forall i :: 0 <= i < |s| ==> White(s[i]) }

  lemma {:induction false} WhiteSkipped(white: string, rest: string)
    requires AllWhite(white)
    ensures SkipWhite(white + rest) == SkipWhite(rest)
  {
    if white == "" {
      assert white + rest == rest;
    } else {
      assert (white + rest)[1..] == white[1..] + rest;
      WhiteSkipped(white[1..], rest);
    }
  }

  /** A string in quotes, and what follows it. */
  function Quote(text: string, rest: string): string { "\"" + text + "\"" + rest }

  lemma SpacedString(white: string, text: string, rest: string)
    requires AllWhite(white) && PlainText(text)
    ensures ParseValue(white + Quote(text, rest)) == Some((JStr(text), rest))
    ensures ParseString(SkipWhite(white + Quote(text, rest))) == Some((text, rest))
  {
    var q := Quote(text, rest);
    WhiteSkipped(white, q);
    assert q[0] == '"' && SkipWhite(q) == q;
    ReadStringValue(text, rest);
    ReadString(text, rest);
  }

  lemma SpacedNumber(white: string, n: int, rest: string)
    requires AllWhite(white) && Delimited(rest)
    ensures ParseValue(white + (IntText(n) + rest)) == Some((JNum(IntText(n)), rest))
  {
    WhiteSkipped(white, IntText(n) + rest);
    IntNumber(n);
    ReadValue(JNum(IntText(n)), rest);
  }

  lemma SpacedField(white: string, name: string, tail: string, v: Json, rest: string)
    requires AllWhite(white) && PlainText(name) && ParseValue(tail) == Some((v, rest))
    ensures ParseField(white + Quote(name, ":" + tail)) == Some((Field(name, v), rest))
  {
    SpacedString(white, name, ":" + tail);
    assert (":" + tail)[1..] == tail;
  }

  lemma FieldsGoOn(s: string, f: J.Field, more: string, fields: seq<J.Field>, rest: string)
    requires ParseField(s) == Some((f, "," + more)) && ParseFields(more) == Some((fields, rest))
    ensures ParseFields(s) == Some(([f] + fields, rest))
  {
    assert ("," + more)[1..] == more;
  }

  lemma FieldsEnd(s: string, f: J.Field, white: string, rest: string)
    requires ParseField(s) == Some((f, white + ("}" + rest))) && AllWhite(white)
    ensures ParseFields(s) == Some(([f], rest))
  {
    WhiteSkipped(white, "}" + rest);
    assert ("}" + rest)[1..] == rest;
  }

  lemma SpacedObject(white: string, inner: string, fields: seq<J.Field>, rest: string)
    requires AllWhite(white) && inner != "" && inner[0] == '"' && ParseFields(inner) == Some((fields, rest))
    ensures ParseValue(white + ("{" + inner)) == Some((JObj(fields), rest))
  {
    var s := "{" + inner;
    WhiteSkipped(white, s);
    assert s[1..] == inner && SkipWhite(inner) == inner;
    assert ParseHere(s) == ParseObject(inner);
  }

  // ----- one source -----

  function SourceFields(d: Source): seq<J.Field> {
    [Field("name", JStr(d.name)), Field("host", JStr(d.host)), Field("port", JNum(IntText(d.port)))]
  }

  function SourceJson(d: Source): Json { JObj(SourceFields(d)) }

  function PortJson(d: Source, rest: string): string { Quote("port", ":" + (" " + (IntText(d.port) + ("}" + rest)))) }

  function HostJson(d: Source, rest: string): string {
    Quote("host", ":" + (" " + Quote(d.host, "," + (" " + PortJson(d, rest)))))
  }

  function NameJson(d: Source, rest: string): string {
    Quote("name", ":" + (" " + Quote(d.name, "," + (" " + HostJson(d, rest)))))
  }

  lemma ObjIs(d: Source, rest: string)
    ensures Obj(d) + rest == "{" + NameJson(d, rest)
  {
    var a, b, c := "{\"name\": \"", "\", \"host\": \"", "\", \"port\": ";
    assert Obj(d) == a + d.name + b + d.host + c + IntText(d.port) + "}";
    Chain(a, d.name, b, d.host, c, IntText(d.port), "}", rest);
    PortIs(d, rest);
    HostIs(d, rest);
    NameIs(d, rest);
  }

  lemma Chain(a: string, n: string, b: string, h: string, c: string, num: string, end: string, rest: string)
    ensures a + n + b + h + c + num + end + rest == a + (n + (b + (h + (c + (num + (end + rest))))))
  {
  }

  lemma PortIs(d: Source, rest: string)
    ensures "\", \"port\": " + (IntText(d.port) + ("}" + rest)) == "\"" + ("," + (" " + PortJson(d, rest)))
  {
  }

  lemma HostIs(d: Source, rest: string)
    ensures "\", \"host\": \"" + (d.host + ("\"" + ("," + (" " + PortJson(d, rest)))))
         == "\"" + ("," + (" " + HostJson(d, rest)))
  {
  }

  lemma NameIs(d: Source, rest: string)
    ensures "{\"name\": \"" + (d.name + ("\"" + ("," + (" " + HostJson(d, rest))))) == "{" + NameJson(d, rest)
  {
  }

  /** Strings that JSON takes as they are. */
  predicate PlainSource(d: Source) { PlainText(d.name) && PlainText(d.host) }

  lemma ReadPort(d: Source, rest: string)
    ensures ParseFields(" " + PortJson(d, rest)) == Some(([Field("port", JNum(IntText(d.port)))], rest))
  {
    var tail, key := IntText(d.port) + ("}" + rest), "port";
    SpacedNumber(" ", d.port, "}" + rest);
    SpacedField(" ", key, " " + tail, JNum(IntText(d.port)), "}" + rest);
    assert "" + ("}" + rest) == "}" + rest;
    FieldsEnd(" " + PortJson(d, rest), Field(key, JNum(IntText(d.port))), "", rest);
  }

  /** A field with a string, and the fields behind it. */
  lemma ReadStringField(white: string, key: string, text: string, more: string, fields: seq<J.Field>, rest: string)
    requires AllWhite(white) && PlainText(key) && PlainText(text) && ParseFields(more) == Some((fields, rest))
    ensures ParseFields(white + Quote(key, ":" + (" " + Quote(text, "," + more))))
         == Some(([Field(key, JStr(text))] + fields, rest))
  {
    SpacedString(" ", text, "," + more);
    SpacedField(white, key, " " + Quote(text, "," + more), JStr(text), "," + more);
    FieldsGoOn(white + Quote(key, ":" + (" " + Quote(text, "," + more))), Field(key, JStr(text)), more, fields, rest);
  }

  lemma ReadSourceFields(d: Source, rest: string)
    requires PlainSource(d)
    ensures ParseFields(NameJson(d, rest)) == Some((SourceFields(d), rest))
  {
    var name, host, port := "name", "host", "port";
    var p := Field(port, JNum(IntText(d.port)));
    var h := Field(host, JStr(d.host));
    ReadPort(d, rest);
    ReadStringField(" ", host, d.host, " " + PortJson(d, rest), [p], rest);
    ReadStringField("", name, d.name, " " + HostJson(d, rest), [h] + [p], rest);
    assert "" + NameJson(d, rest) == NameJson(d, rest);
    assert SourceFields(d) == [Field(name, JStr(d.name))] + ([h] + [p]);
  }

  lemma ReadSource(white: string, d: Source, rest: string)
    requires AllWhite(white) && PlainSource(d)
    ensures ParseValue(white + (Obj(d) + rest)) == Some((SourceJson(d), rest))
  {
    ReadSourceFields(d, rest);
    SpacedObject(white, NameJson(d, rest), SourceFields(d), rest);
    ObjIs(d, rest);
  }

  // ----- the list -----

  function SourcesJson(items: seq<Source>, i: nat): seq<Json>
    requires i <= |items|
    decreases |items| - i
  {
    if i == |items| then [] else [SourceJson(items[i])] + SourcesJson(items, i + 1)
  }

  ghost predicate AllPlain(items: seq<Source>) { forall i :: 0 <= i < |items| ==> PlainSource(items[i]) }

  lemma RowsUnfold(items: seq<Source>, i: nat, rest: string)
    requires i < |items|
    ensures var comma, more := if i + 1 < |items| then "," else "", RowsFrom(items, i + 1) + rest;
            RowsFrom(items, i) + rest == "    " + (Obj(items[i]) + (comma + ("\n" + more)))
  {
    var comma, more := if i + 1 < |items| then "," else "", RowsFrom(items, i + 1);
    Nested("    ", Obj(items[i]), comma, "\n", more, rest);
  }

  lemma Nested(a: string, b: string, c: string, d: string, e: string, f: string)
    ensures a + b + c + d + e + f == a + (b + (c + (d + (e + f))))
  {
  }

  lemma LastRow(white: string, d: Source, close: string, rest: string)
    requires PlainSource(d) && AllWhite(white) && AllWhite(close)
    ensures ParseItems(white + ("    " + (Obj(d) + ("" + ("\n" + (close + ("]" + rest)))))))
         == Some(([SourceJson(d)], rest))
  {
    var indent, line, tail := "    ", "\n", close + ("]" + rest);
    Assoc(white, indent, Obj(d) + ("" + (line + tail)));
    ReadSource(white + indent, d, "" + (line + tail));
    Assoc(line, close, "]" + rest);
    assert "" + (line + tail) == line + tail;
    ItemsEnd(white + (indent + (Obj(d) + ("" + (line + tail)))), SourceJson(d), line + close, rest);
  }

  lemma NextRow(white: string, d: Source, more: string, items: seq<Json>, rest: string)
    requires PlainSource(d) && AllWhite(white) && ParseItems("\n" + more) == Some((items, rest))
    ensures ParseItems(white + ("    " + (Obj(d) + ("," + ("\n" + more))))) == Some(([SourceJson(d)] + items, rest))
  {
    var indent := "    ";
    Assoc(white, indent, Obj(d) + ("," + ("\n" + more)));
    ReadSource(white + indent, d, "," + ("\n" + more));
    ItemsGoOn(white + (indent + (Obj(d) + ("," + ("\n" + more)))), SourceJson(d), "\n" + more, items, rest);
  }

  /** The rows, up to the bracket that closes them. */
  lemma {:induction false} ReadRowsJson(white: string, items: seq<Source>, i: nat, close: string, rest: string)
    requires i < |items| && AllPlain(items) && AllWhite(white) && AllWhite(close)
    ensures ParseItems(white + (RowsFrom(items, i) + (close + ("]" + rest)))) == Some((SourcesJson(items, i), rest))
    decreases |items| - i
  {
    var tail := close + ("]" + rest);
    RowsUnfold(items, i, tail);
    if i + 1 < |items| {
      var line := "\n";
      ReadRowsJson(line, items, i + 1, close, rest);
      NextRow(white, items[i], RowsFrom(items, i + 1) + tail, SourcesJson(items, i + 1), rest);
    } else {
      assert RowsFrom(items, i + 1) + tail == tail;
      LastRow(white, items[i], close, rest);
      assert SourcesJson(items, i + 1) == [] && SourcesJson(items, i) == [SourceJson(items[i])];
    }
  }

  lemma ItemsGoOn(s: string, v: Json, more: string, items: seq<Json>, rest: string)
    requires ParseValue(s) == Some((v, "," + more)) && ParseItems(more) == Some((items, rest))
    ensures ParseItems(s) == Some(([v] + items, rest))
  {
    assert ("," + more)[1..] == more;
  }

  lemma ItemsEnd(s: string, v: Json, white: string, rest: string)
    requires ParseValue(s) == Some((v, white + ("]" + rest))) && AllWhite(white)
    ensures ParseItems(s) == Some(([v], rest))
  {
    WhiteSkipped(white, "]" + rest);
    assert ("]" + rest)[1..] == rest;
  }

  lemma OpenArray(white: string, inner: string)
    requires AllWhite(white)
    ensures ParseValue(white + ("[" + inner)) == ParseArray(SkipWhite(inner))
  {
    var s := "[" + inner;
    WhiteSkipped(white, s);
    assert s[0] == '[' && s[1..] == inner && SkipWhite(s) == s;
  }

  /** The list in its brackets. */
  lemma ReadArrayJson(white: string, items: seq<Source>, close: string, rest: string)
    requires AllPlain(items) && AllWhite(white) && AllWhite(close)
    ensures ParseValue(white + ("[" + ("\n" + (RowsFrom(items, 0) + (close + ("]" + rest))))))
         == Some((JArr(SourcesJson(items, 0)), rest))
  {
    var rows := RowsFrom(items, 0) + (close + ("]" + rest));
    OpenArray(white, "\n" + rows);
    WhiteSkipped("\n", rows);
    if items == [] {
      assert rows == close + ("]" + rest);
      WhiteSkipped(close, "]" + rest);
      assert ("]" + rest)[1..] == rest;
    } else {
      RowsStart(items, close + ("]" + rest));
      ReadRowsJson("", items, 0, close, rest);
      assert "" + rows == rows;
      ItemsSkip(rows);
    }
  }

  lemma RowsStart(items: seq<Source>, tail: string)
    requires items != []
    ensures var t := SkipWhite(RowsFrom(items, 0) + tail); t != "" && t[0] == '{'
  {
    RowsUnfold(items, 0, tail);
    var rest := (if 1 < |items| then "," else "") + ("\n" + (RowsFrom(items, 1) + tail));
    WhiteSkipped("    ", Obj(items[0]) + rest);
    ObjIs(items[0], rest);
  }

  lemma ItemsSkip(s: string)
    ensures ParseItems(SkipWhite(s)) == ParseItems(s)
  {
  }

  // ----- the file -----

  function FileFields(s: State): seq<J.Field> {
    [Field("default", JStr(s.default)), Field("datasources", JArr(SourcesJson(s.items, 0)))]
  }

  function FileJson(s: State): Json { JObj(FileFields(s)) }

  function ListJson(items: seq<Source>, rest: string): string {
    Quote("datasources", ":" + (" " + ("[" + ("\n" + (RowsFrom(items, 0) + ("  " + ("]" + rest)))))))
  }

  function DefaultJson(s: State, rest: string): string {
    Quote("default", ":" + (" " + Quote(s.default, "," + ("\n  " + ListJson(s.items, rest)))))
  }

  lemma FileIs(s: State)
    ensures RegistryFile.Print(s) == "{" + ("\n  " + DefaultJson(s, "\n}\n"))
  {
    var rows := RowsFrom(s.items, 0);
    EndIs(rows);
    HeadIs(s.default, rows + END);
    assert RegistryFile.Print(s) == Head(s.default) + (rows + END);
  }

  lemma EndIs(rows: string)
    ensures rows + END == rows + ("  " + ("]" + "\n}\n"))
  {
  }

  lemma HeadIs(default: string, more: string)
    ensures Head(default) + more
         == "{" + ("\n  " + Quote("default", ":" + (" " + Quote(default, "," + ("\n  " +
              Quote("datasources", ":" + (" " + ("[" + ("\n" + more)))))))))
  {
    var a, b := "{\n  \"default\": \"", "\",\n  \"datasources\": [\n";
    assert Head(default) == a + default + b;
    assert a + default + b + more == a + (default + (b + more));
    HeadEnd(default, more);
    HeadBegin(default + ("\"" + ("," + ("\n  " + Quote("datasources", ":" + (" " + ("[" + ("\n" + more))))))));
    QuoteText(default, "," + ("\n  " + Quote("datasources", ":" + (" " + ("[" + ("\n" + more))))));
  }

  lemma QuoteText(text: string, rest: string)
    ensures Quote(text, rest) == "\"" + (text + ("\"" + rest))
  {
  }

  lemma HeadEnd(default: string, more: string)
    ensures "\",\n  \"datasources\": [\n" + more
         == "\"" + ("," + ("\n  " + Quote("datasources", ":" + (" " + ("[" + ("\n" + more))))))
  {
  }

  lemma HeadBegin(x: string)
    ensures "{\n  \"default\": \"" + x == "{" + ("\n  " + Quote("default", ":" + (" " + ("\"" + x))))
  {
  }

  lemma ReadList(items: seq<Source>, rest: string)
    requires AllPlain(items)
    ensures ParseFields("\n  " + ListJson(items, "\n" + ("}" + rest)))
         == Some(([Field("datasources", JArr(SourcesJson(items, 0)))], rest))
  {
    var key, list := "datasources", JArr(SourcesJson(items, 0));
    var end := "\n" + ("}" + rest);
    var tail := " " + ("[" + ("\n" + (RowsFrom(items, 0) + ("  " + ("]" + end)))));
    ReadArrayJson(" ", items, "  ", end);
    SpacedField("\n  ", key, tail, list, end);
    FieldsEnd("\n  " + ListJson(items, end), Field(key, list), "\n", rest);
  }

  lemma ReadFileFields(s: State, rest: string)
    requires AllPlain(s.items) && PlainText(s.default)
    ensures ParseFields("\n  " + DefaultJson(s, "\n" + ("}" + rest))) == Some((FileFields(s), rest))
  {
    var key, last := "default", Field("datasources", JArr(SourcesJson(s.items, 0)));
    ReadList(s.items, rest);
    ReadStringField("\n  ", key, s.default, "\n  " + ListJson(s.items, "\n" + ("}" + rest)), [last], rest);
    assert FileFields(s) == [Field(key, JStr(s.default))] + [last];
  }

  lemma ReadFile(s: State, rest: string)
    requires AllPlain(s.items) && PlainText(s.default)
    ensures ParseValue("{" + ("\n  " + DefaultJson(s, "\n" + ("}" + rest)))) == Some((FileJson(s), rest))
  {
    ReadFileFields(s, rest);
    OpenObject("\n  ", DefaultJson(s, "\n" + ("}" + rest)), FileFields(s), rest);
  }

  lemma OpenObject(white: string, inner: string, fields: seq<J.Field>, rest: string)
    requires AllWhite(white) && inner != "" && inner[0] == '"' && ParseFields(white + inner) == Some((fields, rest))
    ensures ParseValue("{" + (white + inner)) == Some((JObj(fields), rest))
  {
    var s := "{" + (white + inner);
    assert s[0] == '{' && s[1..] == white + inner && SkipWhite(s) == s;
    WhiteSkipped(white, inner);
    FieldsSkip(white + inner);
    assert SkipWhite(inner) == inner && ParseHere(s) == ParseObject(inner);
  }

  lemma FieldsSkip(s: string)
    ensures ParseFields(SkipWhite(s)) == ParseFields(s)
  {
  }

  // ----- the encoding of the file -----

  predicate InUtf8(d: Source) { Utf8.Valid(d.name) && Utf8.Valid(d.host) }

  predicate AsciiText(s: string) { forall c :: c in s ==> Utf8.Ascii(c) }

  lemma QuoteValid(text: string, rest: string)
    ensures Utf8.Valid(Quote(text, rest)) <==> Utf8.Valid(text) && Utf8.Valid(rest)
  {
    QuoteText(text, rest);
    Utf8.AsciiPrefix("\"", text + ("\"" + rest));
    Utf8.Append(text, "\"" + rest);
    Utf8.AsciiPrefix("\"", rest);
  }

  /** A field with a string: only the string and what follows decide. */
  lemma FieldValid(key: string, before: string, text: string, after: string, rest: string)
    requires AsciiText(key) && AsciiText(before) && AsciiText(after)
    ensures Utf8.Valid(Quote(key, before + Quote(text, after + rest))) <==> Utf8.Valid(text) && Utf8.Valid(rest)
  {
    QuoteValid(key, before + Quote(text, after + rest));
    Utf8.AsciiValid(key);
    Utf8.AsciiPrefix(before, Quote(text, after + rest));
    QuoteValid(text, after + rest);
    Utf8.AsciiPrefix(after, rest);
  }

  lemma AsciiPair(a: string, b: string, rest: string)
    requires AsciiText(a) && AsciiText(b)
    ensures Utf8.Valid(a + (b + rest)) <==> Utf8.Valid(rest)
  {
    Utf8.AsciiPrefix(a, b + rest);
    Utf8.AsciiPrefix(b, rest);
  }

  lemma PortValid(d: Source, rest: string)
    ensures Utf8.Valid(PortJson(d, rest)) <==> Utf8.Valid(rest)
  {
    var key, num := "port", IntText(d.port);
    IntNumber(d.port);
    NumberChars(num);
    QuoteValid(key, ":" + (" " + (num + ("}" + rest))));
    Utf8.AsciiValid(key);
    Utf8.AsciiPrefix(":", " " + (num + ("}" + rest)));
    Utf8.AsciiPrefix(" ", num + ("}" + rest));
    Utf8.AsciiPrefix(num, "}" + rest);
    Utf8.AsciiPrefix("}", rest);
  }

  lemma ObjValid(d: Source, rest: string)
    ensures Utf8.Valid(Obj(d) + rest) <==> InUtf8(d) && Utf8.Valid(rest)
  {
    var name, host, colon, comma := "name", "host", ":" + " ", "," + " ";
    ObjIs(d, rest);
    Utf8.AsciiPrefix("{", NameJson(d, rest));
    Assoc(":", " ", Quote(d.name, "," + (" " + HostJson(d, rest))));
    Assoc(",", " ", HostJson(d, rest));
    FieldValid(name, colon, d.name, comma, HostJson(d, rest));
    Assoc(":", " ", Quote(d.host, "," + (" " + PortJson(d, rest))));
    Assoc(",", " ", PortJson(d, rest));
    FieldValid(host, colon, d.host, comma, PortJson(d, rest));
    PortValid(d, rest);
  }

  lemma RowValid(indent: string, d: Source, comma: string, line: string, more: string)
    requires AsciiText(indent) && AsciiText(comma) && AsciiText(line)
    ensures Utf8.Valid(indent + (Obj(d) + (comma + (line + more)))) <==> InUtf8(d) && Utf8.Valid(more)
  {
    Utf8.AsciiPrefix(indent, Obj(d) + (comma + (line + more)));
    ObjValid(d, comma + (line + more));
    AsciiPair(comma, line, more);
  }

  lemma RowsStepValid(items: seq<Source>, i: nat, rest: string)
    requires i < |items|
    ensures Utf8.Valid(RowsFrom(items, i) + rest)
       <==> InUtf8(items[i]) && Utf8.Valid(RowsFrom(items, i + 1) + rest)
  {
    var indent, comma, line := "    ", if i + 1 < |items| then "," else "", "\n";
    RowsUnfold(items, i, rest);
    RowValid(indent, items[i], comma, line, RowsFrom(items, i + 1) + rest);
  }

  lemma {:induction false} AllFrom(f: nat -> bool, items: seq<Source>, i: nat)
    requires i <= |items|
    requires forall k: nat {:trigger items[k]} :: k < |items| ==> (f(k) <==> InUtf8(items[k]) && f(k + 1))
    ensures f(i) <==> (forall k :: i <= k < |items| ==> InUtf8(items[k])) && f(|items|)
    decreases |items| - i
  {
    if i < |items| {
      AllFrom(f, items, i + 1);
      assert f(i) <==> InUtf8(items[i]) && f(i + 1);
    }
  }

  function ValidFrom(items: seq<Source>, rest: string): nat -> bool {
    (k: nat) => k <= |items| && Utf8.Valid(RowsFrom(items, k) + rest)
  }

  lemma ValidStep(items: seq<Source>, rest: string, k: nat)
    requires k < |items|
    ensures ValidFrom(items, rest)(k) <==> InUtf8(items[k]) && ValidFrom(items, rest)(k + 1)
  {
    RowsStepValid(items, k, rest);
  }

  lemma ValidEnd(items: seq<Source>, rest: string)
    ensures ValidFrom(items, rest)(|items|) <==> Utf8.Valid(rest)
  {
    assert RowsFrom(items, |items|) + rest == rest;
  }

  lemma RowsValid(items: seq<Source>, rest: string)
    ensures ValidFrom(items, rest)(0)
       <==> (forall k :: 0 <= k < |items| ==> InUtf8(items[k])) && Utf8.Valid(rest)
  {
    var f := ValidFrom(items, rest);
    forall k: nat {:trigger items[k]} | k < |items| ensures f(k) <==> InUtf8(items[k]) && f(k + 1) {
      ValidStep(items, rest, k);
    }
    AllFrom(f, items, 0);
    ValidEnd(items, rest);
  }

  lemma KeyValid(key: string, a: string, b: string, c: string, d: string, rest: string)
    requires AsciiText(key) && AsciiText(a) && AsciiText(b) && AsciiText(c) && AsciiText(d)
    ensures Utf8.Valid(Quote(key, a + (b + (c + (d + rest))))) <==> Utf8.Valid(rest)
  {
    QuoteValid(key, a + (b + (c + (d + rest))));
    Utf8.AsciiValid(key);
    AsciiPair(a, b, c + (d + rest));
    AsciiPair(c, d, rest);
  }

  lemma ListValid(items: seq<Source>, rest: string)
    requires AsciiText(rest)
    ensures Utf8.Valid(ListJson(items, rest)) <==> forall k :: 0 <= k < |items| ==> InUtf8(items[k])
  {
    var key, end := "datasources", "  " + ("]" + rest);
    var rows := RowsFrom(items, 0) + end;
    var colon, blank, open, line := ":", " ", "[", "\n";
    KeyValid(key, colon, blank, open, line, rows);
    RowsValid(items, end);
    Utf8.AsciiValid(end);
  }

  lemma FileValid(s: State)
    ensures Utf8.Valid(RegistryFile.Print(s))
       <==> Utf8.Valid(s.default) && forall k :: 0 <= k < |s.items| ==> InUtf8(s.items[k])
  {
    var key, colon, comma, end := "default", ":" + " ", "," + "\n  ", "\n}\n";
    FileIs(s);
    Utf8.AsciiPrefix("{", "\n  " + DefaultJson(s, end));
    Utf8.AsciiPrefix("\n  ", DefaultJson(s, end));
    Assoc(":", " ", Quote(s.default, "," + ("\n  " + ListJson(s.items, end))));
    Assoc(",", "\n  ", ListJson(s.items, end));
    FieldValid(key, colon, s.default, comma, ListJson(s.items, end));
    ListValid(s.items, end);
  }

  /** With names and hosts that need no escapes, a JSON reader gets the default and the list from the saved file
      exactly when all of them are in UTF-8. */
  lemma FileParses(s: State)
    requires AllPlain(s.items) && PlainText(s.default)
    ensures Parse(RegistryFile.Print(s)) == Some(FileJson(s))
       <==> Utf8.Valid(s.default) && forall k :: 0 <= k < |s.items| ==> InUtf8(s.items[k])
  {
    FileValid(s);
    FileIs(s);
    var end := "\n";
    assert "\n" + ("}" + end) == "\n}\n";
    ReadFile(s, end);
    assert SkipWhite(end) == "";
  }

  /** What the value says: the default, and for each source, in order, its name, host and port. */
  lemma FileShows(s: State)
    ensures var v := FileJson(s);
            v.JObj? && |v.fields| == 2 && v.fields[0] == Field("default", JStr(s.default))
            && v.fields[1].name == "datasources" && v.fields[1].value.JArr?
            && |v.fields[1].value.items| == |s.items|
    ensures forall i :: 0 <= i < |s.items| ==> SourceShows(FileJson(s).fields[1].value.items[i], s.items[i])
  {
    SourcesSize(s.items, 0);
    forall i | 0 <= i < |s.items| ensures SourceShows(FileJson(s).fields[1].value.items[i], s.items[i]) {
      SourceAt(s.items, 0, i);
      AtoiIntText(s.items[i].port);
    }
  }

  predicate SourceShows(v: Json, d: Source) {
    v.JObj? && |v.fields| == 3
    && v.fields[0] == Field("name", JStr(d.name)) && v.fields[1] == Field("host", JStr(d.host))
    && v.fields[2].name == "port" && v.fields[2].value.JNum? && Atoi(v.fields[2].value.token) == d.port
  }

  lemma {:induction false} SourcesSize(items: seq<Source>, i: nat)
    requires i <= |items|
    ensures |SourcesJson(items, i)| == |items| - i
    decreases |items| - i
  {
    if i < |items| {
      SourcesSize(items, i + 1);
    }
  }

  lemma {:induction false} SourceAt(items: seq<Source>, i: nat, k: nat)
    requires i + k < |items| && |SourcesJson(items, i)| == |items| - i
    ensures SourcesJson(items, i)[k] == SourceJson(items[i + k])
    decreases k
  {
    if k > 0 {
      SourcesSize(items, i + 1);
      SourceAt(items, i + 1, k - 1);
    }
  }
}
