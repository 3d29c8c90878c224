/** What reading a printed datasource file gives, for every list of quote-free sources. The reader only looks at
    braces: an opening brace after a closing one is where it takes the next object to start, be it inside a name
    or a host. */
module RegistryReload {
  import opened CStrings
  import opened Registry
  import opened RegistryFile
  import opened RegistryPieces

  // ----- the walk -----

  /** What is read at each opening brace that follows a closing one. */
  function Scan(read: string -> Source, text: string, closed: bool): seq<Source> {
    if text == "" then []
    else if closed && text[0] == '{' then [read(text)] + Scan(read, text[1..], false)
    else Scan(read, text[1..], closed || text[0] == '}')
  }

  /** The opening braces in `t` that follow a closing one; before `t` there was one if `closed`. */
  function Openings(t: string, closed: bool): nat {
    if t == "" then 0
    else if closed && t[0] == '{' then 1 + Openings(t[1..], false)
    else Openings(t[1..], closed || t[0] == '}')
  }

  /** Whether a closing brace is still waiting for an opening one behind `t`. */
  function Pending(t: string, closed: bool): bool {
    if t == "" then closed
    else if closed && t[0] == '{' then Pending(t[1..], false)
    else Pending(t[1..], closed || t[0] == '}')
  }

  function Copies(d: Source, n: nat): seq<Source> { if n == 0 then [] else [d] + Copies(d, n - 1) }

  predicate NoBraces(s: string) { '{' !in s && '}' !in s }

  lemma {:induction false} ScanSkip(read: string -> Source, a: string, x: string, closed: bool)
    requires NoBraces(a)
    ensures Scan(read, a + x, closed) == Scan(read, x, closed)
  {
    if a == "" {
      assert a + x == x;
    } else {
      assert (a + x)[1..] == a[1..] + x && (a + x)[0] == a[0] && a[0] in a;
      ScanSkip(read, a[1..], x, closed);
    }
  }

  lemma {:induction false} ScanNothing(read: string -> Source, x: string)
    requires '{' !in x
    ensures Scan(read, x, true) == []
  {
    if x != "" {
      assert x[0] in x;
      ScanNothing(read, x[1..]);
    }
  }

  lemma {:induction false} ScanPieces(read: string -> Source, parts: seq<string>, x: string, closed: bool)
    requires forall i :: 0 <= i < |parts| ==> NoBraces(parts[i])
    ensures Scan(read, Text(parts, x), closed) == Scan(read, x, closed)
  {
    if parts != [] {
      var more := Text(parts[1..], x);
      ScanSkip(read, parts[0], "\"" + more, closed);
      ScanSkip(read, "\"", more, closed);
      ScanPieces(read, parts[1..], x, closed);
    }
  }

  /** Over a text at whose opening braces the same is always read. */
  lemma {:induction false} ScanSame(read: string -> Source, t: string, x: string, closed: bool, d: Source)
    requires forall i :: 0 <= i < |t| && t[i] == '{' ==> read(t[i..] + x) == d
    ensures Scan(read, t + x, closed) == Copies(d, Openings(t, closed)) + Scan(read, x, Pending(t, closed))
  {
    if t == "" {
      assert t + x == x;
    } else {
      assert (t + x)[1..] == t[1..] + x && t[0..] == t;
      forall i | 0 <= i < |t[1..]| && t[1..][i] == '{' ensures read(t[1..][i..] + x) == d {
        assert t[1..][i..] == t[i + 1..];
      }
      ScanSame(read, t[1..], x, if closed && t[0] == '{' then false else closed || t[0] == '}', d);
    }
  }

  // ----- the loop that reads is this walk -----

  lemma {:induction false} ScanToOpen(read: string -> Source, s: string)
    ensures var o := StrChr(s, '{');
            Scan(read, s, true) == if o.None? then [] else [read(o.value)] + Scan(read, o.value[1..], false)
  {
    if s != "" && s[0] != '{' {
      ScanToOpen(read, s[1..]);
    }
  }

  lemma {:induction false} ScanToClose(read: string -> Source, s: string)
    ensures var e := StrChr(s, '}');
            Scan(read, s, false) == if e.None? then [] else Scan(read, e.value[1..], true)
  {
    if s != "" && s[0] != '}' {
      ScanToClose(read, s[1..]);
    }
  }

  /** Collecting what is usable until the list is full. */
  function Taken(items: seq<Source>, ds: seq<Source>): seq<Source>
    decreases |ds|
  {
    if |items| >= MAX_DATASOURCES || ds == [] then items
    else Taken(if Usable(ds[0]) then items + [ds[0]] else items, ds[1..])
  }

  /** The reading loop with the object reader left open. */
  function ReadRowsWith(read: string -> Source, items: seq<Source>, arr: string): seq<Source>
    decreases |arr|
  {
    var obj := StrChr(arr, '{');
    if |items| >= MAX_DATASOURCES || obj.None? then items
    else
      var items' := if Usable(read(obj.value)) then items + [read(obj.value)] else items;
      var e := StrChr(obj.value, '}');
      var next := if e.None? then None else StrChr(e.value[1..], '{');
      if next.None? then items' else ReadRowsWith(read, items', next.value)
  }

  lemma {:induction false} ReadRowsIsWith(items: seq<Source>, arr: string)
    ensures ReadRows(items, arr) == ReadRowsWith(ReadObj, items, arr)
    decreases |arr|
  {
    var obj := StrChr(arr, '{');
    if obj.Some? && StrChr(obj.value, '}').Some? {
      var next := StrChr(StrChr(obj.value, '}').value[1..], '{');
      if next.Some? {
        var d := ReadObj(obj.value);
        ReadRowsIsWith(if Usable(d) then items + [d] else items, next.value);
      }
    }
  }

  lemma {:induction false} StrChrAgain(s: string, c: char)
    requires StrChr(s, c).Some?
    ensures StrChr(StrChr(s, c).value, c) == StrChr(s, c)
  {
    if s[0] != c {
      StrChrAgain(s[1..], c);
    }
  }

  /** From an object on, the walk goes on at the place the loop jumps to. */
  lemma ScanFromObject(read: string -> Source, obj: string)
    requires obj != "" && obj[0] == '{'
    ensures var e := StrChr(obj, '}');
            var next := if e.None? then None else StrChr(e.value[1..], '{');
            Scan(read, obj[1..], false) == if next.None? then [] else Scan(read, next.value, true)
  {
    ScanToClose(read, obj[1..]);
    assert StrChr(obj, '}') == StrChr(obj[1..], '}');
    var e := StrChr(obj, '}');
    if e.Some? {
      ScanToOpen(read, e.value[1..]);
      var next := StrChr(e.value[1..], '{');
      if next.Some? {
        StrChrAgain(e.value[1..], '{');
        ScanToOpen(read, next.value);
      }
    }
  }

  lemma {:induction false} ReadIsScan(read: string -> Source, items: seq<Source>, arr: string)
    ensures ReadRowsWith(read, items, arr) == Taken(items, Scan(read, arr, true))
    decreases |arr|
  {
    ScanToOpen(read, arr);
    var obj := StrChr(arr, '{');
    if |items| < MAX_DATASOURCES && obj.Some? {
      ScanFromObject(read, obj.value);
      var d := read(obj.value);
      var items' := if Usable(d) then items + [d] else items;
      assert Scan(read, arr, true)[1..] == Scan(read, obj.value[1..], false);
      var e := StrChr(obj.value, '}');
      var next := if e.None? then None else StrChr(e.value[1..], '{');
      if next.Some? {
        ReadIsScan(read, items', next.value);
      }
    }
  }

  function UsableOf(ds: seq<Source>): seq<Source> {
    if ds == [] then [] else (if Usable(ds[0]) then [ds[0]] else []) + UsableOf(ds[1..])
  }

  function Capped(ds: seq<Source>): seq<Source> { if |ds| <= MAX_DATASOURCES then ds else ds[..MAX_DATASOURCES] }

  lemma {:induction false} TakenIs(items: seq<Source>, ds: seq<Source>)
    requires |items| <= MAX_DATASOURCES
    ensures Taken(items, ds) == Capped(items + UsableOf(ds))
    decreases |ds|
  {
    if ds == [] {
      assert items + UsableOf(ds) == items;
    } else if |items| == MAX_DATASOURCES {
      CappedFull(items, UsableOf(ds));
    } else {
      TakenIs(if Usable(ds[0]) then items + [ds[0]] else items, ds[1..]);
      UsableStep(items, ds);
    }
  }

  lemma CappedFull(items: seq<Source>, more: seq<Source>)
    requires |items| == MAX_DATASOURCES
    ensures Capped(items + more) == items
  {
    assert (items + more)[..MAX_DATASOURCES] == items;
    assert |more| == 0 ==> items + more == items;
  }

  lemma UsableStep(items: seq<Source>, ds: seq<Source>)
    requires ds != []
    ensures items + UsableOf(ds) == (if Usable(ds[0]) then items + [ds[0]] else items) + UsableOf(ds[1..])
  {
  }

  /** The reader collects the usable ones of what the walk reads, up to 16. */
  lemma ReadCollects(arr: string)
    ensures ReadRows([], arr) == Capped(UsableOf(Scan(ReadObj, arr, true)))
  {
    var ds := Scan(ReadObj, arr, true);
    ReadRowsIsWith([], arr);
    ReadIsScan(ReadObj, [], arr);
    TakenIs([], ds);
    assert [] + UsableOf(ds) == UsableOf(ds);
  }

  // ----- the objects seen inside a name or a host -----

  /** Starting inside the name: the host and port are its own, the name is the one of the next source; a
      host equal to "name" is taken for the key. */
  function InName(d: Source, next: Option<Source>): Source {
    Source(if d.host == "name" then "port" else if next.Some? then next.value.name else "", d.host, d.port)
  }

  /** Starting inside the host: the port is its own, name and host are those read of the next source. */
  function InHost(d: Source, next: Option<Source>): Source {
    Source(if next.Some? then next.value.name else "", if next.Some? then Reread(next.value).host else "", d.port)
  }

  function AfterName(d: Source): seq<string> { [", ", "host", ": ", d.host, ", ", "port"] }

  function AfterHost(): seq<string> { [", ", "port"] }

  lemma {:induction false} TextSplit(a: seq<string>, b: seq<string>, tail: string)
    ensures Text(a + b, tail) == Text(a, Text(b, tail))
  {
    if a == [] {
      assert a + b == b;
    } else {
      assert (a + b)[1..] == a[1..] + b;
      TextSplit(a[1..], b, tail);
    }
  }

  /** Text between two runs of pieces becomes part of the first piece of the second run. */
  lemma TextGlue(own: seq<string>, glue: string, q: string, qs: seq<string>, tail: string)
    ensures Text(own, glue + Text([q] + qs, tail)) == Text(own + ([glue + q] + qs), tail)
  {
    TextSplit(own, [glue + q] + qs, tail);
    TextCons(glue + q, qs, tail);
    TextCons(q, qs, tail);
    Assoc(glue, q, "\"" + Text(qs, tail));
  }

  /** The text from the colon after the last key of `d` to the opening brace of the next object. */
  function Glue(d: Source, g: string): string { ": " + (IntText(d.port) + ("}" + (g + "{"))) }

  function NextParts(n: Source): seq<string> { ["name", ": ", n.name, ", ", "host", ": ", n.host, ", ", "port"] }

  /** Pieces of `d` followed by those of the next object. */
  lemma TextAcross(own: seq<string>, d: Source, g: string, n: Source, r: string)
    ensures Text(own, PortText(d, g + (Obj(n) + r))) == Text(own + ([Glue(d, g)] + NextParts(n)), PortText(n, r))
  {
    var glue, tail := ": " + (IntText(d.port) + ("}" + g)), PortText(n, r);
    ObjText(n, r);
    assert ObjParts(n) == ["{"] + NextParts(n);
    GlueText(IntText(d.port), g, Text(ObjParts(n), tail));
    TextGlue(own, glue, "{", NextParts(n), tail);
    GlueBrace(IntText(d.port), g);
  }

  lemma GlueText(num: string, g: string, x: string)
    ensures ": " + (num + ("}" + (g + x))) == ": " + (num + ("}" + g)) + x
  {
    Assoc("}", g, x);
    Assoc(num, "}" + g, x);
    Assoc(": ", num + ("}" + g), x);
  }

  lemma GlueBrace(num: string, g: string)
    ensures ": " + (num + ("}" + g)) + "{" == ": " + (num + ("}" + (g + "{")))
  {
    GlueText(num, g, "{");
  }

  lemma GluePlain(d: Source, g: string)
    requires '"' !in g
    ensures '"' !in Glue(d, g) && Glue(d, g)[0] == ':'
  {
  }

  /** A key that no piece equals is not found, if no quotes follow. */
  lemma {:induction false} NoKey(parts: seq<string>, tail: string, k: string)
    requires parts != [] && QuoteFree(parts) && '"' !in tail && '"' !in k
    requires forall j :: 1 <= j < |parts| ==> parts[j] != k
    ensures StrStr(Text(parts, tail), "\"" + k + "\"") == None
  {
    var pat, here := "\"" + k + "\"", "\"" + Text(parts[1..], tail);
    StrStrSkip(parts[0], here, pat);
    if |parts| == 1 {
      LastQuote(k, tail);
    } else {
      QuotedPrefix(k, parts[1], Text(parts[1..][1..], tail));
      assert here[1..] == Text(parts[1..], tail);
      NoKey(parts[1..], tail, k);
    }
  }

  lemma LastQuote(k: string, tail: string)
    requires '"' !in tail && '"' !in k
    ensures StrStr("\"" + tail, "\"" + k + "\"") == None
  {
    var s, pat := "\"" + tail, "\"" + k + "\"";
    assert pat[|pat| - 1] == '"';
    assert forall i :: 1 <= i < |s| ==> s[i] == tail[i - 1] && s[i] in tail;
    assert s[1..] == tail;
    StrStrAbsent(tail, pat, '"');
  }

  lemma NoField(parts: seq<string>, tail: string, k: string, max: nat)
    requires parts != [] && QuoteFree(parts) && '"' !in tail && '"' !in k
    requires forall j :: 1 <= j < |parts| ==> parts[j] != k
    ensures Field(Text(parts, tail), "\"" + k + "\"", max) == None
  {
    NoKey(parts, tail, k);
  }

  // ----- reading from inside the name -----

  predicate Follows(next: Option<Source>, rest: string, g: string, r: string) {
    if next.None? then '"' !in rest else Printable(next.value) && '"' !in g && rest == g + (Obj(next.value) + r)
  }

  lemma PortTextPlain(d: Source, rest: string)
    requires '"' !in rest
    ensures '"' !in PortText(d, rest)
  {
  }

  lemma NamePieces(s: string, d: Source)
    requires Printable(d) && '"' !in s
    ensures QuoteFree([s] + AfterName(d))
  {
    var p := [s] + AfterName(d);
    assert p[4] == d.host;
  }

  /** The pieces from inside the name of `d` on, when the object of `n` follows. */
  function FromName(s: string, d: Source, g: string, n: Source): seq<string> {
    [s] + AfterName(d) + ([Glue(d, g)] + NextParts(n))
  }

  lemma FromNamePieces(s: string, d: Source, g: string, n: Source)
    requires Printable(d) && Printable(n) && '"' !in s && '"' !in g
    ensures var q := FromName(s, d, g, n); |q| == 17 && QuoteFree(q) && q[10] == n.name
    ensures d.host != "name" ==> FirstPiece(FromName(s, d, g, n), "name") == 8
  {
    var q := FromName(s, d, g, n);
    GluePlain(d, g);
    assert q[4] == d.host && q[7] == Glue(d, g) && q[10] == n.name && q[14] == n.host;
    if d.host != "name" {
      FirstPieceIs(q, "name", 8);
    }
  }

  lemma NameAcross(s: string, d: Source, n: Source, g: string, r: string)
    requires Printable(d) && Printable(n) && '"' !in s && '"' !in g && d.host != "name"
    ensures Field(Text([s] + AfterName(d), PortText(d, g + (Obj(n) + r))), "\"name\"", MAX_NAME) == Some(n.name)
  {
    TextAcross([s] + AfterName(d), d, g, n, r);
    FromNamePieces(s, d, g, n);
    assert "\"name\"" == "\"" + "name" + "\"";
    FieldPiece(FromName(s, d, g, n), PortText(n, r), "name", MAX_NAME);
  }

  lemma NameInName(s: string, d: Source, next: Option<Source>, rest: string, g: string, r: string)
    requires Printable(d) && '"' !in s && Follows(next, rest, g, r)
    ensures OrEmpty(Field(Text([s] + AfterName(d), PortText(d, rest)), "\"name\"", MAX_NAME)) == InName(d, next).name
  {
    var p := [s] + AfterName(d);
    NamePieces(s, d);
    assert "\"name\"" == "\"" + "name" + "\"";
    if d.host == "name" {
      FirstPieceIs(p, "name", 4);
      FieldPiece(p, PortText(d, rest), "name", MAX_NAME);
    } else if next.None? {
      PortTextPlain(d, rest);
      NoField(p, PortText(d, rest), "name", MAX_NAME);
    } else {
      NameAcross(s, d, next.value, g, r);
    }
  }

  lemma HostInName(s: string, d: Source, tail: string)
    requires Printable(d) && '"' !in s
    ensures Field(Text([s] + AfterName(d), tail), "\"host\"", MAX_HOST) == Some(d.host)
  {
    var p := [s] + AfterName(d);
    NamePieces(s, d);
    assert "\"host\"" == "\"" + "host" + "\"";
    FirstPieceIs(p, "host", 2);
    FieldPiece(p, tail, "host", MAX_HOST);
  }

  lemma PortInName(s: string, d: Source, rest: string)
    requires Printable(d) && '"' !in s
    ensures PortField(Text([s] + AfterName(d), PortText(d, rest))) == d.port
  {
    var p, tail := [s] + AfterName(d), PortText(d, rest);
    NamePieces(s, d);
    if d.host == "port" {
      PortAfterPiece(p, tail, 4);
      assert p[5..] == ObjParts(d)[8..];
      HostAsKey(d, tail);
      PortTextNumber(d, rest, ", \"port\"");
    } else {
      PortAfterPiece(p, tail, 6);
      PortTextNumber(d, rest, "");
      assert p[7..] == [] && "" + tail == tail;
    }
  }

  lemma ReadInName(s: string, d: Source, next: Option<Source>, rest: string, g: string, r: string)
    requires Printable(d) && '"' !in s && Follows(next, rest, g, r)
    ensures ReadObj(Text([s] + AfterName(d), PortText(d, rest))) == InName(d, next)
  {
    NameInName(s, d, next, rest, g, r);
    HostInName(s, d, PortText(d, rest));
    PortInName(s, d, rest);
  }

  // ----- reading from inside the host -----

  /** The pieces from inside the host of `d` on, when the object of `n` follows. */
  function FromHost(s: string, d: Source, g: string, n: Source): seq<string> {
    [s] + AfterHost() + ([Glue(d, g)] + NextParts(n))
  }

  lemma FromHostPieces(s: string, d: Source, g: string, n: Source)
    requires Printable(n) && '"' !in s && '"' !in g
    ensures var q := FromHost(s, d, g, n);
            |q| == 13 && QuoteFree(q) && q[6] == n.name && q[8] == "host" && q[10] == n.host
    ensures FirstPiece(FromHost(s, d, g, n), "name") == 4
    ensures FirstPiece(FromHost(s, d, g, n), "host") == if n.name == "host" then 6 else 8
  {
    var q := FromHost(s, d, g, n);
    GluePlain(d, g);
    assert q[3] == Glue(d, g) && q[6] == n.name && q[10] == n.host;
    FirstPieceIs(q, "name", 4);
    FirstPieceIs(q, "host", if n.name == "host" then 6 else 8);
  }

  lemma AcrossFromHost(s: string, d: Source, n: Source, g: string, r: string)
    requires Printable(d) && Printable(n) && '"' !in s && '"' !in g
    ensures var t := Text([s] + AfterHost(), PortText(d, g + (Obj(n) + r)));
            Field(t, "\"name\"", MAX_NAME) == Some(n.name) && Field(t, "\"host\"", MAX_HOST) == Some(Reread(n).host)
  {
    TextAcross([s] + AfterHost(), d, g, n, r);
    FromHostPieces(s, d, g, n);
    assert "\"name\"" == "\"" + "name" + "\"" && "\"host\"" == "\"" + "host" + "\"";
    FieldPiece(FromHost(s, d, g, n), PortText(n, r), "name", MAX_NAME);
    FieldPiece(FromHost(s, d, g, n), PortText(n, r), "host", MAX_HOST);
  }

  lemma FieldsInHost(s: string, d: Source, next: Option<Source>, rest: string, g: string, r: string)
    requires Printable(d) && '"' !in s && Follows(next, rest, g, r)
    ensures var t := Text([s] + AfterHost(), PortText(d, rest));
            OrEmpty(Field(t, "\"name\"", MAX_NAME)) == InHost(d, next).name
            && OrEmpty(Field(t, "\"host\"", MAX_HOST)) == InHost(d, next).host
  {
    if next.None? {
      var p := [s] + AfterHost();
      assert "\"name\"" == "\"" + "name" + "\"" && "\"host\"" == "\"" + "host" + "\"";
      PortTextPlain(d, rest);
      NoField(p, PortText(d, rest), "name", MAX_NAME);
      NoField(p, PortText(d, rest), "host", MAX_HOST);
    } else {
      AcrossFromHost(s, d, next.value, g, r);
    }
  }

  lemma PortInHost(s: string, d: Source, rest: string)
    requires Printable(d) && '"' !in s
    ensures PortField(Text([s] + AfterHost(), PortText(d, rest))) == d.port
  {
    var p, tail := [s] + AfterHost(), PortText(d, rest);
    PortAfterPiece(p, tail, 2);
    PortTextNumber(d, rest, "");
    assert p[3..] == [] && "" + tail == tail;
  }

  lemma ReadInHost(s: string, d: Source, next: Option<Source>, rest: string, g: string, r: string)
    requires Printable(d) && '"' !in s && Follows(next, rest, g, r)
    ensures ReadObj(Text([s] + AfterHost(), PortText(d, rest))) == InHost(d, next)
  {
    FieldsInHost(s, d, next, rest, g, r);
    PortInHost(s, d, rest);
  }

  // ----- one printed object -----

  /** How often the reader starts inside the name, and inside the host. */
  function NameStarts(d: Source): nat { Openings(d.name, false) }

  function HostStarts(d: Source): nat { Openings(d.host, Pending(d.name, false)) }

  /** Everything read from the printed `d`, when `next` is printed after it. */
  function Extra(d: Source, next: Option<Source>): seq<Source> {
    Copies(InName(d, next), NameStarts(d)) + Copies(InHost(d, next), HostStarts(d))
  }

  function NamePart(d: Source, tail: string): string { d.name + ("\"" + Text(AfterName(d), tail)) }

  function HostPart(d: Source, tail: string): string { d.host + ("\"" + Text(AfterHost(), tail)) }

  lemma NoBracesInNumber(n: int)
    ensures NoBraces(": " + IntText(n))
  {
  }

  lemma {:induction false} CloseBrace(read: string -> Source, rest: string, closed: bool)
    ensures Scan(read, "}" + rest, closed) == Scan(read, rest, true)
  {
    assert ("}" + rest)[1..] == rest;
  }

  lemma ScanEnd(d: Source, rest: string, closed: bool)
    ensures Scan(ReadObj, Text(AfterHost(), PortText(d, rest)), closed) == Scan(ReadObj, rest, true)
  {
    ScanPieces(ReadObj, AfterHost(), PortText(d, rest), closed);
    NoBracesInNumber(d.port);
    Assoc(": ", IntText(d.port), "}" + rest);
    ScanSkip(ReadObj, ": " + IntText(d.port), "}" + rest, closed);
    CloseBrace(ReadObj, rest, closed);
  }

  lemma ScanHost(d: Source, next: Option<Source>, rest: string, g: string, r: string, closed: bool)
    requires Printable(d) && Follows(next, rest, g, r)
    ensures Scan(ReadObj, HostPart(d, PortText(d, rest)), closed)
         == Copies(InHost(d, next), Openings(d.host, closed)) + Scan(ReadObj, rest, true)
  {
    var tail := PortText(d, rest);
    var x := "\"" + Text(AfterHost(), tail);
    forall i | 0 <= i < |d.host| && d.host[i] == '{' ensures ReadObj(d.host[i..] + x) == InHost(d, next) {
      ReadInHost(d.host[i..], d, next, rest, g, r);
      TextCons(d.host[i..], AfterHost(), tail);
    }
    ScanSame(ReadObj, d.host, x, closed, InHost(d, next));
    ScanSkip(ReadObj, "\"", Text(AfterHost(), tail), Pending(d.host, closed));
    ScanEnd(d, rest, Pending(d.host, closed));
  }

  lemma HostFollows(d: Source, tail: string)
    ensures Text(AfterName(d), tail) == Text([", ", "host", ": "], HostPart(d, tail))
  {
    assert AfterName(d) == [", ", "host", ": "] + ([d.host] + AfterHost());
    TextSplit([", ", "host", ": "], [d.host] + AfterHost(), tail);
    TextCons(d.host, AfterHost(), tail);
  }

  lemma ScanName(d: Source, next: Option<Source>, rest: string, g: string, r: string)
    requires Printable(d) && Follows(next, rest, g, r)
    ensures Scan(ReadObj, NamePart(d, PortText(d, rest)), false) == Extra(d, next) + Scan(ReadObj, rest, true)
  {
    var tail := PortText(d, rest);
    var x := "\"" + Text(AfterName(d), tail);
    forall i | 0 <= i < |d.name| && d.name[i] == '{' ensures ReadObj(d.name[i..] + x) == InName(d, next) {
      ReadInName(d.name[i..], d, next, rest, g, r);
      TextCons(d.name[i..], AfterName(d), tail);
    }
    var closed := Pending(d.name, false);
    ScanSame(ReadObj, d.name, x, false, InName(d, next));
    ScanSkip(ReadObj, "\"", Text(AfterName(d), tail), closed);
    HostFollows(d, tail);
    ScanPieces(ReadObj, [", ", "host", ": "], HostPart(d, tail), closed);
    ScanHost(d, next, rest, g, r, closed);
    Regroup(Copies(InName(d, next), NameStarts(d)), Copies(InHost(d, next), HostStarts(d)), Scan(ReadObj, rest, true));
  }

  lemma Regroup(a: seq<Source>, b: seq<Source>, c: seq<Source>)
    ensures a + (b + c) == (a + b) + c
  {
  }

  lemma ObjOpens(d: Source, rest: string)
    ensures Obj(d) + rest == "{" + Text(["", "name", ": "], NamePart(d, PortText(d, rest)))
  {
    var tail := PortText(d, rest);
    ObjText(d, rest);
    assert ObjParts(d) == ["{", "name", ": "] + ([d.name] + AfterName(d));
    TextSplit(["{", "name", ": "], [d.name] + AfterName(d), tail);
    TextCons(d.name, AfterName(d), tail);
    assert ["{", "name", ": "] == ["{"] + ["name", ": "] && ["", "name", ": "] == [""] + ["name", ": "];
    TextCons("{", ["name", ": "], NamePart(d, tail));
    TextCons("", ["name", ": "], NamePart(d, tail));
  }

  /** The text of an object behind its opening brace. */
  function Inside(d: Source, rest: string): string { Text(["", "name", ": "], NamePart(d, PortText(d, rest))) }

  lemma ScanInside(d: Source, next: Option<Source>, rest: string, g: string, r: string)
    requires Printable(d) && Follows(next, rest, g, r)
    ensures Scan(ReadObj, Inside(d, rest), false) == Extra(d, next) + Scan(ReadObj, rest, true)
  {
    ScanPieces(ReadObj, ["", "name", ": "], NamePart(d, PortText(d, rest)), false);
    ScanName(d, next, rest, g, r);
  }

  lemma OpenBrace(read: string -> Source, more: string)
    ensures Scan(read, "{" + more, true) == [read("{" + more)] + Scan(read, more, false)
  {
    assert ("{" + more)[1..] == more;
  }

  /** A printed object is read as itself, and then from inside its name and host as often as they have an
      opening brace after a closing one. */
  lemma ScanObj(d: Source, next: Option<Source>, rest: string, g: string, r: string)
    requires Printable(d) && Follows(next, rest, g, r)
    ensures Scan(ReadObj, Obj(d) + rest, true) == [Reread(d)] + (Extra(d, next) + Scan(ReadObj, rest, true))
  {
    ObjOpens(d, rest);
    ReadObjText(d, rest);
    OpenBrace(ReadObj, Inside(d, rest));
    ScanInside(d, next, rest, g, r);
  }

  // ----- the whole file -----

  ghost predicate AllPrintable(items: seq<Source>) { forall i :: 0 <= i < |items| ==> Printable(items[i]) }

  function Sep(items: seq<Source>, i: nat): string { (if i + 1 < |items| then "," else "") + "\n" }

  lemma RowText(items: seq<Source>, i: nat, rest: string)
    requires i < |items|
    ensures RowsFrom(items, i) + rest == "    " + (Obj(items[i]) + (Sep(items, i) + (RowsFrom(items, i + 1) + rest)))
  {
    var comma := if i + 1 < |items| then "," else "";
    var more := RowsFrom(items, i + 1);
    assert RowsFrom(items, i) == "    " + Obj(items[i]) + comma + "\n" + more;
    Assoc("    " + Obj(items[i]) + comma + "\n", more, rest);
    Assoc("    " + Obj(items[i]) + comma, "\n", more + rest);
    Assoc("    " + Obj(items[i]), comma, "\n" + (more + rest));
    Assoc(comma, "\n", more + rest);
    Assoc("    ", Obj(items[i]), Sep(items, i) + (more + rest));
  }

  function NextOf(items: seq<Source>, i: nat): Option<Source> { if i + 1 < |items| then Some(items[i + 1]) else None }

  /** What the text behind object `i` is: the end, or a gap and the next object. */
  lemma RowFollows(items: seq<Source>, i: nat, tail: string) returns (g: string, r: string)
    requires i < |items| && AllPrintable(items) && '"' !in tail
    ensures Follows(NextOf(items, i), Sep(items, i) + (RowsFrom(items, i + 1) + tail), g, r)
  {
    g, r := "", "";
    if i + 1 < |items| {
      RowText(items, i + 1, tail);
      g := Sep(items, i) + "    ";
      r := Sep(items, i + 1) + (RowsFrom(items, i + 2) + tail);
      Assoc(Sep(items, i), "    ", Obj(items[i + 1]) + r);
    } else {
      assert RowsFrom(items, i + 1) + tail == tail;
    }
  }

  /** What the reader sees in row `i`. */
  function Row(items: seq<Source>, i: nat): seq<Source>
    requires i < |items|
  {
    [Reread(items[i])] + Extra(items[i], NextOf(items, i))
  }

  function AllRead(items: seq<Source>, i: nat): seq<Source>
    requires i <= |items|
    decreases |items| - i
  {
    if i == |items| then [] else Row(items, i) + AllRead(items, i + 1)
  }

  lemma ScanRow(items: seq<Source>, i: nat, tail: string)
    requires i < |items| && AllPrintable(items) && '"' !in tail
    ensures Scan(ReadObj, RowsFrom(items, i) + tail, true)
         == Row(items, i) + Scan(ReadObj, RowsFrom(items, i + 1) + tail, true)
  {
    var more := RowsFrom(items, i + 1) + tail;
    var rest := Sep(items, i) + more;
    RowText(items, i, tail);
    ScanSkip(ReadObj, "    ", Obj(items[i]) + rest, true);
    var g, r := RowFollows(items, i, tail);
    ScanObj(items[i], NextOf(items, i), rest, g, r);
    ScanSkip(ReadObj, Sep(items, i), more, true);
    Regroup([Reread(items[i])], Extra(items[i], NextOf(items, i)), Scan(ReadObj, more, true));
  }

  lemma ScanNoRows(items: seq<Source>, tail: string)
    requires '{' !in tail
    ensures Scan(ReadObj, RowsFrom(items, |items|) + tail, true) == []
  {
    assert RowsFrom(items, |items|) + tail == tail;
    ScanNothing(ReadObj, tail);
  }

  lemma {:induction false} RowsGive(f: nat -> seq<Source>, items: seq<Source>, i: nat)
    requires i <= |items| && f(|items|) == []
    requires forall k: nat {:trigger Row(items, k)} :: k < |items| ==> f(k) == Row(items, k) + f(k + 1)
    ensures f(i) == AllRead(items, i)
    decreases |items| - i
  {
    if i < |items| {
      RowsGive(f, items, i + 1);
      assert f(i) == Row(items, i) + f(i + 1);
    }
  }

  function SeenFrom(items: seq<Source>, tail: string): nat -> seq<Source> {
    (k: nat) => if k <= |items| then Scan(ReadObj, RowsFrom(items, k) + tail, true) else []
  }

  lemma SeenStep(items: seq<Source>, tail: string, k: nat)
    requires k < |items| && AllPrintable(items) && '"' !in tail
    ensures SeenFrom(items, tail)(k) == Row(items, k) + SeenFrom(items, tail)(k + 1)
  {
    ScanRow(items, k, tail);
  }

  /** Everything the reader sees is what the rows give one after the other. */
  lemma ScanRows(items: seq<Source>, tail: string)
    requires AllPrintable(items) && '"' !in tail && '{' !in tail
    ensures SeenFrom(items, tail)(0) == AllRead(items, 0)
  {
    var f := SeenFrom(items, tail);
    ScanNoRows(items, tail);
    forall k: nat {:trigger Row(items, k)} | k < |items| ensures f(k) == Row(items, k) + f(k + 1) {
      SeenStep(items, tail, k);
    }
    RowsGive(f, items, 0);
  }

  /** The list that loading a printed list gives. */
  function Reloaded(items: seq<Source>): seq<Source> { Capped(UsableOf(AllRead(items, 0))) }

  ghost predicate Writable(s: State) {
    |s.items| <= MAX_DATASOURCES && AllPrintable(s.items) && '"' !in s.default && |s.default| < MAX_NAME
  }

  lemma ArrayRows(items: seq<Source>, rest: string)
    requires AllPrintable(items) && rest == RowsFrom(items, 0) + END
    ensures ReadRows([], "[\n" + rest) == Reloaded(items)
  {
    var open := "[\n";
    ReadCollects(open + rest);
    ScanSkip(ReadObj, open, rest, true);
    ScanRows(items, END);
  }

  /** Reading a printed list, whatever was in memory before. */
  lemma LoadPrinted(prev: State, s: State)
    requires Writable(s)
    ensures Load(prev, Print(s)) == State(Reloaded(s.items), s.default)
  {
    var rest := RowsFrom(s.items, 0) + END;
    ReadDefault(s.default, rest);
    FindArray(s.default, rest);
    ArrayRows(s.items, rest);
    assert Print(s)[0] == '{';
  }
}
