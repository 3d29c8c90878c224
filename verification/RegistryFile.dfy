/** The datasource file of gate/main.c: a printer, and a reader that searches for keys with `strstr`
    and `strchr`. When reading back what was printed restores the list is said by
    `RegistryRoundTrip.RoundTrip`. */
module RegistryFile {
  import opened CStrings
  import opened Registry

  // ----- printing -----

  function Obj(d: Source): string {
    "{\"name\": \"" + d.name + "\", \"host\": \"" + d.host + "\", \"port\": " + IntText(d.port) + "}"
  }

  function RowsFrom(items: seq<Source>, i: nat): string
    requires i <= |items|
    decreases |items| - i
  {
    if i == |items| then ""
    else "    " + Obj(items[i]) + (if i < |items| - 1 then "," else "") + "\n" + RowsFrom(items, i + 1)
  }

  function Head(default: string): string {
    "{\n  \"default\": \"" + default + "\",\n  \"datasources\": [\n"
  }

  const END := "  ]\n}\n"

  function Print(s: State): string {
    Head(s.default) + (RowsFrom(s.items, 0) + END)
  }

  lemma RowsMore(text: string, items: seq<Source>, i: nat, row: string)
    requires i < |items| && row == "    " + Obj(items[i]) + (if i < |items| - 1 then "," else "") + "\n"
    ensures text + row + RowsFrom(items, i + 1) == text + RowsFrom(items, i)
  {
    Assoc(text, row, RowsFrom(items, i + 1));
  }

  method SaveDatasources(list: List) returns (text: string)
    requires list.Valid()
    ensures text == Print(list.View())
  {
    text := Head(list.defaultName);
    ghost var items := list.View().items;
    var i := 0;
    while i < list.count
      invariant i <= list.count
      invariant text + RowsFrom(items, i) == Head(list.defaultName) + RowsFrom(items, 0)
    {
      var row := "    " + Obj(list.items[i]) + (if i < list.count - 1 then "," else "") + "\n";
      RowsMore(text, items, i, row);
      text := text + row;
      i := i + 1;
    }
    assert text == Head(list.defaultName) + RowsFrom(items, 0);
    text := text + END;
  }

  // ----- reading -----

  /** The text between the next two quotes. */
  function Quoted(p: string): Option<string> {
    match StrChr(p, '"')
    case None => None
    case Some(q) =>
      match StrChr(q[1..], '"')
      case None => None
      case Some(end) => Some(q[1..][..|q| - 1 - |end|])
  }

  /** The quoted text after the first occurrence of the key, if it fits. */
  function Field(text: string, key: string, max: nat): Option<string> {
    match StrStr(text, key)
    case None => None
    case Some(p) =>
      var v := Quoted(p[|key|..]);
      if v.Some? && |v.value| < max then v else None
  }

  function PortField(text: string): int {
    match StrStr(text, "\"port\"")
    case None => 0
    case Some(p) => ColonNumber(p[6..])
  }

  function ColonNumber(p: string): int {
    match StrChr(p, ':')
    case None => 0
    case Some(c) => Atoi(c[1..])
  }

  function OrEmpty(v: Option<string>): string { if v.Some? then v.value else "" }

  function ReadObj(obj: string): Source {
    Source(OrEmpty(Field(obj, "\"name\"", MAX_NAME)), OrEmpty(Field(obj, "\"host\"", MAX_HOST)), PortField(obj))
  }

  predicate Usable(d: Source) { d.name != "" && d.host != "" && d.port > 0 }

  function ReadRows(items: seq<Source>, arr: string): seq<Source>
    decreases |arr|
  {
    if |items| >= MAX_DATASOURCES then items
    else
      match StrChr(arr, '{')
      case None => items
      case Some(obj) =>
        var d := ReadObj(obj);
        var items' := if Usable(d) then items + [d] else items;
        match StrChr(obj, '}')
        case None => items'
        case Some(end) =>
          match StrChr(end[1..], '{')
          case None => items'
          case Some(next) => ReadRows(items', next)
  }

  /** An empty file changes nothing; a file without the array leaves no datasources. */
  function Load(s: State, json: string): State {
    if json == "" then s
    else
      var def := Field(json, "\"default\"", MAX_NAME);
      var default := if def.Some? then def.value else s.default;
      match StrStr(json, "\"datasources\"")
      case None => State([], default)
      case Some(p) =>
        match StrChr(p, '[')
        case None => State([], default)
        case Some(arr) => State(ReadRows([], arr), default)
  }

  method LoadDatasources(list: List, json: string)
    requires list.Valid()
    modifies list`count, list`defaultName, list.items
    ensures list.Valid() && list.View() == Load(old(list.View()), json)
  {
    if json == "" {
      return;
    }
    list.count := 0;
    var def := Field(json, "\"default\"", MAX_NAME);
    if def.Some? {
      list.defaultName := def.value;
    }
    var p := StrStr(json, "\"datasources\"");
    if p.None? {
      return;
    }
    var open := StrChr(p.value, '[');
    if open.None? {
      return;
    }
    ReadArray(list, open.value);
  }

  /** The object loop, over a list that is still empty. */
  method ReadArray(list: List, open: string)
    requires list.Valid() && list.count == 0
    modifies list`count, list.items
    ensures list.Valid() && list.View() == State(ReadRows([], open), old(list.defaultName))
  {
    var arr := open;
    ghost var rows := ReadRows([], open);
    while list.count < MAX_DATASOURCES
      invariant list.Valid() && list.defaultName == old(list.defaultName)
      invariant ReadRows(list.items[..list.count], arr) == rows
      decreases |arr|
    {
      ghost var was := list.items[..list.count];
      var obj := StrChr(arr, '{');
      if obj.None? {
        break;
      }
      var d := ReadObj(obj.value);
      if Usable(d) {
        list.items[list.count] := d;
        list.count := list.count + 1;
        assert list.items[..list.count] == was + [d];
      }
      var end := StrChr(obj.value, '}');
      if end.None? {
        break;
      }
      var next := StrChr(end.value[1..], '{');
      if next.None? {
        break;
      }
      arr := next.value;
    }
  }

  /** Whatever the file holds, names and hosts fit their arrays. */
  lemma ReadFits(obj: string)
    ensures |ReadObj(obj).name| <= 63 && |ReadObj(obj).host| <= 255
  {
  }
}
