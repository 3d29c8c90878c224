/** Starting the gateway (gate/main.c, the beginning of `main`): the list comes from the saved file, and when
    that gives no datasource, one is made from the command line. First one restart: when it brings back the
    list, and when it keeps it sound, with at most 16 sources of different names and a default that is listed.
    Then runs in which restarts are operations too: exactly which sources make them harmless. */
module RegistryRestart {
  import opened CStrings
  import opened Registry
  import opened RegistryFile
  import opened RegistryPieces
  import opened RegistryReload
  import opened RegistryRoundTrip

  const DEFAULT_NAME := "default"

  /** The memory of a new process is empty before the file is loaded. */
  function Loaded(file: Option<string>): State { if file.Some? then Load(EMPTY, file.value) else EMPTY }

  function StartUp(file: Option<string>, host: string, port: int): State {
    if Loaded(file).items == [] then Add(Loaded(file), DEFAULT_NAME, host, port).1 else Loaded(file)
  }

  /** The file after starting: adding the source of the command line saves it. */
  function FileAfter(file: Option<string>, host: string, port: int): Option<string> {
    if Loaded(file).items == [] && Add(Loaded(file), DEFAULT_NAME, host, port).0 == 0
    then Some(Print(StartUp(file, host, port))) else file
  }

  method Start(list: List, file: Option<string>, host: string, port: int) returns (file': Option<string>)
    requires list.Valid() && list.View() == EMPTY
    modifies list, list.items
    ensures list.Valid() && list.View() == StartUp(file, host, port)
    ensures file' == FileAfter(file, host, port)
  {
    file' := file;
    if file.Some? {
      LoadDatasources(list, file.value);
    }
    if list.count <= 0 {
      assert list.View().items == [];
      var code := list.AddDatasource(DEFAULT_NAME, host, port);
      if code == 0 {
        var text := SaveDatasources(list);
        file' := Some(text);
      }
    }
  }

  // ----- restarting with a saved list -----

  /** The source made from the command line, when its port is one. */
  function OwnSource(host: string, port: int): Source { Source(DEFAULT_NAME, Cut(host, MAX_HOST - 1), port) }

  lemma AddsOwn(s: State, host: string, port: int)
    requires s.items == [] && port > 0
    ensures Add(s, DEFAULT_NAME, host, port)
         == if port > 65535 then (-3, s) else (0, State([OwnSource(host, port)], DEFAULT_NAME))
  {
    assert [] + [OwnSource(host, port)] == [OwnSource(host, port)];
  }

  /** What a start makes of the list it has loaded. */
  function Started(r: State, host: string, port: int): State {
    if r.items == [] && port <= 65535 then State([OwnSource(host, port)], DEFAULT_NAME) else r
  }

  lemma StartUpIs(file: Option<string>, host: string, port: int)
    requires port > 0
    ensures StartUp(file, host, port) == Started(Loaded(file), host, port)
    ensures FileAfter(file, host, port)
         == if Loaded(file).items == [] && port <= 65535 then Some(Print(StartUp(file, host, port))) else file
  {
    if Loaded(file).items == [] {
      AddsOwn(Loaded(file), host, port);
    }
  }

  lemma ReloadFacts(s: State)
    requires Writable(s) && Sound(s)
    ensures Load(EMPTY, Print(s)) == s <==> Survives(s.items, AllExtras(s.items), 0, false)
    ensures Load(EMPTY, Print(s)) == State(Capped(Brought(s.items, AllExtras(s.items), 0)), s.default)
    ensures s.items == [] ==> Load(EMPTY, Print(s)) == s
    ensures s.items != [] && Load(EMPTY, Print(s)).items == [] ==> s.items[0].name == "port"
  {
    RoundTrip(EMPTY, s);
    LoadBrings(EMPTY, s);
    ExtrasRegular(s.items);
    if s.items != [] {
      FirstBrought(s.items, AllExtras(s.items), 0);
    }
  }

  /** A list comes back from a restart exactly when it is not empty and every source survives, or when it is
      empty and the command line has no valid port, so that nothing takes its place. */
  lemma RestartExactly(s: State, host: string, port: int)
    requires Writable(s) && Sound(s) && port > 0
    ensures StartUp(Some(Print(s)), host, port) == s
       <==> if s.items == [] then port > 65535 else Survives(s.items, AllExtras(s.items), 0, false)
  {
    ReloadFacts(s);
    StartUpIs(Some(Print(s)), host, port);
    StartedSame(Load(EMPTY, Print(s)), s, host, port);
  }

  lemma StartedSame(r: State, s: State, host: string, port: int)
    requires if s.items == [] then r == s else r.items == [] ==> s.items[0].name == "port"
    ensures Started(r, host, port) == s <==> if s.items == [] then port > 65535 else r == s
  {
    PortIsNotDefault();
  }

  lemma PortIsNotDefault()
    ensures "port" != DEFAULT_NAME
  {
    assert |"port"| == 4 && |DEFAULT_NAME| == 7;
  }

  /** After any run, restarting from the saved file continues with the same list and default exactly when every
      source survives and there is one, or there is none and none is made. */
  lemma RestartRestores(ops: seq<Op>, host: string, port: int)
    requires (forall i :: 0 <= i < |ops| ==> OpFits(ops[i])) && port > 0
    ensures var s := Run(ops);
            StartUp(Some(Print(s)), host, port) == s <==>
            if s.items == [] then port > 65535 else Survives(s.items, AllExtras(s.items), 0, false)
  {
    RunsPrintable(ops);
    SoundWritable(Run(ops));
    RestartExactly(Run(ops), host, port);
  }

  /** An empty list, as after adding a source and removing it, comes back with the source of the command line. */
  lemma EmptyRestart(host: string, port: int)
    requires 0 < port <= 65535
    ensures var s := Run([OpAdd("a", "h", 1), OpRemove("a")]);
            s == EMPTY && StartUp(Some(Print(s)), host, port)
              == State([Source("default", if |host| <= 255 then host else host[..255], port)], "default")
  {
    var add, remove := OpAdd("a", "h", 1), OpRemove("a");
    var one := Run([add]);
    assert [add][..0] == [] && [add, remove][..1] == [add];
    assert Run([]) == EMPTY;
    assert one == Add(EMPTY, "a", "h", 1).1;
    AddThenRemove(EMPTY, "a", "h", 1);
    LoadBrings(EMPTY, EMPTY);
    AddsOwn(EMPTY, host, port);
  }

  // ----- the sources that rows bring -----

  function First(c: seq<Source>, n: nat): seq<Source> { if |c| <= n then c else c[..n] }

  lemma FirstCons(x: Source, c: seq<Source>, n: nat)
    requires n > 0
    ensures First([x] + c, n) == [x] + First(c, n - 1)
  {
  }

  /** The extras of a row share one name: "port", or that of the next source. */
  predicate Named(items: seq<Source>, e: seq<Source>, i: nat)
    requires i < |items|
  {
    e == [] ||
    ((e[0].name == "port" || (i + 1 < |items| && e[0].name == items[i + 1].name))
     && forall k :: 0 <= k < |e| ==> e[k].name == e[0].name)
  }

  ghost predicate AllNamed(items: seq<Source>, ex: seq<seq<Source>>) {
    |ex| == |items| && UniqueNames(items) && forall i :: 0 <= i < |items| ==> Named(items, ex[i], i)
  }

  lemma {:induction false} UsableOnly(ds: seq<Source>)
    ensures forall k :: 0 <= k < |UsableOf(ds)| ==> Usable(UsableOf(ds)[k]) && UsableOf(ds)[k] in ds
  {
    if ds != [] {
      UsableOnly(ds[1..]);
    }
  }

  lemma ExtrasNamed(items: seq<Source>)
    requires UniqueNames(items)
    ensures AllNamed(items, AllExtras(items))
  {
    forall i | 0 <= i < |items| ensures Named(items, AllExtras(items)[i], i) {
      ExtrasNames(items, i);
      UsableOnly(Extra(items[i], NextOf(items, i)));
    }
  }

  /** A name that rows from `i` on can bring. */
  ghost predicate FromRows(items: seq<Source>, i: nat, name: string) {
    name == "port" || exists j :: i <= j < |items| && items[j].name == name
  }

  lemma {:induction false} BroughtNames(items: seq<Source>, ex: seq<seq<Source>>, i: nat)
    requires i <= |items| && AllNamed(items, ex)
    ensures forall k :: 0 <= k < |Brought(items, ex, i)| ==> FromRows(items, i, Brought(items, ex, i)[k].name)
    decreases |items| - i
  {
    if i < |items| {
      BroughtNames(items, ex, i + 1);
      ExtraNames(items, ex, i);
    }
  }

  lemma ExtraNames(items: seq<Source>, ex: seq<seq<Source>>, i: nat)
    requires i < |items| && AllNamed(items, ex)
    ensures forall k :: 0 <= k < |ex[i]| ==> FromRows(items, i + 1, ex[i][k].name)
  {
    assert Named(items, ex[i], i);
  }

  // ----- different names -----

  /** Different names, and none of them "port" if there was one before. */
  ghost predicate Clean(c: seq<Source>, port: bool) { UniqueNames(c) && (port ==> !Listed(c, "port")) }

  lemma CleanCons(x: Source, c: seq<Source>, port: bool)
    ensures Clean([x] + c, port) <==> Clean(c, port) && !Listed(c, x.name) && (port ==> x.name != "port")
  {
    var s := [x] + c;
    assert s[1..] == c && forall k :: 0 <= k < |c| ==> s[k + 1] == c[k];
    if Clean(s, port) {
      assert s[0] == x;
      forall i, j | 0 <= i < j < |c| ensures c[i].name != c[j].name {
        assert s[i + 1] == c[i] && s[j + 1] == c[j];
      }
    }
  }

  /** One name several times, and then more. */
  lemma CleanExtras(e: seq<Source>, more: seq<Source>, cap: nat, port: bool)
    requires e != [] && cap > 0 && forall k :: 0 <= k < |e| ==> e[k].name == e[0].name
    ensures Clean(First(e + more, cap), port)
       <==> (port ==> e[0].name != "port")
            && (cap == 1
                || (|e| == 1 && Clean(First(more, cap - 1), port) && !Listed(First(more, cap - 1), e[0].name)))
  {
    var rest := e[1..] + more;
    assert e + more == [e[0]] + rest;
    FirstCons(e[0], rest, cap);
    CleanCons(e[0], First(rest, cap - 1), port);
    if cap > 1 && |e| > 1 {
      assert First(rest, cap - 1)[0] == e[1];
    } else if cap > 1 {
      assert rest == more;
    }
  }

  /** The first `cap` sources that rows from `i` on bring have different names, and none is "port" if there
      was one before: what is seen inside a row is the last of them, or one source named "port". */
  predicate Apart(items: seq<Source>, ex: seq<seq<Source>>, i: nat, cap: nat, port: bool)
    requires i <= |items| == |ex|
    decreases |items| - i
  {
    i == |items| || cap == 0 || ApartInside(items, ex, i, if items[i].name == "port" then cap else cap - 1, port)
  }

  predicate ApartInside(items: seq<Source>, ex: seq<seq<Source>>, i: nat, cap: nat, port: bool)
    requires i < |items| == |ex|
    decreases |items| - i, 0
  {
    cap == 0 ||
    (if ex[i] == [] then Apart(items, ex, i + 1, cap, port)
     else if ex[i][0].name != "port" then cap == 1
     else !port && (cap == 1 || (|ex[i]| == 1 && Apart(items, ex, i + 1, cap - 1, true))))
  }

  lemma {:induction false} ApartRows(items: seq<Source>, ex: seq<seq<Source>>, i: nat, cap: nat, port: bool)
    requires i <= |items| && AllNamed(items, ex)
    ensures Clean(First(Brought(items, ex, i), cap), port) <==> Apart(items, ex, i, cap, port)
    decreases |items| - i, 1
  {
    if i < |items| && cap > 0 {
      var d, rest := items[i], ex[i] + Brought(items, ex, i + 1);
      if d.name == "port" {
        assert Brought(items, ex, i) == rest;
        ApartRest(items, ex, i, cap, port);
      } else {
        ApartRest(items, ex, i, cap - 1, port);
        FirstCons(Reread(d), rest, cap - 1 + 1);
        OwnFresh(items, ex, i, cap - 1);
        CleanCons(Reread(d), First(rest, cap - 1), port);
      }
    }
  }

  /** The name of a row is not brought again behind it. */
  lemma OwnFresh(items: seq<Source>, ex: seq<seq<Source>>, i: nat, cap: nat)
    requires i < |items| && AllNamed(items, ex) && items[i].name != "port"
    ensures !Listed(First(ex[i] + Brought(items, ex, i + 1), cap), items[i].name)
  {
    ExtraNames(items, ex, i);
    BroughtNames(items, ex, i + 1);
  }

  lemma {:induction false} ApartRest(items: seq<Source>, ex: seq<seq<Source>>, i: nat, cap: nat, port: bool)
    requires i < |items| && AllNamed(items, ex)
    ensures Clean(First(ex[i] + Brought(items, ex, i + 1), cap), port) <==> ApartInside(items, ex, i, cap, port)
    decreases |items| - i, 0
  {
    var e, more := ex[i], Brought(items, ex, i + 1);
    if cap == 0 {
    } else if e == [] {
      assert e + more == more;
      ApartRows(items, ex, i + 1, cap, port);
    } else {
      assert Named(items, e, i);
      CleanExtras(e, more, cap, port);
      if cap > 1 {
        if e[0].name == "port" {
          ApartRows(items, ex, i + 1, cap - 1, true);
        } else {
          NextAgain(items, ex, i + 1, cap - 1);
        }
      }
    }
  }

  lemma NextAgain(items: seq<Source>, ex: seq<seq<Source>>, i: nat, cap: nat)
    requires i < |items| == |ex| && items[i].name != "port" && cap > 0
    ensures Listed(First(Brought(items, ex, i), cap), items[i].name)
  {
    FirstCons(Reread(items[i]), ex[i] + Brought(items, ex, i + 1), cap);
    assert First(Brought(items, ex, i), cap)[0].name == items[i].name;
  }

  // ----- the default -----

  lemma ListedAppend(a: seq<Source>, b: seq<Source>, name: string)
    ensures Listed(a + b, name) <==> Listed(a, name) || Listed(b, name)
  {
    var c := a + b;
    if Listed(a, name) {
      var i :| 0 <= i < |a| && a[i].name == name;
      assert c[i] == a[i];
    }
    if Listed(b, name) {
      var i :| 0 <= i < |b| && b[i].name == name;
      assert c[|a| + i] == b[i];
    }
  }

  lemma ListedParts(a: seq<Source>, b: seq<Source>, n: nat, name: string)
    ensures Listed(First(a + b, n), name)
       <==> Listed(First(a, n), name) || (|a| < n && Listed(First(b, n - |a|), name))
  {
    if |a| < n {
      assert First(a + b, n) == a + First(b, n - |a|);
      ListedAppend(a, First(b, n - |a|), name);
    } else {
      assert First(a + b, n) == First(a, n);
    }
  }

  /** A source of that name is among the first `cap` that rows from `i` on bring: its row, or an extra of that
      name, is not too late. */
  predicate Kept(items: seq<Source>, ex: seq<seq<Source>>, i: nat, cap: nat, name: string)
    requires i <= |items| == |ex|
    decreases |items| - i
  {
    i < |items| && cap > 0 &&
    ((items[i].name == name && name != "port")
     || KeptInside(items, ex, i, if items[i].name == "port" then cap else cap - 1, name))
  }

  predicate KeptInside(items: seq<Source>, ex: seq<seq<Source>>, i: nat, cap: nat, name: string)
    requires i < |items| == |ex|
    decreases |items| - i, 0
  {
    cap > 0
    && ((ex[i] != [] && ex[i][0].name == name)
        || (|ex[i]| < cap && Kept(items, ex, i + 1, cap - |ex[i]|, name)))
  }

  lemma ListedNamed(e: seq<Source>, n: nat, name: string)
    requires n > 0 && forall k :: 0 <= k < |e| ==> e[k].name == e[0].name
    ensures Listed(First(e, n), name) <==> e != [] && e[0].name == name
  {
    assert e != [] ==> First(e, n)[0] == e[0];
  }

  lemma {:induction false} KeptRows(items: seq<Source>, ex: seq<seq<Source>>, i: nat, cap: nat, name: string)
    requires i <= |items| && AllNamed(items, ex)
    ensures Listed(First(Brought(items, ex, i), cap), name) <==> Kept(items, ex, i, cap, name)
    decreases |items| - i, 1
  {
    if i < |items| && cap > 0 {
      var d, rest := items[i], ex[i] + Brought(items, ex, i + 1);
      if d.name == "port" {
        assert Brought(items, ex, i) == rest;
        KeptRest(items, ex, i, cap, name);
      } else {
        FirstCons(Reread(d), rest, cap);
        ListedAppend([Reread(d)], First(rest, cap - 1), name);
        assert [Reread(d)][0] == Reread(d);
        KeptRest(items, ex, i, cap - 1, name);
      }
    }
  }

  lemma {:induction false} KeptRest(items: seq<Source>, ex: seq<seq<Source>>, i: nat, cap: nat, name: string)
    requires i < |items| && AllNamed(items, ex)
    ensures Listed(First(ex[i] + Brought(items, ex, i + 1), cap), name) <==> KeptInside(items, ex, i, cap, name)
    decreases |items| - i, 0
  {
    if cap > 0 {
      assert Named(items, ex[i], i);
      ListedParts(ex[i], Brought(items, ex, i + 1), cap, name);
      ListedNamed(ex[i], cap, name);
      if |ex[i]| < cap {
        KeptRows(items, ex, i + 1, cap - |ex[i]|, name);
      }
    }
  }

  // ----- sources that fit -----

  lemma ExtraFits(items: seq<Source>, i: nat)
    requires i < |items| && AllPrintable(items)
    ensures forall k :: 0 <= k < |Extras(items, i)| ==> SourceFits(Extras(items, i)[k])
  {
    var d, next := items[i], NextOf(items, i);
    UsableOnly(Extra(d, next));
    CopiesAre(InName(d, next), NameStarts(d));
    CopiesAre(InHost(d, next), HostStarts(d));
    assert Printable(d) && (next.Some? ==> Printable(next.value));
    forall k | 0 <= k < |Extras(items, i)| ensures SourceFits(Extras(items, i)[k]) {
      var x := Extras(items, i)[k];
      assert x in Extra(d, next) && Usable(x);
      assert x == InName(d, next) || x == InHost(d, next);
    }
  }

  lemma {:induction false} BroughtFits(items: seq<Source>, i: nat)
    requires i <= |items| && AllPrintable(items)
    ensures forall k :: 0 <= k < |Brought(items, AllExtras(items), i)| ==>
      SourceFits(Brought(items, AllExtras(items), i)[k])
    decreases |items| - i
  {
    if i < |items| {
      ExtraFits(items, i);
      BroughtFits(items, i + 1);
      assert Printable(items[i]);
    }
  }

  // ----- a sound list after loading -----

  /** What is loaded has different names and its default: the condition on the rows. */
  predicate StaysSound(s: State) {
    var ex: seq<seq<Source>> := AllExtras(s.items);
    Apart(s.items, ex, 0, MAX_DATASOURCES, false) && Kept(s.items, ex, 0, MAX_DATASOURCES, s.default)
  }

  lemma LoadedSound(s: State)
    requires Writable(s) && Sound(s) && s.items != []
    ensures Sound(Load(EMPTY, Print(s))) <==> StaysSound(s)
  {
    var ex: seq<seq<Source>> := AllExtras(s.items);
    var b := Brought(s.items, ex, 0);
    LoadBrings(EMPTY, s);
    ExtrasNamed(s.items);
    ApartRows(s.items, ex, 0, MAX_DATASOURCES, false);
    KeptRows(s.items, ex, 0, MAX_DATASOURCES, s.default);
    BroughtFits(s.items, 0);
    ListedFits(s, s.default);
    assert Capped(b) == First(b, MAX_DATASOURCES);
    SoundParts(State(First(b, MAX_DATASOURCES), s.default), b);
  }

  lemma SoundParts(r: State, b: seq<Source>)
    requires r.items == First(b, MAX_DATASOURCES) && r.default != ""
    requires forall k :: 0 <= k < |b| ==> SourceFits(b[k])
    ensures Sound(r) <==> Clean(r.items, false) && Listed(r.items, r.default)
  {
  }

  /** Nothing is loaded exactly when the only source, if any, is named "port". */
  lemma NothingLoaded(s: State)
    requires Writable(s) && Sound(s)
    ensures Load(EMPTY, Print(s)).items == [] <==> forall i :: 0 <= i < |s.items| ==> s.items[i].name == "port"
  {
    var ex: seq<seq<Source>> := AllExtras(s.items);
    LoadBrings(EMPTY, s);
    ExtrasRegular(s.items);
    if s.items != [] {
      FirstBrought(s.items, ex, 0);
      if s.items[0].name == "port" {
        if |s.items| == 1 {
          NoStarts("port", false);
          NoExtras(s.items, 0);
          assert Brought(s.items, ex, 1) == [] && Brought(s.items, ex, 0) == [];
        } else {
          assert s.items[1].name != "port";
          FirstBrought(s.items, ex, 1);
          assert Brought(s.items, ex, 0) == ex[0] + Brought(s.items, ex, 1);
        }
      }
    }
  }

  /** A restart keeps the list sound exactly under the condition on the rows; and when nothing is loaded, if
      there was nothing or the command line has a valid port. */
  lemma RestartSound(s: State, host: string, port: int)
    requires Writable(s) && Sound(s) && port > 0
    ensures Sound(StartUp(Some(Print(s)), host, port)) <==>
      if forall i :: 0 <= i < |s.items| ==> s.items[i].name == "port" then s.items == [] || port <= 65535
      else StaysSound(s)
  {
    var r := Load(EMPTY, Print(s));
    StartUpIs(Some(Print(s)), host, port);
    NothingLoaded(s);
    ReloadFacts(s);
    StartedSound(r, host, port);
    if s.items != [] {
      LoadedSound(s);
      ListedFits(s, s.default);
    }
  }

  lemma StartedSound(r: State, host: string, port: int)
    requires port > 0
    ensures r.items == [] ==> (Sound(Started(r, host, port)) <==> port <= 65535 || r.default == "")
    ensures r.items != [] ==> Started(r, host, port) == r
  {
    var own := OwnSource(host, port);
    assert [own][0].name == DEFAULT_NAME;
  }

  // ----- the condition in plain words -----

  /** In a list that is not full, without the name "port" and the host "name", only braces do harm: what a row
      has besides itself is the next source a second time. */
  lemma RestartSoundPlain(s: State, host: string, port: int)
    requires Writable(s) && Sound(s) && port > 0 && 0 < |s.items| < MAX_DATASOURCES
    requires forall i :: 0 <= i < |s.items| ==> s.items[i].name != "port" && s.items[i].host != "name"
    ensures Sound(StartUp(Some(Print(s)), host, port)) <==> forall i :: 0 <= i < |s.items| ==> Braceless(s.items, i)
  {
    var ex: seq<seq<Source>> := AllExtras(s.items);
    RestartSound(s, host, port);
    ExtrasNamed(s.items);
    forall i | 0 <= i < |s.items| ensures ex[i] == [] <==> Braceless(s.items, i) { NoExtras(s.items, i); }
    forall i: int | 0 <= i < |s.items| && ex[i] != [] ensures ex[i][0].name != "port" && i + 1 < |s.items| {
      NextOnly(s.items, i);
    }
    PlainApart(s.items, ex, 0, MAX_DATASOURCES);
    if forall i :: 0 <= i < |s.items| ==> ex[i] == [] {
      PlainKept(s.items, ex, 0, MAX_DATASOURCES, s.default);
    }
  }

  lemma NextOnly(items: seq<Source>, i: nat)
    requires i < |items| && AllPrintable(items) && items[i].host != "name" && Extras(items, i) != []
    ensures i + 1 < |items| && Extras(items, i)[0].name == items[i + 1].name
  {
    ExtrasNames(items, i);
    UsableOnly(Extra(items[i], NextOf(items, i)));
    var x := Extras(items, i)[0];
    assert Usable(x) && x.name == InName(items[i], NextOf(items, i)).name;
  }

  lemma {:induction false} PlainApart(items: seq<Source>, ex: seq<seq<Source>>, i: nat, cap: nat)
    requires i <= |items| == |ex| && |items| - i < cap
    requires forall k :: 0 <= k < |items| ==> items[k].name != "port"
    requires forall k :: 0 <= k < |items| && ex[k] != [] ==> ex[k][0].name != "port" && k + 1 < |items|
    ensures Apart(items, ex, i, cap, false) <==> forall k :: i <= k < |items| ==> ex[k] == []
    decreases |items| - i
  {
    if i < |items| {
      PlainApart(items, ex, i + 1, cap - 1);
    }
  }

  lemma {:induction false} PlainKept(items: seq<Source>, ex: seq<seq<Source>>, i: nat, cap: nat, name: string)
    requires i <= |items| == |ex| && |items| - i < cap && forall k :: 0 <= k < |items| ==> ex[k] == []
    requires forall k :: 0 <= k < |items| ==> items[k].name != "port"
    ensures Kept(items, ex, i, cap, name) <==> exists k :: i <= k < |items| && items[k].name == name
    decreases |items| - i
  {
    if i < |items| {
      PlainKept(items, ex, i + 1, cap - 1, name);
    }
  }

  // ----- what goes wrong -----

  /** A default named "port" is lost: after the restart a request naming no datasource goes to the backend,
      although a datasource is listed. */
  lemma LostDefault(host: string, port: int)
    requires port > 0
    ensures var s := State([Source("port", "h", 1), Source("a", "g", 2)], "port");
            Sound(s) && Writable(s)
            && var r := StartUp(Some(Print(s)), host, port);
               r == State([Source("a", "g", 2)], "port") && Resolve(r, None) == Backend && !Sound(r)
  {
    var p, a := Source("port", "h", 1), Source("a", "g", 2);
    var items := [p, a];
    var s := State(items, "port");
    assert items[0].name == s.default;
    LoadBrings(EMPTY, s);
    NoStarts("port", false);
    NoStarts("h", Pending("port", false));
    NoStarts("a", false);
    NoStarts("g", Pending("a", false));
    NoExtras(items, 0);
    NoExtras(items, 1);
    PortRows(p, a, AllExtras(items));
    StartUpIs(Some(Print(s)), host, port);
  }

  lemma PortRows(p: Source, a: Source, ex: seq<seq<Source>>)
    requires |ex| == 2 && ex[0] == [] && ex[1] == [] && p.name == "port" && KeySafe(a)
    ensures Brought([p, a], ex, 0) == [a]
  {
    var items := [p, a];
    assert Brought(items, ex, 2) == [] && Brought(items, ex, 1) == [a] + ([] + []);
    assert Brought(items, ex, 0) == [] + ([] + Brought(items, ex, 1));
  }

  /** A name with a closing and then an opening brace makes two sources of one name. */
  lemma TwiceListed(host: string, port: int)
    requires port > 0
    ensures var s := State([Source("a}{b", "h", 1), Source("c", "g", 2)], "c");
            Sound(s) && Writable(s) && !UniqueNames(StartUp(Some(Print(s)), host, port).items)
  {
    var a, c := Source("a}{b", "h", 1), Source("c", "g", 2);
    var s := State([a, c], "c");
    assert s.items[1].name == s.default;
    BraceName(EMPTY);
    StartUpIs(Some(Print(s)), host, port);
    var r := StartUp(Some(Print(s)), host, port);
    assert r.items[1].name == r.items[2].name;
  }

  // ----- runs with restarts: every change saves the list, and a restart reads it -----

  datatype Event = Do(op: Op) | Restart

  datatype Sys = Sys(file: Option<string>, list: State)

  /** A rejected operation saves nothing. */
  function Accepted(s: State, op: Op): bool {
    match op
    case OpAdd(name, host, port) => Add(s, name, host, port).0 == 0
    case OpRemove(name) => Remove(s, name).0 == 0
    case OpDefault(name) => SetDefault(s, name).0
  }

  function Boot(file: Option<string>, host: string, port: int): Sys {
    Sys(FileAfter(file, host, port), StartUp(file, host, port))
  }

  function Next(sys: Sys, e: Event, host: string, port: int): Sys {
    match e
    case Do(op) =>
      var s := Apply(sys.list, op);
      Sys(if Accepted(sys.list, op) then Some(Print(s)) else sys.file, s)
    case Restart => Boot(sys.file, host, port)
  }

  /** The gateway, first started without a file. */
  function Live(run: seq<Event>, host: string, port: int): Sys {
    if run == [] then Boot(None, host, port)
    else Next(Live(run[..|run| - 1], host, port), run[|run| - 1], host, port)
  }

  /** The same without files: a restart only gives an empty list the source of the command line. */
  function Unbroken(run: seq<Event>, host: string, port: int): State {
    if run == [] then Started(EMPTY, host, port)
    else
      var s := Unbroken(run[..|run| - 1], host, port);
      match run[|run| - 1]
      case Do(op) => Apply(s, op)
      case Restart => Started(s, host, port)
  }

  predicate Uses(run: seq<Event>, adds: set<Source>) {
    forall i :: 0 <= i < |run| && run[i].Do? && run[i].op.OpAdd? ==>
      Source(run[i].op.name, run[i].op.host, run[i].op.port) in adds
  }

  /** A source that no restart misreads: its name hides no key; and the reader sees no brace to start from in
      it, or nothing is ever listed behind it and its host is not taken for a key. */
  predicate SafeSource(d: Source, adds: set<Source>) {
    KeySafe(d)
    && (NameStarts(d) + HostStarts(d) == 0
        || ((forall e :: e in adds ==> e.name == d.name) && (NameStarts(d) == 0 || d.host != "name")))
  }

  predicate AllSafe(adds: set<Source>, host: string, port: int) {
    (forall d :: d in adds ==> SafeSource(d, adds)) && (port <= 65535 ==> SafeSource(OwnSource(host, port), adds))
  }

  /** What the handlers of the gateway let through, and a command line without quotes. */
  predicate Given(adds: set<Source>, host: string, port: int) {
    (forall d :: d in adds ==> Printable(d)) && host != "" && '"' !in host && port > 0
  }

  // ----- safe sources: every run -----

  /** The source of the command line is only ever put first. */
  predicate Placed(items: seq<Source>, adds: set<Source>, host: string, port: int) {
    forall i :: 0 <= i < |items| ==>
      items[i] in adds || (i == 0 && port <= 65535 && items[i] == OwnSource(host, port))
  }

  lemma OwnPrintable(host: string, port: int)
    requires host != "" && '"' !in host && 0 < port <= 65535
    ensures Printable(OwnSource(host, port))
  {
  }

  lemma PlacedPrintable(items: seq<Source>, adds: set<Source>, host: string, port: int)
    requires Given(adds, host, port) && Placed(items, adds, host, port)
    ensures AllPrintable(items)
  {
    if port <= 65535 {
      OwnPrintable(host, port);
    }
  }

  lemma {:induction false} SafeSurvive(items: seq<Source>, ex: seq<seq<Source>>, i: nat)
    requires i <= |items| == |ex| && forall k :: 0 <= k < |items| ==> KeySafe(items[k]) && ex[k] == []
    ensures Survives(items, ex, i, false)
    decreases |items| - i
  {
    if i < |items| {
      SafeSurvive(items, ex, i + 1);
    }
  }

  lemma SafeRow(items: seq<Source>, i: nat, adds: set<Source>, host: string, port: int)
    requires i < |items| && AllPrintable(items) && UniqueNames(items)
    requires Placed(items, adds, host, port) && AllSafe(adds, host, port)
    ensures KeySafe(items[i]) && Extras(items, i) == []
  {
    NoExtras(items, i);
    assert SafeSource(items[i], adds);
    if i + 1 < |items| {
      assert items[i + 1] in adds && items[i].name != items[i + 1].name;
    }
  }

  /** A list of safe sources comes back from its file. */
  lemma SafeReload(s: State, adds: set<Source>, host: string, port: int)
    requires Given(adds, host, port) && AllSafe(adds, host, port) && Sound(s) && Placed(s.items, adds, host, port)
    ensures Load(EMPTY, Print(s)) == s
  {
    var ex := AllExtras(s.items);
    PlacedPrintable(s.items, adds, host, port);
    SoundWritable(s);
    ReloadFacts(s);
    forall k | 0 <= k < |s.items| ensures KeySafe(s.items[k]) && ex[k] == [] {
      SafeRow(s.items, k, adds, host, port);
    }
    SafeSurvive(s.items, ex, 0);
  }

  ghost predicate Good(sys: Sys, adds: set<Source>, host: string, port: int) {
    Sound(sys.list) && Placed(sys.list.items, adds, host, port)
    && (if sys.file.None? then sys.list == EMPTY else sys.file == Some(Print(sys.list)))
  }

  lemma RejectedKeeps(s: State, op: Op)
    requires !Accepted(s, op)
    ensures Apply(s, op) == s
  {
  }

  lemma ApplySound(s: State, op: Op, adds: set<Source>)
    requires Sound(s) && Uses([Do(op)], adds) && forall d :: d in adds ==> Printable(d)
    ensures Sound(Apply(s, op))
  {
    match op
    case OpAdd(name, host, port) =>
      assert [Do(op)][0].op == op;
      AddKeepsSound(s, name, host, port);
    case OpRemove(name) => RemoveKeepsSound(s, name);
    case OpDefault(name) =>
      if Listed(s.items, name) {
        ListedFits(s, name);
      }
  }

  lemma ApplyPlaced(s: State, op: Op, adds: set<Source>, host: string, port: int)
    requires Given(adds, host, port) && Uses([Do(op)], adds) && Placed(s.items, adds, host, port)
    ensures Placed(Apply(s, op).items, adds, host, port)
  {
    assert [Do(op)][0].op == op;
    if op.OpAdd? && Accepted(s, op) {
      var d := Source(op.name, op.host, op.port);
      assert d in adds && Printable(d);
      assert Apply(s, op).items == s.items + [d];
    }
  }

  lemma BootGood(sys: Sys, adds: set<Source>, host: string, port: int)
    requires Given(adds, host, port) && AllSafe(adds, host, port) && Good(sys, adds, host, port)
    ensures Boot(sys.file, host, port).list == Started(sys.list, host, port)
    ensures Good(Boot(sys.file, host, port), adds, host, port)
  {
    StartUpIs(sys.file, host, port);
    if sys.file.Some? {
      SafeReload(sys.list, adds, host, port);
    }
    assert Loaded(sys.file) == sys.list;
    StartedGood(sys.list, adds, host, port);
  }

  lemma StartedGood(s: State, adds: set<Source>, host: string, port: int)
    requires Given(adds, host, port) && Sound(s) && Placed(s.items, adds, host, port)
    ensures Sound(Started(s, host, port)) && Placed(Started(s, host, port).items, adds, host, port)
  {
    if s.items == [] && port <= 65535 {
      OwnPrintable(host, port);
      assert Started(s, host, port).items[0].name == DEFAULT_NAME;
    }
  }

  lemma {:induction false} LiveGood(run: seq<Event>, adds: set<Source>, host: string, port: int)
    requires Given(adds, host, port) && AllSafe(adds, host, port) && Uses(run, adds)
    ensures Good(Live(run, host, port), adds, host, port)
    ensures Live(run, host, port).list == Unbroken(run, host, port)
  {
    if run == [] {
      BootGood(Sys(None, EMPTY), adds, host, port);
    } else {
      var pre, e := run[..|run| - 1], run[|run| - 1];
      LiveGood(pre, adds, host, port);
      var sys := Live(pre, host, port);
      if e.Restart? {
        BootGood(sys, adds, host, port);
      } else {
        assert Uses([e], adds);
        ApplySound(sys.list, e.op, adds);
        ApplyPlaced(sys.list, e.op, adds, host, port);
        if !Accepted(sys.list, e.op) {
          RejectedKeeps(sys.list, e.op);
        }
      }
    }
  }

  /** With safe sources, the list is sound in every run with restarts, and a request naming no datasource goes to
      a listed one exactly when there is one. */
  lemma SafeRunsServed(run: seq<Event>, adds: set<Source>, host: string, port: int)
    requires Given(adds, host, port) && AllSafe(adds, host, port) && Uses(run, adds)
    ensures var s := Live(run, host, port).list;
            Sound(s) && (Resolve(s, None).Listing? <==> s.items != [])
            && (s.items != [] ==> Resolve(s, None).source in s.items && Resolve(s, None).source.name == s.default)
  {
    LiveGood(run, adds, host, port);
    var s := Live(run, host, port).list;
    if s.items != [] {
      ListedFits(s, s.default);
    }
  }

  // ----- an unsafe source: a run that breaks -----

  lemma LiveMore(run: seq<Event>, e: Event, host: string, port: int)
    ensures Live(run + [e], host, port) == Next(Live(run, host, port), e, host, port)
    ensures e.Do? ==> Unbroken(run + [e], host, port) == Apply(Unbroken(run, host, port), e.op)
    ensures e.Restart? ==> Unbroken(run + [e], host, port) == Started(Unbroken(run, host, port), host, port)
  {
    assert (run + [e])[..|run + [e]| - 1] == run;
  }

  /** The run has led to list `s`, and the file holds it. */
  ghost predicate Reached(run: seq<Event>, s: State, adds: set<Source>, host: string, port: int) {
    Uses(run, adds) && Live(run, host, port) == Sys(Some(Print(s)), s) && Unbroken(run, host, port) == s
    && Sound(s) && AllPrintable(s.items)
  }

  /** A restart is not harmless after this run. */
  ghost predicate Breaks(run: seq<Event>, adds: set<Source>, host: string, port: int) {
    Uses(run, adds) && Live(run, host, port).list != Unbroken(run, host, port)
  }

  lemma UsesMore(run: seq<Event>, e: Event, adds: set<Source>)
    requires Uses(run, adds) && Uses([e], adds)
    ensures Uses(run + [e], adds)
  {
    assert [e][0] == e;
  }

  /** A list that is not empty and does not survive is not the same after a restart. */
  lemma RestartBreaks(run: seq<Event>, s: State, adds: set<Source>, host: string, port: int)
    requires Reached(run, s, adds, host, port) && port > 0 && s.items != []
    requires !Survives(s.items, AllExtras(s.items), 0, false)
    ensures Breaks(run + [Restart], adds, host, port)
  {
    LiveMore(run, Restart, host, port);
    UsesMore(run, Restart, adds);
    SoundWritable(s);
    RestartExactly(s, host, port);
  }

  function Added(s: State, d: Source): State { State(s.items + [d], if s.items == [] then d.name else s.default) }

  lemma AddedIs(s: State, d: Source)
    requires Printable(d) && |s.items| < MAX_DATASOURCES && !Listed(s.items, d.name)
    ensures Add(s, d.name, d.host, d.port) == (0, Added(s, d))
  {
  }

  /** Adding a new source to a list that has room. */
  lemma AddReached(run: seq<Event>, live: Sys, s: State, d: Source, adds: set<Source>, host: string, port: int)
    requires Uses(run, adds) && live == Live(run, host, port) && live.list == s == Unbroken(run, host, port)
    requires Sound(s) && AllPrintable(s.items) && d in adds && Printable(d)
    requires |s.items| < MAX_DATASOURCES && !Listed(s.items, d.name)
    ensures Reached(run + [Do(OpAdd(d.name, d.host, d.port))], Added(s, d), adds, host, port)
  {
    var op := OpAdd(d.name, d.host, d.port);
    LiveMore(run, Do(op), host, port);
    UsesMore(run, Do(op), adds);
    AddedIs(s, d);
    AddKeepsSound(s, d.name, d.host, d.port);
  }

  /** The list is empty after removing the source of the command line. */
  lemma Cleared(adds: set<Source>, host: string, port: int)
    requires port > 0
    ensures var run := [Do(OpRemove(DEFAULT_NAME))];
            Uses(run, adds) && Live(run, host, port).list == EMPTY == Unbroken(run, host, port)
  {
    var e := Do(OpRemove(DEFAULT_NAME));
    LiveMore([], e, host, port);
    assert [] + [e] == [e];
    StartUpIs(None, host, port);
    RemovesOwn(host, port);
  }

  lemma RemovesOwn(host: string, port: int)
    ensures Remove(Started(EMPTY, host, port), DEFAULT_NAME).1 == EMPTY
  {
    var s := Started(EMPTY, host, port);
    if s.items != [] {
      assert s.items[0].name == DEFAULT_NAME;
      IndexUnique(s.items, DEFAULT_NAME, 0);
      assert RemoveAt(s.items, 0) == [];
    }
  }

  lemma ReachOne(d: Source, adds: set<Source>, host: string, port: int) returns (run: seq<Event>)
    requires Given(adds, host, port) && d in adds
    ensures |run| == 2 && Reached(run, State([d], d.name), adds, host, port)
  {
    Cleared(adds, host, port);
    run := [Do(OpRemove(DEFAULT_NAME))];
    AddReached(run, Live(run, host, port), EMPTY, d, adds, host, port);
    assert [] + [d] == [d];
    run := run + [Do(OpAdd(d.name, d.host, d.port))];
  }

  lemma ReachTwo(d: Source, e: Source, adds: set<Source>, host: string, port: int) returns (run: seq<Event>)
    requires Given(adds, host, port) && d in adds && e in adds && d.name != e.name
    ensures |run| == 3 && Reached(run, State([d, e], d.name), adds, host, port)
  {
    run := ReachOne(d, adds, host, port);
    AddReached(run, Live(run, host, port), State([d], d.name), e, adds, host, port);
    assert [d] + [e] == [d, e];
    run := run + [Do(OpAdd(e.name, e.host, e.port))];
  }

  /** The source of the command line and one behind it. */
  lemma ReachOwn(e: Source, adds: set<Source>, host: string, port: int) returns (run: seq<Event>)
    requires Given(adds, host, port) && port <= 65535 && e in adds && e.name != DEFAULT_NAME
    ensures |run| == 1 && Reached(run, State([OwnSource(host, port), e], DEFAULT_NAME), adds, host, port)
  {
    var own := OwnSource(host, port);
    OwnPrintable(host, port);
    StartUpIs(None, host, port);
    run := [];
    var s := State([own], DEFAULT_NAME);
    assert s.items[0].name == s.default;
    AddReached(run, Live(run, host, port), s, e, adds, host, port);
    assert [own] + [e] == [own, e];
    run := run + [Do(OpAdd(e.name, e.host, e.port))];
  }

  lemma OneSurvives(d: Source, ex: seq<seq<Source>>)
    requires Printable(d) && ex == AllExtras([d])
    ensures Survives([d], ex, 0, false) <==> KeySafe(d) && (NameStarts(d) == 0 || d.host != "name")
  {
    NoExtras([d], 0);
    assert Survives([d], ex, 1, false) && ex[0] == Extras([d], 0);
  }

  lemma TwoSurvive(d: Source, e: Source, ex: seq<seq<Source>>)
    requires Printable(d) && Printable(e) && ex == AllExtras([d, e])
    requires KeySafe(e) && NameStarts(d) + HostStarts(d) != 0
    ensures !Survives([d, e], ex, 0, false)
  {
    NoExtras([d, e], 0);
    assert ex[0] == Extras([d, e], 0) != [];
    assert !Survives([d, e], ex, 1, true);
  }

  /** A source that is misread on its own breaks a run. */
  lemma AloneBreaks(d: Source, adds: set<Source>, host: string, port: int) returns (run: seq<Event>)
    requires Given(adds, host, port) && d in adds
    requires !(KeySafe(d) && (NameStarts(d) == 0 || d.host != "name"))
    ensures |run| <= 4 && Breaks(run, adds, host, port)
  {
    run := ReachOne(d, adds, host, port);
    OneSurvives(d, AllExtras([d]));
    RestartBreaks(run, State([d], d.name), adds, host, port);
    run := run + [Restart];
  }

  /** So does one with a misleading brace, when another one is listed behind it. */
  lemma PairBreaks(d: Source, e: Source, adds: set<Source>, host: string, port: int) returns (run: seq<Event>)
    requires Given(adds, host, port) && e in adds && d.name != e.name && NameStarts(d) + HostStarts(d) != 0
    requires d in adds || (port <= 65535 && d == OwnSource(host, port))
    ensures |run| <= 4 && Breaks(run, adds, host, port)
  {
    if !KeySafe(e) {
      run := AloneBreaks(e, adds, host, port);
    } else {
      if d in adds {
        run := ReachTwo(d, e, adds, host, port);
      } else {
        OwnPrintable(host, port);
        run := ReachOwn(e, adds, host, port);
      }
      TwoSurvive(d, e, AllExtras([d, e]));
      RestartBreaks(run, State([d, e], d.name), adds, host, port);
      run := run + [Restart];
    }
  }

  lemma UnsafeBreaks(d: Source, adds: set<Source>, host: string, port: int) returns (run: seq<Event>)
    requires Given(adds, host, port) && !SafeSource(d, adds)
    requires d in adds || (port <= 65535 && d == OwnSource(host, port))
    ensures |run| <= 4 && Breaks(run, adds, host, port)
  {
    if exists e :: e in adds && e.name != d.name && NameStarts(d) + HostStarts(d) != 0 {
      var e :| e in adds && e.name != d.name && NameStarts(d) + HostStarts(d) != 0;
      run := PairBreaks(d, e, adds, host, port);
    } else {
      OwnAlone(d, host, port);
      run := AloneBreaks(d, adds, host, port);
    }
  }

  lemma OwnAlone(d: Source, host: string, port: int)
    ensures d == OwnSource(host, port) ==> KeySafe(d) && NameStarts(d) == 0
  {
    PortIsNotDefault();
    NoStarts(DEFAULT_NAME, false);
    assert |DEFAULT_NAME| == 7 && |"host"| == 4;
  }

  /** Restarts are harmless in every run, whatever is added, removed and made the default and whenever the gateway
      restarts, exactly when all sources that may be added are safe, and the one of the command line is. */
  lemma RestartsHarmless(adds: set<Source>, host: string, port: int)
    requires Given(adds, host, port)
    ensures (forall run :: Uses(run, adds) ==> Live(run, host, port).list == Unbroken(run, host, port))
       <==> AllSafe(adds, host, port)
  {
    if AllSafe(adds, host, port) {
      forall run | Uses(run, adds) ensures Live(run, host, port).list == Unbroken(run, host, port) {
        LiveGood(run, adds, host, port);
      }
    } else {
      var d :| !SafeSource(d, adds) && (d in adds || (port <= 65535 && d == OwnSource(host, port)));
      var run := UnsafeBreaks(d, adds, host, port);
    }
  }
}
