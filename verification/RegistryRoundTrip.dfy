/** When the datasource file brings back the list it was printed from: the exact condition on the names and
    hosts, for every list of quote-free sources with different names. */
module RegistryRoundTrip {
  import opened CStrings
  import opened Registry
  import opened RegistryFile
  import opened RegistryPieces
  import opened RegistryReload

  // ----- what each row brings -----

  /** The names that reading survives: one must not be "port", and "host" only with the host "host". */
  predicate KeySafe(d: Source) { d.name != "port" && (d.name == "host" ==> d.host == "host") }

  /** The usable sources seen inside the name and host of source `i`. */
  function Extras(items: seq<Source>, i: nat): seq<Source>
    requires i < |items|
  {
    UsableOf(Extra(items[i], NextOf(items, i)))
  }

  /** The extras of every row. */
  function AllExtras(items: seq<Source>): seq<seq<Source>> {
    seq(|items|, i requires 0 <= i < |items| => Extras(items, i))
  }

  /** A row named "port" does not bring itself. */
  function Own(d: Source): seq<Source> { if d.name == "port" then [] else [Reread(d)] }

  /** What the rows from `i` on bring, with the extras `ex`. */
  function Brought(items: seq<Source>, ex: seq<seq<Source>>, i: nat): seq<Source>
    requires i <= |items| == |ex|
    decreases |items| - i
  {
    if i == |items| then [] else Own(items[i]) + (ex[i] + Brought(items, ex, i + 1))
  }

  lemma {:induction false} UsableAppend(a: seq<Source>, b: seq<Source>)
    ensures UsableOf(a + b) == UsableOf(a) + UsableOf(b)
  {
    if a == [] {
      assert a + b == b;
    } else {
      assert (a + b)[1..] == a[1..] + b && (a + b)[0] == a[0];
      UsableAppend(a[1..], b);
      Regroup(if Usable(a[0]) then [a[0]] else [], UsableOf(a[1..]), UsableOf(b));
    }
  }

  lemma UsableOwn(d: Source)
    requires Printable(d)
    ensures UsableOf([Reread(d)]) == Own(d)
  {
    var one := [Reread(d)];
    assert one[1..] == [] && UsableOf(one[1..]) == [];
    assert UsableOf(one) == if Usable(one[0]) then [one[0]] else [];
  }

  lemma UsableRow(items: seq<Source>, i: nat, more: seq<Source>)
    requires i < |items| && AllPrintable(items)
    ensures UsableOf(Row(items, i) + more) == Own(items[i]) + (Extras(items, i) + UsableOf(more))
  {
    UsableAppend(Row(items, i), more);
    UsableAppend([Reread(items[i])], Extra(items[i], NextOf(items, i)));
    UsableOwn(items[i]);
    Regroup(Own(items[i]), Extras(items, i), UsableOf(more));
  }

  lemma {:induction false} BroughtIs(items: seq<Source>, i: nat)
    requires i <= |items| && AllPrintable(items)
    ensures UsableOf(AllRead(items, i)) == Brought(items, AllExtras(items), i)
    decreases |items| - i
  {
    if i < |items| {
      BroughtIs(items, i + 1);
      UsableRow(items, i, AllRead(items, i + 1));
    }
  }

  lemma {:induction false} CopiesUsable(d: Source, n: nat)
    ensures UsableOf(Copies(d, n)) == if Usable(d) then Copies(d, n) else []
  {
    if n > 0 {
      CopiesUsable(d, n - 1);
      assert Copies(d, n)[1..] == Copies(d, n - 1);
    }
  }

  lemma {:induction false} CopiesAre(d: Source, n: nat)
    ensures |Copies(d, n)| == n && forall i :: 0 <= i < n ==> Copies(d, n)[i] == d
  {
    if n > 0 {
      CopiesAre(d, n - 1);
    }
  }

  lemma {:induction false} NoStarts(t: string, closed: bool)
    requires '{' !in t
    ensures Openings(t, closed) == 0
  {
    if t != "" {
      assert t[0] in t;
      NoStarts(t[1..], closed || t[0] == '}');
    }
  }

  /** All sources seen inside one row have the same name: that of the next source, or "port". */
  lemma ExtrasNames(items: seq<Source>, i: nat)
    requires i < |items|
    ensures var e, d := Extras(items, i), InName(items[i], NextOf(items, i));
            (forall k :: 0 <= k < |e| ==> e[k].name == d.name)
            && (items[i].host == "name" ==> forall k :: 0 <= k < |e| ==> e[k] == d)
  {
    var d, next := items[i], NextOf(items, i);
    var a, b := Copies(InName(d, next), NameStarts(d)), Copies(InHost(d, next), HostStarts(d));
    CopiesUsable(InName(d, next), NameStarts(d));
    CopiesUsable(InHost(d, next), HostStarts(d));
    CopiesAre(InName(d, next), NameStarts(d));
    CopiesAre(InHost(d, next), HostStarts(d));
    UsableAppend(a, b);
    if d.host == "name" {
      NoStarts(d.host, Pending(d.name, false));
    }
  }

  /** A row named "port" brings nothing of that name. */
  lemma PortExtras(items: seq<Source>, i: nat)
    requires i < |items| && items[i].name == "port" && Extras(items, i) != []
    ensures i + 1 < |items| && Extras(items, i)[0].name == items[i + 1].name
  {
    var d, next := items[i], NextOf(items, i);
    NoStarts(d.name, false);
    CopiesUsable(InName(d, next), NameStarts(d));
    CopiesUsable(InHost(d, next), HostStarts(d));
    CopiesAre(InHost(d, next), HostStarts(d));
    UsableAppend(Copies(InName(d, next), NameStarts(d)), Copies(InHost(d, next), HostStarts(d)));
  }

  /** Nothing usable is seen inside a row exactly when no opening brace follows a closing one in it, or when
      no source comes after it and there is no host "name" to be taken for a key. */
  lemma NoExtras(items: seq<Source>, i: nat)
    requires i < |items| && AllPrintable(items)
    ensures Extras(items, i) == [] <==>
      NameStarts(items[i]) + HostStarts(items[i]) == 0
      || (i + 1 == |items| && (NameStarts(items[i]) == 0 || items[i].host != "name"))
  {
    var d, next := items[i], NextOf(items, i);
    CopiesUsable(InName(d, next), NameStarts(d));
    CopiesUsable(InHost(d, next), HostStarts(d));
    CopiesAre(InName(d, next), NameStarts(d));
    CopiesAre(InHost(d, next), HostStarts(d));
    UsableAppend(Copies(InName(d, next), NameStarts(d)), Copies(InHost(d, next), HostStarts(d)));
    assert Printable(d) && (next.Some? ==> Printable(next.value));
  }

  // ----- a list cut at 16 -----

  /** `c`, cut after `cap` elements, is `t`. */
  predicate Cuts(c: seq<Source>, t: seq<Source>, cap: nat) {
    if cap == 0 || t == [] then t == [] && (cap == 0 || c == [])
    else c != [] && c[0] == t[0] && Cuts(c[1..], t[1..], cap - 1)
  }

  lemma {:induction false} CutsIs(c: seq<Source>, t: seq<Source>, cap: nat)
    ensures Cuts(c, t, cap) <==> t == if |c| <= cap then c else c[..cap]
  {
    if cap > 0 && t != [] && c != [] && c[0] == t[0] {
      CutsIs(c[1..], t[1..], cap - 1);
      assert c == [c[0]] + c[1..] && t == [t[0]] + t[1..];
      assert |c| > cap ==> c[..cap] == [c[0]] + c[1..][..cap - 1];
    }
  }

  // ----- the exact condition -----

  /** Source `i` comes back, and all after it. It must read as itself, and nothing usable may be seen inside
      it; unless that is the next source, and the list is full with it or its own row, being named "port",
      brings nothing. With `brought`, the row before brought source `i` in this way. */
  predicate Survives(items: seq<Source>, ex: seq<seq<Source>>, i: nat, brought: bool)
    requires i <= |items| == |ex|
    decreases |items| - i
  {
    i == |items| ||
    ((if brought then items[i].name == "port" else KeySafe(items[i])) &&
     (i + 1 == MAX_DATASOURCES ||
      (if ex[i] == [] then Survives(items, ex, i + 1, false)
       else i + 1 < |items| && ex[i][0] == items[i + 1]
            && (i + 2 == MAX_DATASOURCES || (|ex[i]| == 1 && Survives(items, ex, i + 1, true))))))
  }

  /** What the rows have in common: the extras of a row share one name, and those of a row named "port" have
      the name of the next source. */
  ghost predicate Regular(items: seq<Source>, ex: seq<seq<Source>>) {
    |ex| == |items| && UniqueNames(items) && forall i :: 0 <= i < |items| ==> RegularRow(items, ex, i)
  }

  predicate RegularRow(items: seq<Source>, ex: seq<seq<Source>>, i: nat)
    requires i < |items| == |ex|
  {
    (|ex[i]| >= 2 ==> ex[i][1].name == ex[i][0].name)
    && (items[i].name == "port" && ex[i] != [] ==> i + 1 < |items| && ex[i][0].name == items[i + 1].name)
  }

  lemma ExtrasRegular(items: seq<Source>)
    requires UniqueNames(items)
    ensures Regular(items, AllExtras(items))
  {
    forall i | 0 <= i < |items| ensures RegularRow(items, AllExtras(items), i) {
      ExtrasNames(items, i);
      if items[i].name == "port" && Extras(items, i) != [] {
        PortExtras(items, i);
      }
    }
  }

  /** A row brings its own source first, if it brings anything of its name. */
  lemma FirstBrought(items: seq<Source>, ex: seq<seq<Source>>, i: nat)
    requires i < |items| && Regular(items, ex)
    ensures var b := Brought(items, ex, i);
            if items[i].name != "port" then b != [] && b[0] == Reread(items[i]) else b != [] ==> b[0].name != "port"
  {
    var b := Brought(items, ex, i);
    assert RegularRow(items, ex, i);
    if items[i].name == "port" && i + 1 < |items| {
      assert items[i].name != items[i + 1].name;
      if ex[i] == [] {
        assert b == Brought(items, ex, i + 1);
      } else {
        assert b[0] == ex[i][0];
      }
    }
  }

  lemma CutsCons(x: Source, c: seq<Source>, t: seq<Source>, cap: nat)
    requires cap > 0
    ensures Cuts([x] + c, t, cap) <==> t != [] && x == t[0] && Cuts(c, t[1..], cap - 1)
  {
    assert ([x] + c)[1..] == c;
  }

  /** The head of a list of extras, against the head of the list still to come. */
  lemma CutsExtra(e: seq<Source>, more: seq<Source>, t: seq<Source>, cap: nat)
    requires e != [] && cap > 0
    ensures Cuts(e + more, t, cap) <==> t != [] && e[0] == t[0] && Cuts(e[1..] + more, t[1..], cap - 1)
  {
    assert e + more == [e[0]] + (e[1..] + more);
    CutsCons(e[0], e[1..] + more, t, cap);
  }

  /** What follows once source `i` is there. */
  predicate Continues(items: seq<Source>, ex: seq<seq<Source>>, i: nat)
    requires i < |items| == |ex|
  {
    i + 1 == MAX_DATASOURCES ||
    (if ex[i] == [] then Survives(items, ex, i + 1, false)
     else i + 1 < |items| && ex[i][0] == items[i + 1]
          && (i + 2 == MAX_DATASOURCES || (|ex[i]| == 1 && Survives(items, ex, i + 1, true))))
  }

  lemma {:induction false} CutsContinue(items: seq<Source>, ex: seq<seq<Source>>, i: nat)
    requires i < |items| <= MAX_DATASOURCES && Regular(items, ex)
    ensures Cuts(ex[i] + Brought(items, ex, i + 1), items[i + 1..], MAX_DATASOURCES - 1 - i)
       <==> Continues(items, ex, i)
    decreases |items| - i, 1
  {
    var more, t := Brought(items, ex, i + 1), items[i + 1..];
    if i + 1 == MAX_DATASOURCES {
    } else if ex[i] == [] {
      assert ex[i] + more == more;
      CutsPlain(items, ex, i + 1);
    } else {
      CutsExtra(ex[i], more, t, MAX_DATASOURCES - 1 - i);
      if t != [] && ex[i][0] == t[0] {
        assert t[1..] == items[i + 2..];
        CutsSecond(items, ex, i);
      }
    }
  }

  lemma {:induction false} CutsSecond(items: seq<Source>, ex: seq<seq<Source>>, i: nat)
    requires i + 1 < |items| <= MAX_DATASOURCES && Regular(items, ex) && ex[i] != [] && ex[i][0] == items[i + 1]
    ensures Cuts(ex[i][1..] + Brought(items, ex, i + 1), items[i + 2..], MAX_DATASOURCES - 2 - i)
       <==> i + 2 == MAX_DATASOURCES || (|ex[i]| == 1 && Survives(items, ex, i + 1, true))
    decreases |items| - i, 0
  {
    var more := Brought(items, ex, i + 1);
    if i + 2 == MAX_DATASOURCES {
    } else if |ex[i]| == 1 {
      assert ex[i][1..] + more == more;
      CutsBrought(items, ex, i + 1);
    } else {
      assert RegularRow(items, ex, i);
      CutsExtra(ex[i][1..], more, items[i + 2..], MAX_DATASOURCES - 2 - i);
      assert i + 2 < |items| ==> items[i + 2..][0] == items[i + 2] && items[i + 1].name != items[i + 2].name;
    }
  }

  lemma {:induction false} CutsPlain(items: seq<Source>, ex: seq<seq<Source>>, i: nat)
    requires i <= |items| <= MAX_DATASOURCES && Regular(items, ex)
    ensures Cuts(Brought(items, ex, i), items[i..], MAX_DATASOURCES - i) <==> Survives(items, ex, i, false)
    decreases |items| - i, 2
  {
    if i < |items| {
      var d, rest := items[i], ex[i] + Brought(items, ex, i + 1);
      assert items[i..][0] == d && items[i..][1..] == items[i + 1..];
      FirstBrought(items, ex, i);
      if d.name != "port" {
        CutsCons(Reread(d), rest, items[i..], MAX_DATASOURCES - i);
        CutsContinue(items, ex, i);
        assert Reread(d) == d <==> KeySafe(d);
        assert Survives(items, ex, i, false) <==> KeySafe(d) && Continues(items, ex, i);
      }
    }
  }

  lemma {:induction false} CutsBrought(items: seq<Source>, ex: seq<seq<Source>>, i: nat)
    requires i < |items| <= MAX_DATASOURCES && i + 1 < MAX_DATASOURCES && Regular(items, ex)
    ensures Cuts(Brought(items, ex, i), items[i + 1..], MAX_DATASOURCES - 1 - i) <==> Survives(items, ex, i, true)
    decreases |items| - i, 2
  {
    var d, rest := items[i], ex[i] + Brought(items, ex, i + 1);
    if d.name == "port" {
      assert Brought(items, ex, i) == rest;
      CutsContinue(items, ex, i);
      assert Survives(items, ex, i, true) <==> Continues(items, ex, i);
    } else {
      FirstBrought(items, ex, i);
      assert i + 1 < |items| ==> items[i + 1..][0] == items[i + 1] && items[i + 1].name != d.name;
    }
  }

  /** What loading a saved list gives: what the rows bring, up to 16. */
  lemma LoadBrings(prev: State, s: State)
    requires Writable(s)
    ensures Load(prev, Print(s)) == State(Capped(Brought(s.items, AllExtras(s.items), 0)), s.default)
  {
    LoadPrinted(prev, s);
    BroughtIs(s.items, 0);
  }

  lemma BringsAll(items: seq<Source>, ex: seq<seq<Source>>)
    requires |items| <= MAX_DATASOURCES && Regular(items, ex)
    ensures Capped(Brought(items, ex, 0)) == items <==> Survives(items, ex, 0, false)
  {
    CutsIs(Brought(items, ex, 0), items, MAX_DATASOURCES);
    CutsPlain(items, ex, 0);
    assert items[0..] == items;
  }

  /** Loading what was saved brings back the same list, order and default exactly when every source
      survives. */
  lemma RoundTrip(prev: State, s: State)
    requires Writable(s) && UniqueNames(s.items)
    ensures Load(prev, Print(s)) == s <==> Survives(s.items, AllExtras(s.items), 0, false)
  {
    LoadBrings(prev, s);
    ExtrasRegular(s.items);
    BringsAll(s.items, AllExtras(s.items));
  }

  // ----- the condition in plain words -----

  /** No opening brace follows a closing one in name and host; or the source is the last one, and no name
      with such a brace stands before a host "name". */
  predicate Braceless(items: seq<Source>, i: nat)
    requires i < |items|
  {
    NameStarts(items[i]) + HostStarts(items[i]) == 0
    || (i + 1 == |items| && (NameStarts(items[i]) == 0 || items[i].host != "name"))
  }

  lemma {:induction false} SurvivesPlain(items: seq<Source>, ex: seq<seq<Source>>, i: nat)
    requires i <= |items| == |ex| && |items| < MAX_DATASOURCES
    requires forall k :: 0 <= k < |items| ==> items[k].name != "port"
    ensures Survives(items, ex, i, false) <==> forall k :: i <= k < |items| ==> KeySafe(items[k]) && ex[k] == []
    decreases |items| - i
  {
    if i < |items| {
      SurvivesPlain(items, ex, i + 1);
      assert i + 1 < |items| ==> !Survives(items, ex, i + 1, true);
    }
  }

  /** A list that is not full and has no source named "port" comes back exactly when a source named "host" has
      the host "host", and no brace misleads the reader. */
  lemma RoundTripPlain(prev: State, s: State)
    requires Writable(s) && UniqueNames(s.items) && |s.items| < MAX_DATASOURCES
    requires forall k :: 0 <= k < |s.items| ==> s.items[k].name != "port"
    ensures Load(prev, Print(s)) == s
       <==> forall k :: 0 <= k < |s.items| ==>
              (s.items[k].name == "host" ==> s.items[k].host == "host") && Braceless(s.items, k)
  {
    var ex := AllExtras(s.items);
    RoundTrip(prev, s);
    SurvivesPlain(s.items, ex, 0);
    forall k | 0 <= k < |s.items|
      ensures KeySafe(s.items[k]) && ex[k] == []
         <==> (s.items[k].name == "host" ==> s.items[k].host == "host") && Braceless(s.items, k)
    {
      NoExtras(s.items, k);
    }
  }

  /** A name with a closing and then an opening brace: the next source comes back twice, the first time with
      this source's host and port. */
  lemma BraceName(prev: State)
    ensures var a, c := Source("a}{b", "h", 1), Source("c", "g", 2);
            Load(prev, Print(State([a, c], "c"))) == State([a, Source("c", "h", 1), c], "c")
  {
    var a, c := Source("a}{b", "h", 1), Source("c", "g", 2);
    var items := [a, c];
    LoadBrings(prev, State(items, "c"));
    BraceExtras(items);
    TwoRows(a, c, AllExtras(items));
  }

  lemma TwoRows(a: Source, c: Source, ex: seq<seq<Source>>)
    requires |ex| == 2 && ex[1] == [] && KeySafe(a) && KeySafe(c)
    ensures Brought([a, c], ex, 0) == [a] + ex[0] + [c]
  {
    var items := [a, c];
    assert Brought(items, ex, 2) == [] && Brought(items, ex, 1) == [c] + ([] + []);
    assert Brought(items, ex, 0) == [a] + (ex[0] + [c]);
  }

  lemma BraceExtras(items: seq<Source>)
    requires items == [Source("a}{b", "h", 1), Source("c", "g", 2)]
    ensures Extras(items, 0) == [Source("c", "h", 1)] && Extras(items, 1) == []
  {
    BraceStarts();
    var seen := InName(items[0], NextOf(items, 0));
    assert NameStarts(items[0]) == 1 && HostStarts(items[0]) == 0;
    assert Copies(seen, 1) == [seen] && Extra(items[0], NextOf(items, 0)) == [seen];
    CopiesUsable(seen, 1);
    NoStarts("c", false);
    NoStarts("g", Pending("c", false));
    assert Extra(items[1], NextOf(items, 1)) == [];
  }

  lemma BraceStarts()
    ensures Openings("a}{b", false) == 1 && Openings("h", Pending("a}{b", false)) == 0
  {
    var t := "a}{b";
    assert t[1..] == "}{b" && t[1..][1..] == "{b" && t[1..][1..][1..] == "b";
    NoStarts("b", false);
    assert Openings(t[1..][1..], true) == 1 && Openings(t[1..], false) == 1;
    NoStarts("h", Pending(t, false));
  }

  // ----- after any run -----

  /** What the handlers of the gateway let through: names and hosts that are not empty, fit and hold no quote. */
  predicate OpFits(op: Op) {
    op.OpAdd? ==>
      1 <= |op.name| < MAX_NAME && 1 <= |op.host| < MAX_HOST && '"' !in op.name && '"' !in op.host
  }

  lemma {:induction false} RunsPrintable(ops: seq<Op>)
    requires forall i :: 0 <= i < |ops| ==> OpFits(ops[i])
    ensures Sound(Run(ops)) && AllPrintable(Run(ops).items)
  {
    assert NamesFit(ops);
    RunsSound(ops);
    if ops != [] {
      var pre, op := ops[..|ops| - 1], ops[|ops| - 1];
      RunsPrintable(pre);
      assert OpFits(op);
      StepPrintable(Run(pre), op);
    }
  }

  lemma StepPrintable(s: State, op: Op)
    requires AllPrintable(s.items) && OpFits(op)
    ensures AllPrintable(Apply(s, op).items)
  {
    var s' := Apply(s, op);
    forall i | 0 <= i < |s'.items| ensures Printable(s'.items[i]) {
      assert s'.items[i] in s.items || (op.OpAdd? && s'.items[i] == Source(op.name, op.host, op.port));
    }
  }

  /** After any run of adds, removals and default changes, the saved file is loaded as the same list and the
      same default exactly when every source survives. */
  lemma RunReloads(ops: seq<Op>, prev: State)
    requires forall i :: 0 <= i < |ops| ==> OpFits(ops[i])
    ensures var s := Run(ops); Load(prev, Print(s)) == s <==> Survives(s.items, AllExtras(s.items), 0, false)
  {
    RunsPrintable(ops);
    SoundWritable(Run(ops));
    RoundTrip(prev, Run(ops));
  }

  lemma SoundWritable(s: State)
    requires Sound(s) && AllPrintable(s.items)
    ensures Writable(s)
  {
    if s.items != [] {
      ListedFits(s, s.default);
      var i :| 0 <= i < |s.items| && s.items[i].name == s.default;
      assert Printable(s.items[i]);
    }
  }
}
