/** The gateway's list of datasources (gate/main.c): a fixed array with a count and a default name. */
module Registry {
  import opened CStrings

  const MAX_DATASOURCES := 16
  const MAX_NAME := 64
  const MAX_HOST := 256

  datatype Source = Source(name: string, host: string, port: int)
  datatype State = State(items: seq<Source>, default: string)

  const EMPTY := State([], "")

  // ----- what the operations mean -----

  ghost predicate Listed(items: seq<Source>, name: string) {
    exists i :: 0 <= i < |items| && items[i].name == name
  }

  ghost predicate FirstAt(items: seq<Source>, name: string, i: nat) {
    i < |items| && items[i].name == name && forall j :: 0 <= j < i ==> items[j].name != name
  }

  function Index(items: seq<Source>, name: string): (i: nat)
    ensures i <= |items|
    ensures i < |items| ==> FirstAt(items, name, i)
    ensures i == |items| <==> !Listed(items, name)
  {
    if items == [] then 0
    else if items[0].name == name then 0
    else
      var i := Index(items[1..], name);
      assert forall j :: 1 <= j < |items| ==> items[j] == items[1..][j - 1];
      1 + i
  }

  /** The return code and the list after adding; a rejected source changes nothing. */
  function Add(s: State, name: string, host: string, port: int): (int, State) {
    if |s.items| >= MAX_DATASOURCES then (-1, s)
    else if Index(s.items, name) < |s.items| then (-2, s)
    else if port <= 0 || port > 65535 then (-3, s)
    else
      var added := Source(Cut(name, MAX_NAME - 1), Cut(host, MAX_HOST - 1), port);
      (0, State(s.items + [added], if s.items == [] then Cut(name, MAX_NAME - 1) else s.default))
  }

  function RemoveAt(items: seq<Source>, i: nat): (r: seq<Source>)
    requires i < |items|
    ensures |r| == |items| - 1
    ensures forall k :: 0 <= k < |r| ==> r[k] == items[if k < i then k else k + 1]
  {
    items[..i] + items[i + 1..]
  }

  function Remove(s: State, name: string): (int, State) {
    var i := Index(s.items, name);
    if i == |s.items| then (-1, s)
    else
      var rest := RemoveAt(s.items, i);
      (0, State(rest,
                if s.default != name then s.default
                else if rest == [] then ""
                else Cut(rest[0].name, MAX_NAME - 1)))
  }

  function SetDefault(s: State, name: string): (bool, State) {
    if Index(s.items, name) < |s.items| then (true, s.(default := Cut(name, MAX_NAME - 1))) else (false, s)
  }

  /** Where a request goes: an unknown name is an error, and without a usable default the gateway's
      own backend takes it. */
  datatype Target = NotFound | Listing(source: Source) | Backend

  function Resolve(s: State, param: Option<string>): Target {
    match param
    case Some(name) =>
      var i := Index(s.items, name);
      if i < |s.items| then Listing(s.items[i]) else NotFound
    case None =>
      if s.items == [] || s.default == "" then Backend
      else
        var i := Index(s.items, s.default);
        if i < |s.items| then Listing(s.items[i]) else Backend
  }

  // ----- the array -----

  class List {
    const items: array<Source>
    var count: nat
    var defaultName: string

    ghost predicate Valid()
      reads this
    {
      items.Length == MAX_DATASOURCES && count <= MAX_DATASOURCES
    }

    ghost function View(): State
      requires Valid()
      reads this, items
    {
      State(items[..count], defaultName)
    }

    constructor ()
      ensures Valid() && fresh(items) && View() == EMPTY
    {
      items := new Source[MAX_DATASOURCES](_ => Source("", "", 0));
      count, defaultName := 0, "";
    }

    method Find(name: string) returns (i: nat)
      requires Valid()
      ensures i == Index(items[..count], name)
    {
      i := 0;
      while i < count
        invariant i <= count
        invariant forall j :: 0 <= j < i ==> items[j].name != name
      {
        if items[i].name == name {
          IndexUnique(items[..count], name, i);
          return;
        }
        i := i + 1;
      }
    }

    method AddDatasource(name: string, host: string, port: int) returns (code: int)
      requires Valid()
      modifies this`count, this`defaultName, items
      ensures Valid() && (code, View()) == Add(old(View()), name, host, port)
    {
      if count >= MAX_DATASOURCES {
        return -1;
      }
      var i := Find(name);
      if i < count {
        return -2;
      }
      if port <= 0 || port > 65535 {
        return -3;
      }
      ghost var was := items[..count];
      items[count] := Source(Cut(name, MAX_NAME - 1), Cut(host, MAX_HOST - 1), port);
      count := count + 1;
      assert items[..count] == was + [items[count - 1]];
      if count == 1 {
        defaultName := Cut(name, MAX_NAME - 1);
      }
      return 0;
    }

    /** Removes by shifting the rest one place down. */
    method RemoveDatasource(name: string) returns (code: int)
      requires Valid()
      modifies this`count, this`defaultName, items
      ensures Valid() && (code, View()) == Remove(old(View()), name)
    {
      var i := Find(name);
      if i == count {
        return -1;
      }
      ShiftDown(i);
      count := count - 1;
      if defaultName == name {
        if count > 0 {
          defaultName := Cut(items[0].name, MAX_NAME - 1);
        } else {
          defaultName := "";
        }
      }
      return 0;
    }

    /** Moves everything after place `i` one place down. */
    method ShiftDown(i: nat)
      requires Valid() && i < count
      modifies items
      ensures items[..count - 1] == RemoveAt(old(items[..count]), i)
    {
      ghost var was := items[..count];
      var j := i;
      while j < count - 1
        invariant i <= j < count
        invariant forall k :: 0 <= k < j ==> items[k] == was[if k < i then k else k + 1]
        invariant forall k :: j < k < count ==> items[k] == was[k]
      {
        items[j] := items[j + 1];
        j := j + 1;
      }
    }

    method SetDefaultDatasource(name: string) returns (ok: bool)
      requires Valid()
      modifies this`defaultName
      ensures Valid() && (ok, View()) == SetDefault(old(View()), name)
    {
      var i := Find(name);
      ok := i < count;
      if ok {
        defaultName := Cut(name, MAX_NAME - 1);
      }
    }
  }

  lemma {:induction false} IndexUnique(items: seq<Source>, name: string, i: nat)
    requires FirstAt(items, name, i)
    ensures Index(items, name) == i
  {
    assert Listed(items, name);
  }

  // ----- every run from an empty list -----

  datatype Op =
    | OpAdd(name: string, host: string, port: int)
    | OpRemove(name: string)
    | OpDefault(name: string)

  function Apply(s: State, op: Op): State {
    match op
    case OpAdd(name, host, port) => Add(s, name, host, port).1
    case OpRemove(name) => Remove(s, name).1
    case OpDefault(name) => SetDefault(s, name).1
  }

  function Run(ops: seq<Op>): State {
    if ops == [] then EMPTY else Apply(Run(ops[..|ops| - 1]), ops[|ops| - 1])
  }

  /** The gateway's handlers reject empty names and cut names at 63 bytes before adding. */
  predicate NamesFit(ops: seq<Op>) {
    forall i :: 0 <= i < |ops| && ops[i].OpAdd? ==> 1 <= |ops[i].name| < MAX_NAME
  }

  ghost predicate UniqueNames(items: seq<Source>) {
    forall i, j :: 0 <= i < j < |items| ==> items[i].name != items[j].name
  }

  predicate SourceFits(d: Source) {
    1 <= |d.name| < MAX_NAME && |d.host| < MAX_HOST && 1 <= d.port <= 65535
  }

  ghost predicate Sound(s: State) {
    && |s.items| <= MAX_DATASOURCES
    && UniqueNames(s.items)
    && (forall d :: d in s.items ==> SourceFits(d))
    && (if s.items == [] then s.default == "" else Listed(s.items, s.default))
  }

  lemma AddKeepsSound(s: State, name: string, host: string, port: int)
    requires Sound(s) && 1 <= |name| < MAX_NAME
    ensures Sound(Add(s, name, host, port).1)
  {
    var s' := Add(s, name, host, port).1;
    if s' != s {
      if s.items == [] {
        assert s'.items[0].name == s'.default;
      } else {
        var i :| 0 <= i < |s.items| && s.items[i].name == s.default;
        assert s'.items[i].name == s'.default;
      }
    }
  }

  lemma RemoveKeepsSound(s: State, name: string)
    requires Sound(s)
    ensures Sound(Remove(s, name).1)
  {
    var i := Index(s.items, name);
    if i < |s.items| {
      var rest := RemoveAt(s.items, i);
      RemoveKeepsListed(s.items, i, s.default);
      assert forall d :: d in rest ==> d in s.items;
      assert rest != [] ==> rest[0] in rest;
    }
  }

  lemma RemoveKeepsListed(items: seq<Source>, i: nat, name: string)
    requires i < |items| && UniqueNames(items)
    ensures UniqueNames(RemoveAt(items, i))
    ensures Listed(items, name) && items[i].name != name ==> Listed(RemoveAt(items, i), name)
  {
    if Listed(items, name) && items[i].name != name {
      var d :| 0 <= d < |items| && items[d].name == name;
      assert RemoveAt(items, i)[if d < i then d else d - 1].name == name;
    }
  }

  lemma {:induction false} RunsSound(ops: seq<Op>)
    requires NamesFit(ops)
    ensures Sound(Run(ops))
  {
    if ops != [] {
      var pre := ops[..|ops| - 1];
      RunsSound(pre);
      match ops[|ops| - 1]
      case OpAdd(name, host, port) => AddKeepsSound(Run(pre), name, host, port);
      case OpRemove(name) => RemoveKeepsSound(Run(pre), name);
      case OpDefault(name) =>
        if Listed(Run(pre).items, name) {
          ListedFits(Run(pre), name);
        }
    }
  }

  /** After any run, a request naming no datasource goes to a listed one exactly when there is one. */
  lemma UnnamedRequestServed(ops: seq<Op>)
    requires NamesFit(ops)
    ensures var s := Run(ops);
            if s.items == [] then Resolve(s, None) == Backend
            else Resolve(s, None).Listing? && Resolve(s, None).source in s.items
                 && Resolve(s, None).source.name == s.default
  {
    RunsSound(ops);
    var s := Run(ops);
    if s.items != [] {
      ListedFits(s, s.default);
    }
  }

  lemma ListedFits(s: State, name: string)
    requires Sound(s) && Listed(s.items, name)
    ensures 1 <= |name| < MAX_NAME
  {
    var i :| 0 <= i < |s.items| && s.items[i].name == name;
    assert SourceFits(s.items[i]);
  }

  function Without(items: seq<Source>, name: string): seq<Source> {
    if items == [] then []
    else if items[0].name == name then Without(items[1..], name)
    else [items[0]] + Without(items[1..], name)
  }

  lemma {:induction false} WithoutNone(items: seq<Source>, name: string)
    requires forall i :: 0 <= i < |items| ==> items[i].name != name
    ensures Without(items, name) == items
  {
    if items != [] {
      WithoutNone(items[1..], name);
      assert items == [items[0]] + items[1..];
    }
  }

  lemma {:induction false} WithoutAppend(a: seq<Source>, b: seq<Source>, name: string)
    ensures Without(a + b, name) == Without(a, name) + Without(b, name)
  {
    if a == [] {
      assert a + b == b;
    } else {
      assert (a + b)[0] == a[0] && (a + b)[1..] == a[1..] + b;
      WithoutAppend(a[1..], b, name);
    }
  }

  lemma RemoveAtIsFilter(items: seq<Source>, name: string)
    requires UniqueNames(items)
    ensures Without(items, name) == if Listed(items, name) then RemoveAt(items, Index(items, name)) else items
  {
    var i := Index(items, name);
    if i == |items| {
      WithoutNone(items, name);
    } else {
      WithoutOne(items, i, name);
    }
  }

  lemma WithoutOne(items: seq<Source>, i: nat, name: string)
    requires UniqueNames(items) && i < |items| && items[i].name == name
    ensures Without(items, name) == RemoveAt(items, i)
  {
    var a, b := items[..i], items[i + 1..];
    assert items == a + items[i..] && items[i..][1..] == b;
    WithoutAppend(a, items[i..], name);
    WithoutNone(a, name);
    WithoutNone(b, name);
  }

  /** Removing takes out exactly the sources of that name and keeps the order of the rest. */
  lemma RemoveIsFilter(s: State, name: string)
    requires UniqueNames(s.items)
    ensures Remove(s, name).1.items == Without(s.items, name)
    ensures Remove(s, name).0 == 0 <==> Listed(s.items, name)
  {
    RemoveAtIsFilter(s.items, name);
  }

  /** Adding and then removing a new name brings the list back, and the default too unless the list
      was empty, in which case it is empty again. */
  lemma AddThenRemove(s: State, name: string, host: string, port: int)
    requires Sound(s) && 1 <= |name| < MAX_NAME && Add(s, name, host, port).0 == 0
    ensures Remove(Add(s, name, host, port).1, name) == (0, s)
  {
    var s' := Add(s, name, host, port).1;
    assert s'.items[|s.items|].name == name;
    IndexUnique(s'.items, name, |s.items|);
    assert RemoveAt(s'.items, |s.items|) == s.items;
  }

  // ----- what the operations mean for requests -----

  /** The source of that name, in a list of different names. */
  ghost predicate Serves(s: State, name: string, d: Source) { d in s.items && d.name == name }

  lemma ServesIndex(s: State, name: string, d: Source)
    requires UniqueNames(s.items) && Serves(s, name, d)
    ensures Index(s.items, name) < |s.items| && s.items[Index(s.items, name)] == d
  {
    var i :| 0 <= i < |s.items| && s.items[i] == d;
    assert Listed(s.items, name);
  }

  /** A request that names a datasource goes to the source of that name, and is refused exactly when there is
      none. */
  lemma NamedRequestServed(s: State, name: string)
    requires UniqueNames(s.items)
    ensures forall d :: Resolve(s, Some(name)) == Listing(d) <==> Serves(s, name, d)
    ensures Resolve(s, Some(name)) == NotFound <==> !Listed(s.items, name)
  {
    forall d ensures Resolve(s, Some(name)) == Listing(d) <==> Serves(s, name, d) {
      if Serves(s, name, d) {
        ServesIndex(s, name, d);
      }
    }
  }

  /** The unnamed requests of a sound list go to the source named by its default. */
  lemma UnnamedServes(s: State, d: Source)
    requires Sound(s)
    ensures Resolve(s, None) == Listing(d) <==> Serves(s, s.default, d)
  {
    if s.items != [] {
      ListedFits(s, s.default);
    }
    NamedRequestServed(s, s.default);
  }

  /** Setting the default succeeds exactly for a listed name. Then unnamed requests go to the source of that
      name; else nothing has changed. */
  lemma DefaultIsSet(s: State, name: string)
    requires Sound(s)
    ensures var (ok, s') := SetDefault(s, name);
            (ok <==> Listed(s.items, name)) && s'.items == s.items && (!ok ==> s' == s)
            && (ok ==> s'.default == name && forall d :: Resolve(s', None) == Listing(d) <==> Serves(s, name, d))
  {
    var s' := SetDefault(s, name).1;
    if Listed(s.items, name) {
      ListedFits(s, name);
      assert Sound(s');
      forall d ensures Resolve(s', None) == Listing(d) <==> Serves(s, name, d) { UnnamedServes(s', d); }
    }
  }

  /** Adding answers -1 for a full list, else -2 for a listed name, else -3 for a port that is none, else 0; and
      only then the source is put behind the others. The first source becomes the default. */
  lemma AddExactly(s: State, name: string, host: string, port: int)
    requires Sound(s)
    ensures var (code, s') := Add(s, name, host, port);
            code == (if |s.items| == 16 then -1 else if Listed(s.items, name) then -2
                     else if !(1 <= port <= 65535) then -3 else 0)
            && (code != 0 ==> s' == s)
            && (code == 0 ==> |s'.items| == |s.items| + 1 && s'.items[..|s.items|] == s.items)
            && (code == 0 ==> var d := s'.items[|s.items|];
                  d.port == port && d.name <= name && |d.name| == Min(63, |name|)
                  && d.host <= host && |d.host| == Min(255, |host|)
                  && s'.default == if s.items == [] then d.name else s.default)
  {
  }

  /** Removing the default makes the oldest of the other sources the default; removing another one changes
      nothing for unnamed requests. */
  lemma RemoveAndRequests(s: State, name: string)
    requires Sound(s) && Listed(s.items, name)
    ensures var s' := Remove(s, name).1;
            if name != s.default then s'.default == s.default && Resolve(s', None) == Resolve(s, None)
            else if |s.items| == 1 then s' == EMPTY && Resolve(s', None) == Backend
            else Resolve(s', None) == Listing(s.items[if s.items[0].name == name then 1 else 0])
  {
    var s' := Remove(s, name).1;
    RemoveKeepsSound(s, name);
    if name != s.default {
      var i :| 0 <= i < |s.items| && s.items[i].name == s.default;
      UnnamedServes(s, s.items[i]);
      RemovedOthers(s, name, s.items[i]);
      UnnamedServes(s', s.items[i]);
    } else if |s.items| > 1 {
      var d := s.items[if s.items[0].name == name then 1 else 0];
      assert s'.items[0] == d && d in s.items && SourceFits(d);
      UnnamedServes(s', d);
    }
  }

  lemma RemovedOthers(s: State, name: string, d: Source)
    requires d in s.items && d.name != name && UniqueNames(s.items)
    ensures d in Remove(s, name).1.items
  {
    var k :| 0 <= k < |s.items| && s.items[k] == d;
    var i := Index(s.items, name);
    if i < |s.items| {
      assert RemoveAt(s.items, i)[if k < i then k else k - 1] == d;
    }
  }

  /** One operation leaves the source of a name in the list, unless it removes it. */
  lemma ApplyServes(s: State, op: Op, name: string, d: Source)
    requires Sound(s) && Serves(s, name, d) && op != OpRemove(name)
    ensures Serves(Apply(s, op), name, d)
  {
    if op.OpRemove? {
      RemovedOthers(s, op.name, d);
    }
  }

  lemma StepKeepsDefault(s: State, op: Op, d: Source)
    requires Sound(s) && s.default == d.name && d in s.items
    requires !op.OpDefault? && op != OpRemove(d.name)
    ensures Apply(s, op).default == d.name && d in Apply(s, op).items
  {
    ApplyServes(s, op, d.name, d);
  }

  lemma StepSetsDefault(s: State, d: Source)
    requires Sound(s) && d in s.items
    ensures Apply(s, OpDefault(d.name)) == s.(default := d.name)
  {
    var i :| 0 <= i < |s.items| && s.items[i] == d;
    DefaultIsSet(s, d.name);
  }

  /** Nothing after step `j` sets the default or removes the name. */
  predicate NotUndone(ops: seq<Op>, j: nat, name: string) {
    forall i :: j < i < |ops| ==> !ops[i].OpDefault? && ops[i] != OpRemove(name)
  }

  lemma LastStep(ops: seq<Op>) returns (s: State)
    requires NamesFit(ops) && ops != []
    ensures s == Run(ops[..|ops| - 1]) && Sound(s) && NamesFit(ops[..|ops| - 1])
    ensures Run(ops) == Apply(s, ops[|ops| - 1])
  {
    RunsSound(ops[..|ops| - 1]);
    s := Run(ops[..|ops| - 1]);
  }

  lemma NotUndoneBefore(ops: seq<Op>, j: nat, name: string)
    requires j < |ops| - 1 && NotUndone(ops, j, name)
    ensures NotUndone(ops[..|ops| - 1], j, name)
    ensures !ops[|ops| - 1].OpDefault? && ops[|ops| - 1] != OpRemove(name)
    ensures ops[..|ops| - 1][..j] == ops[..j] && ops[..|ops| - 1][j] == ops[j]
  {
    var pre := ops[..|ops| - 1];
    assert forall i :: 0 <= i < |pre| ==> pre[i] == ops[i];
  }

  lemma {:induction false} DefaultStays(ops: seq<Op>, j: nat, d: Source)
    requires NamesFit(ops) && j < |ops| && ops[j] == OpDefault(d.name) && d in Run(ops[..j]).items
    requires NotUndone(ops, j, d.name)
    ensures Run(ops).default == d.name && d in Run(ops).items
  {
    var n := |ops| - 1;
    var s := LastStep(ops);
    if j == n {
      StepSetsDefault(s, d);
    } else {
      NotUndoneBefore(ops, j, d.name);
      DefaultStays(ops[..n], j, d);
      StepKeepsDefault(s, ops[n], d);
    }
  }

  /** Over runs: once the default is set to a listed name, unnamed requests go to that very source until the
      default is set again or the source is removed, whatever else is added and removed. */
  lemma DefaultLasts(ops: seq<Op>, j: nat, d: Source)
    requires NamesFit(ops) && j < |ops| && ops[j] == OpDefault(d.name) && d in Run(ops[..j]).items
    requires NotUndone(ops, j, d.name)
    ensures Resolve(Run(ops), None) == Listing(d)
  {
    RunsSound(ops);
    DefaultStays(ops, j, d);
    UnnamedServes(Run(ops), d);
  }
}
