/** The chained hash table of src/rrd/cache.c as a heap structure, refining `CacheSpec.State`. */
module Cache {
  import opened CStrings
  import opened CacheKey
  import opened MetricValues
  import CacheSpec

  class Entry {
    const key: string
    var data: MetricData
    var expires: int
    var next: Entry?

    constructor (key: string, data: MetricData, expires: int)
      ensures this.key == key && this.data == data && this.expires == expires && next == null
    {
      this.key, this.data, this.expires, this.next := key, data, expires, null;
    }
  }

  /** A link of a chain: the entry, the data it points at, and what that data means. */
  datatype Link = Link(entry: Entry, data: MetricData, stored: CacheSpec.Stored)

  ghost function Entries(chain: seq<Link>): set<Entry> { set l | l in chain :: l.entry }

  /** One entry per key: no entry occurs twice, so a chain is acyclic. */
  ghost predicate UniqueKeys(chain: seq<Link>) {
    forall j, k :: 0 <= j < k < |chain| ==> chain[j].entry.key != chain[k].entry.key
  }

  ghost function Keys(chain: seq<Link>): set<string> { set l | l in chain :: l.entry.key }

  /** The chain and the map have the same keys and values. */
  ghost predicate Describes(chain: seq<Link>, entries: map<string, CacheSpec.Stored>) {
    entries.Keys == Keys(chain) && forall l :: l in chain ==> entries[l.entry.key] == l.stored
  }

  /** Every piece of data memory belongs to one entry, and is not an entry itself. */
  ghost predicate Owned(chain: seq<Link>, owner: map<object, Entry>) {
    forall j :: 0 <= j < |chain| ==> chain[j].entry !in owner && OwnedLink(chain[j], owner)
  }

  ghost predicate OwnedLink(l: Link, owner: map<object, Entry>) {
    l.data.Valid() && forall o :: o in l.data.Mem ==> o in owner && owner[o] == l.entry
  }

  /** The pointers: `head` leads through the entries in order to null. */
  ghost predicate Linked(head: Entry?, chain: seq<Link>)
    reads Entries(chain)
  {
    if chain == [] then head == null
    else
      assert chain[0].entry in Entries(chain) by { assert chain[0] in chain; }
      assert Entries(chain[1..]) <= Entries(chain);
      head == chain[0].entry && LinkedAt(chain[0], Start(chain, 1)) && Linked(Start(chain, 1), chain[1..])
  }

  ghost function Start(chain: seq<Link>, j: nat): Entry? {
    if j < |chain| then chain[j].entry else null
  }

  ghost predicate LinkedAt(l: Link, next: Entry?)
    reads l.entry
  {
    l.entry.data == l.data && l.entry.expires == l.stored.expires && l.entry.next == next
  }

  lemma {:induction false} LinkedLink(head: Entry?, chain: seq<Link>, j: nat)
    requires Linked(head, chain) && j <= |chain|
    ensures head == Start(chain, 0)
    ensures j < |chain| ==> LinkedAt(chain[j], Start(chain, j + 1))
  {
    if 0 < j < |chain| {
      assert Start(chain[1..], j) == Start(chain, j + 1);
      LinkedLink(Start(chain, 1), chain[1..], j - 1);
    }
  }

  lemma {:induction false} LinkedIf(chain: seq<Link>)
    requires forall j :: 0 <= j < |chain| ==> LinkedAt(chain[j], Start(chain, j + 1))
    ensures Linked(Start(chain, 0), chain)
  {
    if chain != [] {
      forall j | 0 <= j < |chain[1..]|
        ensures LinkedAt(chain[1..][j], Start(chain[1..], j + 1))
      {
        assert LinkedAt(chain[j + 1], Start(chain, j + 2));
      }
      LinkedIf(chain[1..]);
    }
  }

  /** The data memory holds the stored values. */
  ghost predicate HoldsValues(chain: seq<Link>, mem: set<object>)
    reads mem
  {
    chain == [] || (HoldsValue(chain[0], mem) && HoldsValues(chain[1..], mem))
  }

  ghost predicate HoldsValue(l: Link, mem: set<object>)
    reads mem
  {
    l.data.Mem <= mem && l.data.Valid() && l.data.Value() == l.stored.value
  }

  lemma {:induction false} HoldsValueAt(chain: seq<Link>, mem: set<object>, l: Link)
    requires HoldsValues(chain, mem) && l in chain
    ensures HoldsValue(l, mem)
  {
    if l != chain[0] {
      HoldsValueAt(chain[1..], mem, l);
    }
  }

  lemma {:induction false} HoldsValuesIf(chain: seq<Link>, mem: set<object>)
    requires forall l :: l in chain ==> HoldsValue(l, mem)
    ensures HoldsValues(chain, mem)
  {
    if chain != [] {
      HoldsValuesIf(chain[1..], mem);
    }
  }

  /** What a slot stands for: its entries in link order, the map they make up, the data memory with
      the entry owning each piece, and everything reachable from the slot. */
  datatype Model = Model(chain: seq<Link>, entries: map<string, CacheSpec.Stored>,
                         owner: map<object, Entry>, repr: set<object>)

  ghost predicate Coherent(m: Model) {
    m.owner.Keys <= m.repr && Entries(m.chain) <= m.repr
    && UniqueKeys(m.chain) && Describes(m.chain, m.entries) && Owned(m.chain, m.owner)
  }

  /** One slot of the table. */
  class Slot {
    var head: Entry?
    ghost var m: Model

    ghost predicate Valid()
      reads this, m.repr
    {
      this in m.repr && this !in m.owner.Keys && Coherent(m)
      && Linked(head, m.chain) && HoldsValues(m.chain, m.owner.Keys)
    }

    constructor ()
      ensures Valid() && fresh(m.repr) && m.entries == map[]
    {
      head, m := null, Model([], map[], map[], {this});
    }

    /** The walk shared by get and put: the entry with the key, or the last entry passed. */
    method Find(key: string) returns (prev: Entry?, entry: Entry?, ghost j: nat)
      requires Linked(head, m.chain)
      ensures j <= |m.chain|
      ensures entry == null ==> j == |m.chain| && forall k :: 0 <= k < |m.chain| ==> m.chain[k].entry.key != key
      ensures entry != null ==> j < |m.chain| && entry == m.chain[j].entry && entry.key == key
      ensures prev == if j == 0 then null else m.chain[j - 1].entry
    {
      prev, entry, j := null, head, 0;
      while entry != null
        invariant j <= |m.chain|
        invariant Linked(entry, m.chain[j..])
        invariant prev == if j == 0 then null else m.chain[j - 1].entry
        invariant forall k :: 0 <= k < j ==> m.chain[k].entry.key != key
        decreases |m.chain| - j
      {
        if entry.key == key {
          return;
        }
        assert m.chain[j..][1..] == m.chain[j + 1..];
        prev := entry;
        entry := entry.next;
        j := j + 1;
      }
    }

    method Put(key: string, data: MetricData, expires: int)
      requires Valid()
      requires data.Valid() && data.Mem !! m.repr
      modifies m.repr
      ensures Valid() && forall o :: o in m.repr ==> o in old(m.repr) || o in data.Mem || fresh(o)
      ensures m.entries == old(m.entries)[key := CacheSpec.Stored(old(data.Value()), expires)]
    {
      var prev, entry, j := Find(key);
      if entry != null {
        Replace(j, entry, data, expires);
      } else {
        Append(prev, key, data, expires);
      }
    }

    method Replace(ghost j: nat, entry: Entry, data: MetricData, expires: int)
      requires Valid() && j < |m.chain| && entry == m.chain[j].entry
      requires data.Valid() && data.Mem !! m.repr
      modifies entry`data, entry`expires, this
      ensures Valid() && m.repr == old(m.repr) + data.Mem
      ensures m.entries == old(m.entries)[entry.key := CacheSpec.Stored(old(data.Value()), expires)]
    {
      ghost var link := Link(entry, data, CacheSpec.Stored(data.Value(), expires));
      ghost var m' := Replaced(m, j, link);
      Refill(head, m.chain, m.owner.Keys, m'.owner.Keys, j, entry, data, expires);
      Install(head, m', m'.owner.Keys);
    }

    /** Makes a finished chain the slot's chain; the chain and its data stay as they are. */
    method Install(first: Entry?, ghost m': Model, ghost mem: set<object>)
      requires this in m'.repr && this !in mem && mem == m'.owner.Keys && Coherent(m')
      requires Linked(first, m'.chain) && HoldsValues(m'.chain, mem)
      modifies this
      ensures Valid() && m == m'
    {
      head, m := first, m';
      assert Linked(first, m'.chain);
      assert HoldsValues(m'.chain, mem);
    }

    method Append(prev: Entry?, key: string, data: MetricData, expires: int)
      requires Valid()
      requires forall k :: 0 <= k < |m.chain| ==> m.chain[k].entry.key != key
      requires prev == if m.chain == [] then null else m.chain[|m.chain| - 1].entry
      requires data.Valid() && data.Mem !! m.repr
      modifies this, Entries(m.chain)`next
      ensures Valid() && forall o :: o in m.repr ==> o in old(m.repr) || o in data.Mem || fresh(o)
      ensures m.entries == old(m.entries)[key := CacheSpec.Stored(old(data.Value()), expires)]
    {
      var entry := new Entry(key, data, expires);
      ghost var link := Link(entry, data, CacheSpec.Stored(data.Value(), expires));
      ghost var m' := Appended(m, link);
      Attach(head, m.chain, m.owner.Keys, m'.owner.Keys, prev, entry, link);
      Install(if prev == null then entry else head, m', m'.owner.Keys);
    }

    /** A copy of the live data under the key. */
    method Get(key: string, now: int) returns (r: MetricData?)
      requires Valid()
      ensures r == null <==> !(key in m.entries && m.entries[key].expires > now && Clonable(m.entries[key].value))
      ensures r != null ==> r.Valid() && fresh(r.Mem) && r.Value() == Cloned(m.entries[key].value)
    {
      var _, entry, j := Find(key);
      if entry == null {
        assert key !in Keys(m.chain);
        return null;
      }
      assert m.chain[j] in m.chain;
      LinkedLink(head, m.chain, j);
      HoldsValueAt(m.chain, m.owner.Keys, m.chain[j]);
      if entry.expires <= now {
        return null;
      }
      r := entry.data.Clone();
    }

    /** Releases the entries of the chain, each exactly once. */
    method Free() returns (ghost freed: seq<Entry>)
      requires Valid()
      modifies this
      ensures Valid() && m.repr == {this} && m.entries == map[]
      ensures ReleasedOnce(freed) && ReleasedKeys(freed) == old(m.entries).Keys
    {
      freed := Release(head, m.chain);
      head, m := null, Model([], map[], map[], {this});
      assert Linked(head, m.chain) && HoldsValues(m.chain, {});
    }
  }

  /** The walk that frees: the next pointer is read before the entry goes. */
  method Release(head: Entry?, ghost chain: seq<Link>) returns (ghost freed: seq<Entry>)
    requires Linked(head, chain) && UniqueKeys(chain)
    ensures ReleasedOnce(freed) && ReleasedKeys(freed) == Keys(chain)
  {
    var entry := head;
    freed := [];
    while entry != null
      invariant |freed| <= |chain| && Linked(entry, chain[|freed|..])
      invariant forall j :: 0 <= j < |freed| ==> freed[j] == chain[j].entry
      decreases |chain| - |freed|
    {
      assert chain[|freed|..][1..] == chain[|freed| + 1..];
      var next := entry.next;
      freed := freed + [entry];
      entry := next;
    }
    SameKeys(freed, chain);
  }

  /** Two entries never share data memory, so releasing one's data leaves the other's alone. */
  lemma NoSharing(s: Slot, j: nat, k: nat)
    requires s.Valid() && j < k < |s.m.chain|
    ensures s.m.chain[j].data.Mem !! s.m.chain[k].data.Mem
  {
    assert OwnedLink(s.m.chain[j], s.m.owner) && OwnedLink(s.m.chain[k], s.m.owner);
    assert s.m.chain[j].entry.key != s.m.chain[k].entry.key;
  }

  ghost predicate ReleasedOnce(freed: seq<Entry>) {
    forall j, k :: 0 <= j < k < |freed| ==> freed[j].key != freed[k].key
  }

  ghost function ReleasedKeys(freed: seq<Entry>): set<string> { set e | e in freed :: e.key }

  lemma SameKeys(freed: seq<Entry>, chain: seq<Link>)
    requires |freed| == |chain| && forall j :: 0 <= j < |freed| ==> freed[j] == chain[j].entry
    ensures ReleasedKeys(freed) == Keys(chain)
  {
    forall j | 0 <= j < |chain|
      ensures chain[j].entry.key in ReleasedKeys(freed) && freed[j].key in Keys(chain)
    {
      assert freed[j] in freed && chain[j] in chain;
    }
  }

  /** The table of slots. */
  class Table {
    const slots: seq<Slot>
    var ttl: int
    var initialized: bool
    ghost var entries: map<string, CacheSpec.Stored>     // the map the table stands for
    ghost var Repr: set<object>                          // everything reachable except this object

    ghost predicate Valid()
      reads this, Repr
    {
      |slots| == SLOTS && this !in Repr && Slots(slots, 0, NONE, Repr, entries)
    }

    ghost function View(): CacheSpec.State
      reads this
    {
      CacheSpec.State(entries, ttl, initialized)
    }

    constructor ()
      ensures Valid() && fresh(Repr) && View() == CacheSpec.START
    {
      ttl, initialized := CacheSpec.DEFAULT_TTL, false;
      entries := map[];
      ghost var repr;
      var slots';
      slots', repr := NewSlots();
      slots, Repr := slots', repr;
    }

    method Init(ttl_seconds: int)
      requires Valid()
      modifies this`ttl, this`initialized
      ensures Valid() && View() == CacheSpec.Init(old(View()), ttl_seconds)
    {
      ttl := if ttl_seconds > 0 then ttl_seconds else CacheSpec.DEFAULT_TTL;
      initialized := true;
    }

    /** A hit is a copy of the stored data in memory of its own. */
    method Get(path: Option<string>, period: int, now: int) returns (r: MetricData?)
      requires Valid()
      ensures r == null <==> CacheSpec.Get(View(), path, period, now).None?
      ensures r != null ==> r.Valid() && fresh(r.Mem)
      ensures r != null ==> CacheSpec.Get(View(), path, period, now) == Some(r.Value())
    {
      if !initialized || path.None? {
        return null;
      }
      var key := BuildKey(path.value, period);
      var slot := HashSlot(key);
      SlotAt(slots, 0, Repr, entries, slot);
      r := slots[slot].Get(key, now);
    }

    /** Takes ownership of `data`. */
    method Put(path: Option<string>, period: int, data: MetricData?, now: int)
      requires Valid()
      requires data != null ==> data.Valid() && data.Mem !! Repr && this !in data.Mem
      modifies this`entries, this`Repr, Repr
      ensures Valid()
      ensures View() == CacheSpec.Put(old(View()), path, period,
                                      if data == null then None else Some(old(data.Value())), now)
    {
      if !initialized || data == null || path.None? {
        return;
      }
      var key := BuildKey(path.value, period);
      var slot := HashSlot(key);
      Store(slot, key, data, data.Value(), now);
    }

    method Store(slot: nat, key: string, data: MetricData, ghost value: MetricValue, now: int)
      requires Valid() && slot == SlotOf(key)
      requires data.Valid() && data.Mem !! Repr && this !in data.Mem && value == data.Value()
      modifies this`entries, this`Repr, Repr
      ensures Valid() && View() == CacheSpec.Store(old(View()), key, value, now)
    {
      ghost var entries' := entries[key := CacheSpec.Stored(value, now + ttl)];
      ghost var repr' := PutInTable(slots, slot, Repr, entries, entries', key, data, now + ttl);
      Install(entries', repr');
    }

    /** Releases every entry of every slot exactly once and leaves the table empty. */
    method Free() returns (ghost freed: seq<Entry>)
      requires Valid()
      modifies this, Repr
      ensures Valid() && View() == CacheSpec.Free(old(View()))
      ensures ReleasedOnce(freed) && ReleasedKeys(freed) == old(entries).Keys
    {
      freed := [];
      ghost var repr := Repr;
      assert From(entries, 0) == entries;
      for i := 0 to SLOTS
        invariant Slots(slots, 0, NONE, repr, From(entries, i)) && repr <= Repr
        invariant entries == old(entries) && Repr == old(Repr) && ttl == old(ttl)
        invariant ReleasedOnce(freed) && ReleasedKeys(freed) == entries.Keys - From(entries, i).Keys
      {
        ghost var more;
        more, repr := FreeInTable(slots, i, repr, entries);
        ReleaseMore(freed, more, entries, i);
        freed := freed + more;
      }
      assert From(entries, SLOTS) == map[];
      Install(map[], repr);
      initialized := false;
    }

    ghost method Install(entries': map<string, CacheSpec.Stored>, repr': set<object>)
      requires |slots| == SLOTS && this !in repr' && Slots(slots, 0, NONE, repr', entries')
      modifies this`entries, this`Repr
      ensures Valid() && entries == entries' && Repr == repr'
    {
      entries, Repr := entries', repr';
      assert Slots(slots, 0, NONE, repr', entries');
    }
  }

  /** Putting in one slot; the others are apart from it and stay as they were. */
  method PutInSlot(slots: seq<Slot>, i: nat, ghost repr: set<object>, ghost others: set<object>,
                   ghost e: map<string, CacheSpec.Stored>, ghost e': map<string, CacheSpec.Stored>,
                   key: string, data: MetricData, expires: int)
    requires i < |slots| && i == SlotOf(key) && Slots(slots, 0, NONE, repr, e)
    requires others == repr - slots[i].m.repr
    requires data.Valid() && data.Mem !! repr && e' == e[key := CacheSpec.Stored(data.Value(), expires)]
    modifies repr
    ensures slots[i].Valid() && slots[i].m.repr !! others && Slots(slots, 0, i, others, e)
    ensures Homed(slots[i].m.entries, i, e') && AgreeOutside(e, e', i)
    ensures forall o :: o in others + slots[i].m.repr ==> o in repr || o in data.Mem || fresh(o)
  {
    TakeOut(slots, 0, repr, e, i);
    Rehome(slots[i].m.entries, e, key, e'[key]);
    slots[i].Put(key, data, expires);
  }

  method PutInTable(slots: seq<Slot>, i: nat, ghost repr: set<object>,
                    ghost e: map<string, CacheSpec.Stored>, ghost e': map<string, CacheSpec.Stored>,
                    key: string, data: MetricData, expires: int)
    returns (ghost repr': set<object>)
    requires |slots| == SLOTS && i == SlotOf(key) && Slots(slots, 0, NONE, repr, e)
    requires data.Valid() && data.Mem !! repr && e' == e[key := CacheSpec.Stored(data.Value(), expires)]
    modifies repr
    ensures Slots(slots, 0, NONE, repr', e')
    ensures forall o :: o in repr' ==> o in repr || o in data.Mem || fresh(o)
  {
    ghost var others := repr - slots[i].m.repr;
    PutInSlot(slots, i, repr, others, e, e', key, data, expires);
    repr' := others + slots[i].m.repr;
    PutBack(slots, 0, others, repr', e, e', i);
  }

  /** The part of the map in slots `i` and up. */
  ghost function From(e: map<string, CacheSpec.Stored>, i: nat): map<string, CacheSpec.Stored> {
    map key | key in e && SlotOf(key) >= i :: e[key]
  }

  lemma ReleaseMore(freed: seq<Entry>, more: seq<Entry>, e: map<string, CacheSpec.Stored>, i: nat)
    requires ReleasedOnce(freed) && ReleasedKeys(freed) == e.Keys - From(e, i).Keys
    requires ReleasedOnce(more) && ReleasedKeys(more) == From(e, i).Keys - From(e, i + 1).Keys
    ensures ReleasedOnce(freed + more) && ReleasedKeys(freed + more) == e.Keys - From(e, i + 1).Keys
  {
    forall j, k | 0 <= j < |freed| && 0 <= k < |more|
      ensures freed[j].key != more[k].key
    {
      assert freed[j] in freed && more[k] in more;
      assert freed[j].key in ReleasedKeys(freed) && more[k].key in ReleasedKeys(more);
    }
    assert ReleasedKeys(freed + more) == ReleasedKeys(freed) + ReleasedKeys(more);
  }

  method FreeSlot(slots: seq<Slot>, i: nat, ghost repr: set<object>, ghost others: set<object>,
                  ghost e: map<string, CacheSpec.Stored>)
    returns (ghost freed: seq<Entry>)
    requires |slots| == SLOTS && i < SLOTS && Slots(slots, 0, NONE, repr, From(e, i))
    requires others == repr - slots[i].m.repr
    modifies repr
    ensures slots[i].Valid() && slots[i].m.repr !! others && Slots(slots, 0, i, others, From(e, i))
    ensures Homed(slots[i].m.entries, i, From(e, i + 1)) && AgreeOutside(From(e, i), From(e, i + 1), i)
    ensures others + slots[i].m.repr <= repr
    ensures ReleasedOnce(freed) && ReleasedKeys(freed) == From(e, i).Keys - From(e, i + 1).Keys
  {
    TakeOut(slots, 0, repr, From(e, i), i);
    OwnKeys(slots[i].m.entries, e, i);
    freed := slots[i].Free();
  }

  lemma OwnKeys(own: map<string, CacheSpec.Stored>, e: map<string, CacheSpec.Stored>, i: nat)
    requires Homed(own, i, From(e, i))
    ensures own.Keys == From(e, i).Keys - From(e, i + 1).Keys
    ensures Homed(map[], i, From(e, i + 1)) && AgreeOutside(From(e, i), From(e, i + 1), i)
  {
  }

  method FreeInTable(slots: seq<Slot>, i: nat, ghost repr: set<object>, ghost e: map<string, CacheSpec.Stored>)
    returns (ghost freed: seq<Entry>, ghost repr': set<object>)
    requires |slots| == SLOTS && i < SLOTS && Slots(slots, 0, NONE, repr, From(e, i))
    modifies repr
    ensures Slots(slots, 0, NONE, repr', From(e, i + 1)) && repr' <= repr
    ensures ReleasedOnce(freed) && ReleasedKeys(freed) == From(e, i).Keys - From(e, i + 1).Keys
  {
    ghost var others := repr - slots[i].m.repr;
    freed := FreeSlot(slots, i, repr, others, e);
    repr' := others + slots[i].m.repr;
    PutBack(slots, 0, others, repr', From(e, i), From(e, i + 1), i);
  }

  lemma Rehome(own: map<string, CacheSpec.Stored>, e: map<string, CacheSpec.Stored>,
               key: string, stored: CacheSpec.Stored)
    requires Homed(own, SlotOf(key), e)
    ensures Homed(own[key := stored], SlotOf(key), e[key := stored])
    ensures AgreeOutside(e, e[key := stored], SlotOf(key))
  {
  }

  /** `own` is the part of `entries` whose keys hash to slot `i`. */
  ghost predicate Homed(own: map<string, CacheSpec.Stored>, i: nat, entries: map<string, CacheSpec.Stored>) {
    forall key :: (key in own <==> key in entries && SlotOf(key) == i) && (key in own ==> own[key] == entries[key])
  }

  const NONE := -1

  /** Slots `base`, `base + 1`, ..., leaving out number `skip`: each valid, holding its part of the
      map, in memory of its own. */
  ghost predicate Slots(slots: seq<Slot>, base: nat, skip: int, repr: set<object>,
                        entries: map<string, CacheSpec.Stored>)
    reads repr
  {
    Sound(slots, base, skip, repr, entries) == |slots|
  }

  /** How many leading slots are as they should be. */
  ghost function Sound(slots: seq<Slot>, base: nat, skip: int, repr: set<object>,
                       entries: map<string, CacheSpec.Stored>): (n: nat)
    reads repr
    ensures n <= |slots|
  {
    if slots == [] then 0
    else if base == skip then 1 + Sound(slots[1..], base + 1, skip, repr, entries)
    else if slots[0] in repr && slots[0].m.repr <= repr && slots[0].Valid() && Homed(slots[0].m.entries, base, entries)
    then 1 + Sound(slots[1..], base + 1, skip, repr - slots[0].m.repr, entries)
    else 0
  }

  lemma {:induction false} SlotAt(slots: seq<Slot>, base: nat, repr: set<object>,
                                  entries: map<string, CacheSpec.Stored>, i: nat)
    requires Slots(slots, base, NONE, repr, entries) && i < |slots|
    ensures slots[i] in repr && slots[i].m.repr <= repr && slots[i].Valid()
    ensures Homed(slots[i].m.entries, base + i, entries)
  {
    if i > 0 {
      SlotAt(slots[1..], base + 1, repr - slots[0].m.repr, entries, i - 1);
    }
  }

  ghost predicate AgreeOutside(e: map<string, CacheSpec.Stored>, e': map<string, CacheSpec.Stored>, i: int) {
    forall key :: SlotOf(key) != i ==> (key in e <==> key in e') && (key in e ==> e[key] == e'[key])
  }

  lemma {:induction false} SlotsAfter(slots: seq<Slot>, base: nat, skip: int, skip': int,
                                      repr: set<object>, repr': set<object>,
                                      e: map<string, CacheSpec.Stored>, e': map<string, CacheSpec.Stored>, i: nat)
    requires Slots(slots, base, skip, repr, e) && repr <= repr' && AgreeOutside(e, e', i)
    requires i < base && skip < base && skip' < base
    ensures Slots(slots, base, skip', repr', e')
  {
    if slots != [] {
      SlotsAfter(slots[1..], base + 1, skip, skip', repr - slots[0].m.repr, repr' - slots[0].m.repr, e, e', i);
    }
  }

  /** The slots other than `i` live in the rest of the memory... */
  lemma {:induction false} TakeOut(slots: seq<Slot>, base: nat, repr: set<object>,
                                   e: map<string, CacheSpec.Stored>, i: nat)
    requires Slots(slots, base, NONE, repr, e) && i < |slots|
    ensures slots[i] in repr && slots[i].m.repr <= repr && slots[i].Valid()
    ensures Homed(slots[i].m.entries, base + i, e)
    ensures Slots(slots, base, base + i, repr - slots[i].m.repr, e)
  {
    var r0 := repr - slots[0].m.repr;
    if i == 0 {
      SlotsAfter(slots[1..], base + 1, NONE, base, r0, r0, e, e, base);
    } else {
      TakeOut(slots[1..], base + 1, r0, e, i - 1);
      assert repr - slots[i].m.repr - slots[0].m.repr == r0 - slots[i].m.repr;
    }
  }

  /** ... so whatever valid state slot `i` gets, the table is whole again. */
  lemma {:induction false} PutBack(slots: seq<Slot>, base: nat, others: set<object>, repr': set<object>,
                                   e: map<string, CacheSpec.Stored>, e': map<string, CacheSpec.Stored>, i: nat)
    requires i < |slots| && Slots(slots, base, base + i, others, e) && AgreeOutside(e, e', base + i)
    requires slots[i].m.repr !! others && repr' == others + slots[i].m.repr
    requires slots[i].Valid() && Homed(slots[i].m.entries, base + i, e')
    ensures Slots(slots, base, NONE, repr', e')
  {
    if i == 0 {
      assert others <= repr' - slots[0].m.repr;
      SlotsAfter(slots[1..], base + 1, base, NONE, others, repr' - slots[0].m.repr, e, e', base);
    } else {
      var rest, others0, repr0 := slots[1..], others - slots[0].m.repr, repr' - slots[0].m.repr;
      PutBack(rest, base + 1, others0, repr0, e, e', i - 1);
      KeepFirst(slots, base, base + i, others, repr', e, e');
    }
  }

  /** The first slot keeps its place while the others change theirs. */
  lemma KeepFirst(slots: seq<Slot>, base: nat, skip: int, others: set<object>, repr': set<object>,
                  e: map<string, CacheSpec.Stored>, e': map<string, CacheSpec.Stored>)
    requires slots != [] && base != skip && Slots(slots, base, skip, others, e) && others <= repr'
    requires AgreeOutside(e, e', skip) && Slots(slots[1..], base + 1, NONE, repr' - slots[0].m.repr, e')
    ensures Slots(slots, base, NONE, repr', e')
  {
    assert Homed(slots[0].m.entries, base, e');
  }

  method NewSlots() returns (slots: seq<Slot>, ghost repr: set<object>)
    ensures |slots| == SLOTS && fresh(repr) && Slots(slots, 0, NONE, repr, map[])
  {
    slots, repr := [], {};
    while |slots| < SLOTS
      invariant |slots| <= SLOTS && fresh(repr)
      invariant Slots(slots, SLOTS - |slots|, NONE, repr, map[])
    {
      var s := new Slot();
      ghost var rest := slots;
      slots := [s] + slots;
      assert slots[1..] == rest;
      assert repr + s.m.repr - s.m.repr == repr;
      repr := repr + s.m.repr;
    }
  }

  ghost function Replaced(m: Model, j: nat, link: Link): (r: Model)
    requires Coherent(m) && j < |m.chain| && link.entry == m.chain[j].entry
    requires link.data.Valid() && link.data.Mem !! m.repr
    ensures Coherent(r) && r.chain == m.chain[j := link] && r.owner.Keys == m.owner.Keys + link.data.Mem
    ensures r.entries == m.entries[link.entry.key := link.stored] && r.repr == m.repr + link.data.Mem
  {
    assert m.chain[j] in m.chain;
    ReplaceDescribes(m.chain, m.entries, j, link);
    ReplaceOwned(m.chain, m.owner, j, link);
    Model(m.chain[j := link], m.entries[link.entry.key := link.stored], Owning(m.owner, link), m.repr + link.data.Mem)
  }

  ghost function Appended(m: Model, link: Link): (r: Model)
    requires Coherent(m) && forall k :: 0 <= k < |m.chain| ==> m.chain[k].entry.key != link.entry.key
    requires link.data.Valid() && link.data.Mem !! m.repr && link.entry !in m.repr && link.entry !in link.data.Mem
    ensures Coherent(r) && r.chain == m.chain + [link] && r.owner.Keys == m.owner.Keys + link.data.Mem
    ensures r.entries == m.entries[link.entry.key := link.stored] && r.repr == m.repr + {link.entry} + link.data.Mem
  {
    AppendDescribes(m.chain, m.entries, link);
    AppendOwned(m.chain, m.owner, link);
    Model(m.chain + [link], m.entries[link.entry.key := link.stored], Owning(m.owner, link),
          m.repr + {link.entry} + link.data.Mem)
  }

  /** Overwriting an entry's data and expiry in place. */
  method Refill(ghost head: Entry?, ghost chain: seq<Link>, ghost mem: set<object>, ghost mem': set<object>,
                ghost j: nat, entry: Entry, data: MetricData, expires: int)
    requires Linked(head, chain) && HoldsValues(chain, mem) && UniqueKeys(chain)
    requires j < |chain| && entry == chain[j].entry
    requires data.Valid() && entry !in mem && entry !in data.Mem && mem' == mem + data.Mem
    modifies entry`data, entry`expires
    ensures var chain' := chain[j := Link(entry, data, CacheSpec.Stored(old(data.Value()), expires))];
            Linked(head, chain') && HoldsValues(chain', mem')
  {
    ghost var chain' := chain[j := Link(entry, data, CacheSpec.Stored(data.Value(), expires))];
    forall k | 0 <= k < |chain|
      ensures LinkedAt(chain[k], Start(chain, k + 1)) && head == Start(chain, 0)
    {
      LinkedLink(head, chain, k);
    }
    entry.data := data;
    entry.expires := expires;
    ExtendHolds(chain, mem, chain', chain'[j]);
    forall k | 0 <= k < |chain'|
      ensures LinkedAt(chain'[k], Start(chain', k + 1))
    {
      assert old(LinkedAt(chain[k], Start(chain, k + 1)));
      assert k != j ==> chain[k].entry.key != entry.key;
      assert Start(chain', k + 1) == Start(chain, k + 1);
    }
    LinkedIf(chain');
  }

  /** Linking a new entry after the last one; with no last one it becomes the head. */
  method Attach(ghost head: Entry?, ghost chain: seq<Link>, ghost mem: set<object>, ghost mem': set<object>,
                prev: Entry?, entry: Entry, ghost link: Link)
    requires Linked(head, chain) && HoldsValues(chain, mem) && UniqueKeys(chain)
    requires prev == if chain == [] then null else chain[|chain| - 1].entry
    requires Entries(chain) !! mem && Entries(chain) !! link.data.Mem
    requires link.entry == entry && entry !in Entries(chain) && LinkedAt(link, null)
    requires link.data.Valid() && link.data.Value() == link.stored.value && mem' == mem + link.data.Mem
    modifies Entries(chain)`next
    ensures Linked(if prev == null then entry else head, chain + [link])
    ensures HoldsValues(chain + [link], mem')
  {
    ghost var chain' := chain + [link];
    forall k | 0 <= k <= |chain|
      ensures k < |chain| ==> LinkedAt(chain[k], Start(chain, k + 1))
      ensures head == Start(chain, 0)
    {
      LinkedLink(head, chain, k);
    }
    if prev != null {
      assert chain[|chain| - 1] in chain;
      prev.next := entry;
      assert HoldsValues(chain, mem);
    }
    ExtendHolds(chain, mem, chain', link);
    forall k | 0 <= k < |chain'|
      ensures LinkedAt(chain'[k], Start(chain', k + 1))
    {
      if k < |chain| {
        assert old(LinkedAt(chain[k], Start(chain, k + 1)));
        assert k < |chain| - 1 ==> chain[k].entry.key != prev.key;
      } else {
        assert old(LinkedAt(link, null));
        assert link.entry != prev;
      }
    }
    LinkedIf(chain');
  }

  ghost function Owning(owner: map<object, Entry>, link: Link): (r: map<object, Entry>)
    ensures r.Keys == owner.Keys + link.data.Mem
    ensures forall o :: o in link.data.Mem ==> r[o] == link.entry
    ensures forall o :: o in owner && o !in link.data.Mem ==> r[o] == owner[o]
  {
    owner + map o | o in link.data.Mem :: link.entry
  }

  lemma ExtendHolds(chain: seq<Link>, mem: set<object>, chain': seq<Link>, link: Link)
    requires HoldsValues(chain, mem)
    requires link.data.Valid() && link.data.Value() == link.stored.value
    requires forall l :: l in chain' ==> l in chain || l == link
    ensures HoldsValues(chain', mem + link.data.Mem)
  {
    forall l | l in chain'
      ensures HoldsValue(l, mem + link.data.Mem)
    {
      if l in chain {
        HoldsValueAt(chain, mem, l);
      }
    }
    HoldsValuesIf(chain', mem + link.data.Mem);
  }

  lemma ReplaceDescribes(chain: seq<Link>, entries: map<string, CacheSpec.Stored>, j: nat, link: Link)
    requires UniqueKeys(chain) && Describes(chain, entries) && j < |chain| && link.entry == chain[j].entry
    ensures UniqueKeys(chain[j := link])
    ensures Describes(chain[j := link], entries[link.entry.key := link.stored])
    ensures forall l :: l in chain[j := link] ==> l in chain || l == link
  {
    var chain' := chain[j := link];
    assert chain[j] in chain && chain'[j] in chain';
    assert forall l :: l in chain' && l != link ==> l.entry.key != link.entry.key;
    forall key | key in Keys(chain)
      ensures key in Keys(chain')
    {
      var i :| 0 <= i < |chain| && chain[i].entry.key == key;
      assert chain'[i] in chain';
    }
    assert Keys(chain') == Keys(chain);
  }

  lemma ReplaceOwned(chain: seq<Link>, owner: map<object, Entry>, j: nat, link: Link)
    requires Owned(chain, owner) && j < |chain| && link.entry == chain[j].entry
    requires link.data.Valid() && link.data.Mem !! owner.Keys && link.data.Mem !! Entries(chain)
    ensures Owned(chain[j := link], Owning(owner, link))
  {
    var owner' := Owning(owner, link);
    assert OwnedLink(link, owner');
    forall k | 0 <= k < |chain| && k != j
      ensures chain[k].entry !in owner' && OwnedLink(chain[k], owner')
    {
      assert chain[k].entry in Entries(chain);
      assert OwnedLink(chain[k], owner);
    }
    assert link.entry in Entries(chain) by { assert chain[j] in chain; }
  }

  lemma AppendDescribes(chain: seq<Link>, entries: map<string, CacheSpec.Stored>, link: Link)
    requires UniqueKeys(chain) && Describes(chain, entries)
    requires forall k :: 0 <= k < |chain| ==> chain[k].entry.key != link.entry.key
    ensures UniqueKeys(chain + [link])
    ensures Describes(chain + [link], entries[link.entry.key := link.stored])
    ensures forall l :: l in chain + [link] ==> l in chain || l == link
  {
    assert link in chain + [link];
    assert forall l :: l in chain ==> l in chain + [link];
    assert Keys(chain + [link]) == Keys(chain) + {link.entry.key};
  }

  lemma AppendOwned(chain: seq<Link>, owner: map<object, Entry>, link: Link)
    requires Owned(chain, owner) && link.entry !in owner && link.entry !in link.data.Mem
    requires link.data.Valid() && link.data.Mem !! owner.Keys && link.data.Mem !! Entries(chain)
    ensures Owned(chain + [link], Owning(owner, link))
  {
    var owner' := Owning(owner, link);
    forall k | 0 <= k < |chain|
      ensures chain[k].entry !in owner' && OwnedLink(chain[k], owner')
    {
      assert chain[k].entry in Entries(chain);
      assert OwnedLink(chain[k], owner);
    }
  }
}
