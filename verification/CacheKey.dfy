/** Cache keys and their slots (src/rrd/cache.c). */
module CacheKey {
  import opened CStrings

  const SLOTS: nat := 64
  const KEY_SIZE: nat := 512

  /** A plain `char` read into an `int`: sign-extended, as on x86. */
  function SignedByte(c: char): int {
    if c as int < 128 then c as int else c as int - 256
  }

  /** The DJB2 polynomial over the unbounded integers. */
  function Poly(key: string): int {
    if key == "" then 5381
    else Poly(key[..|key| - 1]) * 33 + SignedByte(key[|key| - 1])
  }

  function SlotOf(key: string): (slot: nat)
    ensures slot < SLOTS
  {
    Poly(key) % 64
  }

  /** The hash loop on 32-bit unsigned arithmetic. Wrapping at 2^32 never moves a key to another
      slot: the result is the unbounded polynomial reduced modulo the number of slots. */
  method HashSlot(key: string) returns (slot: nat)
    ensures slot == SlotOf(key)
  {
    var hash: nat := 5381;
    var i := 0;
    while i < |key|
      invariant i <= |key|
      invariant hash < 0x1_0000_0000
      invariant hash % 64 == Poly(key[..i]) % 64
    {
      var c := SignedByte(key[i]);
      ghost var was := hash;
      hash := ((hash * 32) % 0x1_0000_0000 + hash + c) % 0x1_0000_0000;
      assert key[..i + 1][..i] == key[..i];
      WrapKeepsSlot(was, c, Poly(key[..i]));
      i := i + 1;
    }
    assert key[..|key|] == key;
    slot := hash % 64;
  }

  lemma WrapKeepsSlot(hash: nat, c: int, p: int)
    requires hash % 64 == p % 64
    ensures (((hash * 32) % 0x1_0000_0000 + hash + c) % 0x1_0000_0000) % 64 == (p * 33 + c) % 64
  {
    var q := (hash - p) / 64;
    assert hash == p + 64 * q;
    var shifted := (hash * 32) % 0x1_0000_0000;
    var a := (hash * 32) / 0x1_0000_0000;
    assert shifted == hash * 32 - 0x1_0000_0000 * a;
    var b := (shifted + hash + c) / 0x1_0000_0000;
    var w := (shifted + hash + c) % 0x1_0000_0000;
    assert w == p * 33 + c + 64 * (q * 33 - 0x400_0000 * a - 0x400_0000 * b);
  }

  /** The text `snprintf` is asked to write. */
  function FullKey(path: string, period: int): string {
    path + ":" + IntText(period)
  }

  /** What fits the key buffer of the entry. */
  function BuildKey(path: string, period: int): (key: string)
    ensures |key| < KEY_SIZE
  {
    Cut(FullKey(path, period), KEY_SIZE - 1)
  }

  predicate KeyFits(path: string, period: int) {
    |FullKey(path, period)| < KEY_SIZE
  }

  lemma LastColonNotLater(p1: string, t1: string, p2: string, t2: string)
    requires p1 + ":" + t1 == p2 + ":" + t2
    requires ':' !in t1
    ensures |p2| <= |p1|
  {
    var key := p1 + ":" + t1;
    assert key[|p2|] == ':';
    assert forall i :: |p1| < i < |key| ==> key[i] == t1[i - |p1| - 1];
  }

  lemma FullKeyInjective(p1: string, n1: int, p2: string, n2: int)
    requires FullKey(p1, n1) == FullKey(p2, n2)
    ensures p1 == p2 && n1 == n2
  {
    var t1, t2 := IntText(n1), IntText(n2);
    LastColonNotLater(p1, t1, p2, t2);
    LastColonNotLater(p2, t2, p1, t1);
    var key := FullKey(p1, n1);
    assert p1 == key[..|p1|] && p2 == key[..|p2|];
    assert t1 == key[|p1| + 1..] && t2 == key[|p2| + 1..];
    IntTextInjective(n1, n2);
  }

  /** Two requests whose keys fit the buffer share an entry only if they are the same request. */
  lemma KeyInjective(p1: string, n1: int, p2: string, n2: int)
    requires KeyFits(p1, n1) && KeyFits(p2, n2)
    ensures BuildKey(p1, n1) == BuildKey(p2, n2) <==> p1 == p2 && n1 == n2
  {
    if BuildKey(p1, n1) == BuildKey(p2, n2) {
      FullKeyInjective(p1, n1, p2, n2);
    }
  }

  predicate IsInt32(n: int) { -0x8000_0000 <= n < 0x8000_0000 }

  /** Every `int` period of a path gets an entry of its own exactly when the path is short enough
      for the longest `%d` text; one byte more and two periods share an entry. */
  lemma PeriodsKeptApart(path: string)
    ensures (forall n1, n2 :: IsInt32(n1) && IsInt32(n2) && BuildKey(path, n1) == BuildKey(path, n2) ==> n1 == n2)
       <==> |path| <= 499
  {
    if |path| <= 499 {
      forall n1, n2 | IsInt32(n1) && IsInt32(n2) && BuildKey(path, n1) == BuildKey(path, n2)
        ensures n1 == n2
      {
        IntTextLength(n1);
        IntTextLength(n2);
        KeyInjective(path, n1, path, n2);
      }
    } else {
      TwoPeriodsCollide(path);
    }
  }

  lemma TwoPeriodsCollide(path: string)
    requires |path| > 499
    ensures BuildKey(path, -2147483648) == BuildKey(path, -2147483647)
    ensures IsInt32(-2147483648) && IsInt32(-2147483647)
  {
    var d := Decimal(214748364);
    assert |d| == 9;
    assert Decimal(2147483648) == d + "8" && Decimal(2147483647) == d + "7";
    var common := path + ":" + ("-" + d);
    assert FullKey(path, -2147483648) == common + "8";
    assert FullKey(path, -2147483647) == common + "7";
    assert (common + "8")[..KEY_SIZE - 1] == common[..KEY_SIZE - 1] == (common + "7")[..KEY_SIZE - 1];
  }

  lemma IntTextLength(n: int)
    requires IsInt32(n)
    ensures |IntText(n)| <= 11
  {
    assert Pow10(10) == 10_000_000_000;
    DecimalLength(if n < 0 then -n else n, 10);
  }
}
