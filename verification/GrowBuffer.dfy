/** The growable text buffer of src/handler.c (`buf_append`). */
module GrowBuffer {

  class Buffer {
    var data: array<char>
    var off: nat

    ghost predicate Valid()
      reads this
    {
      off < data.Length
    }

    ghost function Contents(): string
      requires Valid()
      reads this, data
    {
      data[..off]
    }

    constructor (cap: nat)
      requires cap > 0
      ensures Valid() && fresh(data) && Contents() == "" && data.Length == cap
    {
      data, off := new char[cap], 0;
    }

    /** `vsnprintf(buf + off, cap - off, ...)`: what fits, and how long the whole text is. */
    method Vsnprintf(text: string) returns (n: nat)
      requires Valid()
      modifies data
      ensures n == |text| && data[..off] == old(data[..off])
      ensures n < data.Length - off ==> data[off..off + n] == text && data[off + n] == '\0'
    {
      n := |text|;
      var room := data.Length - off - 1;
      var k := if n <= room then n else room;
      forall i | 0 <= i < k { data[off + i] := text[i]; }
      data[off + k] := '\0';
    }

    /** `realloc` to a capacity doubled until the text fits. */
    method Grow(n: nat)
      requires Valid()
      modifies this`data
      ensures Valid() && fresh(data) && n < data.Length - off && data.Length >= 2 * old(data.Length)
      ensures data[..off] == old(data[..off])
    {
      var newcap := data.Length * 2;
      while off + n + 1 > newcap
        invariant newcap >= data.Length * 2
        decreases off + n + 1 - newcap
      {
        newcap := newcap * 2;
      }
      var nb := new char[newcap];
      forall i | 0 <= i < data.Length { nb[i] := data[i]; }
      data := nb;
    }

    /** `buf_append`: exactly the text is appended, whatever its length, and the retry loop ends with
        its second pass at the latest, making one only when the text did not fit. */
    method Append(text: string) returns (ghost passes: nat)
      requires Valid()
      modifies this, data
      ensures Valid() && (data == old(data) || fresh(data))
      ensures Contents() == old(Contents()) + text && data[off] == '\0'
      ensures passes == if old(off + |text| < data.Length) then 1 else 2
    {
      passes := 0;
      while true
        invariant Valid() && (data == old(data) || fresh(data)) && off == old(off)
        invariant data[..off] == old(data[..off])
        invariant passes <= 1 && (passes == 0 ==> data == old(data))
        invariant passes == 1 ==> |text| < data.Length - off && old(off + |text| >= data.Length)
        decreases 1 - passes
      {
        var n := Vsnprintf(text);
        passes := passes + 1;
        if n < data.Length - off {
          assert data[..off + n] == data[..off] + data[off..off + n];
          off := off + n;
          return;
        }
        Grow(n);
      }
    }

    /** `if (off > 0 && out[off - 1] == ',') off--;` */
    method TrimComma()
      requires Valid()
      modifies this`off
      ensures Valid()
      ensures var was := old(Contents());
              Contents() == if was != "" && was[|was| - 1] == ',' then was[..|was| - 1] else was
    {
      if off > 0 && data[off - 1] == ',' {
        off := off - 1;
      }
    }
  }
}
