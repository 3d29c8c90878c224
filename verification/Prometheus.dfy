/** Prometheus text exposition (src/prometheus_source.c): the line parser, the line walk and the
    count-then-fill building of the series. `strtod` is a parameter. */
module Prometheus {
  import opened CStrings
  import opened MetricValues

  const NAME_SIZE := 128
  const LABELS_SIZE := 256
  const VALUE_SIZE := 64
  const STAMP_SIZE := 32
  const LINE_SIZE := 1024
  const MAX_SERIES := 1024

  // ----- one line -----

  datatype Parsed = Skip | Bad | Sample(name: string, labels: string, value: string, ts: Option<int>)

  predicate Blank(c: char) { c == ' ' || c == '\t' }

  predicate LineEnd(c: char) { c == '\n' || c == '\r' }

  predicate TokenEnd(c: char) { Blank(c) || LineEnd(c) }

  predicate NameEnd(c: char) { c == '{' || TokenEnd(c) }

  /** The bytes before the first one that `stop` names. */
  function Upto(s: string, stop: char -> bool): (r: string)
    ensures r <= s && (|r| < |s| ==> stop(s[|r|]))
    ensures forall c :: c in r ==> !stop(c)
  {
    if s == "" || stop(s[0]) then "" else [s[0]] + Upto(s[1..], stop)
  }

  function SkipBlanks(s: string): (r: string)
    ensures |r| <= |s| && (r != "" ==> !Blank(r[0]))
  {
    if s != "" && Blank(s[0]) then SkipBlanks(s[1..]) else s
  }

  function ParseLine(line: string): Parsed {
    var p := SkipBlanks(line);
    if p == "" || LineEnd(p[0]) || p[0] == '#' then Skip
    else
      var name := Upto(p, NameEnd);
      if name == "" then Bad else ParseLabels(Cut(name, NAME_SIZE - 1), SkipBlanks(p[|name|..]))
  }

  /** From the end of the name on. */
  function ParseLabels(name: string, p: string): Parsed {
    if p != "" && p[0] == '{' then
      var labels := Until(p[1..], '}');
      if |labels| == |p| - 1 then Bad
      else ParseValue(name, Cut(labels, LABELS_SIZE - 1), SkipBlanks(p[2 + |labels|..]))
    else ParseValue(name, "", p)
  }

  function ParseValue(name: string, labels: string, p: string): Parsed {
    var value := Upto(p, TokenEnd);
    if value == "" then Bad
    else Sample(name, labels, Cut(value, VALUE_SIZE - 1), ParseStamp(SkipBlanks(p[|value|..])))
  }

  function ParseStamp(p: string): Option<int> {
    if p == "" || LineEnd(p[0]) then None else Some(Atoi(Cut(Upto(p, TokenEnd), STAMP_SIZE - 1)))
  }

  /** `if (n + 1 < size) buf[n++] = c` */
  function PutByte(buf: string, c: char, size: nat): string { if |buf| + 1 < size then buf + [c] else buf }

  lemma PutByteCuts(s: string, c: char, size: nat)
    requires size > 0
    ensures PutByte(Cut(s, size - 1), c, size) == Cut(s + [c], size - 1)
  {
  }

  /** The copying loop: bytes up to a stopping one, as many as the buffer holds beside its NUL. */
  method CopyToken(line: string, at: nat, size: nat, stop: char -> bool) returns (token: string, next: nat)
    requires at <= |line| && size > 0
    ensures var all := Upto(line[at..], stop); token == Cut(all, size - 1) && next == at + |all|
    ensures at <= next <= |line|
  {
    token, next := "", at;
    ghost var seen := "";
    while next < |line| && !stop(line[next])
      invariant at <= next <= |line| && token == Cut(seen, size - 1)
      invariant Passed(line, at, next, stop, seen)
    {
      PassOne(line, at, next, stop, seen);
      PutByteCuts(seen, line[next], size);
      token := PutByte(token, line[next], size);
      seen, next := seen + [line[next]], next + 1;
    }
    TokenEnds(line, at, next, stop, seen);
  }

  /** The cursor has passed `seen`, which the token at `at` starts with. */
  predicate Passed(line: string, at: nat, next: nat, stop: char -> bool, seen: string) {
    at <= next <= |line| && seen == line[at..next]
    && next + |Upto(line[next..], stop)| == at + |Upto(line[at..], stop)|
  }

  lemma PassOne(line: string, at: nat, next: nat, stop: char -> bool, seen: string)
    requires Passed(line, at, next, stop, seen) && next < |line| && !stop(line[next])
    ensures Passed(line, at, next + 1, stop, seen + [line[next]])
  {
    assert line[next..][1..] == line[next + 1..];
  }

  lemma TokenEnds(line: string, at: nat, next: nat, stop: char -> bool, seen: string)
    requires Passed(line, at, next, stop, seen) && (next < |line| ==> stop(line[next]))
    ensures Upto(line[at..], stop) == seen && next == at + |seen|
  {
    assert Upto(line[next..], stop) == "";
    assert Upto(line[at..], stop) == line[at..][..next - at] == line[at..next];
  }

  method SkipBlankBytes(line: string, at: nat) returns (next: nat)
    requires at <= |line|
    ensures at <= next <= |line| && line[next..] == SkipBlanks(line[at..])
  {
    next := at;
    while next < |line| && Blank(line[next])
      invariant at <= next <= |line| && SkipBlanks(line[next..]) == SkipBlanks(line[at..])
    {
      assert line[next..][1..] == line[next + 1..];
      next := next + 1;
    }
  }

  /** A token and the blanks behind it. */
  method TokenAndBlanks(line: string, at: nat, size: nat, stop: char -> bool) returns (token: string, next: nat)
    requires at <= |line| && size > 1
    ensures var all := Upto(line[at..], stop);
            token == Cut(all, size - 1) && (token == "" <==> all == "") && at <= next <= |line|
            && line[next..] == SkipBlanks(line[at..][|all|..])
  {
    var p1;
    token, p1 := CopyToken(line, at, size, stop);
    Tail(line, at, p1);
    next := SkipBlankBytes(line, p1);
  }

  /** `prom_parse_line` */
  method PromParseLine(line: string) returns (r: Parsed)
    ensures r == ParseLine(line)
  {
    var p := SkipBlankBytes(line, 0);
    assert line[0..] == line;
    if p == |line| || LineEnd(line[p]) || line[p] == '#' { return Skip; }
    var name, p2 := TokenAndBlanks(line, p, NAME_SIZE, NameEnd);
    if name == "" { return Bad; }
    r := LabelsOn(line, p2, name);
  }

  /** `strchr(p, '}')` as a distance. */
  method FindBrace(s: string) returns (len: Option<nat>)
    ensures len == if |Until(s, '}')| == |s| then None else Some(|Until(s, '}')|)
  {
    var end := StrChr(s, '}');
    UntilChr(s, '}');
    len := if end.None? then None else Some(|s| - |end.value|);
  }

  method LabelsOn(line: string, p: nat, name: string) returns (r: Parsed)
    requires p <= |line|
    ensures r == ParseLabels(name, line[p..])
  {
    if p < |line| && line[p] == '{' {
      var rest := line[p + 1..];
      assert line[p..][1..] == rest;
      var end := FindBrace(rest);
      if end.None? { return Bad; }
      var llen := end.value;
      var labels := rest[..if llen >= LABELS_SIZE then LABELS_SIZE - 1 else llen];
      assert line[p..][2 + llen..] == line[p + 2 + llen..];
      var p3 := SkipBlankBytes(line, p + 1 + llen + 1);
      r := ValueOn(line, p3, name, labels);
    } else {
      r := ValueOn(line, p, name, "");
    }
  }

  method ValueOn(line: string, p: nat, name: string, labels: string) returns (r: Parsed)
    requires p <= |line|
    ensures r == ParseValue(name, labels, line[p..])
  {
    var value, p2 := TokenAndBlanks(line, p, VALUE_SIZE, TokenEnd);
    if value == "" { return Bad; }
    var ts := StampOn(line, p2);
    r := Sample(name, labels, value, ts);
  }

  lemma Tail(line: string, p: nat, q: nat)
    requires p <= q <= |line|
    ensures line[p..][q - p..] == line[q..]
  {
  }

  method StampOn(line: string, p: nat) returns (ts: Option<int>)
    requires p <= |line|
    ensures ts == ParseStamp(line[p..])
  {
    ts := None;
    if p < |line| && !LineEnd(line[p]) {
      var token, _ := CopyToken(line, p, STAMP_SIZE, TokenEnd);
      ts := Some(Atoi(token));
    }
  }

  // ----- the line walk -----

  function Rest(s: string): (r: string)
    requires s != ""
    ensures |r| < |s|
  {
    var line := Until(s, '\n');
    if |line| < |s| then s[|line| + 1..] else ""
  }

  /** The lines of a body; a final newline opens no further line. */
  function Lines(s: string): seq<string>
    decreases |s|
  {
    if s == "" then [] else [Until(s, '\n')] + Lines(Rest(s))
  }

  /** `next_line`: the line at the cursor, cut to the buffer, and the cursor after its newline. */
  method NextLine(body: string, cursor: nat) returns (ok: bool, line: string, next: nat)
    requires cursor <= |body|
    ensures ok <==> cursor < |body|
    ensures cursor <= next <= |body| && (ok ==> cursor < next)
    ensures ok ==> body[next..] == Rest(body[cursor..]) && line == Cut(Until(body[cursor..], '\n'), 1023)
  {
    ok, line, next := false, "", cursor;
    if cursor < |body| {
      var rest := body[cursor..];
      var nl := StrChr(rest, '\n');
      UntilChr(rest, '\n');
      var l := if nl.Some? then |rest| - |nl.value| else |rest|;
      line := rest[..if l >= LINE_SIZE then LINE_SIZE - 1 else l];
      next := if nl.Some? then cursor + l + 1 else |body|;
      ok := true;
      assert nl.Some? ==> rest[l + 1..] == body[next..];
    }
  }

  function Unlines(lines: seq<string>): string {
    if lines == [] then "" else lines[0] + "\n" + Unlines(lines[1..])
  }

  predicate Terminated(s: string) { s == "" || s[|s| - 1] == '\n' }

  lemma FirstLine(s: string)
    requires s != ""
    ensures var line, rest := Until(s, '\n'), Rest(s);
            if |line| < |s| then s == line + "\n" + rest && (Terminated(s) <==> Terminated(rest))
            else s == line && rest == "" && !Terminated(s)
  {
    var line := Until(s, '\n');
    assert |line| == |s| ==> s[|s| - 1] in line;
  }

  lemma Newline(line: string, rest: string)
    ensures line + "\n" + (rest + "\n") == (line + "\n" + rest) + "\n"
  {
  }

  /** Every byte of the body is in one of the lines, in order; no line holds a newline. */
  lemma {:induction false} LinesCover(s: string)
    ensures Unlines(Lines(s)) == if Terminated(s) then s else s + "\n"
    ensures forall line :: line in Lines(s) ==> '\n' !in line
    decreases |s|
  {
    if s != "" {
      FirstLine(s);
      LinesCover(Rest(s));
      Newline(Until(s, '\n'), Rest(s));
      assert Lines(s)[1..] == Lines(Rest(s));
    }
  }

  // ----- which lines become series -----

  datatype Num = NaN | PosInf | NegInf | Finite(r: real)

  function ValueOf(token: string, strtod: string -> Num): Num {
    if token == "NaN" then NaN
    else if token == "+Inf" || token == "Inf" then PosInf
    else if token == "-Inf" then NegInf
    else strtod(token)
  }

  datatype Reading = Reading(name: string, labels: string, value: real, ts: Option<int>)

  /** What a line contributes: a sample of the wanted metric with a finite value. */
  function Wanted(line: string, endpoint: string, strtod: string -> Num): Option<Reading> {
    var r := ParseLine(Cut(line, LINE_SIZE - 1));
    if r.Sample? && r.name == endpoint && ValueOf(r.value, strtod).Finite? then
      Some(Reading(r.name, r.labels, ValueOf(r.value, strtod).r, r.ts))
    else None
  }

  function AsSeq<T>(x: Option<T>): seq<T> { if x.Some? then [x.value] else [] }

  /** All wanted samples, in document order. */
  function Found(lines: seq<string>, endpoint: string, strtod: string -> Num): seq<Reading> {
    if lines == [] then [] else AsSeq(Wanted(lines[0], endpoint, strtod)) + Found(lines[1..], endpoint, strtod)
  }

  function SeriesOf(x: Reading, now: int): Series {
    Series(Some(if x.labels != "" then x.labels else x.name),
           [Point(if x.ts.Some? then TruncDiv(x.ts.value, 1000) else now, x.value)])
  }

  lemma FoundStep(s: string, endpoint: string, strtod: string -> Num)
    requires s != ""
    ensures Found(Lines(s), endpoint, strtod)
         == AsSeq(Wanted(Until(s, '\n'), endpoint, strtod)) + Found(Lines(Rest(s)), endpoint, strtod)
  {
    assert Lines(s)[1..] == Lines(Rest(s));
  }

  /** One line read at the cursor, and what it contributes. */
  method NextWanted(body: string, cursor: nat, endpoint: string, strtod: string -> Num)
    returns (ok: bool, w: Option<Reading>, next: nat)
    requires cursor <= |body|
    ensures ok <==> cursor < |body|
    ensures cursor <= next <= |body| && (ok ==> cursor < next) && (!ok ==> next == cursor && w == None)
    ensures var after := Found(Lines(body[next..]), endpoint, strtod);
            Found(Lines(body[cursor..]), endpoint, strtod) == if w.None? then after else [w.value] + after
  {
    var line;
    ok, line, next := NextLine(body, cursor);
    w := None;
    if ok {
      FoundStep(body[cursor..], endpoint, strtod);
      var r := PromParseLine(line);
      if r.Sample? && r.name == endpoint && ValueOf(r.value, strtod).Finite? {
        w := Some(Reading(r.name, r.labels, ValueOf(r.value, strtod).r, r.ts));
      }
    }
  }

  /** The first pass. */
  method CountSamples(body: string, endpoint: string, strtod: string -> Num) returns (count: nat)
    ensures count == Min(1024, |Found(Lines(body), endpoint, strtod)|)
  {
    count := 0;
    ghost var all := |Found(Lines(body), endpoint, strtod)|;
    ghost var left := all;
    var cur := 0;
    assert body[0..] == body;
    while true
      invariant cur <= |body| && count < MAX_SERIES
      invariant left == |Found(Lines(body[cur..]), endpoint, strtod)| && count + left == all
      decreases |body| - cur
    {
      var ok, w, next := NextWanted(body, cur, endpoint, strtod);
      if !ok { break; }
      CountNext(Found(Lines(body[cur..]), endpoint, strtod), w, Found(Lines(body[next..]), endpoint, strtod));
      cur := next;
      left := |Found(Lines(body[cur..]), endpoint, strtod)|;
      if w.None? { continue; }
      count := count + 1;
      if count >= MAX_SERIES { break; }
    }
    NoneLeft(body, cur, endpoint, strtod);
  }

  lemma CountNext(left: seq<Reading>, w: Option<Reading>, after: seq<Reading>)
    requires left == if w.None? then after else [w.value] + after
    ensures |left| == |after| + if w.None? then 0 else 1
  {
  }

  /** The first `idx` slots hold the series of the first `idx` samples. */
  ghost predicate Filled(slots: array<Option<Series>>, idx: nat, found: seq<Reading>, clock: nat -> int)
    reads slots
  {
    idx <= slots.Length && idx <= |found|
    && forall i :: 0 <= i < idx ==> slots[i] == Some(SeriesOf(found[i], clock(i)))
  }

  method FillNext(slots: array<Option<Series>>, idx: nat, x: Reading, clock: nat -> int,
                  ghost found: seq<Reading>, ghost left: seq<Reading>)
    requires Filled(slots, idx, found, clock) && idx < slots.Length && found[idx..] == [x] + left
    modifies slots
    ensures Filled(slots, idx + 1, found, clock) && found[idx + 1..] == left
  {
    NextIs(found, idx, x, left);
    slots[idx] := Some(SeriesOf(x, clock(idx)));
  }

  /** The second pass, over slots that are still empty. */
  method FillSlots(body: string, endpoint: string, strtod: string -> Num, clock: nat -> int,
                   slots: array<Option<Series>>) returns (idx: nat)
    requires slots.Length <= |Found(Lines(body), endpoint, strtod)|
    modifies slots
    ensures idx == slots.Length && Filled(slots, idx, Found(Lines(body), endpoint, strtod), clock)
  {
    ghost var found := Found(Lines(body), endpoint, strtod);
    ghost var left := found;
    idx := 0;
    var cur := 0;
    assert body[0..] == body;
    while true
      invariant cur <= |body| && Filled(slots, idx, found, clock)
      invariant left == Found(Lines(body[cur..]), endpoint, strtod) && found[idx..] == left
      decreases |body| - cur
    {
      var ok, w, next := NextWanted(body, cur, endpoint, strtod);
      if !ok || idx >= slots.Length { break; }
      cur := next;
      left := Found(Lines(body[cur..]), endpoint, strtod);
      if w.None? { continue; }
      FillNext(slots, idx, w.value, clock, found, left);
      idx := idx + 1;
    }
    NoneLeft(body, cur, endpoint, strtod);
  }

  lemma NextIs(found: seq<Reading>, idx: nat, x: Reading, rest: seq<Reading>)
    requires idx <= |found| && found[idx..] == [x] + rest
    ensures idx < |found| && found[idx] == x && found[idx + 1..] == rest
  {
    assert found[idx..][0] == x && found[idx..][1..] == rest;
  }

  lemma NoneLeft(body: string, cur: nat, endpoint: string, strtod: string -> Num)
    requires cur <= |body|
    ensures cur == |body| ==> Found(Lines(body[cur..]), endpoint, strtod) == []
  {
  }

  /** Both passes: the second fills exactly the slots the first counted, and they hold the first
      `MAX_SERIES` wanted samples in document order. */
  method Fetch(body: string, endpoint: string, strtod: string -> Num, clock: nat -> int)
    returns (any: bool, slots: array<Option<Series>>)
    ensures fresh(slots) && any == (Found(Lines(body), endpoint, strtod) != [])
    ensures slots.Length == Min(1024, |Found(Lines(body), endpoint, strtod)|)
    ensures Filled(slots, slots.Length, Found(Lines(body), endpoint, strtod), clock)
  {
    var count := CountSamples(body, endpoint, strtod);
    slots := new Option<Series>[count](_ => None);
    any := false;
    if count > 0 {
      var idx := FillSlots(body, endpoint, strtod, clock, slots);
      any := idx > 0;
    }
  }
}
