/** Writing Prometheus samples and reading them back (text exposition format, as the parser of
    src/prometheus_source.c sees it). */
module Exposition {
  import opened CStrings
  import opened MetricValues
  import opened Places
  import opened Prometheus

  /** A sample the format can carry: the name and the value have no delimiters, the labels no closing
      brace, and the timestamp fits 64 bits. */
  predicate Exposable(x: Parsed) {
    x.Sample?
    && x.name != "" && (forall c :: c in x.name ==> !NameEnd(c)) && x.name[0] != '#'
    && '}' !in x.labels
    && x.value != "" && (forall c :: c in x.value ==> !TokenEnd(c)) && x.value[0] != '{'
    && (x.ts.Some? ==> IsInt64(x.ts.value))
  }

  function LabelsText(labels: string): string { if labels == "" then "" else "{" + labels + "}" }

  function StampText(ts: Option<int>): string { if ts.None? then "" else " " + IntText(ts.value) }

  /** `name{labels} value timestamp` */
  function Text(x: Parsed): string
    requires x.Sample?
  {
    x.name + (LabelsText(x.labels) + (" " + (x.value + StampText(x.ts))))
  }

  /** What fits the parser's buffers. */
  function Shortened(x: Parsed): Parsed
    requires x.Sample?
  {
    x.(name := Cut(x.name, NAME_SIZE - 1), labels := Cut(x.labels, LABELS_SIZE - 1),
       value := Cut(x.value, VALUE_SIZE - 1))
  }

  lemma {:induction false} UptoAll(a: string, rest: string, stop: char -> bool)
    requires forall c :: c in a ==> !stop(c)
    requires rest == "" || stop(rest[0])
    ensures Upto(a + rest, stop) == a
  {
    if a == "" {
      assert a + rest == rest;
    } else {
      assert (a + rest)[1..] == a[1..] + rest;
      UptoAll(a[1..], rest, stop);
    }
  }

  predicate IsInt64(n: int) { -0x8000_0000_0000_0000 <= n < 0x8000_0000_0000_0000 }

  lemma IntTextFits(n: int)
    requires IsInt64(n)
    ensures |IntText(n)| < STAMP_SIZE && forall c :: c in IntText(n) ==> !TokenEnd(c)
  {
    assert Pow10(10) == 10_000_000_000 && Pow10(15) == 1_000_000_000_000_000;
    assert Pow10(19) == 10_000_000_000_000_000_000;
    DecimalLength(if n < 0 then -n else n, 19);
  }

  // ----- any spacing -----

  /** Blanks before the name, the labels, the value and the stamp, and what ends the line. */
  datatype Spacing = Spacing(lead: string, beforeLabels: string, beforeValue: string, beforeStamp: string, end: string)

  predicate Blanks(s: string) { forall c :: c in s ==> c == ' ' || c == '\t' }

  /** Value and stamp are set off by blanks; labels need none on either side. A carriage return may follow. */
  predicate Separates(p: Spacing, x: Parsed)
    requires x.Sample?
  {
    Blanks(p.lead) && Blanks(p.beforeLabels) && Blanks(p.beforeValue) && Blanks(p.beforeStamp)
    && (x.labels == "" ==> p.beforeLabels + p.beforeValue != "")
    && (x.ts.Some? ==> p.beforeStamp != "")
    && (p.end == "" || p.end[0] == '\r')
  }

  function StampPart(x: Parsed, p: Spacing): string
    requires x.Sample?
  {
    p.beforeStamp + ((if x.ts.None? then "" else IntText(x.ts.value)) + p.end)
  }

  function Spaced(x: Parsed, p: Spacing): string
    requires x.Sample?
  {
    p.lead + (x.name + (p.beforeLabels + (LabelsText(x.labels) + (p.beforeValue + (x.value + StampPart(x, p))))))
  }

  lemma {:induction false} SkipAll(blanks: string, rest: string)
    requires Blanks(blanks) && (rest == "" || !Blank(rest[0]))
    ensures SkipBlanks(blanks + rest) == rest
  {
    if blanks == "" {
      assert blanks + rest == rest;
    } else {
      assert blanks[0] in blanks && (blanks + rest)[1..] == blanks[1..] + rest;
      assert forall c :: c in blanks[1..] ==> c in blanks;
      SkipAll(blanks[1..], rest);
    }
  }

  lemma ReadStamp(x: Parsed, p: Spacing)
    requires x.Sample? && Separates(p, x) && (x.ts.Some? ==> IsInt64(x.ts.value))
    ensures ParseStamp(SkipBlanks(StampPart(x, p))) == x.ts
  {
    if x.ts.None? {
      assert "" + p.end == p.end;
      SkipAll(p.beforeStamp, p.end);
    } else {
      var t := IntText(x.ts.value);
      IntTextFits(x.ts.value);
      AtoiIntText(x.ts.value);
      assert t[0] in t && (t + p.end)[0] == t[0];
      SkipAll(p.beforeStamp, t + p.end);
      UptoAll(t, p.end, TokenEnd);
    }
  }

  lemma StampEndsValue(x: Parsed, p: Spacing)
    requires x.Sample? && Separates(p, x)
    ensures StampPart(x, p) == "" || TokenEnd(StampPart(x, p)[0])
  {
    if p.beforeStamp != "" {
      assert p.beforeStamp[0] in p.beforeStamp;
    }
  }

  lemma ReadValue(name: string, labels: string, x: Parsed, p: Spacing)
    requires Exposable(x) && Separates(p, x)
    ensures ParseValue(name, labels, SkipBlanks(p.beforeValue + (x.value + StampPart(x, p))))
         == Sample(name, labels, Cut(x.value, VALUE_SIZE - 1), x.ts)
  {
    var rest := StampPart(x, p);
    var v := x.value + rest;
    assert x.value[0] in x.value && v[0] == x.value[0];
    SkipAll(p.beforeValue, v);
    StampEndsValue(x, p);
    UptoAll(x.value, rest, TokenEnd);
    assert v[|x.value|..] == rest;
    ReadStamp(x, p);
  }

  /** Without labels the blanks on both sides of where they would be run together. */
  lemma NoLabels(x: Parsed, p: Spacing)
    requires Exposable(x) && Separates(p, x)
    ensures var v := p.beforeValue + (x.value + StampPart(x, p));
            SkipBlanks(p.beforeLabels + ("" + v)) == SkipBlanks(v) && SkipBlanks(v) != "" && SkipBlanks(v)[0] != '{'
  {
    var w := x.value + StampPart(x, p);
    assert x.value[0] in x.value && w[0] == x.value[0];
    SkipAll(p.beforeValue, w);
    assert "" + (p.beforeValue + w) == p.beforeValue + w;
    Assoc(p.beforeLabels, p.beforeValue, w);
    SkipAll(p.beforeLabels + p.beforeValue, w);
  }

  lemma ReadLabels(name: string, x: Parsed, p: Spacing)
    requires Exposable(x) && Separates(p, x)
    ensures var rest := LabelsText(x.labels) + (p.beforeValue + (x.value + StampPart(x, p)));
            ParseLabels(name, SkipBlanks(p.beforeLabels + rest))
              == Sample(name, Cut(x.labels, LABELS_SIZE - 1), Cut(x.value, VALUE_SIZE - 1), x.ts)
  {
    var v := p.beforeValue + (x.value + StampPart(x, p));
    if x.labels == "" {
      NoLabels(x, p);
      ReadValue(name, "", x, p);
    } else {
      var open := "{" + x.labels + "}" + v;
      assert open[0] == '{';
      SkipAll(p.beforeLabels, open);
      ReadValue(name, Cut(x.labels, LABELS_SIZE - 1), x, p);
      InBraces(name, x.labels, v);
    }
  }

  lemma InBraces(name: string, labels: string, rest: string)
    requires '}' !in labels
    ensures ParseLabels(name, "{" + labels + "}" + rest)
         == ParseValue(name, Cut(labels, LABELS_SIZE - 1), SkipBlanks(rest))
  {
    var p := "{" + labels + "}" + rest;
    assert p[1..] == labels + ['}'] + rest && p[2 + |labels|..] == rest;
    UntilAt(labels, rest, '}');
  }

  lemma NameStops(x: Parsed, p: Spacing)
    requires Exposable(x) && Separates(p, x)
    ensures var rest := p.beforeLabels + (LabelsText(x.labels) + (p.beforeValue + (x.value + StampPart(x, p))));
            rest != "" && NameEnd(rest[0])
  {
    if p.beforeLabels != "" {
      assert p.beforeLabels[0] in p.beforeLabels;
    } else if x.labels == "" {
      assert p.beforeValue[0] in p.beforeValue;
    }
  }

  /** A sample is read however it is spaced, each part cut to its buffer. */
  lemma ReadSpaced(x: Parsed, p: Spacing)
    requires Exposable(x) && Separates(p, x)
    ensures ParseLine(Spaced(x, p)) == Shortened(x)
  {
    var rest := p.beforeLabels + (LabelsText(x.labels) + (p.beforeValue + (x.value + StampPart(x, p))));
    var q := x.name + rest;
    assert x.name[0] in x.name && q[0] == x.name[0];
    NameStops(x, p);
    SkipAll(p.lead, q);
    UptoAll(x.name, rest, NameEnd);
    assert q[|x.name|..] == rest;
    ReadLabels(Cut(x.name, NAME_SIZE - 1), x, p);
  }

  /** A written sample is read back, each part cut to its buffer. */
  lemma ReadText(x: Parsed)
    requires Exposable(x)
    ensures ParseLine(Text(x)) == Shortened(x)
  {
    var p := Spacing("", "", " ", if x.ts.None? then "" else " ", "");
    ReadSpaced(x, p);
    SingleBlanks(x, p);
  }

  lemma SingleBlanks(x: Parsed, p: Spacing)
    requires x.Sample? && p == Spacing("", "", " ", if x.ts.None? then "" else " ", "")
    ensures Spaced(x, p) == Text(x)
  {
    var v := p.beforeValue + (x.value + StampPart(x, p));
    assert StampPart(x, p) == StampText(x.ts);
    assert "" + (LabelsText(x.labels) + v) == LabelsText(x.labels) + v;
  }

  /** Reading back a written sample gives the sample exactly when its parts fit the buffers. */
  lemma RoundTrip(x: Parsed)
    requires Exposable(x)
    ensures ParseLine(Text(x)) == x
       <==> |x.name| <= 127 && |x.labels| <= 255 && |x.value| <= 63
  {
    ReadText(x);
  }

  // ----- a whole document -----

  type ASample = x: Parsed | x.Sample? witness Sample("up", "", "1", None)

  /** A line of a document: a sample, or a comment such as `# HELP` or `# TYPE`. */
  datatype Item = Line(x: ASample) | Comment(text: string)

  function ItemText(i: Item): string { if i.Line? then Text(i.x) else "#" + i.text }

  function Document(items: seq<Item>): string {
    if items == [] then "" else ItemText(items[0]) + "\n" + Document(items[1..])
  }

  /** The readings of the samples of one metric with a finite value. */
  function Readings(items: seq<Item>, endpoint: string, strtod: string -> Num): seq<Reading> {
    if items == [] then [] else ReadingOf(items[0], endpoint, strtod) + Readings(items[1..], endpoint, strtod)
  }

  function ReadingOf(i: Item, endpoint: string, strtod: string -> Num): seq<Reading> {
    if i.Line? && i.x.name == endpoint && ValueOf(i.x.value, strtod).Finite? then
      [Reading(i.x.name, i.x.labels, ValueOf(i.x.value, strtod).r, i.x.ts)]
    else []
  }

  predicate Fits(x: Parsed) {
    Exposable(x) && '\n' !in x.labels && |x.name| < NAME_SIZE && |x.labels| < LABELS_SIZE && |x.value| < VALUE_SIZE
  }

  predicate ItemFits(i: Item) { if i.Line? then Fits(i.x) else '\n' !in i.text }

  lemma TextIsLine(x: Parsed)
    requires Fits(x)
    ensures |Text(x)| < LINE_SIZE && '\n' !in Text(x)
  {
    if x.ts.Some? {
      IntTextFits(x.ts.value);
    }
  }

  lemma ItemWanted(i: Item, endpoint: string, strtod: string -> Num)
    requires ItemFits(i)
    ensures '\n' !in ItemText(i)
    ensures AsSeq(Wanted(ItemText(i), endpoint, strtod)) == ReadingOf(i, endpoint, strtod)
  {
    if i.Line? {
      TextIsLine(i.x);
      RoundTrip(i.x);
    } else {
      CommentSkipped(i.text);
    }
  }

  lemma CommentSkipped(text: string)
    ensures ParseLine(Cut("#" + text, LINE_SIZE - 1)) == Skip
  {
    var line := Cut("#" + text, LINE_SIZE - 1);
    assert line[0] == '#' && SkipBlanks(line) == line;
  }

  lemma FirstOfDocument(i: Item, rest: string, endpoint: string, strtod: string -> Num)
    requires ItemFits(i)
    ensures Found(Lines(ItemText(i) + "\n" + rest), endpoint, strtod)
         == ReadingOf(i, endpoint, strtod) + Found(Lines(rest), endpoint, strtod)
  {
    var text := ItemText(i);
    var s := text + ['\n'] + rest;
    ItemWanted(i, endpoint, strtod);
    UntilAt(text, rest, '\n');
    assert s[|text| + 1..] == rest;
    FoundStep(s, endpoint, strtod);
  }

  /** Fetching a metric from a document of samples and comments finds exactly its samples, in order. */
  lemma {:induction false} DocumentFound(items: seq<Item>, endpoint: string, strtod: string -> Num)
    requires forall i :: 0 <= i < |items| ==> ItemFits(items[i])
    ensures Found(Lines(Document(items)), endpoint, strtod) == Readings(items, endpoint, strtod)
  {
    if items != [] {
      FirstOfDocument(items[0], Document(items[1..]), endpoint, strtod);
      DocumentFound(items[1..], endpoint, strtod);
    }
  }

  // ----- what a fetch from a document shows -----

  /** A token that C reads as a finite number; the four special ones are handled before. */
  predicate FiniteToken(token: string, strtod: string -> Num) {
    token != "NaN" && token != "Inf" && token != "+Inf" && token != "-Inf" && strtod(token).Finite?
  }

  /** A sample of the metric that can be charted. */
  predicate Charted(i: Item, endpoint: string, strtod: string -> Num) {
    i.Line? && i.x.name == endpoint && FiniteToken(i.x.value, strtod)
  }

  /** `t` is the time in seconds of a stamp in milliseconds: cut toward 1970. */
  predicate InSeconds(stamp: int, t: int) {
    if stamp >= 0 then 1000 * t <= stamp < 1000 * t + 1000 else 1000 * t - 1000 < stamp <= 1000 * t
  }

  /** The series of a sample: the labels as they are written, or the metric when there are none; one point with
      the value of the token, at the time of the stamp, or now. */
  predicate SlotShows(s: Series, x: ASample, strtod: string -> Num, now: int) {
    s.name == Some(if x.labels == "" then x.name else x.labels)
    && |s.points| == 1 && strtod(x.value) == Finite(s.points[0].value)
    && (x.ts.Some? ==> InSeconds(x.ts.value, s.points[0].timestamp))
    && (x.ts.None? ==> s.points[0].timestamp == now)
  }

  predicate ReadingShows(r: Reading, x: ASample, strtod: string -> Num) {
    r.name == x.name && r.labels == x.labels && r.ts == x.ts && strtod(x.value) == Finite(r.value)
  }

  lemma SeriesShowsSample(r: Reading, x: ASample, strtod: string -> Num, now: int)
    requires ReadingShows(r, x, strtod)
    ensures SlotShows(SeriesOf(r, now), x, strtod, now)
  {
  }

  function Charts(endpoint: string, strtod: string -> Num): Item -> bool {
    (i: Item) => Charted(i, endpoint, strtod)
  }

  lemma {:induction false} ReadingsSnoc(items: seq<Item>, i: Item, endpoint: string, strtod: string -> Num)
    ensures Readings(items + [i], endpoint, strtod)
         == Readings(items, endpoint, strtod) + ReadingOf(i, endpoint, strtod)
  {
    if items == [] {
      assert items + [i] == [i] && [i][1..] == [];
    } else {
      assert (items + [i])[1..] == items[1..] + [i] && (items + [i])[0] == items[0];
      ReadingsSnoc(items[1..], i, endpoint, strtod);
    }
  }

  lemma ReadingOfShows(i: Item, endpoint: string, strtod: string -> Num)
    ensures |ReadingOf(i, endpoint, strtod)| == if Charted(i, endpoint, strtod) then 1 else 0
    ensures Charted(i, endpoint, strtod) ==> ReadingShows(ReadingOf(i, endpoint, strtod)[0], i.x, strtod)
  {
  }

  /** The readings show the items at these places. */
  predicate AllShow(readings: seq<Reading>, items: seq<Item>, at: seq<nat>, strtod: string -> Num) {
    |at| == |readings|
    && forall k :: 0 <= k < |at| ==>
         at[k] < |items| && items[at[k]].Line? && ReadingShows(readings[k], items[at[k]].x, strtod)
  }

  lemma {:induction false} ReadingsShow(items: seq<Item>, endpoint: string, strtod: string -> Num)
    returns (at: seq<nat>)
    ensures PlacesOf(items, Charts(endpoint, strtod), at)
    ensures AllShow(Readings(items, endpoint, strtod), items, at, strtod)
  {
    at := [];
    if items != [] {
      var n := |items| - 1;
      var pre, last := items[..n], items[n];
      assert items == pre + [last];
      ReadingsSnoc(pre, last, endpoint, strtod);
      ReadingOfShows(last, endpoint, strtod);
      var before := ReadingsShow(pre, endpoint, strtod);
      PlacesSnoc(pre, last, Charts(endpoint, strtod), before);
      at := Longer(before, Charts(endpoint, strtod)(last), n);
      ShowMore(Readings(pre, endpoint, strtod), pre, before, strtod, ReadingOf(last, endpoint, strtod), last,
               Charts(endpoint, strtod)(last));
    }
  }

  lemma ShowMore(readings: seq<Reading>, items: seq<Item>, at: seq<nat>, strtod: string -> Num,
                 more: seq<Reading>, last: Item, here: bool)
    requires AllShow(readings, items, at, strtod) && |more| == (if here then 1 else 0)
    requires here ==> last.Line? && ReadingShows(more[0], last.x, strtod)
    ensures AllShow(readings + more, items + [last], Longer(at, here, |items|), strtod)
  {
    var all, longer := items + [last], Longer(at, here, |items|);
    forall k | 0 <= k < |longer|
      ensures longer[k] < |all| && all[longer[k]].Line? && ReadingShows((readings + more)[k], all[longer[k]].x, strtod)
    {
      if k < |at| {
        assert longer[k] == at[k] && all[at[k]] == items[at[k]] && (readings + more)[k] == readings[k];
      } else {
        assert all[longer[k]] == last && (readings + more)[k] == more[0];
      }
    }
  }

  /** What fetching a metric from a document leaves in the slots: a series for each of the first 1024 of its
      finite samples, in the order of the document. */
  lemma SlotsShow(items: seq<Item>, endpoint: string, strtod: string -> Num, clock: nat -> int,
                  slots: array<Option<Series>>, found: seq<Reading>) returns (at: seq<nat>)
    requires forall i :: 0 <= i < |items| ==> ItemFits(items[i])
    requires found == Found(Lines(Document(items)), endpoint, strtod)
    requires slots.Length == Min(MAX_SERIES, |found|) && Filled(slots, slots.Length, found, clock)
    ensures PlacesOf(items, Charts(endpoint, strtod), at) && slots.Length == Min(1024, |at|)
    ensures forall k :: 0 <= k < slots.Length ==>
      slots[k].Some? && SlotShows(slots[k].value, items[at[k]].x, strtod, clock(k))
  {
    DocumentFound(items, endpoint, strtod);
    at := ReadingsShow(items, endpoint, strtod);
    forall k | 0 <= k < slots.Length
      ensures slots[k].Some? && SlotShows(slots[k].value, items[at[k]].x, strtod, clock(k))
    {
      SeriesShowsSample(found[k], items[at[k]].x, strtod, clock(k));
    }
  }
}
