/** The history-chart endpoint: turns the store's answer for the last readings
    into three parallel series `labels`, `heartRate` and `magnitude`. Every
    exception raised while doing so is caught and answered with the empty
    series, so the whole aggregation is all-or-nothing. */
module History {
  import opened Results
  import opened Json
  import opened PyText

  /** What one processed reading contributes: one element to each series. */
  datatype Point = Point(timeLabel: JsonValue, heartRate: JsonValue, magnitude: JsonValue)

  /** The response body `{"labels": [...], "heartRate": [...], "magnitude": [...]}`. */
  datatype ChartSeries = ChartSeries(labels: seq<JsonValue>, heartRate: seq<JsonValue>, magnitude: seq<JsonValue>)

  /** The body returned when there is nothing to chart or anything went wrong. */
  const Empty := ChartSeries([], [], [])

  /** The three series have the same length, so index `k` of each belongs to one reading. */
  predicate Aligned(c: ChartSeries) {
    |c.labels| == |c.heartRate| == |c.magnitude|
  }

  /** The `k`-th point of aligned series. */
  function At(c: ChartSeries, k: nat): Point
    requires Aligned(c) && k < |c.labels|
  {
    Point(c.labels[k], c.heartRate[k], c.magnitude[k])
  }

  /** The series `p` followed by the series `c`. */
  function Prepend(p: Point, c: ChartSeries): ChartSeries {
    ChartSeries([p.timeLabel] + c.labels, [p.heartRate] + c.heartRate, [p.magnitude] + c.magnitude)
  }

  /** The series `c` followed by the series `d`. */
  function Concat(c: ChartSeries, d: ChartSeries): ChartSeries {
    ChartSeries(c.labels + d.labels, c.heartRate + d.heartRate, c.magnitude + d.magnitude)
  }

  // ---------------------------------------------------------------------------
  // Labels
  // ---------------------------------------------------------------------------

  /** The label of a string timestamp: with a space, the first five characters
      of `ts.split(' ')[1]`; without one, the slice `ts[-8:-3]`. Never longer
      than five characters, and never an error. */
  function TextLabel(ts: string): (text: string)
    ensures |text| <= 5
  {
    if ' ' in ts then Slice(Split(ts, ' ')[1], 0, 5) else Slice(ts, -8, -3)
  }

  /** With a space, the label is the first (at most) five characters of the
      text between the first and the second space. */
  lemma SpaceLabel(ts: string, date: string, time: string, rest: string)
    requires ts == date + " " + time + rest
    requires ' ' !in date && ' ' !in time
    requires rest == [] || rest[0] == ' '
    ensures TextLabel(ts) == time[..Min(5, |time|)]
  {
    assert ts[|date|] == ' ';
    SecondField(ts, date, time, rest, ' ');
  }

  /** Without a space, the label is `ts[max(n-8, 0) .. max(n-3, 0)]`: the five
      characters ending three before the end, clipped at the start. */
  lemma NoSpaceLabel(ts: string)
    requires ' ' !in ts
    ensures TextLabel(ts) == ts[Max(|ts| - 8, 0)..Max(|ts| - 3, 0)]
    ensures |ts| <= 3 ==> TextLabel(ts) == ""
    ensures |ts| == 8 ==> TextLabel(ts) == ts[..5]
  {
  }

  /** A full date-time timestamp gives its hour and minute. */
  lemma DateTimeLabel(ts: string)
    requires ts == "2025-12-09 22:54:10"
    ensures TextLabel(ts) == "22:54"
  {
    var date, time := "2025-12-09", "22:54:10";
    assert ts == date + " " + time + "";
    assert ' ' !in date && ' ' !in time;
    SpaceLabel(ts, date, time, "");
    assert time[..5] == "22:54";
  }

  /** A bare eight-character time gives its hour and minute too. */
  lemma TimeOnlyLabel(ts: string)
    requires ts == "22:54:10"
    ensures TextLabel(ts) == "22:54"
  {
    NoSpaceLabel(ts);
  }

  /** The label of whatever `entry.get('timestamp', '')` returned. A string
      always has a label. A list is sliced like a string unless it holds the
      element `' '`, in which case `list.split` does not exist. A dict either
      lacks `split` or cannot be sliced. `None`, booleans and numbers cannot
      be searched with `' ' in ts`. */
  function Label(ts: JsonValue): (r: Result<JsonValue>)
    ensures r.Success? <==> ts.JStr? || (ts.JList? && JStr(" ") !in ts.items)
    ensures ts.JStr? ==> r == Success(JStr(TextLabel(ts.s)))
    ensures r.Success? && ts.JList? ==> r.value == JList(Slice(ts.items, -8, -3))
  {
    match ts
    case JStr(s) => Success(JStr(TextLabel(s)))
    case JList(xs) =>
      if JStr(" ") in xs then Failure(MissingAttribute("split"))
      else Success(JList(Slice(xs, -8, -3)))
    case JObj(kvs) =>
      if HasKey(kvs, " ") then Failure(MissingAttribute("split")) else Failure(BadSubscript)
    case _ => Failure(NotIterable)
  }

  // ---------------------------------------------------------------------------
  // One entry
  // ---------------------------------------------------------------------------

  /** `process_entry`: a falsy entry contributes nothing; a dict contributes one
      point, with `''` for a missing timestamp and `0` for a missing number; any
      other truthy value has no `get` and raises. */
  function ProcessEntry(entry: JsonValue): (r: Result<Option<Point>>)
    ensures !Truthy(entry) ==> r == Success(None)
    ensures Truthy(entry) && !entry.JObj? ==> r.Failure?
    ensures Truthy(entry) && r.Success? ==> r.value.Some?
  {
    if !Truthy(entry) then Success(None)
    else
      match entry
      case JObj(fields) =>
        var tl :- Label(Get(fields, "timestamp", JStr("")));
        Success(Some(Point(tl, Get(fields, "heartRate", JNum(0.0)), Get(fields, "magnitude", JNum(0.0)))))
      case _ => Failure(MissingAttribute("get"))
  }

  /** Missing fields take their defaults, present ones pass through unchanged,
      and the label is that of the record's own timestamp. */
  lemma EntryDefaults(fields: seq<(string, JsonValue)>, p: Point)
    requires ProcessEntry(JObj(fields)) == Success(Some(p))
    ensures !HasKey(fields, "heartRate") ==> p.heartRate == JNum(0.0)
    ensures forall i :: FirstBinding(fields, "heartRate", i) ==> p.heartRate == fields[i].1
    ensures !HasKey(fields, "magnitude") ==> p.magnitude == JNum(0.0)
    ensures forall i :: FirstBinding(fields, "magnitude", i) ==> p.magnitude == fields[i].1
    ensures !HasKey(fields, "timestamp") ==> p.timeLabel == JStr("")
    ensures Label(Get(fields, "timestamp", JStr(""))) == Success(p.timeLabel)
    ensures forall i :: FirstBinding(fields, "timestamp", i) ==> Label(fields[i].1) == Success(p.timeLabel)
  {
  }

  /** A reading with none of the three fields still gives one point: an empty
      label and two zeros. */
  lemma BareEntry(fields: seq<(string, JsonValue)>)
    requires |fields| > 0
    requires !HasKey(fields, "timestamp") && !HasKey(fields, "heartRate") && !HasKey(fields, "magnitude")
    ensures ProcessEntry(JObj(fields)) == Success(Some(Point(JStr(""), JNum(0.0), JNum(0.0))))
  {
    assert TextLabel("") == "";
  }

  /** Which truthy values can be processed: exactly the dicts whose timestamp has a label. */
  lemma EntryFailsExactly(entry: JsonValue)
    requires Truthy(entry)
    ensures ProcessEntry(entry).Failure? <==>
              !entry.JObj? || Label(Get(entry.fields, "timestamp", JStr(""))).Failure?
  {
  }

  // ---------------------------------------------------------------------------
  // The whole answer
  // ---------------------------------------------------------------------------

  /** The entries the endpoint visits, in the store's order: a list's elements,
      or a dict's values in iteration order. A falsy answer or one that is
      neither a list nor a dict has none. */
  function Entries(data: JsonValue): (xs: seq<JsonValue>)
    ensures data.JList? ==> xs == data.items
    ensures data.JObj? ==> xs == Values(data.fields)
    ensures !data.JList? && !data.JObj? ==> xs == []
  {
    if !Truthy(data) then []
    else
      match data
      case JList(items) => items
      case JObj(fields) => Values(fields)
      case _ => []
  }

  /** Reference definition: the entries that reach the chart, in order. */
  function TruthyEntries(xs: seq<JsonValue>): (ys: seq<JsonValue>)
    ensures |ys| <= |xs|
  {
    if |xs| == 0 then []
    else (if Truthy(xs[0]) then [xs[0]] else []) + TruthyEntries(xs[1..])
  }

  /** The loop over `entries` calling `process_entry` on each: it succeeds
      exactly when every entry can be processed, and then the series are
      aligned and hold one point per truthy entry. */
  function AggregateEntries(xs: seq<JsonValue>): (r: Result<ChartSeries>)
    ensures r.Success? <==> forall i :: 0 <= i < |xs| ==> ProcessEntry(xs[i]).Success?
    ensures r.Success? ==> Aligned(r.value) && |r.value.labels| == |TruthyEntries(xs)|
  {
    if |xs| == 0 then Success(Empty)
    else
      var p :- ProcessEntry(xs[0]);
      var rest :- AggregateEntries(xs[1..]);
      assert forall i :: 1 <= i < |xs| ==> xs[i] == xs[1..][i - 1];
      Success(if p.Some? then Prepend(p.value, rest) else rest)
  }

  /** Order is preserved: the `k`-th point of a successful aggregation is what
      the `k`-th truthy entry produced. */
  lemma {:induction false} AggregateInOrder(xs: seq<JsonValue>, k: nat)
    requires AggregateEntries(xs).Success?
    requires k < |TruthyEntries(xs)|
    ensures k < |AggregateEntries(xs).value.labels|
    ensures ProcessEntry(TruthyEntries(xs)[k]) == Success(Some(At(AggregateEntries(xs).value, k)))
    decreases |xs|
  {
    var c := AggregateEntries(xs).value;
    var rest := AggregateEntries(xs[1..]);
    assert rest.Success? by {
      assert forall i :: 1 <= i < |xs| ==> xs[i] == xs[1..][i - 1];
    }
    if Truthy(xs[0]) {
      var p := ProcessEntry(xs[0]).value.value;
      assert TruthyEntries(xs) == [xs[0]] + TruthyEntries(xs[1..]);
      assert c == Prepend(p, rest.value);
      if k > 0 {
        AggregateInOrder(xs[1..], k - 1);
      }
    } else {
      assert TruthyEntries(xs) == TruthyEntries(xs[1..]);
      AggregateInOrder(xs[1..], k);
    }
  }

  /** Running `first` and then `second`: the first exception wins, otherwise the series are concatenated. */
  function AndThen(first: Result<ChartSeries>, second: Result<ChartSeries>): Result<ChartSeries> {
    match first
    case Failure(f) => Failure(f)
    case Success(c) =>
      match second
      case Failure(g) => Failure(g)
      case Success(d) => Success(Concat(c, d))
  }

  /** Putting a point in front commutes with concatenation. */
  lemma PrependConcat(p: Point, c: ChartSeries, d: ChartSeries)
    ensures Prepend(p, Concat(c, d)) == Concat(Prepend(p, c), d)
  {
    assert [p.timeLabel] + (c.labels + d.labels) == ([p.timeLabel] + c.labels) + d.labels;
    assert [p.heartRate] + (c.heartRate + d.heartRate) == ([p.heartRate] + c.heartRate) + d.heartRate;
    assert [p.magnitude] + (c.magnitude + d.magnitude) == ([p.magnitude] + c.magnitude) + d.magnitude;
  }

  /** Processing `xs + ys` is processing `xs` and then `ys`. */
  lemma {:induction false} AggregateAppend(xs: seq<JsonValue>, ys: seq<JsonValue>)
    ensures AggregateEntries(xs + ys) == AndThen(AggregateEntries(xs), AggregateEntries(ys))
    decreases |xs|
  {
    if |xs| == 0 {
      assert xs + ys == ys;
      match AggregateEntries(ys)
      case Failure(_) =>
      case Success(d) => assert Concat(Empty, d) == d;
    } else {
      assert (xs + ys)[0] == xs[0];
      assert (xs + ys)[1..] == xs[1..] + ys;
      AggregateAppend(xs[1..], ys);
      match ProcessEntry(xs[0])
      case Failure(_) =>
      case Success(p) =>
        match AggregateEntries(xs[1..])
        case Failure(_) =>
        case Success(c) =>
          match AggregateEntries(ys)
          case Failure(_) =>
          case Success(d) =>
            if p.Some? {
              PrependConcat(p.value, c, d);
            }
    }
  }

  /** A falsy entry (`None`, `0`, `""`, `[]`, `{}`, `False`) anywhere in the
      collection changes nothing. */
  lemma FalsyEntryIgnored(xs: seq<JsonValue>, e: JsonValue, ys: seq<JsonValue>)
    requires !Truthy(e)
    ensures AggregateEntries(xs + [e] + ys) == AggregateEntries(xs + ys)
  {
    AggregateAppend(xs + [e], ys);
    AggregateAppend(xs, [e]);
    AggregateAppend(xs, ys);
    assert AggregateEntries([e]) == Success(Empty) by {
      assert [e][1..] == [];
    }
    match AggregateEntries(xs)
    case Failure(_) =>
    case Success(c) => assert Concat(c, Empty) == c;
  }

  /** `get_history_data` with the store read as input: a read that raised, or
      an exception while processing any entry, gives the empty body; so does a
      falsy answer or one that is neither a list nor a dict. The three series
      always have the same length. */
  function HistoryData(read: Result<JsonValue>): (c: ChartSeries)
    ensures Aligned(c)
    ensures read.Failure? ==> c == Empty
    ensures read.Success? && !Truthy(read.value) ==> c == Empty
  {
    match read
    case Failure(_) => Empty
    case Success(data) => AggregateEntries(Entries(data)).GetOr(Empty)
  }

  /** The answer is the empty body exactly when the read raised, some entry
      raised, or no entry is truthy; a partially filled body is never returned. */
  lemma EmptyExactly(read: Result<JsonValue>)
    ensures HistoryData(read) == Empty <==>
              || read.Failure?
              || (exists i :: 0 <= i < |Entries(read.value)| && ProcessEntry(Entries(read.value)[i]).Failure?)
              || |TruthyEntries(Entries(read.value))| == 0
  {
    if read.Success? {
      var xs := Entries(read.value);
      var r := AggregateEntries(xs);
      if r.Success? && |TruthyEntries(xs)| > 0 {
        assert |HistoryData(read).labels| > 0;
      }
    }
  }

  /** When every entry can be processed, the answer holds exactly one point per
      truthy entry, in the order the store yields them. */
  lemma HistoryInOrder(data: JsonValue, k: nat)
    requires forall i :: 0 <= i < |Entries(data)| ==> ProcessEntry(Entries(data)[i]).Success?
    requires k < |TruthyEntries(Entries(data))|
    ensures |HistoryData(Success(data)).labels| == |TruthyEntries(Entries(data))|
    ensures k < |HistoryData(Success(data)).labels|
    ensures ProcessEntry(TruthyEntries(Entries(data))[k]) == Success(Some(At(HistoryData(Success(data)), k)))
  {
    AggregateInOrder(Entries(data), k);
  }

  /** A list and a dict presenting the same values in the same order give the same answer. */
  lemma ListAndDictAgree(fields: seq<(string, JsonValue)>)
    ensures HistoryData(Success(JList(Values(fields)))) == HistoryData(Success(JObj(fields)))
  {
  }

  /** Any other answer (a number, a string, a boolean) charts nothing, without an exception. */
  lemma ScalarAnswerIsEmpty(data: JsonValue)
    requires !data.JList? && !data.JObj?
    ensures HistoryData(Success(data)) == Empty
  {
  }

  /** The record `{"timestamp": ts, "heartRate": hr, "magnitude": mag}` the device writes. */
  function Reading(ts: string, hr: JsonValue, mag: JsonValue): JsonValue {
    JObj([("timestamp", JStr(ts)), ("heartRate", hr), ("magnitude", mag)])
  }

  /** A complete reading with a "DATE TIME" timestamp charts as the first
      five characters of TIME and its two values. */
  lemma ReadingPoint(date: string, time: string, hr: JsonValue, mag: JsonValue)
    requires ' ' !in date && ' ' !in time
    ensures ProcessEntry(Reading(date + " " + time, hr, mag))
            == Success(Some(Point(JStr(time[..Min(5, |time|)]), hr, mag)))
  {
    var ts := date + " " + time;
    assert ts == date + " " + time + "";
    SpaceLabel(ts, date, time, "");
    var fields := [("timestamp", JStr(ts)), ("heartRate", hr), ("magnitude", mag)];
    assert FirstBinding(fields, "timestamp", 0);
    assert FirstBinding(fields, "heartRate", 1);
    assert FirstBinding(fields, "magnitude", 2);
  }

  /** Two entries that each give a point chart as those two points, in order. */
  lemma AggregatePair(e0: JsonValue, e1: JsonValue, p0: Point, p1: Point)
    requires ProcessEntry(e0) == Success(Some(p0)) && ProcessEntry(e1) == Success(Some(p1))
    ensures AggregateEntries([e0, e1]) ==
              Success(ChartSeries([p0.timeLabel, p1.timeLabel], [p0.heartRate, p1.heartRate], [p0.magnitude, p1.magnitude]))
  {
    assert AggregateEntries([e1]) == Success(Prepend(p1, Empty)) by {
      assert [e1][1..] == [];
    }
    assert [e0, e1][1..] == [e1];
    assert AggregateEntries([e0, e1]) == Success(Prepend(p0, Prepend(p1, Empty)));
    assert [p0.timeLabel] + ([p1.timeLabel] + []) == [p0.timeLabel, p1.timeLabel];
    assert [p0.heartRate] + ([p1.heartRate] + []) == [p0.heartRate, p1.heartRate];
    assert [p0.magnitude] + ([p1.magnitude] + []) == [p0.magnitude, p1.magnitude];
  }

  /** Two readings stored under the keys "0" and "1" (the shape the store
      answers with) chart as their times and values, in key order. */
  lemma TwoReadings(date: string, t0: string, hr0: JsonValue, mag0: JsonValue,
                    t1: string, hr1: JsonValue, mag1: JsonValue)
    requires ' ' !in date && ' ' !in t0 && ' ' !in t1
    ensures HistoryData(Success(JObj([("0", Reading(date + " " + t0, hr0, mag0)),
                                      ("1", Reading(date + " " + t1, hr1, mag1))]))) ==
              ChartSeries([JStr(t0[..Min(5, |t0|)]), JStr(t1[..Min(5, |t1|)])], [hr0, hr1], [mag0, mag1])
  {
    var e0, e1 := Reading(date + " " + t0, hr0, mag0), Reading(date + " " + t1, hr1, mag1);
    var p0 := Point(JStr(t0[..Min(5, |t0|)]), hr0, mag0);
    var p1 := Point(JStr(t1[..Min(5, |t1|)]), hr1, mag1);
    assert ProcessEntry(e0) == Success(Some(p0)) by {
      ReadingPoint(date, t0, hr0, mag0);
    }
    assert ProcessEntry(e1) == Success(Some(p1)) by {
      ReadingPoint(date, t1, hr1, mag1);
    }
    AggregatePair(e0, e1, p0, p1);
    assert Entries(JObj([("0", e0), ("1", e1)])) == [e0, e1];
  }

  /** Readings at 09:00 and 09:01 with heart rates 72 and 75 and magnitudes 1.1 and 0.9. */
  lemma TwoReadingsExample(date: string, t0: string, t1: string)
    requires date == "2025-12-09" && t0 == "09:00:00" && t1 == "09:01:00"
    ensures HistoryData(Success(JObj([("0", Reading(date + " " + t0, JNum(72.0), JNum(1.1))),
                                      ("1", Reading(date + " " + t1, JNum(75.0), JNum(0.9)))]))) ==
              ChartSeries([JStr("09:00"), JStr("09:01")], [JNum(72.0), JNum(75.0)], [JNum(1.1), JNum(0.9)])
  {
    TwoReadings(date, t0, JNum(72.0), JNum(1.1), t1, JNum(75.0), JNum(0.9));
    assert t0[..5] == "09:00" && t1[..5] == "09:01";
  }

  /** The series `c` with the point `p` appended to each of the three lists. */
  function Append(c: ChartSeries, p: Point): ChartSeries {
    ChartSeries(c.labels + [p.timeLabel], c.heartRate + [p.heartRate], c.magnitude + [p.magnitude])
  }

  /** What `process_entry` leaves behind: `c` extended by the point, if there is one. */
  function Extend(c: ChartSeries, step: Option<Point>): ChartSeries {
    if step.Some? then Append(c, step.value) else c
  }

  /** The series of a single entry's contribution. */
  function Single(step: Option<Point>): ChartSeries {
    if step.Some? then Prepend(step.value, Empty) else Empty
  }

  /** Extending by one contribution is concatenating its single-entry series. */
  lemma ExtendIsConcat(c: ChartSeries, step: Option<Point>)
    ensures Concat(c, Single(step)) == Extend(c, step)
  {
    assert c.labels + [] == c.labels;
    assert c.heartRate + [] == c.heartRate;
    assert c.magnitude + [] == c.magnitude;
  }

  /** One more entry processed without an exception extends the series by its point, if any. */
  lemma AggregateStep(xs: seq<JsonValue>, x: JsonValue, c: ChartSeries, step: Option<Point>)
    requires AggregateEntries(xs) == Success(c)
    requires ProcessEntry(x) == Success(step)
    ensures AggregateEntries(xs + [x]) == Success(Extend(c, step))
  {
    assert AggregateEntries([x]) == Success(Single(step)) by {
      assert [x][1..] == [];
    }
    AggregateAppend(xs, [x]);
    ExtendIsConcat(c, step);
  }

  /** A prefix one longer is the prefix followed by the next element. */
  lemma PrefixStep(xs: seq<JsonValue>, i: nat)
    requires i < |xs|
    ensures xs[..i + 1] == xs[..i] + [xs[i]]
  {
  }

  /** The loop of `get_history_data` as written: append to three lists, and
      answer with the empty body as soon as an exception would be raised. */
  method CollectHistory(read: Result<JsonValue>) returns (chart: ChartSeries)
    ensures chart == HistoryData(read)
  {
    if read.Failure? {
      return Empty;
    }
    var entries := Entries(read.value);
    chart := Empty;
    var i := 0;
    while i < |entries|
      invariant 0 <= i <= |entries|
      invariant AggregateEntries(entries[..i]) == Success(chart)
    {
      var step := ProcessEntry(entries[i]);
      if step.Failure? {
        assert AggregateEntries(entries).Failure?;
        return Empty;
      }
      AggregateStep(entries[..i], entries[i], chart, step.value);
      PrefixStep(entries, i);
      if step.value.Some? {
        chart := Append(chart, step.value.value);
      }
      i := i + 1;
    }
    assert entries[..i] == entries;
  }
}
