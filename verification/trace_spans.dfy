/** `process_trace_data` of trace-dashboard/trace-dashboard.py: pairs the
    begin (`B`) / end (`E`) / complete (`X`) events of a Chrome trace into spans,
    per (pid, tid, name), with a nesting depth per thread, and turns the spans
    into chart rows.

    An `X` event opens a span like `B` and is queued; before each real event the
    queues are searched for one whose last `X` has ended strictly before that
    event on the same thread (any thread once the input is used up), and a
    synthetic `E` at `ts + dur` is processed in place of the real event. */
module TraceSpans {
  import opened Wrappers
  import opened OrderedDict

  /** One trace event; the fields the function reads. */
  datatype Event = Event(name: string, ts: int, ph: string, pid: int, tid: int, dur: int)

  datatype Key = Key(pid: int, tid: int, name: string)

  function KeyOf(e: Event): Key {
    Key(e.pid, e.tid, e.name)
  }

  /** `{"start": ..., "end": ..., "depth": ...}` */
  datatype Span = Span(start: int, end: Option<int>, depth: int)

  /** The two `[WARN]` prints. */
  datatype Warning = NoBegin(key: Key) | UnknownPhase(event: Event)

  /** The function's local state: `event_begin_working_stacks` (open spans),
      `event_end_working_stacks` (queued `X` events), `event_stacks` (closed
      spans), `depth`, and the warnings printed so far. */
  datatype State = State(
    open: Dict<Key, seq<Span>>,
    queued: Dict<Key, seq<Event>>,
    closed: Dict<Key, seq<Span>>,
    depth: map<int, int>,
    warnings: seq<Warning>)

  /** `stacks[key]` on a `defaultdict(list)`. */
  function Stack<V>(d: Dict<Key, seq<V>>, k: Key): seq<V> {
    GetOr(d, k, [])
  }

  /** `depth[tid]` on a `defaultdict(int)`. */
  function Depth(st: State, tid: int): int {
    if tid in st.depth then st.depth[tid] else 0
  }

  function Last<T>(s: seq<T>): T
    requires s != []
  {
    s[|s| - 1]
  }

  // ---------------------------------------------------------------------------
  // Counting the entries of a dict of stacks, over all keys or one thread's.

  predicate Counted(k: Key, only: Option<int>) {
    only.None? || k.tid == only.value
  }

  /** The total length of the stacks of keys `ks` (those of thread `only`, if given). */
  function SumLen<V>(ks: seq<Key>, m: map<Key, seq<V>>, only: Option<int>): nat
    requires forall i :: 0 <= i < |ks| ==> ks[i] in m
  {
    if ks == [] then 0
    else (if Counted(ks[0], only) then |m[ks[0]]| else 0) + SumLen(ks[1..], m, only)
  }

  function Total<V>(d: Dict<Key, seq<V>>, only: Option<int>): nat
    requires Valid(d)
  {
    SumLen(d.keys, d.values, only)
  }

  lemma {:induction false} SumLenUpdate<V>(ks: seq<Key>, m: map<Key, seq<V>>, k: Key, v: seq<V>, only: Option<int>)
    requires Distinct(ks) && forall i :: 0 <= i < |ks| ==> ks[i] in m
    ensures SumLen(ks, m[k := v], only) + (if k in ks && Counted(k, only) then |m[k]| else 0)
         == SumLen(ks, m, only) + (if k in ks && Counted(k, only) then |v| else 0)
  {
    if ks != [] {
      assert Distinct(ks[1..]) by {
        forall i, j | 0 <= i < j < |ks[1..]| ensures ks[1..][i] != ks[1..][j] {
          assert ks[1..][i] == ks[i + 1] && ks[1..][j] == ks[j + 1];
        }
      }
      SumLenUpdate(ks[1..], m, k, v, only);
      if ks[0] == k {
        assert k !in ks[1..] by {
          forall i | 0 <= i < |ks[1..]| ensures ks[1..][i] != k {
            assert ks[1..][i] == ks[i + 1];
          }
        }
      }
    }
  }

  lemma {:induction false} SumLenAppend<V>(ks: seq<Key>, k: Key, m: map<Key, seq<V>>, only: Option<int>)
    requires k in m && forall i :: 0 <= i < |ks| ==> ks[i] in m
    ensures SumLen(ks + [k], m, only) == SumLen(ks, m, only) + (if Counted(k, only) then |m[k]| else 0)
  {
    if ks == [] {
      assert ks + [k] == [k];
    } else {
      assert (ks + [k])[1..] == ks[1..] + [k];
      SumLenAppend(ks[1..], k, m, only);
    }
  }

  lemma SumLenWithout<V>(ks: seq<Key>, m: map<Key, seq<V>>, k: Key, v: seq<V>, only: Option<int>)
    requires k !in ks && forall i :: 0 <= i < |ks| ==> ks[i] in m
    ensures SumLen(ks, m[k := v], only) == SumLen(ks, m, only)
  {
    if ks != [] {
      SumLenWithout(ks[1..], m, k, v, only);
    }
  }

  /** Storing stack `v` under `k` changes the count by the change in that stack's
      length, when `k` is counted. */
  lemma TotalPut<V>(d: Dict<Key, seq<V>>, k: Key, v: seq<V>, only: Option<int>)
    requires Valid(d)
    ensures Total(Put(d, k, v), only) + (if Counted(k, only) then |Stack(d, k)| else 0)
         == Total(d, only) + (if Counted(k, only) then |v| else 0)
  {
    if k in d.values {
      SumLenUpdate(d.keys, d.values, k, v, only);
    } else {
      SumLenWithout(d.keys, d.values, k, v, only);
      SumLenAppend(d.keys, k, d.values[k := v], only);
    }
  }

  // ---------------------------------------------------------------------------
  // One event

  /** What the loop keeps true: the dicts are well formed, open spans are open,
      closed spans are closed, and each thread's depth is the number of its
      open spans across all keys. */
  ghost predicate Inv(st: State) {
    && WellFormed(st)
    && AllEnds(st.open, false)
    && AllEnds(st.closed, true)
    && (forall tid :: Depth(st, tid) == Total(st.open, Some(tid)))
  }

  predicate IsOpener(e: Event) {
    e.ph == "B" || e.ph == "X"
  }

  /** Every span stored in `d` is closed (`closed`) or open (`!closed`). */
  predicate AllEnds(d: Dict<Key, seq<Span>>, closed: bool) {
    forall k | k in d.values :: forall j | 0 <= j < |d.values[k]| :: d.values[k][j].end.Some? == closed
  }

  lemma PutKeepsEnds(d: Dict<Key, seq<Span>>, k: Key, v: seq<Span>, closed: bool)
    requires Valid(d) && AllEnds(d, closed)
    requires forall j :: 0 <= j < |v| ==> v[j].end.Some? == closed
    ensures AllEnds(Put(d, k, v), closed)
  {
  }

  predicate WellFormed(st: State) {
    Valid(st.open) && Valid(st.queued) && Valid(st.closed)
  }

  /** The `if event["ph"] == ...` dispatch. */
  function Apply(st: State, e: Event): (r: State)
    requires WellFormed(st)
    ensures WellFormed(r)
  {
    var k := KeyOf(e);
    var stack := Stack(st.open, k);
    if e.ph == "B" || e.ph == "X" then
      var started := st.(open := Put(st.open, k, stack + [Span(e.ts, None, Depth(st, e.tid))]),
                        depth := st.depth[e.tid := Depth(st, e.tid) + 1]);
      if e.ph == "X" then started.(queued := Put(st.queued, k, Stack(st.queued, k) + [e])) else started
    else if e.ph == "E" then
      if stack != [] && Last(stack).end.None? then
        st.(open := Put(st.open, k, stack[..|stack| - 1]),
            closed := Put(st.closed, k, Stack(st.closed, k) + [Last(stack).(end := Some(e.ts))]),
            depth := st.depth[e.tid := Depth(st, e.tid) - 1])
      else st.(warnings := st.warnings + [NoBegin(k)])
    else st.(warnings := st.warnings + [UnknownPhase(e)])
  }

  lemma DepthAfterPut<V>(st: State, st': State, k: Key, v: seq<Span>, newDepth: int)
    requires Inv(st) && Valid(st'.open)
    requires st'.open == Put(st.open, k, v) && st'.depth == st.depth[k.tid := newDepth]
    requires newDepth == Depth(st, k.tid) - |Stack(st.open, k)| + |v|
    ensures forall tid :: Depth(st', tid) == Total(st'.open, Some(tid))
  {
    forall tid
      ensures Depth(st', tid) == Total(st'.open, Some(tid))
    {
      TotalPut(st.open, k, v, Some(tid));
    }
  }

  lemma OpenerKeepsInv(st: State, e: Event)
    requires Inv(st) && IsOpener(e)
    ensures Inv(Apply(st, e))
    ensures Total(Apply(st, e).queued, None) == Total(st.queued, None) + (if e.ph == "X" then 1 else 0)
    ensures Total(Apply(st, e).open, None) + Total(Apply(st, e).closed, None)
         == Total(st.open, None) + Total(st.closed, None) + 1
  {
    var k := KeyOf(e);
    var stack := Stack(st.open, k);
    var r := Apply(st, e);
    TotalPut(st.queued, k, Stack(st.queued, k) + [e], None);
    var v := stack + [Span(e.ts, None, Depth(st, e.tid))];
    assert r.open == Put(st.open, k, v);
    DepthAfterPut<Span>(st, r, k, v, Depth(st, e.tid) + 1);
    TotalPut(st.open, k, v, None);
    PutKeepsEnds(st.open, k, v, false);
  }

  lemma CloserKeepsInv(st: State, e: Event)
    requires Inv(st) && e.ph == "E"
    requires Stack(st.open, KeyOf(e)) != []
    ensures Inv(Apply(st, e))
    ensures Apply(st, e).queued == st.queued
    ensures Total(Apply(st, e).open, None) + Total(Apply(st, e).closed, None)
         == Total(st.open, None) + Total(st.closed, None)
  {
    var k := KeyOf(e);
    var stack := Stack(st.open, k);
    assert Last(stack).end.None?;
    var r := Apply(st, e);
    var v := stack[..|stack| - 1];
    assert r.open == Put(st.open, k, v);
    DepthAfterPut<Span>(st, r, k, v, Depth(st, e.tid) - 1);
    TotalPut(st.open, k, v, None);
    PutKeepsEnds(st.open, k, v, false);
    var c := Stack(st.closed, k) + [Last(stack).(end := Some(e.ts))];
    assert r.closed == Put(st.closed, k, c);
    TotalPut(st.closed, k, c, None);
    PutKeepsEnds(st.closed, k, c, true);
  }

  /** Every event keeps the invariant. `B` and `X` add one open span to their
      thread, a matching `E` moves one from open to closed, and each `X` adds one
      queued event. */
  lemma ApplyKeepsInv(st: State, e: Event)
    requires Inv(st)
    ensures Inv(Apply(st, e))
    ensures Total(Apply(st, e).queued, None) == Total(st.queued, None) + (if e.ph == "X" then 1 else 0)
    ensures Total(Apply(st, e).open, None) + Total(Apply(st, e).closed, None)
         == Total(st.open, None) + Total(st.closed, None) + (if IsOpener(e) then 1 else 0)
  {
    if IsOpener(e) {
      OpenerKeepsInv(st, e);
    } else if e.ph == "E" && Stack(st.open, KeyOf(e)) != [] {
      CloserKeepsInv(st, e);
    }
  }

  /** Depths are never negative. */
  lemma DepthNonNegative(st: State, tid: int)
    requires Inv(st)
    ensures Depth(st, tid) >= 0
  {
  }

  /** An `E` closes the top open span of its key, at its `ts`, and lowers its
      thread's depth; with no open span it changes nothing but the warnings. */
  lemma EndClosesTop(st: State, e: Event)
    requires Inv(st) && e.ph == "E"
    ensures var k := KeyOf(e); var stack := Stack(st.open, k); var r := Apply(st, e);
      if stack != [] then
        && Stack(r.open, k) == stack[..|stack| - 1]
        && Stack(r.closed, k) == Stack(st.closed, k) + [Span(Last(stack).start, Some(e.ts), Last(stack).depth)]
        && Depth(r, e.tid) == Depth(st, e.tid) - 1
      else r == st.(warnings := st.warnings + [NoBegin(k)])
  {
    var k := KeyOf(e);
    var stack := Stack(st.open, k);
    if stack != [] {
      assert k in st.open.values;
      assert Last(stack).end.None?;
    }
  }

  /** A span opened by `B` or `X` records its thread's depth before the event,
      which the event then raises by one. */
  lemma OpenRecordsDepth(st: State, e: Event)
    requires Inv(st) && IsOpener(e)
    ensures var r := Apply(st, e);
      && Stack(r.open, KeyOf(e)) == Stack(st.open, KeyOf(e)) + [Span(e.ts, None, Depth(st, e.tid))]
      && Depth(r, e.tid) == Depth(st, e.tid) + 1
      && Total(r.open, Some(e.tid)) == Total(st.open, Some(e.tid)) + 1
  {
    ApplyKeepsInv(st, e);
  }

  // ---------------------------------------------------------------------------
  // The main loop

  /** The queue a synthetic `E` may be taken from before `next`: one on `next`'s
      thread whose last `X` ends strictly before `next` starts; any non-empty
      queue once the input is used up. */
  predicate Due(k: Key, q: seq<Event>, next: Option<Event>) {
    && q != []
    && (next.None? || (next.value.tid == k.tid && next.value.ts > Last(q).ts + Last(q).dur))
  }

  /** The `for` loop over `event_end_working_stacks`: the first due key. */
  function Select(ks: seq<Key>, m: map<Key, seq<Event>>, next: Option<Event>): (r: Option<nat>)
    requires forall i :: 0 <= i < |ks| ==> ks[i] in m
    ensures r.Some? ==> r.value < |ks| && Due(ks[r.value], m[ks[r.value]], next)
    ensures r.Some? ==> forall j :: 0 <= j < r.value ==> !Due(ks[j], m[ks[j]], next)
    ensures r.None? ==> forall j :: 0 <= j < |ks| ==> !Due(ks[j], m[ks[j]], next)
  {
    if ks == [] then None
    else if Due(ks[0], m[ks[0]], next) then Some(0)
    else
      match Select(ks[1..], m, next)
      case None => None
      case Some(i) => Some(i + 1)
  }

  /** The `E` made from a queued `X`: same key, at the `X`'s end. */
  function Synthetic(x: Event): Event {
    x.(ph := "E", ts := x.ts + x.dur)
  }

  /** How many of `events` open a span. */
  function Openers(events: seq<Event>): nat {
    if events == [] then 0 else Openers(events[..|events| - 1]) + (if IsOpener(events[|events| - 1]) then 1 else 0)
  }

  /** The `while True` loop from input position `index`. Each round either
      consumes one input event or one queued `X`, so the loop ends. */
  function Run(events: seq<Event>, index: nat, st: State): (r: State)
    requires index <= |events| && Inv(st)
    requires Total(st.open, None) + Total(st.closed, None) == Openers(events[..index])
    ensures Inv(r)
    ensures Total(r.queued, None) == 0
    ensures Total(r.open, None) + Total(r.closed, None) == Openers(events)
    decreases 2 * (|events| - index) + Total(st.queued, None)
  {
    var next := if index < |events| then Some(events[index]) else None;
    match Select(st.queued.keys, st.queued.values, next)
    case Some(i) =>
      var k := st.queued.keys[i];
      var q := st.queued.values[k];
      var st1 := st.(queued := Put(st.queued, k, q[..|q| - 1]));
      TotalPut(st.queued, k, q[..|q| - 1], None);
      assert Inv(st1);
      var e := Synthetic(Last(q));
      ApplyKeepsInv(st1, e);
      Run(events, index, Apply(st1, e))
    case None =>
      if index == |events| then
        QueuesDrained(st);
        assert events[..index] == events;
        st
      else
        ApplyKeepsInv(st, events[index]);
        assert events[..index + 1][..index] == events[..index];
        Run(events, index + 1, Apply(st, events[index]))
  }

  /** With the input used up and no queue due, every queue is empty. */
  lemma {:induction false} QueuesDrained(st: State)
    requires Valid(st.queued)
    requires Select(st.queued.keys, st.queued.values, None).None?
    ensures Total(st.queued, None) == 0
  {
    ZeroSum(st.queued.keys, st.queued.values);
  }

  lemma {:induction false} ZeroSum(ks: seq<Key>, m: map<Key, seq<Event>>)
    requires forall i :: 0 <= i < |ks| ==> ks[i] in m && m[ks[i]] == []
    ensures SumLen(ks, m, None) == 0
  {
    if ks != [] {
      ZeroSum(ks[1..], m);
    }
  }

  function Initial(): (st: State)
    ensures Inv(st)
  {
    State(Empty(), Empty(), Empty(), map[], [])
  }

  // ---------------------------------------------------------------------------
  // Output rows

  /** One row of `final_stack`. */
  datatype Row = Row(pid: int, tid: int, name: string, start: int, end: int, duration: int, y: int)

  predicate SortedByStart(s: seq<Span>) {
    forall i, j :: 0 <= i < j < |s| ==> s[i].start <= s[j].start
  }

  /** Insert `x` before the first span that does not start earlier. */
  function Insert(x: Span, s: seq<Span>): (r: seq<Span>)
    requires SortedByStart(s)
    ensures |r| == |s| + 1 && (r[0] == x || (s != [] && r[0] == s[0]))
    ensures SortedByStart(r)
  {
    if s == [] || x.start <= s[0].start then [x] + s
    else
      var t := Insert(x, s[1..]);
      assert forall j :: 0 < j < |t| ==> t[0].start <= t[j].start;
      [s[0]] + t
  }

  lemma {:induction false} InsertPermutes(x: Span, s: seq<Span>)
    requires SortedByStart(s)
    ensures multiset(Insert(x, s)) == multiset(s) + multiset{x}
  {
    if s != [] && x.start > s[0].start {
      InsertPermutes(x, s[1..]);
      assert s == [s[0]] + s[1..];
    }
  }

  /** `events.sort(key=lambda x: x["start"])`: a sorted permutation. */
  function SortByStart(s: seq<Span>): (r: seq<Span>)
    ensures SortedByStart(r) && multiset(r) == multiset(s)
  {
    if s == [] then []
    else
      var t := SortByStart(s[1..]);
      InsertPermutes(s[0], t);
      assert multiset(s) == multiset(s[1..]) + multiset{s[0]} by {
        assert s == [s[0]] + s[1..];
      }
      Insert(s[0], t)
  }

  function RowsOf(k: Key, spans: seq<Span>): (rows: seq<Row>)
    ensures |rows| <= |spans|
  {
    if spans == [] then []
    else
      var s := spans[0];
      var rest := RowsOf(k, spans[1..]);
      if s.end.Some? then
        [Row(k.pid, k.tid, k.name, s.start, s.end.value, s.end.value - s.start, -k.tid * 1000 - s.depth)] + rest
      else rest
  }

  function RowsFrom(ks: seq<Key>, closed: map<Key, seq<Span>>): seq<Row>
    requires forall i :: 0 <= i < |ks| ==> ks[i] in closed
  {
    if ks == [] then [] else RowsOf(ks[0], SortByStart(closed[ks[0]])) + RowsFrom(ks[1..], closed)
  }

  /** `process_trace_data`: the rows, and the warnings printed on the way. */
  function ProcessTrace(events: seq<Event>): (r: (seq<Row>, seq<Warning>))
  {
    var st := Run(events, 0, Initial());
    (RowsFrom(st.closed.keys, st.closed.values), st.warnings)
  }

  /** Rows made from closed spans: one per span, in the spans' order, with
      `duration == end - start` and `y == -tid*1000 - depth`. */
  lemma {:induction false} RowsOfClosed(k: Key, spans: seq<Span>)
    requires forall j :: 0 <= j < |spans| ==> spans[j].end.Some?
    ensures var rows := RowsOf(k, spans);
      && |rows| == |spans|
      && forall j :: 0 <= j < |rows| ==>
           && rows[j] == Row(k.pid, k.tid, k.name, spans[j].start, spans[j].end.value,
                             spans[j].end.value - spans[j].start, -k.tid * 1000 - spans[j].depth)
  {
    if spans != [] {
      RowsOfClosed(k, spans[1..]);
    }
  }

  /** A key's rows list all its closed spans, sorted by start. */
  lemma KeyRowsSorted(k: Key, spans: seq<Span>)
    requires forall j :: 0 <= j < |spans| ==> spans[j].end.Some?
    ensures var rows := RowsOf(k, SortByStart(spans));
      && |rows| == |spans|
      && (forall i, j :: 0 <= i < j < |rows| ==> rows[i].start <= rows[j].start)
      && (forall j :: 0 <= j < |rows| ==>
            && rows[j].duration == rows[j].end - rows[j].start
            && rows[j].y == -k.tid * 1000 - SortByStart(spans)[j].depth)
  {
    var sorted := SortByStart(spans);
    forall j | 0 <= j < |sorted| ensures sorted[j].end.Some? {
      assert sorted[j] in multiset(spans);
    }
    RowsOfClosed(k, sorted);
  }

  /** Every pushed span is eventually open or closed, every `X` gets its `E`, and
      depths stay in step with the open spans. */
  lemma ProcessTraceAccounts(events: seq<Event>)
    ensures var st := Run(events, 0, Initial());
      && Inv(st)
      && Total(st.queued, None) == 0
      && Total(st.open, None) + Total(st.closed, None) == Openers(events)
      && forall tid :: Depth(st, tid) >= 0
  {
    assert events[..0] == [];
  }
}
