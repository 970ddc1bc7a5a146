/** `async_file_load` of dashboard.py: follows a JSON-lines file, buffering
    what it input, and at each flush hands the whole data read so far, as a
    table with a fresh `index` column, to `create_component`.

    `readline()` is an input sequence: a parsed line, a line that is not JSON,
    or nothing new yet. A flush happens on every 1000th line and on a read that
    finds nothing new while something is pending; a read that finds nothing with
    nothing pending only sleeps. Any exception ends the task (the source's
    outer `except Exception`). */
module Ingester {
  import opened Wrappers
  import opened OrderedDict
  import opened Frame
  import opened Pipeline

  /** One line's JSON value: an object (one row), a list of objects (several
      rows), or anything else. */
  datatype Value = Object(rec: Record) | Rows(recs: seq<Record>) | Scalar

  datatype Read = Line(v: Value) | Malformed | NoData

  /** `cnt`, `updated`, `tmp_data` and `data`. */
  datatype State = State(cnt: nat, updated: bool, pending: seq<Value>, data: seq<Value>)

  /** What the loop keeps true: `updated` says whether anything is pending, and
      fewer values are pending than lines were counted since the last multiple
      of 1000. */
  predicate Inv(st: State) {
    && (st.updated <==> st.pending != [])
    && |st.pending| <= st.cnt % 1000
  }

  function RowCount(data: seq<Value>): nat {
    if data == [] then 0
    else (match data[0] case Object(_) => 1 case Rows(recs) => |recs| case Scalar => 0) + RowCount(data[1..])
  }

  predicate AllObjects(data: seq<Value>) {
    forall i | 0 <= i < |data| :: data[i].Object?
  }

  predicate AllRows(data: seq<Value>) {
    forall i | 0 <= i < |data| :: data[i].Rows?
  }

  function Objects(data: seq<Value>): (r: seq<Record>)
    requires AllObjects(data)
    ensures |r| == RowCount(data)
  {
    if data == [] then [] else [data[0].rec] + Objects(data[1..])
  }

  function Flatten(data: seq<Value>): (r: seq<Record>)
    requires AllRows(data)
    ensures |r| == RowCount(data)
  {
    if data == [] then [] else data[0].recs + Flatten(data[1..])
  }

  /** The table for the data so far: `pd.DataFrame(data)` when the first value
      is an object, else the concatenation of one table per value. A value of
      the other shape, or a scalar, makes pandas raise. */
  function Build(data: seq<Value>): (r: Result<Table, Exc>)
    requires data != []
    ensures r.Ok? ==> WF(r.value) && |r.value.rows| == RowCount(data)
    ensures r.Ok? <==> AllObjects(data) || AllRows(data)
  {
    if data[0].Object? then
      if AllObjects(data) then Ok(FromRecords(Objects(data))) else Err(ValueError("mixed values"))
    else if AllRows(data) then Ok(FromRecords(Flatten(data)))
    else Err(ValueError("DataFrame constructor not properly called"))
  }

  /** One rendering: the data handed on, the table built from it, and the page it produced. */
  datatype Flush = Flush(data: seq<Value>, table: Table, log: seq<UiEvent>)

  datatype Stop = BadLine | BadData(exc: Exc) | ComponentRaised(exc: Exc)

  datatype Outcome =
    | Stopped(flushes: seq<Flush>, why: Stop)      // the task ended
    | Waiting(flushes: seq<Flush>, st: State)      // still running when the input runs out

  /** The line values among `input`, in order. */
  function Values(input: seq<Read>): seq<Value> {
    if input == [] then []
    else (if input[0].Line? then [input[0].v] else []) + Values(input[1..])
  }

  /** What each rendering saw: all data read up to it, as a table with one row
      per record and the positional index column in front. */
  ghost predicate GoodFlush(f: Flush) {
    && f.data != []
    && WF(f.table)
    && |f.table.rows| == RowCount(f.data)
    && |f.table.columns| >= 1
    && (f.table.columns[0] == "index" || f.table.columns[0] == "level_0")
    && Column(f.table, f.table.columns[0]) == Positions(|f.table.rows|)
  }

  predicate Prefix<T(==)>(a: seq<T>, b: seq<T>) {
    |a| <= |b| && b[..|a|] == a
  }

  /** Earlier renderings saw a prefix of what later ones saw. */
  predicate Growing(flushes: seq<Flush>) {
    forall i, j :: 0 <= i < j < |flushes| ==> Prefix(flushes[i].data, flushes[j].data)
  }

  /** What the loop may assume of what it rendered before: the declaration is
      well formed, every rendering was good, and each saw a prefix of the next
      one and of the data read so far. */
  ghost predicate Ready(st: State, decl: Decl, flushes: seq<Flush>) {
    && DeclValid(decl)
    && (forall i | 0 <= i < |flushes| :: GoodFlush(flushes[i]))
    && Growing(flushes)
    && forall i | 0 <= i < |flushes| :: Prefix(flushes[i].data, st.data)
  }

  /** The flush: move pending to data, build, index and render. */
  function FlushNow(st: State, decl: Decl): (r: (State, Result<Flush, Stop>))
    requires st.pending != [] && DeclValid(decl)
    ensures r.0 == State(st.cnt, false, [], st.data + st.pending)
    ensures r.1.Ok? ==> GoodFlush(r.1.value) && r.1.value.data == r.0.data
  {
    var st2 := State(st.cnt, false, [], st.data + st.pending);
    var built := Build(st2.data);
    if built.Err? then (st2, Err(BadData(built.error)))
    else
      var indexed := ResetIndex(built.value);
      if indexed.Err? then (st2, Err(BadData(indexed.error)))
      else
        var c := CreateComponent(indexed.value, decl);
        if c.raised.Some? then (st2, Err(ComponentRaised(c.raised.value)))
        else (st2, Ok(Flush(st2.data, indexed.value, c.log)))
  }

  lemma ModStep(cnt: nat)
    ensures (cnt + 1) % 1000 == 0 || (cnt + 1) % 1000 == cnt % 1000 + 1
  {
  }

  /** The rendering that follows a flush, and the next state. */
  lemma FlushKeepsGrowing(flushes: seq<Flush>, st: State, f: Flush)
    requires Growing(flushes) && forall i | 0 <= i < |flushes| :: Prefix(flushes[i].data, st.data)
    requires f.data == st.data + st.pending
    ensures Growing(flushes + [f])
    ensures forall i | 0 <= i < |flushes + [f]| :: Prefix((flushes + [f])[i].data, f.data)
  {
    forall i | 0 <= i < |flushes|
      ensures Prefix(flushes[i].data, f.data)
    {
      assert f.data[..|st.data|] == st.data;
      assert f.data[..|flushes[i].data|] == st.data[..|flushes[i].data|];
    }
  }

  /** The `while` loop. */
  function Ingest(input: seq<Read>, decl: Decl, st: State, flushes: seq<Flush>): (r: Outcome)
    requires Inv(st) && Ready(st, decl, flushes)
    ensures |flushes| <= |r.flushes| && r.flushes[..|flushes|] == flushes
    ensures forall i | 0 <= i < |r.flushes| :: GoodFlush(r.flushes[i])
    ensures Growing(r.flushes)
    ensures r.Waiting? ==> Inv(r.st) && r.st.data + r.st.pending == st.data + st.pending + Values(input)
    ensures r.Waiting? ==> forall i | 0 <= i < |r.flushes| :: Prefix(r.flushes[i].data, r.st.data)
    decreases |input|
  {
    if input == [] then
      assert st.data + st.pending + Values(input) == st.data + st.pending;
      Waiting(flushes, st)
    else
      match input[0]
      case Malformed => Stopped(flushes, BadLine)
      case Line(v) =>
        var st1 := State(st.cnt + 1, true, st.pending + [v], st.data);
        ModStep(st.cnt);
        assert st1.data + st1.pending + Values(input[1..]) == st.data + st.pending + Values(input);
        if st1.cnt % 1000 > 0 then Ingest(input[1..], decl, st1, flushes)
        else Continue(input, decl, st1, flushes)
      case NoData =>
        if !st.updated then Ingest(input[1..], decl, st, flushes)
        else Continue(input, decl, st, flushes)
  }

  /** A flush triggered by `input[0]`, then the loop on the rest. */
  function Continue(input: seq<Read>, decl: Decl, st: State, flushes: seq<Flush>): (r: Outcome)
    requires input != [] && st.pending != [] && Ready(st, decl, flushes)
    ensures |flushes| <= |r.flushes| && r.flushes[..|flushes|] == flushes
    ensures forall i | 0 <= i < |r.flushes| :: GoodFlush(r.flushes[i])
    ensures Growing(r.flushes)
    ensures r.Waiting? ==> Inv(r.st) && r.st.data + r.st.pending == st.data + st.pending + Values(input[1..])
    ensures r.Waiting? ==> forall i | 0 <= i < |r.flushes| :: Prefix(r.flushes[i].data, r.st.data)
    ensures FlushNow(st, decl).1.Err? ==> r == Stopped(flushes, FlushNow(st, decl).1.error)
    ensures FlushNow(st, decl).1.Ok? ==> |r.flushes| > |flushes| && r.flushes[|flushes|] == FlushNow(st, decl).1.value
    decreases |input|, 0
  {
    var (st2, f) := FlushNow(st, decl);
    if f.Err? then Stopped(flushes, f.error)
    else
      FlushKeepsGrowing(flushes, st, f.value);
      var r := Ingest(input[1..], decl, st2, flushes + [f.value]);
      assert r.flushes[..|flushes|] == r.flushes[..|flushes| + 1][..|flushes|];
      assert r.flushes[|flushes|] == r.flushes[..|flushes| + 1][|flushes|];
      assert st2.data + st2.pending == st.data + st.pending;
      r
  }

  /** `async_file_load` from its initial state. */
  function FileLoad(input: seq<Read>, decl: Decl): Outcome
    requires DeclValid(decl)
  {
    Ingest(input, decl, State(0, false, [], []), [])
  }

  // ---------------------------------------------------------------------------
  // Properties

  /** A line that does not bring the count to a multiple of 1000 is buffered
      without a flush. */
  lemma LineBuffered(v: Value, rest: seq<Read>, decl: Decl, st: State, flushes: seq<Flush>)
    requires Inv(st) && Ready(st, decl, flushes)
    requires (st.cnt + 1) % 1000 != 0
    ensures Ingest([Line(v)] + rest, decl, st, flushes)
         == Ingest(rest, decl, State(st.cnt + 1, true, st.pending + [v], st.data), flushes)
  {
    ModStep(st.cnt);
    var st1 := State(st.cnt + 1, true, st.pending + [v], st.data);
    assert Inv(st1);
    var input := [Line(v)] + rest;
    assert input[0] == Line(v) && input[1..] == rest;
    assert st1.cnt % 1000 > 0;
  }

  /** The 1000th line since the last multiple flushes at once: the next
      rendering sees all data so far, that line included, unless the flush
      fails and ends the task. */
  lemma ThousandthLineFlushes(v: Value, rest: seq<Read>, decl: Decl, st: State, flushes: seq<Flush>)
    requires Inv(st) && Ready(st, decl, flushes)
    requires (st.cnt + 1) % 1000 == 0
    ensures var f := FlushNow(State(st.cnt + 1, true, st.pending + [v], st.data), decl).1;
      var r := Ingest([Line(v)] + rest, decl, st, flushes);
      if f.Err? then r == Stopped(flushes, f.error)
      else |r.flushes| > |flushes| && r.flushes[|flushes|] == f.value
           && f.value.data == st.data + st.pending + [v]
  {
    var st1 := State(st.cnt + 1, true, st.pending + [v], st.data);
    ReadyAfterLine(v, decl, st, flushes);
    ThousandthLineContinues([Line(v)] + rest, v, decl, st, flushes);
    assert Ingest([Line(v)] + rest, decl, st, flushes) == Continue([Line(v)] + rest, decl, st1, flushes);
  }

  lemma ThousandthLineContinues(input: seq<Read>, v: Value, decl: Decl, st: State, flushes: seq<Flush>)
    requires Inv(st) && Ready(st, decl, flushes)
    requires input != [] && input[0] == Line(v) && (st.cnt + 1) % 1000 == 0
    requires Ready(State(st.cnt + 1, true, st.pending + [v], st.data), decl, flushes)
    ensures Ingest(input, decl, st, flushes)
         == Continue(input, decl, State(st.cnt + 1, true, st.pending + [v], st.data), flushes)
  {
  }

  /** Reading a line leaves the data, and so what the loop may assume, alone. */
  lemma ReadyAfterLine(v: Value, decl: Decl, st: State, flushes: seq<Flush>)
    requires Ready(st, decl, flushes)
    ensures Ready(State(st.cnt + 1, true, st.pending + [v], st.data), decl, flushes)
  {
  }

  /** Finding nothing new flushes exactly when something is pending; otherwise
      the loop only sleeps. */
  lemma NoDataFlushesIffPending(rest: seq<Read>, decl: Decl, st: State, flushes: seq<Flush>)
    requires Inv(st) && Ready(st, decl, flushes)
    ensures Ingest([NoData] + rest, decl, st, flushes)
         == if st.pending == [] then Ingest(rest, decl, st, flushes) else Continue([NoData] + rest, decl, st, flushes)
  {
    assert ([NoData] + rest)[1..] == rest;
  }

  /** A flush hands on everything read so far, pending included, and empties
      the buffer. */
  lemma FlushHandsOnAll(st: State, decl: Decl)
    requires st.pending != [] && DeclValid(decl)
    ensures var (st2, f) := FlushNow(st, decl);
      && st2.pending == [] && !st2.updated && st2.data == st.data + st.pending
      && (f.Ok? ==> f.value.data == st.data + st.pending)
  {
  }

  /** A line that is not JSON ends the task, whatever follows. */
  lemma MalformedLineStops(rest: seq<Read>, decl: Decl, st: State, flushes: seq<Flush>)
    requires Inv(st) && Ready(st, decl, flushes)
    ensures Ingest([Malformed] + rest, decl, st, flushes) == Stopped(flushes, BadLine)
  {
    assert ([Malformed] + rest)[0] == Malformed;
  }

  /** Fewer than 1000 values are ever pending. */
  lemma PendingBelowThreshold(st: State)
    requires Inv(st)
    ensures |st.pending| < 1000
  {
  }
}
