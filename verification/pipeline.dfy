/** `create_component` of dashboard.py: runs a declaration's list of named
    operations over a working table and a single chart slot, then renders the
    chart (if any), a download button and, for small tables, a preview.

    Streamlit and plotly calls become events in an output log; a chart is an
    abstract value recording how it was built. A missing `funcs` field raises
    outside the `try` and reaches the caller; any exception inside the `try`
    abandons the remaining operations and the rendering and is reported. */
module Pipeline {
  import opened Wrappers
  import opened OrderedDict
  import opened Text
  import opened Frame

  /** A JSON value given as a keyword argument. */
  datatype Arg = AStr(s: string) | AInt(i: int) | ANull | AOther(truthy: bool)

  type Args = Dict<string, Arg>

  /** Python truthiness. */
  predicate Truthy(a: Arg) {
    match a
    case AStr(s) => s != []
    case AInt(i) => i != 0
    case ANull => false
    case AOther(t) => t
  }

  /** `str(a)`, as an f-string renders it. */
  function ArgText(a: Arg): string {
    match a
    case AStr(s) => s
    case AInt(i) => IntToString(i)
    case ANull => "None"
    case AOther(_) => "<value>"
  }

  /** One entry of `funcs`: `name` and `args`, either possibly absent. */
  datatype Op = Op(name: Option<string>, args: Option<Args>)

  /** A declaration file's fields. */
  datatype Decl = Decl(title: Option<string>, funcs: Option<seq<Op>>,
                       data: Option<seq<Record>>, refData: Option<RefData>)

  /** The `ref-data` object; `file` may be missing. */
  datatype RefData = RefData(file: Option<string>)

  datatype FigKind = Subplots | LineChart | ScatterChart

  /** A trace added by `add_scatter` / `add_bar`, with its x and y columns. */
  datatype Trace = Trace(bar: bool, x: seq<Cell>, y: seq<Cell>, args: Args)

  /** A chart: how it was made, from which table, and what was added to it since. */
  datatype Figure = Figure(kind: FigKind, args: Args, source: Option<Table>,
                           traces: seq<Trace>, layouts: seq<Args>)

  /** What the page shows, in order. */
  datatype UiEvent =
    | Wrote(table: Table)                  // st.write(df)
    | TableView(table: Table, args: Args)  // st.dataframe
    | Subheader(args: Args)
    | Metric(args: Args)
    | TopGraph(table: Table)               // create_top_graph(df)
    | UnknownFunc(name: string)            // st.error for an unknown name
    | Chart(fig: Figure)                   // st.plotly_chart
    | Download(table: Table, title: string)
    | Preview(table: Table)                // the "data" expander
    | Error(exc: Exc)                      // the traceback st.error

  /** The interpreter's state: the working table, the chart slot, the log. */
  datatype Run = Run(table: Table, fig: Option<Figure>, log: seq<UiEvent>)

  // ---------------------------------------------------------------------------
  // prepro.MA

  predicate Numeric(cells: seq<Cell>) {
    forall i | 0 <= i < |cells| :: cells[i].Null? || cells[i].Num?
  }

  function Sum(cells: seq<Cell>): real
    requires forall i | 0 <= i < |cells| :: cells[i].Num?
  {
    if cells == [] then 0.0 else cells[0].x + Sum(cells[1..])
  }

  /** `Series.rolling(window=w).mean()` with the default `min_periods == w`:
      position i averages positions i-w+1 .. i, and is null while fewer than
      `w` positions exist or when any of them is null. A zero window gives
      nothing but nulls. */
  function RollingMean(cells: seq<Cell>, w: nat): (r: seq<Cell>)
    requires Numeric(cells)
    ensures |r| == |cells|
    ensures forall i :: 0 <= i < |r| && i + 1 < w ==> r[i] == Null
    ensures forall i :: 0 <= i < |r| ==> r[i].Null? || r[i].Num?
  {
    seq(|cells|, i requires 0 <= i < |cells| =>
      if w == 0 || i + 1 < w then Null
      else
        var win := cells[i + 1 - w..i + 1];
        if exists j | 0 <= j < |win| :: win[j].Null? then Null else Num(Sum(win) / (w as real)))
  }

  const MAParams: set<string> := {"src", "window", "dst"}

  /** The column `prepro_MA` writes: `dst` if truthy, else `{src}(MA_{window})`. */
  function MADest(src: Arg, window: Arg, dst: Arg): string {
    if Truthy(dst) then ArgText(dst) else ArgText(src) + "(MA_" + ArgText(window) + ")"
  }

  /** `prepro_MA(df, **args)`. Unknown keyword arguments raise TypeError at the
      call; a falsy `src` leaves the table alone; a missing column raises
      KeyError; a window that is not a non-negative integer raises ValueError;
      a column holding non-numbers raises DataError. */
  function MovingAverage(t: Table, args: Args): (r: Result<Table, Exc>)
    requires WF(t) && Valid(args)
    ensures r.Ok? ==> WF(r.value) && |r.value.rows| == |t.rows|
  {
    if exists k | k in args.keys :: k !in MAParams then Err(TypeError("unexpected keyword argument"))
    else
      var src := GetOr(args, "src", ANull);
      var window := GetOr(args, "window", AInt(5));
      var dst := GetOr(args, "dst", ANull);
      if !Truthy(src) then Ok(t)
      else
        var name := MADest(src, window, dst);
        if !src.AStr? || src.s !in t.columns then Err(KeyError(ArgText(src)))
        else if !window.AInt? || window.i < 0 then Err(ValueError("window must be an integer 0 or greater"))
        else
          var cells := Column(t, src.s);
          if !Numeric(cells) then Err(DataError("No numeric types to aggregate"))
          else Ok(SetColumn(t, name, RollingMean(cells, window.i)))
  }

  // ---------------------------------------------------------------------------
  // The operations

  const KnownNames: set<string> := {
    "prepro.MA", "st.write", "st.dataframe", "st.subheader", "st.metric",
    "plotly.subplots.make_subplots", "px.line", "px.scatter", "update_layout",
    "add_scatter", "add_bar", "top"}

  /** `func["args"]` */
  function NeedArgs(op: Op): (r: Result<Args, Exc>)
    ensures r.Ok? <==> op.args.Some?
  {
    if op.args.Some? then Ok(op.args.value) else Err(KeyError("args"))
  }

  /** `df[func["args"][axis]]` */
  function ArgColumn(t: Table, args: Args, axis: string): (r: Result<seq<Cell>, Exc>)
    requires WF(t)
    ensures r.Ok? <==> axis in args.values && args.values[axis].AStr? && args.values[axis].s in t.columns
    ensures r.Ok? ==> r.value == Column(t, args.values[axis].s)
  {
    if axis !in args.values then Err(KeyError(axis))
    else
      var a := args.values[axis];
      if a.AStr? && a.s in t.columns then Ok(Column(t, a.s)) else Err(KeyError(ArgText(a)))
  }

  /** `add_scatter` / `add_bar`: the x and y columns are looked up before the
      chart is touched, so a missing column wins over a missing chart. */
  function AddTrace(s: Run, op: Op, bar: bool): (r: Result<Run, Exc>)
    requires WF(s.table)
    ensures r.Ok? ==> r.value.table == s.table && r.value.log == s.log && r.value.fig.Some?
    ensures s.fig.None? ==> r.Err?
  {
    var args :- NeedArgs(op);
    var xs :- ArgColumn(s.table, args, "x");
    var ys :- ArgColumn(s.table, args, "y");
    if s.fig.None? then Err(AttributeError("'NoneType' object has no attribute"))
    else
      var f := s.fig.value;
      Ok(s.(fig := Some(f.(traces := f.traces + [Trace(bar, xs, ys, args)]))))
  }

  /** A column that `add_scatter` / `add_bar` stored back into the arguments:
      not a column name, so the model keeps it as an opaque value. */
  const StoredColumn: Arg := AOther(true)

  /** `add_scatter` / `add_bar` exactly as written: `func["args"]["x"]` and then
      `func["args"]["y"]` are overwritten with the looked-up columns before the
      chart is touched. The arguments belong to the declaration, so the rewrite
      outlives the call; the result pairs the step's outcome with the operation
      as the declaration holds it afterwards. */
  function AddTraceAsWritten(s: Run, op: Op, bar: bool): (r: (Result<Run, Exc>, Op))
    requires WF(s.table) && (op.args.Some? ==> Valid(op.args.value))
    ensures r.1.name == op.name && (r.1.args.Some? <==> op.args.Some?)
  {
    if op.args.None? then (Err(KeyError("args")), op)
    else
      var args := op.args.value;
      match ArgColumn(s.table, args, "x")
      case Err(e) => (Err(e), op)
      case Ok(xs) =>
        var args1 := Put(args, "x", StoredColumn);
        match ArgColumn(s.table, args1, "y")
        case Err(e) => (Err(e), Op(op.name, Some(args1)))
        case Ok(ys) =>
          var args2 := Put(args1, "y", StoredColumn);
          var op2 := Op(op.name, Some(args2));
          if s.fig.None? then (Err(AttributeError("'NoneType' object has no attribute")), op2)
          else
            var f := s.fig.value;
            (Ok(s.(fig := Some(f.(traces := f.traces + [Trace(bar, xs, ys, args2)])))), op2)
  }

  /** On a declaration fresh from JSON the rewrite is invisible: the first call
      succeeds exactly when the model's `AddTrace` does, adding the same columns. */
  lemma AddTraceAsWrittenFirstCall(s: Run, op: Op, bar: bool)
    requires WF(s.table) && (op.args.Some? ==> Valid(op.args.value))
    ensures AddTraceAsWritten(s, op, bar).0.Ok? <==> AddTrace(s, op, bar).Ok?
    ensures AddTrace(s, op, bar).Ok? ==>
              var f := AddTrace(s, op, bar).value.fig.value;
              var g := AddTraceAsWritten(s, op, bar).0.value.fig.value;
              && |f.traces| == |g.traces| == |s.fig.value.traces| + 1
              && f.traces[|f.traces| - 1].x == g.traces[|g.traces| - 1].x
              && f.traces[|f.traces| - 1].y == g.traces[|g.traces| - 1].y
  {
  }

  /** The defect: once a call has succeeded, the declaration's `x` holds a
      column instead of a column name, so the same operation raises KeyError on
      any later table, whatever its columns. */
  lemma AddTraceAsWrittenSecondCallRaises(s1: Run, s2: Run, op: Op, bar: bool)
    requires WF(s1.table) && WF(s2.table) && (op.args.Some? ==> Valid(op.args.value))
    requires AddTraceAsWritten(s1, op, bar).0.Ok?
    ensures var op2 := AddTraceAsWritten(s1, op, bar).1;
      && op2.args.Some? && Valid(op2.args.value)
      && AddTraceAsWritten(s2, op2, bar).0 == Err(KeyError(ArgText(StoredColumn)))
  {
  }

  /** The intended behaviour, which the model's `AddTrace` has: the declaration
      is left alone, so a later table with the same columns and a chart gets
      the trace again. */
  lemma AddTraceRepeatable(s1: Run, s2: Run, op: Op, bar: bool)
    requires WF(s1.table) && WF(s2.table)
    requires AddTrace(s1, op, bar).Ok?
    requires s2.table.columns == s1.table.columns && s2.fig.Some?
    ensures AddTrace(s2, op, bar).Ok?
  {
  }

  /** Events only the rendering after the loop produces. */
  predicate IsRender(e: UiEvent) {
    e.Chart? || e.Download? || e.Preview?
  }

  /** No event of `log` is one of the three renderings. */
  predicate NoRender(log: seq<UiEvent>) {
    forall k :: 0 <= k < |log| ==> !IsRender(log[k])
  }

  /** One pass of the `for func in funcs` body. */
  function Step(s: Run, op: Op): (r: Result<Run, Exc>)
    requires WF(s.table) && (op.args.Some? ==> Valid(op.args.value))
    ensures r.Ok? ==> WF(r.value.table) && |r.value.table.rows| == |s.table.rows|
    ensures r.Ok? ==> |s.log| <= |r.value.log| <= |s.log| + 1 && r.value.log[..|s.log|] == s.log
    ensures r.Ok? ==> forall k :: |s.log| <= k < |r.value.log| ==> !IsRender(r.value.log[k])
  {
    if op.name.None? then Err(KeyError("name"))
    else
      var name := op.name.value;
      if name == "prepro.MA" then
        var args :- NeedArgs(op);
        var t :- MovingAverage(s.table, args);
        Ok(s.(table := t))
      else if name in FigureOps then Plot(s, op, name)
      else Display(s, op, name)
  }

  /** The names that build or change the figure in `fig`. */
  const FigureOps: set<string> :=
    {"plotly.subplots.make_subplots", "px.line", "px.scatter", "update_layout", "add_scatter", "add_bar"}

  /** The branches that write to the page at once: one event each, none of
      them a rendering of the figure. */
  function Display(s: Run, op: Op, name: string): (r: Result<Run, Exc>)
    requires WF(s.table) && (op.args.Some? ==> Valid(op.args.value))
    ensures r.Ok? ==> r.value.table == s.table && r.value.fig == s.fig
    ensures r.Ok? ==> |r.value.log| == |s.log| + 1 && r.value.log[..|s.log|] == s.log
    ensures r.Ok? ==> !IsRender(r.value.log[|s.log|])
  {
    if name == "st.write" then Ok(s.(log := s.log + [Wrote(s.table)]))
    else if name == "st.dataframe" then
      var args :- NeedArgs(op);
      Ok(s.(log := s.log + [TableView(s.table, args)]))
    else if name == "st.subheader" then
      var args :- NeedArgs(op);
      Ok(s.(log := s.log + [Subheader(args)]))
    else if name == "st.metric" then
      var args :- NeedArgs(op);
      Ok(s.(log := s.log + [Metric(args)]))
    else if name == "top" then Ok(s.(log := s.log + [TopGraph(s.table)]))
    else Ok(s.(log := s.log + [UnknownFunc(name)]))
  }

  /** The branches that build the figure or add to it; none writes to the page. */
  function Plot(s: Run, op: Op, name: string): (r: Result<Run, Exc>)
    requires WF(s.table) && (op.args.Some? ==> Valid(op.args.value))
    ensures r.Ok? ==> r.value.table == s.table && r.value.log == s.log
  {
    if name == "plotly.subplots.make_subplots" then
      var args :- NeedArgs(op);
      Ok(s.(fig := Some(Figure(Subplots, args, None, [], []))))
    else if name == "px.line" then
      var args :- NeedArgs(op);
      Ok(s.(fig := Some(Figure(LineChart, args, Some(s.table), [], []))))
    else if name == "px.scatter" then
      var args :- NeedArgs(op);
      Ok(s.(fig := Some(Figure(ScatterChart, args, Some(s.table), [], []))))
    else if name == "update_layout" then
      if s.fig.None? then Err(AttributeError("'NoneType' object has no attribute 'update_layout'"))
      else
        var args :- NeedArgs(op);
        var f := s.fig.value;
        Ok(s.(fig := Some(f.(layouts := f.layouts + [args]))))
    else if name == "add_scatter" then AddTrace(s, op, false)
    else AddTrace(s, op, true)
  }

  predicate ArgsValid(ops: seq<Op>) {
    forall i | 0 <= i < |ops| :: ops[i].args.Some? ==> Valid(ops[i].args.value)
  }

  /** A declaration whose operations all carry well-formed argument dicts. */
  predicate DeclValid(decl: Decl) {
    decl.funcs.Some? ==> ArgsValid(decl.funcs.value)
  }

  /** Where the `try` block's loop ends: after every operation, or at the first
      exception with the state it left. */
  datatype Outcome = Completed(run: Run) | Aborted(run: Run, exc: Exc)

  function RunOps(s: Run, ops: seq<Op>): (r: Outcome)
    requires WF(s.table) && ArgsValid(ops)
    ensures WF(r.run.table) && |r.run.table.rows| == |s.table.rows|
    ensures |s.log| <= |r.run.log| && r.run.log[..|s.log|] == s.log
    decreases |ops|
  {
    if ops == [] then Completed(s)
    else
      match Step(s, ops[0])
      case Err(e) => Aborted(s, e)
      case Ok(s1) =>
        var r := RunOps(s1, ops[1..]);
        assert r.run.log[..|s.log|] == r.run.log[..|s1.log|][..|s.log|];
        r
  }

  // ---------------------------------------------------------------------------
  // create_component

  /** The columns added when the table has `unixtime`; their timestamp values
      are not modelled. */
  function Enrich(t: Table): (r: Table)
    requires WF(t)
    ensures WF(r) && |r.rows| == |t.rows|
    ensures forall c :: c in t.columns ==> c in r.columns
  {
    if "unixtime" in t.columns then
      var other := seq(|t.rows|, i => Other);
      SetColumn(SetColumn(t, "datetime(utc)", other), "datetime(jst)", other)
    else t
  }

  /** What `create_component` leaves behind: the page's events, and the
      exception it raised to its caller, if any. */
  datatype Component = Component(log: seq<UiEvent>, raised: Option<Exc>)

  /** The rendering after the loop: the chart when one was made, the download
      button over the table without its `index` column, and the preview when
      the table has fewer than 1000 rows. */
  function Render(s: Run, title: string): (log: seq<UiEvent>)
    requires WF(s.table)
  {
    var shown := if "index" in s.table.columns then DropColumn(s.table, "index") else s.table;
    (if s.fig.Some? then [Chart(s.fig.value)] else [])
      + [Download(shown, title)]
      + (if |shown.rows| < 1000 then [Preview(shown)] else [])
  }

  function CreateComponent(t: Table, decl: Decl): (r: Component)
    requires WF(t)
    requires decl.funcs.Some? ==> ArgsValid(decl.funcs.value)
    ensures r.raised.Some? <==> decl.funcs.None?
  {
    var title := decl.title.GetOr("data");
    if decl.funcs.None? then Component([], Some(KeyError("funcs")))
    else
      match RunOps(Run(Enrich(t), None, []), decl.funcs.value)
      case Aborted(s, e) => Component(s.log + [Error(e)], None)
      case Completed(s) => Component(s.log + Render(s, title), None)
  }

  // ---------------------------------------------------------------------------
  // Properties

  /** Running `a + b` is running `a`, then `b` from where `a` left off; an
      exception in `a` means `b` never runs. */
  lemma {:induction false} RunOpsConcat(s: Run, a: seq<Op>, b: seq<Op>)
    requires WF(s.table) && ArgsValid(a) && ArgsValid(b)
    ensures ArgsValid(a + b)
    ensures RunOps(s, a + b) == match RunOps(s, a)
                                case Completed(s1) => RunOps(s1, b)
                                case Aborted(s1, e) => Aborted(s1, e)
    decreases |a|
  {
    assert ArgsValid(a + b) by {
      forall i | 0 <= i < |a + b| ensures (a + b)[i].args.Some? ==> Valid((a + b)[i].args.value) {
        if i < |a| { assert (a + b)[i] == a[i]; } else { assert (a + b)[i] == b[i - |a|]; }
      }
    }
    if a == [] {
      assert a + b == b;
    } else {
      assert (a + b)[0] == a[0];
      assert (a + b)[1..] == a[1..] + b;
      assert ArgsValid(a[1..]);
      match Step(s, a[0])
      case Err(e) =>
      case Ok(s1) =>
        RunOpsConcat(s1, a[1..], b);
    }
  }

  /** The first operation that raises ends the loop with the state before it;
      the operations after it have no effect. */
  lemma {:induction false} AbortSkipsRest(s: Run, ops: seq<Op>, i: nat, si: Run, e: Exc)
    requires WF(s.table) && ArgsValid(ops) && i < |ops|
    requires RunOps(s, ops[..i]) == Completed(si)
    requires Step(si, ops[i]) == Err(e)
    ensures RunOps(s, ops) == Aborted(si, e)
    decreases i
  {
    if i > 0 {
      var s1 := Step(s, ops[0]).value;
      assert ops[..i][1..] == ops[1..][..i - 1];
      AbortSkipsRest(s1, ops[1..], i - 1, si, e);
    }
  }

  /** An unknown name is reported and skipped; nothing else changes. */
  lemma UnknownNameSkipped(s: Run, name: string, args: Option<Args>)
    requires WF(s.table) && (args.Some? ==> Valid(args.value))
    requires name !in KnownNames
    ensures Step(s, Op(Some(name), args)) == Ok(Run(s.table, s.fig, s.log + [UnknownFunc(name)]))
  {
  }

  /** `make_subplots`, `px.line` and `px.scatter` replace whatever chart was in
      the slot; the table is untouched. */
  lemma ChartConstructorsReplaceSlot(s: Run, name: string, args: Args)
    requires WF(s.table) && Valid(args)
    requires name in {"plotly.subplots.make_subplots", "px.line", "px.scatter"}
    ensures var r := Step(s, Op(Some(name), Some(args)));
      && r.Ok? && r.value.table == s.table && r.value.log == s.log
      && r.value.fig.Some? && r.value.fig.value.args == args
      && r.value.fig.value.traces == [] && r.value.fig.value.layouts == []
  {
  }

  /** Changing the chart with no chart made yet raises, whatever the arguments. */
  lemma EditWithoutChartRaises(s: Run, name: string, args: Option<Args>)
    requires WF(s.table) && (args.Some? ==> Valid(args.value))
    requires name in {"update_layout", "add_scatter", "add_bar"} && s.fig.None?
    ensures Step(s, Op(Some(name), args)).Err?
  {
  }

  /** An exception inside the `try` is reported last; no chart, download button
      or preview follows it. */
  lemma AbortedRendersNothing(t: Table, decl: Decl)
    requires WF(t) && decl.funcs.Some? && ArgsValid(decl.funcs.value)
    requires RunOps(Run(Enrich(t), None, []), decl.funcs.value).Aborted?
    ensures var r := CreateComponent(t, decl);
      && r.raised.None?
      && r.log[|r.log| - 1] == Error(RunOps(Run(Enrich(t), None, []), decl.funcs.value).exc)
      && NoRender(r.log)
  {
    var ops := decl.funcs.value;
    var s := Run(Enrich(t), None, []);
    OpsEmitNoRender(s, ops);
    var o := RunOps(s, ops);
    assert CreateComponent(t, decl).log == o.run.log + [Error(o.exc)];
  }

  /** The operations never render a chart, a download or a preview themselves. */
  lemma {:induction false} OpsEmitNoRender(s: Run, ops: seq<Op>)
    requires WF(s.table) && ArgsValid(ops)
    requires NoRender(s.log)
    ensures NoRender(RunOps(s, ops).run.log)
    decreases |ops|
  {
    if ops != [] {
      match Step(s, ops[0])
      case Err(e) =>
        assert RunOps(s, ops) == Aborted(s, e);
      case Ok(s1) =>
        NoRenderExtends(s.log, s1.log);
        var r1 := RunOps(s1, ops[1..]);
        OpsEmitNoRender(s1, ops[1..]);
        assert RunOps(s, ops) == r1;
    }
  }

  lemma NoRenderExtends(a: seq<UiEvent>, b: seq<UiEvent>)
    requires NoRender(a)
    requires |a| <= |b| && b[..|a|] == a
    requires forall k :: |a| <= k < |b| ==> !IsRender(b[k])
    ensures NoRender(b)
  {
    forall k | 0 <= k < |a|
      ensures !IsRender(b[k])
    {
      assert b[k] == b[..|a|][k];
    }
  }

  /** After a clean run the page gets the chart exactly when the slot holds
      one, always the download button, and the preview exactly when the table
      has fewer than 1000 rows. */
  lemma CompletedRendering(t: Table, decl: Decl)
    requires WF(t) && decl.funcs.Some? && ArgsValid(decl.funcs.value)
    requires RunOps(Run(Enrich(t), None, []), decl.funcs.value).Completed?
    ensures var s := RunOps(Run(Enrich(t), None, []), decl.funcs.value).run;
      var r := CreateComponent(t, decl);
      var tail := r.log[|s.log|..];
      && r.raised.None?
      && (exists k :: 0 <= k < |tail| && tail[k].Chart?) == s.fig.Some?
      && (exists k :: 0 <= k < |tail| && tail[k].Download? && tail[k].title == decl.title.GetOr("data"))
      && (exists k :: 0 <= k < |tail| && tail[k].Preview?) == (|t.rows| < 1000)
  {
    var s := RunOps(Run(Enrich(t), None, []), decl.funcs.value).run;
    var r := CreateComponent(t, decl);
    var title := decl.title.GetOr("data");
    var shown := if "index" in s.table.columns then DropColumn(s.table, "index") else s.table;
    var chart: seq<UiEvent> := if s.fig.Some? then [Chart(s.fig.value)] else [];
    var preview: seq<UiEvent> := if |shown.rows| < 1000 then [Preview(shown)] else [];
    var tail := r.log[|s.log|..];
    assert tail == chart + [Download(shown, title)] + preview;
    assert |shown.rows| == |t.rows|;
    TailShape(chart, Download(shown, title), preview, tail);
  }

  /** Where the chart, the download button and the preview sit in what a
      component draws after its operations. */
  lemma TailShape(chart: seq<UiEvent>, d: UiEvent, preview: seq<UiEvent>, tail: seq<UiEvent>)
    requires |chart| <= 1 && forall k :: 0 <= k < |chart| ==> chart[k].Chart?
    requires |preview| <= 1 && forall k :: 0 <= k < |preview| ==> preview[k].Preview?
    requires d.Download? && tail == chart + [d] + preview
    ensures (exists k :: 0 <= k < |tail| && tail[k].Chart?) == (|chart| == 1)
    ensures exists k :: 0 <= k < |tail| && tail[k] == d
    ensures (exists k :: 0 <= k < |tail| && tail[k].Preview?) == (|preview| == 1)
  {
    assert tail[|chart|] == d;
    if |chart| == 1 {
      assert tail[0] == chart[0];
    } else {
      assert forall k :: 0 <= k < |tail| ==> !tail[k].Chart?;
    }
    if |preview| == 1 {
      assert tail[|tail| - 1] == preview[0];
    } else {
      assert forall k :: 0 <= k < |tail| ==> !tail[k].Preview?;
    }
  }

  /** Without a truthy `src`, `prepro.MA` leaves the table as it was. */
  lemma MovingAverageNoSource(t: Table, args: Args)
    requires WF(t) && Valid(args)
    requires forall k | k in args.keys :: k in MAParams
    requires !Truthy(GetOr(args, "src", ANull))
    ensures MovingAverage(t, args) == Ok(t)
  {
  }

  /** A successful moving average writes column `dst` (or `{src}(MA_{window})`,
      the window defaulting to 5) with the table's length, null for the first
      `window - 1` rows, and leaves every other column as it was. */
  lemma MovingAverageShape(t: Table, args: Args)
    requires WF(t) && Valid(args)
    requires MovingAverage(t, args).Ok? && Truthy(GetOr(args, "src", ANull))
    ensures var src := GetOr(args, "src", ANull);
      var window := GetOr(args, "window", AInt(5));
      var name := MADest(src, window, GetOr(args, "dst", ANull));
      var r := MovingAverage(t, args).value;
      && src.AStr? && window.AInt? && window.i >= 0
      && name in r.columns
      && (forall i :: 0 <= i < |r.rows| && i + 1 < window.i ==> Column(r, name)[i] == Null)
      && (forall d :: d in t.columns && d != name ==> d in r.columns && Column(r, d) == Column(t, d))
  {
  }

  /** When `dst` differs from `src`, running `prepro.MA` twice gives the same
      table as running it once. */
  lemma MovingAverageIdempotent(t: Table, args: Args)
    requires WF(t) && Valid(args)
    requires MovingAverage(t, args).Ok?
    requires MADest(GetOr(args, "src", ANull), GetOr(args, "window", AInt(5)), GetOr(args, "dst", ANull))
             != ArgText(GetOr(args, "src", ANull))
    ensures MovingAverage(MovingAverage(t, args).value, args) == MovingAverage(t, args)
  {
    var src := GetOr(args, "src", ANull);
    if Truthy(src) {
      var window := GetOr(args, "window", AInt(5));
      var name := MADest(src, window, GetOr(args, "dst", ANull));
      var once := MovingAverage(t, args).value;
      assert Column(once, src.s) == Column(t, src.s);
      var twice := MovingAverage(once, args).value;
      assert twice.columns == once.columns;
      assert twice.rows == once.rows by {
        forall i | 0 <= i < |once.rows| ensures twice.rows[i] == once.rows[i] {
          assert twice.rows[i][name] == Column(twice, name)[i] == Column(once, name)[i] == once.rows[i][name];
          forall d | d in once.columns ensures twice.rows[i][d] == once.rows[i][d] {
            if d != name {
              assert Column(twice, d)[i] == Column(once, d)[i];
            }
          }
        }
      }
    }
  }

  /** With `dst` naming `src` itself the average overwrites its own input, so a
      second run averages the average: over `v` = 1, 3 with window 2 the first
      run gives null, 2 and the second null, null. */
  lemma MovingAverageInPlaceTwice(t: Table, args: Args)
    requires t == Table(["v"], [map["v" := Num(1.0)], map["v" := Num(3.0)]])
    requires args == InPlaceArgs()
    ensures MovingAverage(t, args).Ok?
    ensures Column(MovingAverage(t, args).value, "v") == [Null, Num(2.0)]
    ensures MovingAverage(MovingAverage(t, args).value, args).Ok?
    ensures Column(MovingAverage(MovingAverage(t, args).value, args).value, "v") == [Null, Null]
  {
    assert WF(t);
    assert Column(t, "v") == [Num(1.0), Num(3.0)];
    InPlaceRun(t);
    PairMean(1.0, 3.0);
    var once := MovingAverage(t, args).value;
    InPlaceRun(once);
    assert RollingMean([Null, Num(2.0)], 2)[1] == Null by {
      assert [Null, Num(2.0)][0..2][0].Null?;
    }
  }

  /** `{"src": "v", "window": 2, "dst": "v"}` */
  function InPlaceArgs(): (r: Args)
    ensures Valid(r) && r.keys == ["src", "window", "dst"]
  {
    Dict(["src", "window", "dst"], map["src" := AStr("v"), "window" := AInt(2), "dst" := AStr("v")])
  }

  /** With `dst` equal to `src`, the average replaces the column it was taken over. */
  lemma InPlaceRun(t: Table)
    requires WF(t) && "v" in t.columns && Numeric(Column(t, "v"))
    ensures MovingAverage(t, InPlaceArgs()) == Ok(SetColumn(t, "v", RollingMean(Column(t, "v"), 2)))
  {
    var args := InPlaceArgs();
    assert forall k | k in args.keys :: k in MAParams;
    assert MADest(AStr("v"), AInt(2), AStr("v")) == "v";
  }

  lemma PairMean(a: real, b: real)
    ensures RollingMean([Num(a), Num(b)], 2) == [Null, Num((a + b) / 2.0)]
  {
    var cells := [Num(a), Num(b)];
    assert cells[0..2] == cells;
    assert Sum(cells) == a + b by {
      assert cells[1..] == [Num(b)] && cells[1..][1..] == [];
      assert Sum(cells[1..]) == b + Sum(cells[1..][1..]);
    }
  }

  /** On a constant column the moving average is that constant once the
      window is full. */
  lemma {:induction false} SumConstant(cells: seq<Cell>, c: real)
    requires forall i | 0 <= i < |cells| :: cells[i] == Num(c)
    ensures Sum(cells) == (|cells| as real) * c
  {
    if cells != [] {
      SumConstant(cells[1..], c);
    }
  }

  lemma RollingMeanOfConstant(cells: seq<Cell>, w: nat, c: real)
    requires forall i | 0 <= i < |cells| :: cells[i] == Num(c)
    ensures Numeric(cells)
    ensures forall i :: 0 <= i < |cells| && w >= 1 && i + 1 >= w ==> RollingMean(cells, w)[i] == Num(c)
  {
    forall i | 0 <= i < |cells| && w >= 1 && i + 1 >= w
      ensures RollingMean(cells, w)[i] == Num(c)
    {
      RollingMeanAtConstant(cells, w, c, i);
    }
  }

  lemma RollingMeanAtConstant(cells: seq<Cell>, w: nat, c: real, i: nat)
    requires forall i | 0 <= i < |cells| :: cells[i] == Num(c)
    requires i < |cells| && w >= 1 && i + 1 >= w
    ensures Numeric(cells)
    ensures RollingMean(cells, w)[i] == Num(c)
  {
    var win := cells[i + 1 - w..i + 1];
    assert forall j | 0 <= j < |win| :: win[j] == Num(c);
    SumConstant(win, c);
    assert |win| == w;
    assert Sum(win) / (w as real) == c;
  }

  lemma SumFive(w: seq<Cell>)
    requires |w| == 5 && forall i | 0 <= i < 5 :: w[i].Num?
    ensures Sum(w) == w[0].x + w[1].x + w[2].x + w[3].x + w[4].x
  {
    var w1 := w[1..];
    var w2 := w1[1..];
    var w3 := w2[1..];
    var w4 := w3[1..];
    assert w4[1..] == [];
    assert Sum(w4) == w[4].x + Sum(w4[1..]);
    assert Sum(w3) == w[3].x + Sum(w4);
    assert Sum(w2) == w[2].x + Sum(w3);
    assert Sum(w1) == w[1].x + Sum(w2);
  }

  /** The rolling mean of 1 .. 6 with window 5: four nulls, then 3 and 4. */
  lemma RollingMeanExample(cells: seq<Cell>)
    requires cells == [Num(1.0), Num(2.0), Num(3.0), Num(4.0), Num(5.0), Num(6.0)]
    ensures Numeric(cells)
    ensures RollingMean(cells, 5) == [Null, Null, Null, Null, Num(3.0), Num(4.0)]
  {
    var r := RollingMean(cells, 5);
    assert cells[0..5] == [Num(1.0), Num(2.0), Num(3.0), Num(4.0), Num(5.0)];
    assert cells[1..6] == [Num(2.0), Num(3.0), Num(4.0), Num(5.0), Num(6.0)];
    SumFive(cells[0..5]);
    SumFive(cells[1..6]);
    assert r[4] == Num(3.0);
    assert r[5] == Num(4.0);
  }
}
