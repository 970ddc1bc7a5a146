/** The part of a pandas `DataFrame` the dashboard relies on: a table built from
    a list of JSON objects, columns read, written and dropped by name, and
    `reset_index` adding a positional `index` column. Cell values are kept
    abstract beyond numbers, strings and nulls. */
module Frame {
  import opened Wrappers
  import opened OrderedDict

  /** A cell: NaN/None, a number, a string, or anything else (a boolean, a
      nested value, a timestamp). */
  datatype Cell = Null | Num(x: real) | Str(s: string) | Other

  /** One JSON object: its keys in document order. */
  type Record = Dict<string, Cell>

  /** The exceptions the modelled pandas and Python operations raise. */
  datatype Exc =
    | KeyError(key: string)
    | TypeError(what: string)
    | ValueError(what: string)
    | AttributeError(what: string)
    | DataError(what: string)

  /** A table: its column names in order, and one row per record mapping every
      column to its cell. */
  datatype Table = Table(columns: seq<string>, rows: seq<map<string, Cell>>)

  ghost predicate WF(t: Table) {
    && Distinct(t.columns)
    && forall i, c :: 0 <= i < |t.rows| ==> (c in t.rows[i] <==> c in t.columns)
  }

  /** Extend `acc` with the keys of `ks` it does not list yet, in order. */
  function AddNames(acc: seq<string>, ks: seq<string>): (r: seq<string>)
    requires Distinct(acc)
    ensures Distinct(r) && |acc| <= |r| && r[..|acc|] == acc
    ensures forall c :: c in r <==> c in acc || c in ks
    decreases |ks|
  {
    if ks == [] then acc
    else if ks[0] in acc then AddNames(acc, ks[1..])
    else
      var r := AddNames(acc + [ks[0]], ks[1..]);
      assert r[..|acc|] == (acc + [ks[0]])[..|acc|];
      r
  }

  /** Extend `acc` with the keys of each record in turn. */
  function ColumnsFrom(acc: seq<string>, recs: seq<Record>): (r: seq<string>)
    requires Distinct(acc)
    ensures Distinct(r) && |acc| <= |r| && r[..|acc|] == acc
    ensures forall c :: c in r <==> c in acc || exists i :: 0 <= i < |recs| && c in recs[i].keys
    decreases |recs|
  {
    if recs == [] then acc
    else
      var next := AddNames(acc, recs[0].keys);
      var r := ColumnsFrom(next, recs[1..]);
      assert r[..|acc|] == r[..|next|][..|acc|];
      forall c
        ensures c in r <==> c in acc || exists i :: 0 <= i < |recs| && c in recs[i].keys
      {
        if exists i :: 0 <= i < |recs| && c in recs[i].keys {
          var i :| 0 <= i < |recs| && c in recs[i].keys;
          if i > 0 {
            assert recs[1..][i - 1] == recs[i];
          }
        }
        if exists i :: 0 <= i < |recs[1..]| && c in recs[1..][i].keys {
          var i :| 0 <= i < |recs[1..]| && c in recs[1..][i].keys;
          assert recs[i + 1] == recs[1..][i];
        }
      }
      r
  }

  /** The columns of `pd.DataFrame(records)`: every key, in order of first appearance. */
  function ColumnsOf(recs: seq<Record>): (r: seq<string>)
    ensures Distinct(r)
    ensures forall c :: c in r <==> exists i :: 0 <= i < |recs| && c in recs[i].keys
  {
    ColumnsFrom([], recs)
  }

  /** The cell a record gives column `c`: its value, or NaN when absent. */
  function CellOf(rec: Record, c: string): Cell {
    GetOr(rec, c, Null)
  }

  /** `pd.DataFrame(records)` for a list of JSON objects. */
  function FromRecords(recs: seq<Record>): (t: Table)
    ensures WF(t)
    ensures t.columns == ColumnsOf(recs) && |t.rows| == |recs|
    ensures forall i, c :: 0 <= i < |recs| && c in t.rows[i] ==> t.rows[i][c] == CellOf(recs[i], c)
  {
    var cols := ColumnsOf(recs);
    Table(cols, seq(|recs|, i requires 0 <= i < |recs| => map c | c in cols :: CellOf(recs[i], c)))
  }

  /** `df[c]` as a list of cells. */
  function Column(t: Table, c: string): (r: seq<Cell>)
    requires WF(t) && c in t.columns
    ensures |r| == |t.rows| && forall i :: 0 <= i < |r| ==> r[i] == t.rows[i][c]
  {
    seq(|t.rows|, i requires 0 <= i < |t.rows| => t.rows[i][c])
  }

  /** `df[c] = values`: an existing column keeps its place, a new one goes last. */
  function SetColumn(t: Table, c: string, values: seq<Cell>): (r: Table)
    requires WF(t) && |values| == |t.rows|
    ensures WF(r) && |r.rows| == |t.rows|
    ensures c in t.columns ==> r.columns == t.columns
    ensures c !in t.columns ==> r.columns == t.columns + [c]
    ensures Column(r, c) == values
    ensures forall d :: d in t.columns && d != c ==> Column(r, d) == Column(t, d)
  {
    var cols := if c in t.columns then t.columns else t.columns + [c];
    var r := Table(cols, seq(|t.rows|, i requires 0 <= i < |t.rows| => t.rows[i][c := values[i]]));
    assert Distinct(cols);
    r
  }

  /** `df.drop([c], axis='columns')` */
  function DropColumn(t: Table, c: string): (r: Table)
    requires WF(t)
    ensures WF(r) && |r.rows| == |t.rows|
    ensures forall d :: d in r.columns <==> d in t.columns && d != c
    ensures forall d :: d in r.columns ==> Column(r, d) == Column(t, d)
  {
    var cols := Filter(t.columns, c);
    Table(cols, seq(|t.rows|, i requires 0 <= i < |t.rows| => t.rows[i] - {c}))
  }

  function Filter(s: seq<string>, c: string): (r: seq<string>)
    requires Distinct(s)
    ensures Distinct(r) && forall d :: d in r <==> d in s && d != c
  {
    if s == [] then []
    else if s[0] == c then Filter(s[1..], c)
    else
      var t := Filter(s[1..], c);
      assert s[0] !in t;
      [s[0]] + t
  }

  /** The row positions 0 .. n-1 as cells. */
  function Positions(n: nat): (r: seq<Cell>)
    ensures |r| == n && forall i :: 0 <= i < n ==> r[i] == Num(i as real)
  {
    seq(n, i => Num(i as real))
  }

  /** `df.reset_index()` on a table with the default positional index: the
      index becomes the first column, named `index`, or `level_0` when `index`
      is taken; with both taken pandas raises. */
  function ResetIndex(t: Table): (r: Result<Table, Exc>)
    requires WF(t)
    ensures r.Err? <==> "index" in t.columns && "level_0" in t.columns
    ensures r.Ok? ==>
              var name := if "index" in t.columns then "level_0" else "index";
              && WF(r.value)
              && r.value.columns == [name] + t.columns
              && Column(r.value, name) == Positions(|t.rows|)
              && forall d :: d in t.columns ==> Column(r.value, d) == Column(t, d)
  {
    if "index" in t.columns && "level_0" in t.columns then Err(ValueError("cannot insert level_0, already exists"))
    else
      var name := if "index" in t.columns then "level_0" else "index";
      var cells := Positions(|t.rows|);
      var r := Table([name] + t.columns, seq(|t.rows|, i requires 0 <= i < |t.rows| => t.rows[i][name := cells[i]]));
      assert Column(r, name) == cells;
      Ok(r)
  }
}
