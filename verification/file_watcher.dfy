/** The polling change detector of file_watcher.py: it diffs the previous and the
    current path -> mtime snapshots, labels every path `new`, `updated`,
    `unchanged` or `deleted`, and then keeps the current snapshot for the next
    poll. The glob expansion and `os.path.getmtime` are inputs: the sorted list
    of matching paths and a partial map of readable modification times. */
module FileWatcher {
  import opened Wrappers
  import opened OrderedDict

  type Path = string

  /** `os.path.getmtime` gives a float; the watcher only ever compares two of
      them with `!=`. */
  type MTime = real

  /** `previous_mod_times` / `current_mod_times`: an insertion-ordered dict. */
  type Snapshot = Dict<Path, MTime>

  datatype Status = New | Updated | Unchanged | Deleted {
    /** The literal stored under `'status'`. */
    function Name(): string {
      match this
      case New => "new"
      case Updated => "updated"
      case Unchanged => "unchanged"
      case Deleted => "deleted"
    }
  }

  /** One item of the dict `_compare_file_dicts` returns:
      `changes[path] == {'status': status, 'mod_time': modTime}`. */
  datatype Change = Change(path: Path, status: Status, modTime: Option<MTime>)

  function Paths(r: seq<Change>): (ps: seq<Path>)
    ensures |ps| == |r|
    ensures forall i :: 0 <= i < |r| ==> ps[i] == r[i].path
  {
    seq(|r|, i requires 0 <= i < |r| => r[i].path)
  }

  lemma PathsConcat(a: seq<Change>, b: seq<Change>)
    ensures Paths(a + b) == Paths(a) + Paths(b)
  {
  }

  /** `p` is reported with status `s` in the change list `r`. */
  predicate Reported(r: seq<Change>, p: Path, s: Status) {
    exists i :: 0 <= i < |r| && r[i].path == p && r[i].status == s
  }

  /** The status of a path present in the current snapshot (the if-chain of the
      first loop); a backdated time is still a difference. */
  function CurrentStatus(prev: map<Path, MTime>, p: Path, t: MTime): Status {
    if p !in prev then New
    else if prev[p] != t then Updated
    else Unchanged
  }

  /** The first loop, over `current_dict.items()` in insertion order. */
  function ClassifyCurrent(prev: map<Path, MTime>, order: seq<Path>, cur: map<Path, MTime>): (r: seq<Change>)
    requires forall p <- order :: p in cur
    ensures |r| == |order|
  {
    if order == [] then []
    else
      var p := order[0];
      [Change(p, CurrentStatus(prev, p, cur[p]), Some(cur[p]))] + ClassifyCurrent(prev, order[1..], cur)
  }

  /** The first loop reports each current path, in order, with its status and time. */
  lemma {:induction false} ClassifyCurrentSpec(prev: map<Path, MTime>, order: seq<Path>, cur: map<Path, MTime>)
    requires forall p <- order :: p in cur
    ensures var r := ClassifyCurrent(prev, order, cur);
            forall i :: 0 <= i < |r| ==>
              r[i] == Change(order[i], CurrentStatus(prev, order[i], cur[order[i]]), Some(cur[order[i]]))
    decreases |order|
  {
    if order != [] {
      ClassifyCurrentSpec(prev, order[1..], cur);
      var r := ClassifyCurrent(prev, order, cur);
      var rest := ClassifyCurrent(prev, order[1..], cur);
      forall i | 1 <= i < |r|
        ensures r[i] == rest[i - 1] && order[i] == order[1..][i - 1]
      {
      }
    }
  }

  /** The second loop, over the previous keys in insertion order: every key the
      current snapshot lacks is reported deleted with no modification time. */
  function ListDeleted(order: seq<Path>, cur: map<Path, MTime>): (r: seq<Change>)
    ensures |r| <= |order|
  {
    if order == [] then []
    else
      var rest := ListDeleted(order[1..], cur);
      if order[0] in cur then rest
      else [Change(order[0], Deleted, None)] + rest
  }

  /** The second loop reports only vanished paths, as deleted with no time. */
  lemma {:induction false} ListDeletedEntries(order: seq<Path>, cur: map<Path, MTime>)
    ensures var r := ListDeleted(order, cur);
      forall i :: 0 <= i < |r| ==>
        r[i].status == Deleted && r[i].modTime == None && r[i].path in order && r[i].path !in cur
    decreases |order|
  {
    if order != [] {
      ListDeletedEntries(order[1..], cur);
      var rest := ListDeleted(order[1..], cur);
      var r := ListDeleted(order, cur);
      forall i | 0 <= i < |rest|
        ensures rest[i].path in order
      {
        assert ListDeleted(order[1..], cur)[i].path in order[1..];
        var j :| 0 <= j < |order[1..]| && order[1..][j] == rest[i].path;
        assert order[j + 1] == rest[i].path;
      }
      if order[0] !in cur {
        assert forall i | 1 <= i < |r| :: r[i] == rest[i - 1];
      }
    }
  }

  /** The second loop reports every vanished path. */
  lemma {:induction false} ListDeletedCovers(order: seq<Path>, cur: map<Path, MTime>)
    ensures forall p :: p in order && p !in cur ==> p in Paths(ListDeleted(order, cur))
    decreases |order|
  {
    if order != [] {
      ListDeletedCovers(order[1..], cur);
      var rest := ListDeleted(order[1..], cur);
      var r := ListDeleted(order, cur);
      assert forall p :: p in order ==> p == order[0] || p in order[1..];
      if order[0] !in cur {
        assert Paths(r) == [order[0]] + Paths(rest);
      }
    }
  }

  /** The second loop reports each vanished path once. */
  lemma {:induction false} ListDeletedDistinct(order: seq<Path>, cur: map<Path, MTime>)
    requires Distinct(order)
    ensures Distinct(Paths(ListDeleted(order, cur)))
    decreases |order|
  {
    if order != [] {
      assert Distinct(order[1..]);
      ListDeletedDistinct(order[1..], cur);
      ListDeletedEntries(order[1..], cur);
      var rest := ListDeleted(order[1..], cur);
      var r := ListDeleted(order, cur);
      if order[0] !in cur {
        assert Paths(r) == [order[0]] + Paths(rest);
        forall i | 0 <= i < |rest|
          ensures rest[i].path != order[0]
        {
          assert ListDeleted(order[1..], cur)[i].path in order[1..];
          var j :| 0 <= j < |order[1..]| && order[1..][j] == rest[i].path;
          assert order[j + 1] == rest[i].path;
        }
        assert order[0] !in Paths(rest);
      }
    }
  }

  /** The second loop reports exactly the vanished paths, once each, as deleted. */
  lemma ListDeletedSpec(order: seq<Path>, cur: map<Path, MTime>)
    ensures var r := ListDeleted(order, cur);
      && (forall i :: 0 <= i < |r| ==>
            r[i].status == Deleted && r[i].modTime == None && r[i].path in order && r[i].path !in cur)
      && (forall p :: p in order && p !in cur ==> p in Paths(r))
      && (Distinct(order) ==> Distinct(Paths(r)))
  {
    ListDeletedEntries(order, cur);
    ListDeletedCovers(order, cur);
    if Distinct(order) {
      ListDeletedDistinct(order, cur);
    }
  }

  /** A change labels its path as the two snapshots say: `new` when only the
      current one holds it, `deleted` when only the previous one does, and
      `updated` or `unchanged` by whether the two times differ; all but a
      deletion carry the current time. */
  predicate Labelled(prev: map<Path, MTime>, cur: map<Path, MTime>, c: Change) {
    match c.status
    case New => c.path in cur && c.path !in prev && c.modTime == Some(cur[c.path])
    case Updated => c.path in cur && c.path in prev && prev[c.path] != cur[c.path] && c.modTime == Some(cur[c.path])
    case Unchanged => c.path in cur && c.path in prev && prev[c.path] == cur[c.path] && c.modTime == Some(cur[c.path])
    case Deleted => c.path in prev && c.path !in cur && c.modTime == None
  }

  /** `_compare_file_dicts(prev_dict, current_dict)`, with the dict it builds
      written as its items in insertion order: the first loop over the current
      snapshot, then the second over the previous one. */
  function CompareFileDicts(prev: Snapshot, cur: Snapshot): (r: seq<Change>)
    requires Valid(cur)
  {
    ClassifyCurrent(prev.values, cur.keys, cur.values) + ListDeleted(prev.keys, cur.values)
  }

  /** What `_compare_file_dicts` reports: one entry per path of either
      snapshot, each labelled by the four-way comparison, the current paths
      first and in their order. */
  lemma CompareFileDictsSpec(prev: Snapshot, cur: Snapshot)
    requires Valid(prev) && Valid(cur)
    ensures var r := CompareFileDicts(prev, cur);
      && Distinct(Paths(r))
      && (forall p :: p in Paths(r) <==> p in prev.values || p in cur.values)
      && (forall i :: 0 <= i < |r| ==> Labelled(prev.values, cur.values, r[i]))
      && |cur.keys| <= |r| && Paths(r)[..|cur.keys|] == cur.keys
  {
    ComparePaths(prev, cur);
    CompareStatuses(prev, cur);
  }

  lemma ComparePaths(prev: Snapshot, cur: Snapshot)
    requires Valid(prev) && Valid(cur)
    ensures
      var r := ClassifyCurrent(prev.values, cur.keys, cur.values) + ListDeleted(prev.keys, cur.values);
      && Distinct(Paths(r))
      && (forall p :: p in Paths(r) <==> p in prev.values || p in cur.values)
      && |cur.keys| <= |r| && Paths(r)[..|cur.keys|] == cur.keys
  {
    var front := ClassifyCurrent(prev.values, cur.keys, cur.values);
    var back := ListDeleted(prev.keys, cur.values);
    ListDeletedSpec(prev.keys, cur.values);
    PathsConcat(front, back);
    FrontPaths(prev, cur);
    var pb := Paths(back);
    assert Distinct(pb);
    DistinctConcat(cur.keys, pb, cur.values.Keys);
    CompareMembers(cur.keys, pb, prev, cur);
    assert (cur.keys + pb)[..|cur.keys|] == cur.keys;
  }

  /** The first loop visits the current paths in their order. */
  lemma FrontPaths(prev: Snapshot, cur: Snapshot)
    requires Valid(cur)
    ensures Paths(ClassifyCurrent(prev.values, cur.keys, cur.values)) == cur.keys
  {
    ClassifyCurrentSpec(prev.values, cur.keys, cur.values);
    var ps := Paths(ClassifyCurrent(prev.values, cur.keys, cur.values));
    assert |ps| == |cur.keys|;
    assert forall i | 0 <= i < |ps| :: ps[i] == cur.keys[i];
  }

  /** Two duplicate-free sequences, one inside `inside` and the other outside
      it, join without duplicates. */
  lemma DistinctConcat<T>(a: seq<T>, b: seq<T>, inside: set<T>)
    requires Distinct(a) && Distinct(b)
    requires forall i | 0 <= i < |a| :: a[i] in inside
    requires forall j | 0 <= j < |b| :: b[j] !in inside
    ensures Distinct(a + b)
  {
    var ab := a + b;
    forall i, j | 0 <= i < j < |ab|
      ensures ab[i] != ab[j]
    {
      if j >= |a| && i < |a| {
        assert ab[i] == a[i] && ab[j] == b[j - |a|];
      } else if i >= |a| {
        assert ab[i] == b[i - |a|] && ab[j] == b[j - |a|];
      }
    }
  }

  lemma CompareMembers(front: seq<Path>, back: seq<Path>, prev: Snapshot, cur: Snapshot)
    requires Valid(prev) && Valid(cur) && front == cur.keys
    requires forall p :: p in prev.values && p !in cur.values ==> p in back
    requires forall p | p in back :: p in prev.values
    ensures forall p :: p in front + back <==> p in prev.values || p in cur.values
  {
  }

  lemma CompareStatuses(prev: Snapshot, cur: Snapshot)
    requires Valid(prev) && Valid(cur)
    ensures
      var r := ClassifyCurrent(prev.values, cur.keys, cur.values) + ListDeleted(prev.keys, cur.values);
      forall i :: 0 <= i < |r| ==> Labelled(prev.values, cur.values, r[i])
  {
    var front := ClassifyCurrent(prev.values, cur.keys, cur.values);
    var back := ListDeleted(prev.keys, cur.values);
    FrontLabelled(prev, cur);
    BackLabelled(prev, cur);
    var r := front + back;
    forall i | 0 <= i < |r|
      ensures Labelled(prev.values, cur.values, r[i])
    {
      if i < |front| {
        assert Labelled(prev.values, cur.values, ClassifyCurrent(prev.values, cur.keys, cur.values)[i]);
        assert r[i] == front[i];
      } else {
        assert Labelled(prev.values, cur.values, ListDeleted(prev.keys, cur.values)[i - |front|]);
        assert r[i] == back[i - |front|];
      }
    }
  }

  lemma FrontLabelled(prev: Snapshot, cur: Snapshot)
    requires Valid(cur)
    ensures var front := ClassifyCurrent(prev.values, cur.keys, cur.values);
            forall i :: 0 <= i < |front| ==> Labelled(prev.values, cur.values, front[i])
  {
    var front := ClassifyCurrent(prev.values, cur.keys, cur.values);
    ClassifyCurrentSpec(prev.values, cur.keys, cur.values);
    forall i | 0 <= i < |front|
      ensures Labelled(prev.values, cur.values, front[i])
    {
      var p := cur.keys[i];
      assert front[i] == Change(p, CurrentStatus(prev.values, p, cur.values[p]), Some(cur.values[p]));
    }
  }

  lemma BackLabelled(prev: Snapshot, cur: Snapshot)
    requires Valid(prev)
    ensures var back := ListDeleted(prev.keys, cur.values);
            forall i :: 0 <= i < |back| ==> Labelled(prev.values, cur.values, back[i])
  {
    var back := ListDeleted(prev.keys, cur.values);
    ListDeletedEntries(prev.keys, cur.values);
    forall i | 0 <= i < |back|
      ensures Labelled(prev.values, cur.values, back[i])
    {
      assert ListDeleted(prev.keys, cur.values)[i].path in prev.keys;
    }
  }

  /** The watcher object: the glob pattern and `previous_mod_times`. */
  datatype Watcher = Watcher(pattern: string, previous: Snapshot)

  function Init(pattern: string): (w: Watcher)
    ensures Valid(w.previous) && w.previous.values == map[]
  {
    Watcher(pattern, Empty())
  }

  /** `_get_file_modification_times` continuing from the partial dict `acc`:
      `getmtime` on each file in turn; the first file whose metadata cannot be
      read raises, reported as `Err(file)`. */
  function ModTimesFrom(acc: Snapshot, files: seq<Path>, mtime: map<Path, MTime>): (r: Result<Snapshot, Path>)
    requires Valid(acc)
    decreases |files|
    ensures r.Ok? <==> forall p <- files :: p in mtime
    ensures r.Err? ==> r.error in files && r.error !in mtime
    ensures r.Ok? ==> Valid(r.value)
    ensures r.Ok? ==> forall p :: p in r.value.values <==> p in acc.values || p in files
    ensures r.Ok? ==> forall p :: p in files ==> r.value.values[p] == mtime[p]
    ensures r.Ok? ==> forall p :: p in acc.values && p !in files ==> r.value.values[p] == acc.values[p]
  {
    if files == [] then Ok(acc)
    else if files[0] !in mtime then Err(files[0])
    else ModTimesFrom(Put(acc, files[0], mtime[files[0]]), files[1..], mtime)
  }

  /** Distinct new files are appended to the dict in the order they are listed. */
  lemma {:induction false} ModTimesFromOrder(acc: Snapshot, files: seq<Path>, mtime: map<Path, MTime>)
    requires Valid(acc)
    requires ModTimesFrom(acc, files, mtime).Ok?
    requires Distinct(files) && forall p <- files :: p !in acc.values
    ensures ModTimesFrom(acc, files, mtime).value.keys == acc.keys + files
    decreases |files|
  {
    if files != [] {
      assert files[0] in mtime;
      var next := Put(acc, files[0], mtime[files[0]]);
      assert ModTimesFrom(acc, files, mtime) == ModTimesFrom(next, files[1..], mtime);
      assert Distinct(files[1..]);
      assert forall p <- files[1..] :: p != files[0];
      ModTimesFromOrder(next, files[1..], mtime);
      assert next.keys == acc.keys + [files[0]];
      AppendCons(acc.keys, files);
    }
  }

  lemma AppendCons<T>(a: seq<T>, b: seq<T>)
    requires b != []
    ensures (a + [b[0]]) + b[1..] == a + b
  {
  }

  function ModificationTimes(files: seq<Path>, mtime: map<Path, MTime>): Result<Snapshot, Path> {
    ModTimesFrom(Empty(), files, mtime)
  }

  /** `watch()`, given the sorted glob result `files` and the readable
      modification times. On success the retained snapshot becomes the current
      one; a metadata error escapes before the snapshot is replaced. */
  function Watch(w: Watcher, files: seq<Path>, mtime: map<Path, MTime>): (r: Result<(Watcher, seq<Change>), Path>)
    requires Valid(w.previous)
    ensures r.Ok? <==> forall p <- files :: p in mtime
    ensures r.Err? ==> r.error in files && r.error !in mtime
    ensures r.Ok? ==> Valid(r.value.0.previous) && r.value.0.pattern == w.pattern
  {
    match ModificationTimes(files, mtime)
    case Err(p) => Err(p)
    case Ok(cur) => Ok((Watcher(w.pattern, cur), CompareFileDicts(w.previous, cur)))
  }

  /** After a successful poll the watcher holds the time of exactly the listed
      files, in listing order when they are distinct, and the report compares
      the snapshot it held before with that one. */
  lemma WatchSnapshot(w: Watcher, files: seq<Path>, mtime: map<Path, MTime>)
    requires Valid(w.previous) && Watch(w, files, mtime).Ok?
    ensures var (w1, changes) := Watch(w, files, mtime).value;
      && (forall p :: p in w1.previous.values <==> p in files)
      && (forall p :: p in files ==> w1.previous.values[p] == mtime[p])
      && (Distinct(files) ==> w1.previous.keys == files)
      && changes == CompareFileDicts(w.previous, w1.previous)
  {
    var cur := ModificationTimes(files, mtime).value;
    if Distinct(files) {
      ModTimesFromOrder(Empty(), files, mtime);
      assert Empty<Path, MTime>().keys + files == files;
    }
  }

  /** What a report says about the two snapshots: a path not reported new was
      in the previous one, and every path of the new one is reported. */
  predicate Accounts(prev: Snapshot, next: Snapshot, changes: seq<Change>) {
    && (forall i | 0 <= i < |changes| :: changes[i].status != New ==> changes[i].path in prev.values)
    && (forall p | p in next.values :: p in Paths(changes))
  }

  lemma WatchAccounts(w: Watcher, files: seq<Path>, mtime: map<Path, MTime>)
    requires Valid(w.previous) && Watch(w, files, mtime).Ok?
    ensures Accounts(w.previous, Watch(w, files, mtime).value.0.previous, Watch(w, files, mtime).value.1)
  {
    WatchReport(w, files, mtime);
  }

  /** A successful poll's report, read against the snapshot held before and
      the one held after. */
  lemma WatchReport(w: Watcher, files: seq<Path>, mtime: map<Path, MTime>)
    requires Valid(w.previous) && Watch(w, files, mtime).Ok?
    ensures var (w1, changes) := Watch(w, files, mtime).value;
      && Distinct(Paths(changes))
      && (forall p :: p in Paths(changes) <==> p in w.previous.values || p in files)
      && (forall i :: 0 <= i < |changes| ==> Labelled(w.previous.values, w1.previous.values, changes[i]))
      && (forall p :: p in w1.previous.values <==> p in files)
      && (forall p :: p in files ==> w1.previous.values[p] == mtime[p])
  {
    WatchSnapshot(w, files, mtime);
    var w1 := Watch(w, files, mtime).value.0;
    CompareFileDictsSpec(w.previous, w1.previous);
  }

  /** A second poll over an untouched filesystem reports every path unchanged. */
  lemma WatchAgainAllUnchanged(w: Watcher, files: seq<Path>, mtime: map<Path, MTime>)
    requires Valid(w.previous)
    requires Watch(w, files, mtime).Ok?
    ensures
      var w1 := Watch(w, files, mtime).value.0;
      var again := Watch(w1, files, mtime);
      again.Ok? && forall i :: 0 <= i < |again.value.1| ==> again.value.1[i].status == Unchanged
  {
    var w1 := Watch(w, files, mtime).value.0;
    WatchReport(w, files, mtime);
    var again := Watch(w1, files, mtime);
    WatchReport(w1, files, mtime);
    var w2 := again.value.0;
    assert w1.previous.values == w2.previous.values;
    forall i | 0 <= i < |again.value.1|
      ensures again.value.1[i].status == Unchanged
    {
      var c := again.value.1[i];
      assert Labelled(w1.previous.values, w2.previous.values, c);
    }
  }

  /** A path reported deleted by one poll and present at the next is reported new. */
  lemma DeletedThenReappearsIsNew(w: Watcher, files1: seq<Path>, mtime1: map<Path, MTime>,
                                  files2: seq<Path>, mtime2: map<Path, MTime>, p: Path)
    requires Valid(w.previous)
    requires Watch(w, files1, mtime1).Ok?
    requires Reported(Watch(w, files1, mtime1).value.1, p, Deleted)
    requires Watch(Watch(w, files1, mtime1).value.0, files2, mtime2).Ok?
    requires p in files2
    ensures Reported(Watch(Watch(w, files1, mtime1).value.0, files2, mtime2).value.1, p, New)
  {
    var (w1, changes1) := Watch(w, files1, mtime1).value;
    WatchReport(w, files1, mtime1);
    var i :| 0 <= i < |changes1| && changes1[i].path == p && changes1[i].status == Deleted;
    assert Labelled(w.previous.values, w1.previous.values, changes1[i]);
    var (w2, changes2) := Watch(w1, files2, mtime2).value;
    WatchReport(w1, files2, mtime2);
    assert p in Paths(changes2);
    var j :| 0 <= j < |changes2| && Paths(changes2)[j] == p;
    assert Labelled(w1.previous.values, w2.previous.values, changes2[j]);
  }

  /** A path reported by one poll (other than as deleted) is never reported new by
      the next: there is one `new` per appearance. */
  lemma NoRepeatedNew(w: Watcher, files1: seq<Path>, mtime1: map<Path, MTime>,
                      files2: seq<Path>, mtime2: map<Path, MTime>, p: Path, s: Status)
    requires Valid(w.previous)
    requires Watch(w, files1, mtime1).Ok?
    requires s != Deleted && Reported(Watch(w, files1, mtime1).value.1, p, s)
    requires Watch(Watch(w, files1, mtime1).value.0, files2, mtime2).Ok?
    ensures !Reported(Watch(Watch(w, files1, mtime1).value.0, files2, mtime2).value.1, p, New)
  {
    var (w1, changes1) := Watch(w, files1, mtime1).value;
    WatchReport(w, files1, mtime1);
    var i :| 0 <= i < |changes1| && changes1[i].path == p && changes1[i].status == s;
    assert Labelled(w.previous.values, w1.previous.values, changes1[i]);
    assert p in w1.previous.values;
    var (w2, changes2) := Watch(w1, files2, mtime2).value;
    WatchReport(w1, files2, mtime2);
    forall j | 0 <= j < |changes2| && changes2[j].path == p
      ensures changes2[j].status != New
    {
      assert Labelled(w1.previous.values, w2.previous.values, changes2[j]);
    }
  }
}
