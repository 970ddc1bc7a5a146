/** The supervisor loop `load_json_data` of dashboard.py: once a second it polls
    the file watcher over the declaration files, and for every reported path it
    keeps a display slot and a task handle up to date and renders the
    declaration's data — inline, from a `.json` file beside it, or by starting a
    streaming ingester over a `.jsonl` file.

    The page is a list of slots (the `st.empty()` placeholders, in creation
    order) each holding what was last drawn into it, plus the messages written
    outside any slot. The filesystem is an input: the sorted glob result, the
    readable modification times, what each declaration file parses to and what
    each referenced `.json` file holds. A started ingester is a token with a
    `cancelled` flag; what it draws later is `Ingester.FileLoad`. An exception
    escaping the loop body ends the loop. */
module Supervisor {
  import opened Wrappers
  import opened OrderedDict
  import opened Text
  import opened Frame
  import opened Pipeline
  import opened FileWatcher

  // ---------------------------------------------------------------------------
  // posixpath

  predicate IsAbs(p: Path) {
    |p| > 0 && p[0] == '/'
  }

  predicate AllSlashes(s: string) {
    forall i | 0 <= i < |s| :: s[i] == '/'
  }

  /** `s.rstrip('/')` */
  function RStripSlashes(s: string): (r: string)
    ensures |r| <= |s| && r == s[..|r|]
    ensures r == [] || r[|r| - 1] != '/'
    ensures AllSlashes(s[|r|..])
  {
    if s == [] || s[|s| - 1] != '/' then s
    else
      var r := RStripSlashes(s[..|s| - 1]);
      assert s[..|s| - 1][..|r|] == s[..|r|];
      assert s[|r|..] == s[..|s| - 1][|r|..] + ['/'];
      r
  }

  /** `os.path.dirname(p)`: everything before the last slash, with trailing
      slashes removed unless it is all slashes. */
  function Dirname(p: Path): (r: Path)
    ensures |r| <= |p| && r == p[..|r|]
  {
    var head := p[..LastIndexOf(p, '/') + 1];
    if head != [] && !AllSlashes(head) then RStripSlashes(head) else head
  }

  /** `os.path.join(a, b)` */
  function PathJoin(a: Path, b: Path): (r: Path)
    ensures IsAbs(b) ==> r == b
    ensures !IsAbs(b) ==> EndsWith(r, b) && StartsWith(r, a)
  {
    if IsAbs(b) then b
    else if a == [] || a[|a| - 1] == '/' then a + b
    else a + "/" + b
  }

  /** The position of the first character that is not a dot in `p[from..to]`,
      or `to` when there is none. */
  function SkipDots(p: Path, from: nat, to: nat): (r: nat)
    requires from <= to <= |p|
    ensures from <= r <= to
    ensures forall i | from <= i < r :: p[i] == '.'
    ensures r < to ==> p[r] != '.'
    decreases (to as int) - (from as int)
  {
    if from == to || p[from] != '.' then from else SkipDots(p, from + 1, to)
  }

  /** The extension part of `os.path.splitext(p)`: from the last dot of the
      last path component, unless only dots precede it in that component. */
  function Extension(p: Path): (r: string)
    ensures r == [] || (r[0] == '.' && EndsWith(p, r) && forall i | 0 <= i < |r| :: r[i] != '/')
  {
    var sep := LastIndexOf(p, '/');
    var dot := LastIndexOf(p, '.');
    if dot > sep && SkipDots(p, sep + 1, dot) < dot then p[dot..] else []
  }

  // ---------------------------------------------------------------------------
  // State

  /** A started `async_file_load` task: the declaration it was started for, the
      file it reads, the declaration it renders with, and the slot it draws in. */
  datatype Task = Task(owner: Path, file: Path, decl: Decl, slot: nat, cancelled: bool)

  /** What the loop draws into a path's slot. */
  datatype Shown =
    | PathLine(path: Path)                   // st.write(file)
    | Rendered(recs: seq<Record>, decl: Decl) // create_component(pd.DataFrame(recs), decl)
    | BadExtension(ext: string, full: Path)  // the unimplemented-extension error
    | NoSource(path: Path)                   // neither "data" nor "ref-data"

  /** What is written outside any slot: the unknown-status error. */
  datatype Notice = UnknownStatus(status: string, path: Path)

  datatype Sup = Sup(watcher: Watcher,
                     slots: seq<seq<Shown>>,
                     notices: seq<Notice>,
                     containers: map<Path, nat>,
                     tasks: map<Path, Option<nat>>,
                     registry: seq<Task>)

  /** What ends the loop: an exception escaping its body. */
  datatype Crash =
    | MetadataError(path: Path)    // getmtime failed inside watch()
    | MissingSlot(path: Path)      // KeyError on containers / tasks
    | NoFile(path: Path)           // open() failed
    | BadJson(path: Path)          // json.loads / json.load failed
    | MissingKey(key: string)      // ref-data without "file"
    | ComponentRaised(exc: Exc)    // create_component raised (no "funcs")

  /** The filesystem at one poll. `decls[p]` is `None` when the file is not
      valid JSON; a missing key is a file that cannot be opened. */
  datatype Env = Env(files: seq<Path>, mtime: map<Path, MTime>,
                     decls: map<Path, Option<Decl>>,
                     refs: map<Path, Option<seq<Record>>>)

  /** Every declaration the filesystem can hand out is well formed as a value. */
  predicate EnvValid(env: Env) {
    forall p | p in env.decls && env.decls[p].Some? :: DeclValid(env.decls[p].value)
  }

  /** The bookkeeping is consistent: every slot and task handle exists, no
      two paths share a slot, and a path's handle names a task started for it. */
  predicate Consistent(s: Sup) {
    && s.containers.Keys == s.tasks.Keys
    && (forall p | p in s.containers :: s.containers[p] < |s.slots|)
    && (forall p, q | p in s.containers && q in s.containers && p != q :: s.containers[p] != s.containers[q])
    && (forall p | p in s.tasks && s.tasks[p].Some? ::
          s.tasks[p].value < |s.registry| && s.registry[s.tasks[p].value].owner == p)
  }

  /** Task `id` still runs but no handle refers to it any more: nothing the
      loop does can cancel it. */
  predicate Orphan(s: Sup, id: nat) {
    && id < |s.registry| && !s.registry[id].cancelled
    && forall q | q in s.tasks :: s.tasks[q] != Some(id)
  }

  /** Besides consistency: every path the watcher remembers has a slot. */
  predicate Inv(s: Sup) {
    && Consistent(s)
    && Valid(s.watcher.previous)
    && forall p | p in s.watcher.previous.values :: p in s.containers
  }

  function Start(pattern: string): (s: Sup)
    ensures Inv(s)
  {
    Sup(Init(pattern), [], [], map[], map[], [])
  }

  /** Each earlier task keeps its identity; a cancelled one stays cancelled. */
  predicate RegistryGrows(a: seq<Task>, b: seq<Task>) {
    && |a| <= |b|
    && forall i | 0 <= i < |a| ::
         && b[i].owner == a[i].owner && b[i].file == a[i].file
         && b[i].decl == a[i].decl && b[i].slot == a[i].slot
         && (a[i].cancelled ==> b[i].cancelled)
  }

  // ---------------------------------------------------------------------------
  // Loading one declaration

  /** `create_component(pd.DataFrame(recs), d)` into slot `k`. Reading the
      missing `funcs` raises before anything is drawn; otherwise the slot gets
      the component, whose events are `Drawn(recs, d)`. */
  function Show(s: Sup, k: nat, recs: seq<Record>, d: Decl): (r: Result<Sup, Crash>)
    requires k < |s.slots|
    ensures r.Err? <==> d.funcs.None?
    ensures r.Err? ==> r.error == ComponentRaised(KeyError("funcs"))
    ensures r.Ok? ==> r.value == s.(slots := s.slots[k := s.slots[k] + [Rendered(recs, d)]])
  {
    if d.funcs.None? then Err(ComponentRaised(KeyError("funcs")))
    else Ok(s.(slots := s.slots[k := s.slots[k] + [Rendered(recs, d)]]))
  }

  /** What a rendered slot entry puts on the page. */
  function Drawn(recs: seq<Record>, d: Decl): seq<UiEvent>
    requires DeclValid(d)
  {
    CreateComponent(FromRecords(recs), d).log
  }

  /** `Show` fails exactly when `create_component` raises, with its exception. */
  lemma ShowIsCreateComponent(s: Sup, k: nat, recs: seq<Record>, d: Decl)
    requires k < |s.slots| && DeclValid(d)
    ensures var c := CreateComponent(FromRecords(recs), d);
            && (Show(s, k, recs, d).Err? <==> c.raised.Some?)
            && (c.raised.Some? ==> Show(s, k, recs, d) == Err(ComponentRaised(c.raised.value)))
  {
  }

  /** Loading left everything but slot `k`, the task handles and the registry
      alone, and only added to slot `k`. */
  predicate Drew(s: Sup, k: nat, r: Sup)
    requires k < |s.slots|
  {
    && |r.slots| == |s.slots| && r.notices == s.notices
    && r.containers == s.containers && r.watcher == s.watcher
    && (forall j | 0 <= j < |s.slots| && j != k :: r.slots[j] == s.slots[j])
    && |r.slots[k]| >= |s.slots[k]| && r.slots[k][..|s.slots[k]|] == s.slots[k]
  }

  /** The declaration streams from a `.jsonl` file: no inline data, and a
      `ref-data` file with that extension. */
  predicate Streams(d: Decl) {
    && d.data.None? && d.refData.Some? && d.refData.value.file.Some?
    && Extension(d.refData.value.file.value) == ".jsonl"
  }

  /** `r` is `s` with a fresh, running task for path `p` stored in its handle. */
  predicate Started(s: Sup, p: Path, k: nat, d: Decl, abs: Path, r: Sup)
    requires Streams(d)
  {
    && r.registry == s.registry + [Task(p, PathJoin(abs, d.refData.value.file.value), d, k, false)]
    && r.tasks == s.tasks[p := Some(|s.registry|)]
    && r.slots == s.slots
  }

  /** The dispatch on a parsed declaration's source: inline `data` first, then
      a `ref-data` file by its extension, else an error in the slot. */
  function LoadDecl(s: Sup, p: Path, k: nat, d: Decl, env: Env, abs: Path): (r: Result<Sup, Crash>)
    requires DeclValid(d) && k < |s.slots|
    ensures r.Ok? ==> Drew(s, k, r.value)
    ensures Streams(d) ==> r.Ok? && Started(s, p, k, d, abs, r.value)
    ensures !Streams(d) && r.Ok? ==> r.value.registry == s.registry && r.value.tasks == s.tasks
    ensures d.data.Some? ==> r == Show(s, k, d.data.value, d)
    ensures d.data.None? && d.refData.None? ==> r == Ok(s.(slots := s.slots[k := s.slots[k] + [NoSource(p)]]))
    ensures r.Err? ==> !r.error.MissingSlot? && !r.error.MetadataError?
  {
    if d.data.Some? then Show(s, k, d.data.value, d)
    else if d.refData.Some? then
      if d.refData.value.file.None? then Err(MissingKey("file"))
      else LoadRef(s, p, k, d, d.refData.value.file.value, env, abs)
    else Ok(s.(slots := s.slots[k := s.slots[k] + [NoSource(p)]]))
  }

  /** A `.json` reference: read the whole file and render it. */
  function LoadJson(s: Sup, k: nat, d: Decl, full: Path, env: Env): (r: Result<Sup, Crash>)
    requires DeclValid(d) && k < |s.slots|
    ensures r.Ok? ==> Drew(s, k, r.value) && r.value.registry == s.registry && r.value.tasks == s.tasks
    ensures r.Err? ==> !r.error.MissingSlot? && !r.error.MetadataError?
    ensures full !in env.refs ==> r == Err(NoFile(full))
    ensures full in env.refs && env.refs[full].None? ==> r == Err(BadJson(full))
    ensures full in env.refs && env.refs[full].Some? ==> r == Show(s, k, env.refs[full].value, d)
  {
    if full !in env.refs then Err(NoFile(full))
    else if env.refs[full].None? then Err(BadJson(full))
    else Show(s, k, env.refs[full].value, d)
  }

  /** `ref-data`: the file is resolved against the declaration's directory and
      dispatched on its own extension. */
  function LoadRef(s: Sup, p: Path, k: nat, d: Decl, file: Path, env: Env, abs: Path): (r: Result<Sup, Crash>)
    requires DeclValid(d) && k < |s.slots|
    ensures r.Ok? ==> Drew(s, k, r.value)
    ensures Extension(file) == ".jsonl" ==>
              r == Ok(s.(registry := s.registry + [Task(p, PathJoin(abs, file), d, k, false)],
                         tasks := s.tasks[p := Some(|s.registry|)]))
    ensures Extension(file) != ".jsonl" && r.Ok? ==> r.value.registry == s.registry && r.value.tasks == s.tasks
    ensures Extension(file) == ".json" && PathJoin(abs, file) !in env.refs ==> r == Err(NoFile(PathJoin(abs, file)))
    ensures Extension(file) !in {".json", ".jsonl"} ==>
              r == Ok(s.(slots := s.slots[k := s.slots[k] + [BadExtension(Extension(file), PathJoin(abs, file))]]))
    ensures r.Err? ==> !r.error.MissingSlot? && !r.error.MetadataError?
  {
    var full := PathJoin(abs, file);
    var ext := Extension(file);
    if ext == ".json" then LoadJson(s, k, d, full, env)
    else if ext == ".jsonl" then
      Ok(s.(registry := s.registry + [Task(p, full, d, k, false)], tasks := s.tasks[p := Some(|s.registry|)]))
    else Ok(s.(slots := s.slots[k := s.slots[k] + [BadExtension(ext, full)]]))
  }

  /** The body of the loop after the slot has been (re)drawn with the path:
      read and parse the declaration, then dispatch on its source. `abs` is the
      directory the path lies in, `os.path.realpath` having been applied to a
      relative one. */
  function Load(s: Sup, p: Path, k: nat, env: Env, abs: Path): (r: Result<Sup, Crash>)
    requires EnvValid(env) && k < |s.slots|
    ensures p !in env.decls ==> r == Err(NoFile(p))
    ensures p in env.decls && env.decls[p].None? ==> r == Err(BadJson(p))
    ensures p in env.decls && env.decls[p].Some? ==> r == LoadDecl(s, p, k, env.decls[p].value, env, abs)
    ensures r.Err? ==> !r.error.MissingSlot? && !r.error.MetadataError?
  {
    if p !in env.decls then Err(NoFile(p))
    else if env.decls[p].None? then Err(BadJson(p))
    else LoadDecl(s, p, k, env.decls[p].value, env, abs)
  }

  /** `task.cancel()` on the path's stored task, if it has one. */
  function CancelTask(reg: seq<Task>, t: Option<nat>): (r: seq<Task>)
    ensures RegistryGrows(reg, r) && |r| == |reg|
    ensures forall i | 0 <= i < |reg| :: r[i].cancelled == (reg[i].cancelled || t == Some(i))
  {
    if t.Some? && t.value < |reg| then reg[t.value := reg[t.value].(cancelled := true)] else reg
  }

  // ---------------------------------------------------------------------------
  // One reported path

  /** The four statuses the loop recognises. */
  predicate Known(status: string) {
    status in {"new", "updated", "unchanged", "deleted"}
  }

  /** What every step of the loop keeps: consistent bookkeeping, the same
      watcher, every slot, every started task, and every orphaned task still
      orphaned. */
  predicate Evolves(s: Sup, r: Sup) {
    && Consistent(r) && r.watcher == s.watcher
    && s.containers.Keys <= r.containers.Keys
    && RegistryGrows(s.registry, r.registry)
    && forall id | 0 <= id < |s.registry| && Orphan(s, id) :: Orphan(r, id)
  }

  lemma EvolvesTrans(a: Sup, b: Sup, c: Sup)
    requires Evolves(a, b) && Evolves(b, c)
    ensures Evolves(a, c)
  {
  }

  /** The other paths' slots and task handles are as they were. */
  predicate OthersKept(s: Sup, p: Path, r: Sup)
    requires Consistent(s)
  {
    && (forall q | q in s.tasks && q != p :: q in r.tasks && r.tasks[q] == s.tasks[q])
    && (forall q | q in s.containers && q != p ::
          s.containers[q] < |r.slots| && r.slots[s.containers[q]] == s.slots[s.containers[q]])
  }

  /** Loading into a path's own slot is a step of the loop that leaves the
      other paths alone and cancels nothing. */
  lemma LoadEvolves(s: Sup, p: Path, env: Env, abs: Path)
    requires EnvValid(env) && Consistent(s) && p in s.containers
    ensures var r := Load(s, p, s.containers[p], env, abs);
            r.Ok? ==>
              && Evolves(s, r.value) && OthersKept(s, p, r.value)
              && r.value.notices == s.notices && r.value.containers == s.containers
              && |r.value.slots| == |s.slots|
              && (r.value.tasks[p] == s.tasks[p] || r.value.tasks[p] == Some(|s.registry|))
              && forall i | 0 <= i < |s.registry| :: r.value.registry[i].cancelled == s.registry[i].cancelled
  {
    var k := s.containers[p];
    var r := Load(s, p, k, env, abs);
    if r.Ok? {
      var d := env.decls[p].value;
      if Streams(d) {
        StartEvolves(s, p, k, d, abs, r.value);
      } else {
        DrawEvolves(s, p, k, r.value);
      }
    }
  }

  lemma StartEvolves(s: Sup, p: Path, k: nat, d: Decl, abs: Path, r: Sup)
    requires Consistent(s) && p in s.containers && k == s.containers[p]
    requires Streams(d) && Started(s, p, k, d, abs, r) && Drew(s, k, r)
    ensures Evolves(s, r) && OthersKept(s, p, r)
    ensures forall i | 0 <= i < |s.registry| :: r.registry[i].cancelled == s.registry[i].cancelled
  {
    assert r.registry[|s.registry|].owner == p;
  }

  lemma DrawEvolves(s: Sup, p: Path, k: nat, r: Sup)
    requires Consistent(s) && p in s.containers && k == s.containers[p]
    requires Drew(s, k, r) && r.registry == s.registry && r.tasks == s.tasks
    ensures Evolves(s, r) && OthersKept(s, p, r)
  {
  }

  /** A fresh placeholder at the end of the page and no task for `p`. */
  function NewSlot(s: Sup, p: Path): (r: Sup)
    requires Consistent(s)
    ensures Evolves(s, r) && OthersKept(s, p, r) && r.notices == s.notices
    ensures r.containers == s.containers[p := |s.slots|] && r.tasks == s.tasks[p := None]
    ensures r.slots == s.slots + [[PathLine(p)]] && r.registry == s.registry
  {
    s.(slots := s.slots + [[PathLine(p)]], containers := s.containers[p := |s.slots|], tasks := s.tasks[p := None])
  }

  /** `new`: a fresh placeholder, then load. */
  function HandleNew(s: Sup, p: Path, env: Env, abs: Path): (r: Result<Sup, Crash>)
    requires EnvValid(env) && Consistent(s)
    ensures r.Ok? ==> Evolves(s, r.value) && OthersKept(s, p, r.value) && r.value.notices == s.notices
    ensures r.Ok? ==> r.value.containers == s.containers[p := |s.slots|]
    ensures r.Ok? ==> |r.value.slots| == |s.slots| + 1 && r.value.slots[..|s.slots|] == s.slots
    ensures r.Err? ==> !r.error.MissingSlot? && !r.error.MetadataError?
    // the path's earlier running tasks lose their handle
    ensures r.Ok? ==>
              forall id | 0 <= id < |s.registry| && s.registry[id].owner == p && !s.registry[id].cancelled ::
                Orphan(r.value, id)
  {
    var s1 := NewSlot(s, p);
    LoadEvolves(s1, p, env, abs);
    var r := Load(s1, p, |s.slots|, env, abs);
    if r.Ok? then
      EvolvesTrans(s, s1, r.value);
      NewOrphans(s, p, r.value);
      assert r.value.slots[..|s.slots|] == s1.slots[..|s.slots|];
      r
    else r
  }

  lemma NewOrphans(s: Sup, p: Path, r: Sup)
    requires Consistent(s) && Consistent(r) && p in r.tasks
    requires r.tasks[p] == None || r.tasks[p] == Some(|s.registry|)
    requires |s.registry| <= |r.registry|
    requires forall i | 0 <= i < |s.registry| :: r.registry[i].cancelled == s.registry[i].cancelled
    requires forall q | q in s.tasks && q != p :: q in r.tasks && r.tasks[q] == s.tasks[q]
    requires r.tasks.Keys == s.tasks.Keys + {p}
    ensures forall id | 0 <= id < |s.registry| && s.registry[id].owner == p && !s.registry[id].cancelled ::
              Orphan(r, id)
  {
  }

  /** The slot emptied and redrawn with the path, the stored task cancelled. */
  function ClearSlot(s: Sup, p: Path): (r: Sup)
    requires Consistent(s) && p in s.containers
    ensures Evolves(s, r) && OthersKept(s, p, r) && r.notices == s.notices
    ensures r.containers == s.containers && r.tasks == s.tasks && |r.slots| == |s.slots|
    ensures forall i | 0 <= i < |s.registry| ::
              r.registry[i].cancelled == (s.registry[i].cancelled || s.tasks[p] == Some(i))
  {
    s.(slots := s.slots[s.containers[p] := [PathLine(p)]], registry := CancelTask(s.registry, s.tasks[p]))
  }

  /** `updated`: clear, then load. */
  function HandleUpdated(s: Sup, p: Path, env: Env, abs: Path): (r: Result<Sup, Crash>)
    requires EnvValid(env) && Consistent(s) && p in s.containers
    ensures r.Ok? ==> Evolves(s, r.value) && OthersKept(s, p, r.value) && r.value.notices == s.notices
    ensures r.Ok? ==> r.value.containers == s.containers && |r.value.slots| == |s.slots|
    ensures r.Ok? ==> |r.value.registry| >= |s.registry|
    ensures r.Ok? ==>
              forall i | 0 <= i < |s.registry| ::
                r.value.registry[i].cancelled == (s.registry[i].cancelled || s.tasks[p] == Some(i))
    ensures r.Err? ==> !r.error.MissingSlot? && !r.error.MetadataError?
  {
    var s1 := ClearSlot(s, p);
    LoadEvolves(s1, p, env, abs);
    var r := Load(s1, p, s.containers[p], env, abs);
    if r.Ok? then
      EvolvesTrans(s, s1, r.value);
      r
    else r
  }

  /** One iteration of `for file in files`, with the status as the string the
      watcher stored. `realpath` resolves a relative path. */
  function Handle(s: Sup, p: Path, status: string, env: Env, realpath: Path -> Path): (r: Result<Sup, Crash>)
    requires EnvValid(env) && Consistent(s)
    // unchanged: nothing at all
    ensures status == "unchanged" ==> r == Ok(s)
    // an unknown status: reported outside the slots, the path skipped
    ensures !Known(status) ==> r == Ok(s.(notices := s.notices + [UnknownStatus(status, p)]))
    // deleted: the slot emptied, the task handle left alone
    ensures status == "deleted" ==>
              if p in s.containers then r == Ok(s.(slots := s.slots[s.containers[p] := []]))
              else r == Err(MissingSlot(p))
    // updated: the slot must exist, and the stored task, if any, is cancelled
    // before anything new is started
    ensures status == "updated" && p !in s.containers ==> r == Err(MissingSlot(p))
    ensures status == "updated" && r.Ok? ==>
              |r.value.registry| >= |s.registry| &&
              forall i | 0 <= i < |s.registry| ::
                r.value.registry[i].cancelled == (s.registry[i].cancelled || s.tasks[p] == Some(i))
    // new: a slot of its own, after all existing ones
    ensures status == "new" && r.Ok? ==> r.value.containers == s.containers[p := |s.slots|]
    ensures status == "new" && r.Ok? ==>
              forall id | 0 <= id < |s.registry| && s.registry[id].owner == p && !s.registry[id].cancelled ::
                Orphan(r.value, id)
    ensures status != "new" && r.Ok? ==> r.value.containers == s.containers
    // whatever happens, the bookkeeping evolves and other paths are untouched
    ensures r.Ok? ==> Evolves(s, r.value) && OthersKept(s, p, r.value)
    ensures r.Ok? && Known(status) ==> r.value.notices == s.notices
    ensures r.Err? ==> !r.error.MetadataError?
    // the only missing slot is that of a path never reported new
    ensures r.Err? && r.error.MissingSlot? ==>
              r.error.path == p && p !in s.containers && status in {"updated", "deleted"}
  {
    var abs := Dirname(if IsAbs(p) then p else realpath(p));
    if status == "new" then HandleNew(s, p, env, abs)
    else if status == "updated" then
      if p !in s.containers then Err(MissingSlot(p)) else HandleUpdated(s, p, env, abs)
    else if status == "unchanged" then Ok(s)
    else if status == "deleted" then HandleDeleted(s, p)
    else Ok(Notify(s, status, p))
  }

  /** `deleted`: the slot emptied; the stored task keeps running. */
  function HandleDeleted(s: Sup, p: Path): (r: Result<Sup, Crash>)
    requires Consistent(s)
    ensures p !in s.containers ==> r == Err(MissingSlot(p))
    ensures p in s.containers ==> r == Ok(s.(slots := s.slots[s.containers[p] := []]))
    ensures r.Ok? ==> Evolves(s, r.value) && OthersKept(s, p, r.value)
    ensures r.Ok? ==> r.value.notices == s.notices && r.value.containers == s.containers
  {
    if p !in s.containers then Err(MissingSlot(p))
    else Ok(s.(slots := s.slots[s.containers[p] := []]))
  }

  /** A status outside the four: `st.error` outside any slot. */
  function Notify(s: Sup, status: string, p: Path): (r: Sup)
    requires Consistent(s)
    ensures Evolves(s, r) && OthersKept(s, p, r)
    ensures r.notices == s.notices + [UnknownStatus(status, p)]
    ensures r.slots == s.slots && r.containers == s.containers && r.tasks == s.tasks && r.registry == s.registry
  {
    s.(notices := s.notices + [UnknownStatus(status, p)])
  }

  // ---------------------------------------------------------------------------
  // The loop

  /** One item of the watcher's result: the path and its `'status'` string. */
  datatype Entry = Entry(path: Path, status: string)

  function Entries(changes: seq<Change>): (es: seq<Entry>)
    ensures |es| == |changes|
    ensures forall i | 0 <= i < |es| :: es[i] == Entry(changes[i].path, changes[i].status.Name())
  {
    seq(|changes|, i requires 0 <= i < |changes| => Entry(changes[i].path, changes[i].status.Name()))
  }

  /** `for file in files`, in the watcher's order; an exception ends the loop. */
  function Reconcile(s: Sup, es: seq<Entry>, env: Env, realpath: Path -> Path): (r: Result<Sup, Crash>)
    requires EnvValid(env) && Consistent(s)
    decreases |es|
    ensures r.Ok? ==> Evolves(s, r.value)
    ensures r.Err? ==> !r.error.MetadataError?
  {
    if es == [] then Ok(s)
    else
      var s1 :- Handle(s, es[0].path, es[0].status, env, realpath);
      var r := Reconcile(s1, es[1..], env, realpath);
      if r.Ok? then
        EvolvesTrans(s, s1, r.value);
        r
      else r
  }

  /** The first entry handled, the rest of the loop still to run. */
  lemma ReconcileUnfold(s: Sup, es: seq<Entry>, env: Env, realpath: Path -> Path)
    requires EnvValid(env) && Consistent(s) && es != []
    ensures var h := Handle(s, es[0].path, es[0].status, env, realpath);
            Reconcile(s, es, env, realpath) == if h.Err? then Err(h.error) else Reconcile(h.value, es[1..], env, realpath)
  {
  }

  /** Every path reported new has a slot afterwards. */
  lemma {:induction false} ReconcileCreatesSlots(s: Sup, es: seq<Entry>, env: Env, realpath: Path -> Path)
    requires EnvValid(env) && Consistent(s)
    ensures var r := Reconcile(s, es, env, realpath);
            r.Ok? ==> forall i | 0 <= i < |es| && es[i].status == "new" :: es[i].path in r.value.containers
    decreases |es|
  {
    if es != [] {
      ReconcileUnfold(s, es, env, realpath);
      var h := Handle(s, es[0].path, es[0].status, env, realpath);
      if h.Ok? {
        ReconcileCreatesSlots(h.value, es[1..], env, realpath);
        var r := Reconcile(h.value, es[1..], env, realpath);
        if r.Ok? {
          forall i | 0 <= i < |es| && es[i].status == "new"
            ensures es[i].path in r.value.containers
          {
            if i > 0 {
              assert es[i] == es[1..][i - 1];
            }
          }
        }
      }
    }
  }

  /** Notices are only ever about unknown statuses. */
  lemma {:induction false} ReconcileKeepsNotices(s: Sup, es: seq<Entry>, env: Env, realpath: Path -> Path)
    requires EnvValid(env) && Consistent(s)
    requires forall i | 0 <= i < |es| :: Known(es[i].status)
    ensures var r := Reconcile(s, es, env, realpath);
            r.Ok? ==> r.value.notices == s.notices
    decreases |es|
  {
    if es != [] {
      ReconcileUnfold(s, es, env, realpath);
      var h := Handle(s, es[0].path, es[0].status, env, realpath);
      assert Known(es[0].status);
      if h.Ok? {
        assert forall i | 0 <= i < |es[1..]| :: es[1..][i] == es[i + 1];
        ReconcileKeepsNotices(h.value, es[1..], env, realpath);
      }
    }
  }

  /** A missing slot is one that was never created, for a path reported
      updated or deleted. */
  lemma {:induction false} ReconcileMissingSlot(s: Sup, es: seq<Entry>, env: Env, realpath: Path -> Path)
    requires EnvValid(env) && Consistent(s)
    ensures var r := Reconcile(s, es, env, realpath);
            r.Err? && r.error.MissingSlot? ==>
              && r.error.path !in s.containers
              && exists i | 0 <= i < |es| :: es[i].path == r.error.path && es[i].status in {"updated", "deleted"}
    decreases |es|
  {
    if es != [] {
      ReconcileUnfold(s, es, env, realpath);
      var h := Handle(s, es[0].path, es[0].status, env, realpath);
      if h.Ok? {
        ReconcileMissingSlot(h.value, es[1..], env, realpath);
        var r := Reconcile(h.value, es[1..], env, realpath);
        if r.Err? && r.error.MissingSlot? {
          var i :| 0 <= i < |es[1..]| && es[1..][i].path == r.error.path && es[1..][i].status in {"updated", "deleted"};
          assert es[i + 1] == es[1..][i];
        }
      }
    }
  }

  /** One pass of `while st.session_state.running`: poll, then reconcile. */
  function Cycle(s: Sup, env: Env, realpath: Path -> Path): (r: Result<Sup, Crash>)
    requires EnvValid(env) && Inv(s)
    ensures r.Err? && r.error.MetadataError? <==> exists p | p in env.files :: p !in env.mtime
    // the bookkeeping stays consistent, and a slot is never missing
    ensures r.Ok? ==> Inv(r.value)
    ensures r.Err? ==> !r.error.MissingSlot?
    // the watcher only reports the four known statuses
    ensures r.Ok? ==> r.value.notices == s.notices
    ensures r.Ok? ==> forall id | 0 <= id < |s.registry| && Orphan(s, id) :: Orphan(r.value, id)
  {
    match Watch(s.watcher, env.files, env.mtime)
    case Err(p) => Err(MetadataError(p))
    case Ok((w, changes)) =>
      WatchAccounts(s.watcher, env.files, env.mtime);
      Apply(s, w, changes, env, realpath)
  }

  /** Reconciling a poll's report, given what the report accounts for. */
  function Apply(s: Sup, w: Watcher, changes: seq<Change>, env: Env, realpath: Path -> Path): (r: Result<Sup, Crash>)
    requires EnvValid(env) && Inv(s) && Valid(w.previous)
    requires Accounts(s.watcher.previous, w.previous, changes)
    ensures r.Ok? ==> Inv(r.value) && r.value.notices == s.notices
    ensures r.Err? ==> !r.error.MissingSlot? && !r.error.MetadataError?
    ensures r.Ok? ==> forall id | 0 <= id < |s.registry| && Orphan(s, id) :: Orphan(r.value, id)
  {
    var es := Entries(changes);
    assert forall i | 0 <= i < |es| :: Known(es[i].status);
    var r := Reconcile(s.(watcher := w), es, env, realpath);
    ReconcileCreatesSlots(s.(watcher := w), es, env, realpath);
    ReconcileKeepsNotices(s.(watcher := w), es, env, realpath);
    ReconcileMissingSlot(s.(watcher := w), es, env, realpath);
    if r.Ok? then
      SlotsCover(changes, s.watcher.previous.values.Keys, s.containers.Keys, w.previous.values.Keys, r.value.containers.Keys);
      r
    else if r.error.MissingSlot? then
      NoMissingSlot(changes, s.watcher.previous.values.Keys, s.containers.Keys, r.error.path);
      r
    else r
  }

  lemma SlotsCover(changes: seq<Change>, remembered: set<Path>, before: set<Path>, now: set<Path>, after: set<Path>)
    requires forall i | 0 <= i < |changes| :: changes[i].status != New ==> changes[i].path in remembered
    requires forall p | p in now :: p in Paths(changes)
    requires remembered <= before <= after
    requires forall i | 0 <= i < |Entries(changes)| && Entries(changes)[i].status == "new" :: Entries(changes)[i].path in after
    ensures now <= after
  {
    forall p | p in now
      ensures p in after
    {
      var i :| 0 <= i < |changes| && Paths(changes)[i] == p;
      if changes[i].status == New {
        assert Entries(changes)[i].status == "new";
      }
    }
  }

  lemma NoMissingSlot(changes: seq<Change>, remembered: set<Path>, before: set<Path>, q: Path)
    requires forall i | 0 <= i < |changes| :: changes[i].status != New ==> changes[i].path in remembered
    requires remembered <= before && q !in before
    ensures !exists i | 0 <= i < |Entries(changes)| ::
              Entries(changes)[i].path == q && Entries(changes)[i].status in {"updated", "deleted"}
  {
  }

  /** The loop over successive polls, until an exception ends it. */
  function Supervise(s: Sup, envs: seq<Env>, realpath: Path -> Path): (r: Result<Sup, Crash>)
    requires Inv(s) && forall i | 0 <= i < |envs| :: EnvValid(envs[i])
    decreases |envs|
    ensures r.Ok? ==> Inv(r.value)
    // whatever the filesystem does, the loop never loses a slot
    ensures r.Err? ==> !r.error.MissingSlot?
  {
    if envs == [] then Ok(s)
    else
      var s1 :- Cycle(s, envs[0], realpath);
      Supervise(s1, envs[1..], realpath)
  }

  /** Across any number of polls the notices stay as they were and an
      orphaned task runs on for good. */
  lemma {:induction false} SuperviseKeepsOrphans(s: Sup, envs: seq<Env>, realpath: Path -> Path)
    requires Inv(s) && forall i | 0 <= i < |envs| :: EnvValid(envs[i])
    ensures var r := Supervise(s, envs, realpath);
            r.Ok? ==> r.value.notices == s.notices && forall id | 0 <= id < |s.registry| && Orphan(s, id) :: Orphan(r.value, id)
    decreases |envs|
  {
    if envs != [] {
      var c := Cycle(s, envs[0], realpath);
      if c.Ok? {
        var s1 := c.value;
        var r := Supervise(s1, envs[1..], realpath);
        assert Supervise(s, envs, realpath) == r;
        SuperviseKeepsOrphans(s1, envs[1..], realpath);
        if r.Ok? {
          forall id | 0 <= id < |s.registry| && Orphan(s, id)
            ensures Orphan(r.value, id)
          {
            assert Orphan(s1, id);
          }
        }
      }
    }
  }

  // ---------------------------------------------------------------------------
  // Properties

  /** Deleting a declaration leaves its task running and its handle in place;
      when the file comes back it is treated as new, the handle is overwritten
      and the old task can no longer be cancelled by anything. */
  lemma DeleteThenRecreateOrphansTask(s: Sup, p: Path, env1: Env, env2: Env, realpath: Path -> Path)
    requires Consistent(s) && EnvValid(env1) && EnvValid(env2)
    requires p in s.tasks && s.tasks[p].Some? && !s.registry[s.tasks[p].value].cancelled
    ensures var id := s.tasks[p].value;
            var d := Handle(s, p, "deleted", env1, realpath);
            && d.Ok? && d.value.tasks[p] == Some(id) && !d.value.registry[id].cancelled
            && var n := Handle(d.value, p, "new", env2, realpath);
               n.Ok? ==> Orphan(n.value, id)
  {
    var id := s.tasks[p].value;
    var d := Handle(s, p, "deleted", env1, realpath);
    assert d == Ok(s.(slots := s.slots[s.containers[p] := []]));
    assert d.value.registry[id].owner == p;
  }

  /** A poll in which every path is unchanged does nothing but remember the
      new snapshot. */
  lemma {:induction false} ReconcileUnchanged(s: Sup, es: seq<Entry>, env: Env, realpath: Path -> Path)
    requires EnvValid(env) && Consistent(s)
    requires forall i | 0 <= i < |es| :: es[i].status == "unchanged"
    ensures Reconcile(s, es, env, realpath) == Ok(s)
    decreases |es|
  {
    if es != [] {
      assert Handle(s, es[0].path, es[0].status, env, realpath) == Ok(s);
      ReconcileUnchanged(s, es[1..], env, realpath);
    }
  }

  lemma QuietPollChangesNothing(s: Sup, env: Env, realpath: Path -> Path)
    requires EnvValid(env) && Inv(s)
    requires Watch(s.watcher, env.files, env.mtime).Ok?
    requires Watch(s.watcher, env.files, env.mtime).value.0 == s.watcher
    ensures Cycle(s, env, realpath) == Ok(s)
  {
    var w := s.watcher;
    var changes := Watch(s.watcher, env.files, env.mtime).value.1;
    WatchAgainQuiet(s.watcher, env.files, env.mtime);
    ReconcileUnchanged(s, Entries(changes), env, realpath);
    assert s.(watcher := w) == s;
  }

  /** Polling an untouched filesystem a second time reports every path
      unchanged (restated on a watcher that already holds the snapshot). */
  lemma WatchAgainQuiet(w: Watcher, files: seq<Path>, mtime: map<Path, MTime>)
    requires Valid(w.previous) && Watch(w, files, mtime).Ok? && Watch(w, files, mtime).value.0 == w
    ensures forall i | 0 <= i < |Watch(w, files, mtime).value.1| :: Watch(w, files, mtime).value.1[i].status == Unchanged
  {
    var changes := Watch(w, files, mtime).value.1;
    WatchReport(w, files, mtime);
    forall i | 0 <= i < |changes|
      ensures changes[i].status == Unchanged
    {
      assert Labelled(w.previous.values, w.previous.values, changes[i]);
    }
  }

  /** A new or updated declaration starts a task exactly when it streams from
      a `.jsonl` file; the task reads the file beside the declaration and is
      stored as the path's handle. */
  lemma TaskStartedIffStreams(s: Sup, p: Path, status: string, env: Env, realpath: Path -> Path)
    requires EnvValid(env) && Consistent(s)
    requires status == "new" || status == "updated"
    requires Handle(s, p, status, env, realpath).Ok?
    ensures var r := Handle(s, p, status, env, realpath).value;
            && p in env.decls && env.decls[p].Some?
            && var d := env.decls[p].value;
            && (|r.registry| > |s.registry| <==> Streams(d))
            && (!Streams(d) ==> |r.registry| == |s.registry| && r.tasks[p] == (if status == "new" then None else s.tasks[p]))
            && (Streams(d) ==>
                  && |r.registry| == |s.registry| + 1 && r.tasks[p] == Some(|s.registry|)
                  && r.registry[|s.registry|]
                       == Task(p, PathJoin(Dirname(if IsAbs(p) then p else realpath(p)), d.refData.value.file.value),
                               d, r.containers[p], false))
  {
    var abs := Dirname(if IsAbs(p) then p else realpath(p));
    if status == "new" {
      var s1 := NewSlot(s, p);
      assert Handle(s, p, status, env, realpath) == Load(s1, p, |s.slots|, env, abs);
    } else {
      var s1 := ClearSlot(s, p);
      assert Handle(s, p, status, env, realpath) == Load(s1, p, s.containers[p], env, abs);
    }
  }

  /** A declaration's reference is resolved beside it: for a declaration at
      `dir/name` and a reference without slashes, the file read is `dir/ref`. */
  lemma ReferenceBesideDeclaration(dir: Path, name: string, ref: string)
    requires dir != [] && dir[|dir| - 1] != '/'
    requires forall i | 0 <= i < |name| :: name[i] != '/'
    requires ref != [] && ref[0] != '/'
    ensures Dirname(dir + "/" + name) == dir
    ensures PathJoin(Dirname(dir + "/" + name), ref) == dir + "/" + ref
  {
    var path := dir + "/" + name;
    var j := LastIndexOf(path, '/');
    assert path[|dir|] == '/';
    assert j == |dir|;
    var head := path[..j + 1];
    assert head == dir + "/";
    assert !AllSlashes(head) by { assert head[|dir| - 1] == dir[|dir| - 1]; }
    assert RStripSlashes(head) == RStripSlashes(dir) by { assert head[..|head| - 1] == dir; }
  }

  /** The extension of `stem.x`, for an `x` without dots or slashes and a stem
      not ending in a dot or a slash, is `.x`. */
  lemma ExtensionOfSuffix(stem: string, x: string)
    requires stem != [] && stem[|stem| - 1] != '.' && stem[|stem| - 1] != '/'
    requires forall i | 0 <= i < |x| :: x[i] != '.' && x[i] != '/'
    ensures Extension(stem + "." + x) == "." + x
  {
    var path := stem + "." + x;
    var dot := LastIndexOf(path, '.');
    var sep := LastIndexOf(path, '/');
    assert path[|stem|] == '.';
    assert dot == |stem|;
    assert sep < |stem| - 1 by {
      assert path[|stem| - 1] == stem[|stem| - 1];
    }
    assert path[|stem| - 1] != '.';
    assert SkipDots(path, sep + 1, dot) < dot;
    assert path[dot..] == "." + x;
  }

  /** A hidden file such as `.jsonl` has no extension, so a reference to it is
      reported as unsupported. */
  lemma HiddenNameHasNoExtension(dir: Path, x: string)
    requires forall i | 0 <= i < |x| :: x[i] != '.' && x[i] != '/'
    ensures Extension(dir + "/." + x) == []
  {
    var path := dir + "/." + x;
    assert path[|dir|] == '/' && path[|dir| + 1] == '.';
    assert LastIndexOf(path, '/') == |dir|;
    assert LastIndexOf(path, '.') == |dir| + 1;
  }
}
