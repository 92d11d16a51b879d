/** The compile cache: a table from the SHA-256 of a package's bytes to its compiled module.
    A load looks the key up under a read lock, compiles without any lock, and inserts under
    the write lock, so loads of the same bytes can overtake each other; the last insert wins.
    The hash and the compiler are parameters. */
module ModuleCache {
  import opened Prelude

  type Key = k: Bytes | |k| == 32 witness seq(32, _ => 0)

  datatype Module = Module(code: Bytes)

  type Sha256 = Bytes -> Key

  /** `None` for bytes the compiler rejects. */
  type Compiler = Bytes -> Option<Module>

  datatype Load = Missed(bytes: Bytes) | Compiled(bytes: Bytes, compiled: Module)

  /** The shared table, and the loads under way, by task. */
  datatype State = State(modules: map<Key, Module>, loads: map<nat, Load>)

  datatype Step = Lookup(task: nat, bytes: Bytes) | Compile(task: nat) | Insert(task: nat)

  datatype Return = Hit(bytes: Bytes, loaded: Module) | Fresh(bytes: Bytes, loaded: Module) | Failed(bytes: Bytes)

  predicate Enabled(s: State, step: Step) {
    match step
    case Lookup(t, _) => t !in s.loads
    case Compile(t) => t in s.loads && s.loads[t].Missed?
    case Insert(t) => t in s.loads && s.loads[t].Compiled?
  }

  function Apply(sha: Sha256, compile: Compiler, s: State, step: Step): (r: (State, Option<Return>))
    requires Enabled(s, step)
  {
    match step
    case Lookup(t, bytes) =>
      if sha(bytes) in s.modules then (s, Some(Hit(bytes, s.modules[sha(bytes)])))
      else (s.(loads := s.loads[t := Missed(bytes)]), None)
    case Compile(t) =>
      var bytes := s.loads[t].bytes;
      (match compile(bytes)
       case Some(m) => (s.(loads := s.loads[t := Compiled(bytes, m)]), None)
       case None => (s.(loads := s.loads - {t}), Some(Failed(bytes))))
    case Insert(t) =>
      var load := s.loads[t];
      (State(s.modules[sha(load.bytes) := load.compiled], s.loads - {t}), Some(Fresh(load.bytes, load.compiled)))
  }

  ghost predicate IsRun(sha: Sha256, compile: Compiler, run: seq<Step>)
    decreases |run|, 0
  {
    run != [] ==>
      && IsRun(sha, compile, run[..|run| - 1])
      && Enabled(After(sha, compile, run[..|run| - 1]), run[|run| - 1])
  }

  ghost function After(sha: Sha256, compile: Compiler, run: seq<Step>): (result: State)
    requires IsRun(sha, compile, run)
    decreases |run|, 1
  {
    if run == [] then State(map[], map[])
    else Apply(sha, compile, After(sha, compile, run[..|run| - 1]), run[|run| - 1]).0
  }

  // ----- The table, updated in place by one load at a time -----

  class CachingPackRuntime {
    var modules: map<Key, Module>

    constructor ()
      ensures modules == map[]
    {
      modules := map[];
    }

    /** One load that nobody overtakes: what the three steps do in a row. */
    method LoadModuleCached(sha: Sha256, compile: Compiler, bytes: Bytes) returns (r: Return)
      modifies this
      ensures (modules, r) == LoadAlone(sha, compile, old(modules), bytes)
      ensures r.bytes == bytes && (r.Failed? <==> sha(bytes) !in modules)
      ensures !r.Failed? ==> modules == old(modules)[sha(bytes) := r.loaded]
    {
      var key := sha(bytes);
      if key in modules {
        return Hit(bytes, modules[key]);
      }
      var compiled := compile(bytes);
      if compiled.None? {
        return Failed(bytes);
      }
      modules := modules[key := compiled.value];
      return Fresh(bytes, compiled.value);
    }
  }

  /** A lookup and, after a miss, a compilation and, after a success, an insert. */
  function LoadAlone(sha: Sha256, compile: Compiler, modules: map<Key, Module>, bytes: Bytes)
    : (r: (map<Key, Module>, Return))
  {
    var (s1, r1) := Apply(sha, compile, State(modules, map[]), Lookup(0, bytes));
    if r1.Some? then (s1.modules, r1.value)
    else
      var (s2, r2) := Apply(sha, compile, s1, Compile(0));
      if r2.Some? then (s2.modules, r2.value)
      else
        var (s3, r3) := Apply(sha, compile, s2, Insert(0));
        (s3.modules, r3.value)
  }

  // ----- What the history says -----

  /** What step `k` of a run returns. */
  ghost function ReturnAt(sha: Sha256, compile: Compiler, run: seq<Step>, k: nat): (result: Option<Return>)
    requires IsRun(sha, compile, run) && k < |run|
  {
    PrefixIsRun(sha, compile, run, k);
    Apply(sha, compile, After(sha, compile, run[..k]), run[k]).1
  }

  lemma {:induction false} PrefixIsRun(sha: Sha256, compile: Compiler, run: seq<Step>, k: nat)
    requires IsRun(sha, compile, run) && k <= |run|
    ensures IsRun(sha, compile, run[..k])
    ensures k < |run| ==> Enabled(After(sha, compile, run[..k]), run[k])
  {
    if k == |run| {
      assert run[..k] == run;
    } else if k < |run| - 1 {
      PrefixIsRun(sha, compile, run[..|run| - 1], k);
      assert run[..|run| - 1][..k] == run[..k];
    }
  }

  /** The packages inserted so far, in order. */
  ghost function Inserts(sha: Sha256, compile: Compiler, run: seq<Step>): (result: seq<Bytes>)
    requires IsRun(sha, compile, run)
  {
    if run == [] then []
    else
      var before, step := run[..|run| - 1], run[|run| - 1];
      Inserts(sha, compile, before) +
      if step.Insert? then [After(sha, compile, before).loads[step.task].bytes] else []
  }

  /** The `i`-th insert is the last one under `key`. */
  ghost predicate LastUnder(sha: Sha256, inserts: seq<Bytes>, i: nat, key: Key) {
    && i < |inserts| && sha(inserts[i]) == key
    && forall j :: i < j < |inserts| ==> sha(inserts[j]) != key
  }

  /** The table holds, under exactly the keys inserted, what the compiler makes of the bytes
      last inserted under each. */
  ghost predicate EntryAgrees(sha: Sha256, compile: Compiler, inserts: seq<Bytes>, modules: map<Key, Module>, key: Key) {
    && (key in modules <==> exists i: nat :: LastUnder(sha, inserts, i, key))
    && (forall i: nat :: LastUnder(sha, inserts, i, key) ==> key in modules && compile(inserts[i]) == Some(modules[key]))
  }

  /** What the loads under way have compiled is what the compiler makes of their bytes. */
  ghost predicate LoadsHonest(compile: Compiler, s: State) {
    forall t :: t in s.loads && s.loads[t].Compiled? ==> compile(s.loads[t].bytes) == Some(s.loads[t].compiled)
  }

  lemma InsertKeepsEntry(sha: Sha256, compile: Compiler, inserts: seq<Bytes>, modules: map<Key, Module>,
                         bytes: Bytes, m: Module, key: Key)
    requires EntryAgrees(sha, compile, inserts, modules, key) && compile(bytes) == Some(m)
    ensures EntryAgrees(sha, compile, inserts + [bytes], modules[sha(bytes) := m], key)
  {
    var inserts' := inserts + [bytes];
    if sha(bytes) == key {
      assert LastUnder(sha, inserts', |inserts|, key);
      assert forall i: nat :: LastUnder(sha, inserts', i, key) ==> i == |inserts|;
    } else {
      forall i: nat
        ensures LastUnder(sha, inserts', i, key) <==> LastUnder(sha, inserts, i, key)
      {
        assert forall j :: 0 <= j < |inserts| ==> inserts'[j] == inserts[j];
      }
    }
  }

  lemma {:induction false} TableAgrees(sha: Sha256, compile: Compiler, run: seq<Step>)
    requires IsRun(sha, compile, run)
    ensures LoadsHonest(compile, After(sha, compile, run))
    ensures forall key ::
      EntryAgrees(sha, compile, Inserts(sha, compile, run), After(sha, compile, run).modules, key)
  {
    hide EntryAgrees;
    var inserts, s := Inserts(sha, compile, run), After(sha, compile, run);
    if run == [] {
      forall key ensures EntryAgrees(sha, compile, inserts, s.modules, key) {
        EmptyAgrees(sha, compile, key);
      }
    } else {
      var before, step := run[..|run| - 1], run[|run| - 1];
      TableAgrees(sha, compile, before);
      var s0 := After(sha, compile, before);
      if step.Insert? {
        var load := s0.loads[step.task];
        forall key ensures EntryAgrees(sha, compile, inserts, s.modules, key) {
          InsertKeepsEntry(sha, compile, Inserts(sha, compile, before), s0.modules, load.bytes, load.compiled, key);
        }
      } else {
        assert inserts == Inserts(sha, compile, before);
      }
    }
  }

  lemma EmptyAgrees(sha: Sha256, compile: Compiler, key: Key)
    ensures EntryAgrees(sha, compile, [], map[], key)
  {
    assert forall i: nat :: !LastUnder(sha, [], i, key);
  }

  /** Among the inserts under a key there is a last one. */
  lemma {:induction false} SomeLast(sha: Sha256, inserts: seq<Bytes>, i: nat, key: Key)
    requires i < |inserts| && sha(inserts[i]) == key
    ensures exists j: nat :: LastUnder(sha, inserts, j, key)
    decreases |inserts| - i
  {
    if k :| i < k < |inserts| && sha(inserts[k]) == key {
      SomeLast(sha, inserts, k, key);
    } else {
      assert LastUnder(sha, inserts, i, key);
    }
  }

  // ----- The cache against plain compilation -----

  /** Under every interleaving, whatever a load returns is what compiling its bytes gives,
      errors included; or the run itself holds other bytes with the same SHA-256, inserted
      earlier, whose module was handed out. */
  lemma ReturnsCompiled(sha: Sha256, compile: Compiler, run: seq<Step>, k: nat)
    requires IsRun(sha, compile, run) && k < |run| && ReturnAt(sha, compile, run, k).Some?
    ensures IsRun(sha, compile, run[..k])
    ensures match ReturnAt(sha, compile, run, k).value
            case Fresh(bytes, m) => compile(bytes) == Some(m)
            case Failed(bytes) => compile(bytes) == None
            case Hit(bytes, m) =>
              || compile(bytes) == Some(m)
              || exists other :: && other in Inserts(sha, compile, run[..k])
                                 && other != bytes && sha(other) == sha(bytes)
                                 && compile(other) == Some(m)
  {
    PrefixIsRun(sha, compile, run, k);
    TableAgrees(sha, compile, run[..k]);
    var s, inserts := After(sha, compile, run[..k]), Inserts(sha, compile, run[..k]);
    hide After, Inserts, IsRun;
    if run[k].Lookup? {
      var key := sha(run[k].bytes);
      assert EntryAgrees(sha, compile, inserts, s.modules, key);
      var i: nat :| LastUnder(sha, inserts, i, key);
      assert inserts[i] in inserts;
    }
  }

  /** A lookup is a hit exactly when some bytes with the same key were inserted before it: a
      package is compiled again only by loads that looked before its first insert. */
  lemma HitExactly(sha: Sha256, compile: Compiler, run: seq<Step>, k: nat)
    requires IsRun(sha, compile, run) && k < |run| && run[k].Lookup?
    ensures IsRun(sha, compile, run[..k])
    ensures ReturnAt(sha, compile, run, k).Some? <==>
            exists bytes :: bytes in Inserts(sha, compile, run[..k]) && sha(bytes) == sha(run[k].bytes)
  {
    PrefixIsRun(sha, compile, run, k);
    TableAgrees(sha, compile, run[..k]);
    var s, inserts, key := After(sha, compile, run[..k]), Inserts(sha, compile, run[..k]), sha(run[k].bytes);
    hide After, Inserts, IsRun;
    assert EntryAgrees(sha, compile, inserts, s.modules, key);
    if i: nat :| LastUnder(sha, inserts, i, key) {
      assert inserts[i] in inserts;
    }
    if bytes :| bytes in inserts && sha(bytes) == key {
      var i: nat :| i < |inserts| && inserts[i] == bytes;
      SomeLast(sha, inserts, i, key);
    }
  }

  /** One load has returned a module: every later lookup of the same bytes is a hit, with that
      same module unless the run itself holds other bytes with the same SHA-256. */
  lemma HitsAfterLoad(sha: Sha256, compile: Compiler, run: seq<Step>, j: nat, k: nat)
    requires IsRun(sha, compile, run) && j < k < |run| && run[k].Lookup?
    requires var r := ReturnAt(sha, compile, run, j); r.Some? && !r.value.Failed? && r.value.bytes == run[k].bytes
    ensures IsRun(sha, compile, run[..k])
    ensures var r := ReturnAt(sha, compile, run, k);
            && r.Some? && r.value.Hit? && r.value.bytes == run[k].bytes
            && (|| r.value.loaded == ReturnAt(sha, compile, run, j).value.loaded
                || exists other :: && other in Inserts(sha, compile, run[..k])
                                   && other != run[k].bytes && sha(other) == sha(run[k].bytes))
  {
    var bytes := run[k].bytes;
    ReturnsCompiled(sha, compile, run, j);
    PrefixIsRun(sha, compile, run, j + 1);
    var inserted := LoadInserted(sha, compile, run, j);
    InsertsStay(sha, compile, run, j + 1, k);
    InsertsStay(sha, compile, run, j, k);
    hide After, Inserts, IsRun;
    HitExactly(sha, compile, run, k);
    ReturnsCompiled(sha, compile, run, k);
  }

  /** Behind every module returned there is an insert under its key. */
  lemma LoadInserted(sha: Sha256, compile: Compiler, run: seq<Step>, j: nat) returns (inserted: Bytes)
    requires IsRun(sha, compile, run) && j < |run|
    requires var r := ReturnAt(sha, compile, run, j); r.Some? && !r.value.Failed?
    ensures IsRun(sha, compile, run[..j + 1])
    ensures inserted in Inserts(sha, compile, run[..j + 1])
    ensures sha(inserted) == sha(ReturnAt(sha, compile, run, j).value.bytes)
  {
    PrefixIsRun(sha, compile, run, j + 1);
    PrefixIsRun(sha, compile, run, j);
    assert run[..j + 1][..j] == run[..j];
    if run[j].Lookup? {
      HitExactly(sha, compile, run, j);
      inserted :| inserted in Inserts(sha, compile, run[..j]) && sha(inserted) == sha(run[j].bytes);
    } else {
      inserted := After(sha, compile, run[..j]).loads[run[j].task].bytes;
    }
  }

  lemma {:induction false} InsertsStay(sha: Sha256, compile: Compiler, run: seq<Step>, j: nat, k: nat)
    requires IsRun(sha, compile, run) && j <= k <= |run|
    ensures IsRun(sha, compile, run[..j]) && IsRun(sha, compile, run[..k])
    ensures Inserts(sha, compile, run[..j]) <= Inserts(sha, compile, run[..k])
  {
    hide IsRun, After, Inserts;
    PrefixIsRun(sha, compile, run, j);
    PrefixIsRun(sha, compile, run, k);
    if j < k {
      InsertsStay(sha, compile, run, j, k - 1);
      InsertsNext(sha, compile, run, k - 1);
    }
  }

  lemma InsertsNext(sha: Sha256, compile: Compiler, run: seq<Step>, k: nat)
    requires IsRun(sha, compile, run) && k < |run|
    ensures IsRun(sha, compile, run[..k]) && IsRun(sha, compile, run[..k + 1])
    ensures Inserts(sha, compile, run[..k]) <= Inserts(sha, compile, run[..k + 1])
  {
    PrefixIsRun(sha, compile, run, k);
    PrefixIsRun(sha, compile, run, k + 1);
    assert run[..k + 1][..k] == run[..k];
  }

  // ----- A load that nobody overtakes -----

  /** Its steps, in a row, by a task that has no load under way. */
  ghost function StepsOf(sha: Sha256, compile: Compiler, modules: map<Key, Module>, t: nat, bytes: Bytes)
    : (steps: seq<Step>)
  {
    if sha(bytes) in modules then [Lookup(t, bytes)]
    else if compile(bytes).None? then [Lookup(t, bytes), Compile(t)]
    else [Lookup(t, bytes), Compile(t), Insert(t)]
  }

  /** The run ends with the tables as given, returning `r`. */
  ghost predicate EndsWith(sha: Sha256, compile: Compiler, run: seq<Step>, modules: map<Key, Module>,
                           loads: map<nat, Load>, r: Return) {
    && run != [] && IsRun(sha, compile, run)
    && After(sha, compile, run) == State(modules, loads)
    && ReturnAt(sha, compile, run, |run| - 1) == Some(r)
  }

  /** In any run, a load that nobody overtakes changes the table and returns as the whole load
      does, and leaves the other loads under way alone. */
  lemma LoadIsRun(sha: Sha256, compile: Compiler, run: seq<Step>, t: nat, bytes: Bytes)
    requires IsRun(sha, compile, run) && t !in After(sha, compile, run).loads
    ensures var s := After(sha, compile, run);
            var (modules, r) := LoadAlone(sha, compile, s.modules, bytes);
            EndsWith(sha, compile, run + StepsOf(sha, compile, s.modules, t, bytes), modules, s.loads, r)
  {
    hide *;
    var s := After(sha, compile, run);
    LoadAloneMeans(sha, compile, s.modules, bytes);
    StepsMean(sha, compile, s.modules, t, bytes);
    if sha(bytes) in s.modules {
      LoadHits(sha, compile, run, t, bytes);
    } else if compile(bytes).None? {
      LoadFails(sha, compile, run, t, bytes);
    } else {
      LoadInserts(sha, compile, run, t, bytes);
    }
  }

  lemma StepsMean(sha: Sha256, compile: Compiler, modules: map<Key, Module>, t: nat, bytes: Bytes)
    ensures StepsOf(sha, compile, modules, t, bytes) ==
      if sha(bytes) in modules then [Lookup(t, bytes)]
      else if compile(bytes).None? then [Lookup(t, bytes), Compile(t)]
      else [Lookup(t, bytes), Compile(t), Insert(t)]
  {
  }

  lemma LoadHits(sha: Sha256, compile: Compiler, run: seq<Step>, t: nat, bytes: Bytes)
    requires IsRun(sha, compile, run) && t !in After(sha, compile, run).loads
    requires sha(bytes) in After(sha, compile, run).modules
    ensures var s := After(sha, compile, run);
            EndsWith(sha, compile, run + [Lookup(t, bytes)], s.modules, s.loads, Hit(bytes, s.modules[sha(bytes)]))
  {
    hide IsRun, After, ReturnAt;
    var _ := NextStep(sha, compile, run, Lookup(t, bytes));
  }

  lemma LoadFails(sha: Sha256, compile: Compiler, run: seq<Step>, t: nat, bytes: Bytes)
    requires IsRun(sha, compile, run) && t !in After(sha, compile, run).loads
    requires sha(bytes) !in After(sha, compile, run).modules && compile(bytes).None?
    ensures var s := After(sha, compile, run);
            EndsWith(sha, compile, run + [Lookup(t, bytes), Compile(t)], s.modules, s.loads, Failed(bytes))
  {
    hide IsRun, After, ReturnAt;
    var s := After(sha, compile, run);
    var run1 := NextStep(sha, compile, run, Lookup(t, bytes));
    var run2 := NextStep(sha, compile, run1, Compile(t));
    assert run2 == run + [Lookup(t, bytes), Compile(t)];
    assert s.loads[t := Missed(bytes)] - {t} == s.loads;
  }

  lemma LoadInserts(sha: Sha256, compile: Compiler, run: seq<Step>, t: nat, bytes: Bytes)
    requires IsRun(sha, compile, run) && t !in After(sha, compile, run).loads
    requires sha(bytes) !in After(sha, compile, run).modules && compile(bytes).Some?
    ensures var s, m := After(sha, compile, run), compile(bytes).value;
            EndsWith(sha, compile, run + [Lookup(t, bytes), Compile(t), Insert(t)],
                     s.modules[sha(bytes) := m], s.loads, Fresh(bytes, m))
  {
    hide IsRun, After, ReturnAt;
    var s, m := After(sha, compile, run), compile(bytes).value;
    var run1 := NextStep(sha, compile, run, Lookup(t, bytes));
    var run2 := NextStep(sha, compile, run1, Compile(t));
    assert run2 == run + [Lookup(t, bytes), Compile(t)];
    var run3 := NextStep(sha, compile, run2, Insert(t));
    assert run3 == run + [Lookup(t, bytes), Compile(t), Insert(t)];
    assert s.loads[t := Missed(bytes)][t := Compiled(bytes, m)] - {t} == s.loads;
  }

  lemma LoadAloneMeans(sha: Sha256, compile: Compiler, modules: map<Key, Module>, bytes: Bytes)
    ensures LoadAlone(sha, compile, modules, bytes) ==
      if sha(bytes) in modules then (modules, Hit(bytes, modules[sha(bytes)]))
      else
        match compile(bytes)
        case None => (modules, Failed(bytes))
        case Some(m) => (modules[sha(bytes) := m], Fresh(bytes, m))
  {
  }

  lemma NextStep(sha: Sha256, compile: Compiler, run: seq<Step>, step: Step) returns (run': seq<Step>)
    requires IsRun(sha, compile, run) && Enabled(After(sha, compile, run), step)
    ensures run' == run + [step] && IsRun(sha, compile, run')
    ensures After(sha, compile, run') == Apply(sha, compile, After(sha, compile, run), step).0
    ensures ReturnAt(sha, compile, run', |run|) == Apply(sha, compile, After(sha, compile, run), step).1
  {
    run' := run + [step];
    assert run'[..|run|] == run;
  }

  /** Keys are never removed. */
  lemma {:induction false} KeysStay(sha: Sha256, compile: Compiler, run: seq<Step>, k: nat)
    requires IsRun(sha, compile, run) && k <= |run|
    ensures IsRun(sha, compile, run[..k])
    ensures After(sha, compile, run[..k]).modules.Keys <= After(sha, compile, run).modules.Keys
  {
    if k == |run| {
      assert run[..k] == run;
    } else {
      KeysStay(sha, compile, run[..|run| - 1], k);
      assert run[..|run| - 1][..k] == run[..k];
    }
  }
}
