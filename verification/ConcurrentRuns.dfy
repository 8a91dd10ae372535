/** Two pipelines at once, each deciding what to do next by what it sees (internal/service/build_service.go,
    internal/pipeline/pipeline.go). */
module ConcurrentRuns {
  import opened Wrappers
  import opened FileTree
  import opened FileSystem
  import opened Publish
  import opened Pipeline
  import opened ProductIsolation

  // What a run remembers after a step, and the file operation it issues in it, if any.
  datatype Turn<S> = Turn(state: S, op: Option<FileOp>)

  /** A run: what it remembers and the tree it sees decide its next step. */
  type Program<!S> = (S, Entries) -> Turn<S>

  /** The run looks only at these entries of the root, and touches only these. */
  ghost predicate StaysIn<S(!new)>(f: Program<S>, names: set<string>) {
    && (forall s, m :: f(s, m).op.Some? ==> Touches(f(s, m).op.value) <= names)
    && (forall s, m, n :: AgreeOn(names, m, n) ==> f(s, m) == f(s, n))
  }

  function Issued(ops: seq<FileOp>, op: Option<FileOp>): seq<FileOp> {
    if op.Some? then ops + [op.value] else ops
  }

  ghost function Effect(m: Entries, op: Option<FileOp>): Entries {
    if op.Some? then Change(m, op.value) else m
  }

  datatype Alone<S> = Alone(state: S, tree: Entries, ops: seq<FileOp>)

  /** The first n steps of a run that has the disk to itself. */
  ghost function RunAlone<S>(f: Program<S>, s: S, m: Entries, n: nat): Alone<S> {
    if n == 0 then Alone(s, m, [])
    else
      var a := RunAlone(f, s, m, n - 1);
      var turn := f(a.state, a.tree);
      Alone(turn.state, Effect(a.tree, turn.op), Issued(a.ops, turn.op))
  }

  // n and k count the steps each run has taken.
  datatype Both<S, T> = Both(first: S, second: T, tree: Entries, ops: seq<FileOp>, n: nat, k: nat)

  /** Two runs on one disk; the schedule says whether the first takes the next step. */
  ghost function RunBoth<S, T>(f: Program<S>, g: Program<T>, s: S, t: T, m: Entries, schedule: seq<bool>): Both<S, T> {
    if schedule == [] then Both(s, t, m, [], 0, 0)
    else
      var b := RunBoth(f, g, s, t, m, schedule[..|schedule| - 1]);
      if schedule[|schedule| - 1] then
        var turn := f(b.first, b.tree);
        b.(first := turn.state, tree := Effect(b.tree, turn.op), ops := Issued(b.ops, turn.op), n := b.n + 1)
      else
        var turn := g(b.second, b.tree);
        b.(second := turn.state, tree := Effect(b.tree, turn.op), ops := Issued(b.ops, turn.op), k := b.k + 1)
  }

  lemma EffectIssued(m: Entries, ops: seq<FileOp>, op: Option<FileOp>)
    ensures Effect(Changed(m, ops), op) == Changed(m, Issued(ops, op))
  {
    hide Apply;
    if op.Some? {
      assert (ops + [op.value])[..|ops|] == ops;
    }
  }

  lemma {:induction false} AloneRecords<S(!new)>(f: Program<S>, s: S, m: Entries, n: nat, names: set<string>)
    requires StaysIn(f, names)
    ensures var a := RunAlone(f, s, m, n); a.tree == Changed(m, a.ops) && Within(a.ops, names)
  {
    if n > 0 {
      hide Touches, Changed, Effect;
      AloneRecords(f, s, m, n - 1, names);
      var a := RunAlone(f, s, m, n - 1);
      EffectIssued(m, a.ops, f(a.state, a.tree).op);
    } else {
      NothingChanged(m);
    }
  }

  lemma NothingChanged(m: Entries)
    ensures Changed(m, []) == m
  {
  }

  lemma InterleavesMore(zs: seq<FileOp>, xs: seq<FileOp>, ys: seq<FileOp>, op: Option<FileOp>)
    requires Interleaves(zs, xs, ys)
    ensures Interleaves(Issued(zs, op), Issued(xs, op), ys) && Interleaves(Issued(zs, op), xs, Issued(ys, op))
  {
    if op.Some? {
      assert (zs + [op.value])[..|zs|] == zs && (xs + [op.value])[..|xs|] == xs && (ys + [op.value])[..|ys|] == ys;
    }
  }

  /** Under every schedule, two runs that stay in separate places remember and issue step by step what they would
      alone, although each decides by what it sees; their operations are interleaved on the disk. */
  lemma {:induction false} EachRunsAsAlone<S(!new), T(!new)>(
      f: Program<S>, g: Program<T>, s: S, t: T, m: Entries, schedule: seq<bool>, K: set<string>, L: set<string>)
    requires StaysIn(f, K) && StaysIn(g, L) && K !! L
    ensures var b := RunBoth(f, g, s, t, m, schedule);
      var x, y := RunAlone(f, s, m, b.n), RunAlone(g, t, m, b.k);
      && b.first == x.state && b.second == y.state
      && b.tree == Changed(m, b.ops) && Interleaves(b.ops, x.ops, y.ops)
  {
    hide StaysIn, Changed, Effect, Issued, Interleaves, Within, AgreeOn;
    if schedule == [] {
      NothingChanged(m);
      NothingInterleaves();
    } else {
      var before := schedule[..|schedule| - 1];
      EachRunsAsAlone(f, g, s, t, m, before, K, L);
      var b := RunBoth(f, g, s, t, m, before);
      var x, y := RunAlone(f, s, m, b.n), RunAlone(g, t, m, b.k);
      AloneRecords(f, s, m, b.n, K);
      AloneRecords(g, t, m, b.k, L);
      EachSeesItsOwn(m, b.ops, x.ops, y.ops, K, L);
      if schedule[|schedule| - 1] {
        SameTurn(f, b.first, b.tree, x.tree, K);
        EffectIssued(m, b.ops, f(b.first, b.tree).op);
        InterleavesMore(b.ops, x.ops, y.ops, f(b.first, b.tree).op);
      } else {
        SameTurn(g, b.second, b.tree, y.tree, L);
        EffectIssued(m, b.ops, g(b.second, b.tree).op);
        InterleavesMore(b.ops, x.ops, y.ops, g(b.second, b.tree).op);
      }
    }
  }

  lemma NothingInterleaves()
    ensures Interleaves([], [], [])
  {
  }

  lemma SameTurn<S(!new)>(f: Program<S>, s: S, m: Entries, n: Entries, names: set<string>)
    requires StaysIn(f, names) && AgreeOn(names, m, n)
    ensures f(s, m) == f(s, n)
  {
  }

  /** Pipelines of two products, each deciding by what it sees in the places of its product: when, alone, their
      steps do what Run does, under every schedule of these steps they leave the tree of one after the other. */
  lemma PipelinesTogether<S(!new), T(!new)>(
      p: string, q: string, e: Env, e': Env, f: Program<S>, g: Program<T>, s: S, t: T, m: Entries, schedule: seq<bool>)
    requires ValidName(p) && ValidName(q) && p != q
    requires StaysIn(f, Places(p)) && StaysIn(g, Places(q))
    requires var b := RunBoth(f, g, s, t, m, schedule);
      RunAlone(f, s, m, b.n).tree == After(m, p, e) && RunAlone(g, t, m, b.k).tree == After(m, q, e')
    ensures RunBoth(f, g, s, t, m, schedule).tree == After(After(m, p, e), q, e')
  {
    hide StaysIn, Changed, Interleaves, After, RunAlone, RunBoth;
    var b := RunBoth(f, g, s, t, m, schedule);
    OwnApart(p, q);
    EachRunsAsAlone(f, g, s, t, m, schedule, Places(p), Places(q));
    AloneRecords(f, s, m, b.n, Places(p));
    AloneRecords(g, t, m, b.k, Places(q));
    InterleavedRuns(p, q, e, e', m, b.ops, RunAlone(f, s, m, b.n).ops, RunAlone(g, t, m, b.k).ops);
  }
}
