/** Builds of different products do not touch each other's directories
    (internal/service/product_service.go, internal/pipeline/pipeline.go). */
module ProductIsolation {
  import opened Wrappers
  import opened FileTree
  import opened FileSystem
  import opened Snapshots
  import opened Publish
  import opened Rollback
  import opened Pipeline

  /** The names that ProductService accepts. */
  predicate ValidName(name: string) {
    && |name| >= 2 && IsNameEnd(name[0]) && IsNameEnd(name[|name| - 1])
    && (forall i :: 0 <= i < |name| ==> IsNameEnd(name[i]) || name[i] == '-')
  }

  /** Rollback takes every name that a product can have, and besides these only names with a dot or an underscore. */
  lemma NamesAccepted(name: string)
    ensures ValidName(name) <==> ValidProduct(name) && '.' !in name && '_' !in name
  {
    if '.' !in name && '_' !in name {
      forall i | 0 <= i < |name|
        ensures name[i] != '.' && name[i] != '_'
      {
        assert name[i] in name;
      }
    }
  }

  /** The entries of the repository root that builds and rollbacks of a product use. */
  function Own(product: string): set<string> {
    {product, StagingName(product), TempName(product)}
  }

  lemma OwnApart(p: string, q: string)
    requires ValidName(p) && ValidName(q) && p != q
    ensures Own(p) !! Own(q)
  {
    forall x | x in Own(p) && x in Own(q)
      ensures false
    {
      if x == p || x == q {
        NoDot(p, q);
        NoDot(q, p);
      } else {
        SameOwner(p, q, x);
      }
    }
  }

  lemma NoDot(p: string, q: string)
    requires ValidName(p)
    ensures p != StagingName(q) && p != TempName(q)
  {
    assert StagingName(q)[|q|] == '.' && TempName(q)[|q|] == '.';
  }

  lemma SameOwner(p: string, q: string, x: string)
    requires ValidName(p) && (x == StagingName(p) || x == TempName(p))
    requires ValidName(q) && (x == StagingName(q) || x == TempName(q))
    ensures p == q
  {
    FirstDot(p, x);
    FirstDot(q, x);
    assert |p| == |q|;
  }

  /** The first dot in a staging or temporary name ends the product name. */
  lemma FirstDot(p: string, x: string)
    requires ValidName(p) && (x == StagingName(p) || x == TempName(p))
    ensures |p| < |x| - 1 && x[|p|] == '.' && forall i :: 0 <= i < |p| ==> x[i] != '.'
    ensures x[..|p|] == p
    ensures x == StagingName(p) ==> x[|p| + 1] == 's'
    ensures x == TempName(p) ==> x[|p| + 1] == 'r'
  {
    assert forall i :: 0 <= i < |p| ==> x[i] == p[i];
  }

  ghost predicate AgreeOn(names: set<string>, m: Entries, n: Entries) {
    forall x :: x in names ==> Lookup(m, x) == Lookup(n, x)
  }

  /** A file step that reads and changes only the entries with these names. */
  ghost predicate LocalTo(step: Entries -> Entries, names: set<string>) {
    && (forall m, x :: x !in names ==> Lookup(step(m), x) == Lookup(m, x))
    && (forall m, n :: AgreeOn(names, m, n) ==> AgreeOn(names, step(m), step(n)))
  }

  /** Steps on separate entries commute. */
  lemma LocalStepsCommute(f: Entries -> Entries, g: Entries -> Entries, K: set<string>, L: set<string>, m: Entries)
    requires LocalTo(f, K) && LocalTo(g, L) && K !! L
    ensures f(g(m)) == g(f(m))
  {
    forall x
      ensures Lookup(f(g(m)), x) == Lookup(g(f(m)), x)
    {
      assert AgreeOn(K, g(m), m);
      assert AgreeOn(L, f(m), m);
      if x in K {
        assert AgreeOn(K, f(g(m)), f(m));
      } else if x in L {
        assert AgreeOn(L, g(f(m)), g(m));
      }
    }
    SameEntries(f(g(m)), g(f(m)));
  }

  /** A tree after one change, and after several. */
  ghost function Change(m: Entries, op: FileOp): Entries { Apply(Dir(m), op).entries }

  ghost function Changed(m: Entries, ops: seq<FileOp>): Entries { Replay(Dir(m), ops).entries }

  /** Each rename, copy, removal, new directory and tool output reads and changes only the entries of the root
      that its paths begin with. */
  lemma FileStepsAreLocal(op: FileOp, names: set<string>)
    requires Touches(op) <= names
    ensures LocalTo((m: Entries) => Change(m, op), names)
  {
    hide Copy, Without;
    forall m, x | x !in names
      ensures Lookup(Change(m, op), x) == Lookup(m, x)
    {
      StepStaysInside(m, op, x);
    }
    forall m, n | AgreeOn(names, m, n)
      ensures AgreeOn(names, Change(m, op), Change(n, op))
    {
      forall x | x in names
        ensures Lookup(Change(m, op), x) == Lookup(Change(n, op), x)
      {
        StepSeesInside(m, n, op, names, x);
      }
    }
  }

  lemma PutAt(m: Entries, p: Place, v: Node, x: string)
    ensures Put(Dir(m), p, v).Dir?
    ensures x != p[0] ==> Lookup(Put(Dir(m), p, v).entries, x) == Lookup(m, x)
    ensures forall n: Entries :: Lookup(m, p[0]) == Lookup(n, p[0]) ==>
      Lookup(Put(Dir(m), p, v).entries, p[0]) == Lookup(Put(Dir(n), p, v).entries, p[0])
  {
  }

  lemma CutAt(m: Entries, p: Place, x: string)
    ensures Cut(Dir(m), p).Dir?
    ensures x != p[0] ==> Lookup(Cut(Dir(m), p).entries, x) == Lookup(m, x)
    ensures forall n: Entries :: Lookup(m, p[0]) == Lookup(n, p[0]) ==>
      Lookup(Cut(Dir(m), p).entries, p[0]) == Lookup(Cut(Dir(n), p).entries, p[0])
  {
  }

  lemma GetAt(m: Entries, n: Entries, p: Place)
    requires Lookup(m, p[0]) == Lookup(n, p[0])
    ensures Get(Dir(m), p) == Get(Dir(n), p)
    ensures IsDir(Dir(m), p[..|p| - 1]) == IsDir(Dir(n), p[..|p| - 1])
  {
  }

  lemma StepStaysInside(m: Entries, op: FileOp, x: string)
    requires x !in Touches(op)
    ensures Lookup(Change(m, op), x) == Lookup(m, x)
  {
    hide Get, Put, Cut, Copy, Without;
    match op
    case Move(src, dst) =>
      if CanRename(Dir(m), src, dst) {
        CutAt(m, src, x);
        PutAt(Cut(Dir(m), src).entries, dst, Get(Dir(m), src).value, x);
      }
    case Remove(p) => CutAt(m, p, x);
    case MakeDir(p) => PutAt(m, p, Dir(map[]), x);
    case CopyTo(read, src, dst, exclude) =>
      if Get(Dir(m), src).Some? {
        var r := Copy(read, [], Without(Get(Dir(m), src).value, exclude), Get(Dir(m), dst));
        if r.node.Some? {
          PutAt(m, dst, r.node.value, x);
        }
      }
    case Fill(p, node) => PutAt(m, p, node, x);
  }

  lemma PutSees(m: Entries, n: Entries, p: Place, v: Node, x: string)
    requires Lookup(m, x) == Lookup(n, x) && Lookup(m, p[0]) == Lookup(n, p[0])
    ensures Put(Dir(m), p, v).Dir? && Put(Dir(n), p, v).Dir?
    ensures Lookup(Put(Dir(m), p, v).entries, x) == Lookup(Put(Dir(n), p, v).entries, x)
  {
    hide Put;
    PutAt(m, p, v, x);
    PutAt(n, p, v, x);
  }

  lemma CutSees(m: Entries, n: Entries, p: Place, x: string)
    requires Lookup(m, x) == Lookup(n, x) && Lookup(m, p[0]) == Lookup(n, p[0])
    ensures Cut(Dir(m), p).Dir? && Cut(Dir(n), p).Dir?
    ensures Lookup(Cut(Dir(m), p).entries, x) == Lookup(Cut(Dir(n), p).entries, x)
  {
    hide Cut;
    CutAt(m, p, x);
    CutAt(n, p, x);
  }

  lemma StepSeesInside(m: Entries, n: Entries, op: FileOp, names: set<string>, x: string)
    requires Touches(op) <= names && AgreeOn(names, m, n) && x in names
    ensures Lookup(Change(m, op), x) == Lookup(Change(n, op), x)
  {
    hide Get, Put, Cut, Copy, Without;
    match op
    case Move(src, dst) =>
      GetAt(m, n, src);
      GetAt(m, n, dst);
      if CanRename(Dir(m), src, dst) {
        CutSees(m, n, src, x);
        CutSees(m, n, src, dst[0]);
        PutSees(Cut(Dir(m), src).entries, Cut(Dir(n), src).entries, dst, Get(Dir(m), src).value, x);
      }
    case Remove(p) => CutSees(m, n, p, x);
    case MakeDir(p) =>
      GetAt(m, n, p);
      PutSees(m, n, p, Dir(map[]), x);
    case CopyTo(read, src, dst, exclude) =>
      GetAt(m, n, src);
      GetAt(m, n, dst);
      if Get(Dir(m), src).Some? {
        var r := Copy(read, [], Without(Get(Dir(m), src).value, exclude), Get(Dir(m), dst));
        if r.node.Some? {
          PutSees(m, n, dst, r.node.value, x);
        }
      }
    case Fill(p, node) => PutSees(m, n, p, node, x);
  }

  // ---- two runs at once ----

  ghost predicate Within(ops: seq<FileOp>, names: set<string>) {
    forall op :: op in ops ==> Touches(op) <= names
  }

  /** zs holds the changes of xs and of ys, each in their own order. */
  ghost predicate Interleaves(zs: seq<FileOp>, xs: seq<FileOp>, ys: seq<FileOp>)
    decreases |zs|
  {
    if zs == [] then xs == [] && ys == []
    else
      var z, rest := zs[|zs| - 1], zs[..|zs| - 1];
      || (xs != [] && z == xs[|xs| - 1] && Interleaves(rest, xs[..|xs| - 1], ys))
      || (ys != [] && z == ys[|ys| - 1] && Interleaves(rest, xs, ys[..|ys| - 1]))
  }

  /** What each of two runs in separate places sees, and leaves, is as if it ran alone. As every beginning of an
      interleaving is an interleaving of beginnings, this holds at every point of the runs. */
  lemma {:induction false} EachSeesItsOwn(m: Entries, zs: seq<FileOp>, xs: seq<FileOp>, ys: seq<FileOp>,
                                          K: set<string>, L: set<string>)
    requires K !! L && Within(xs, K) && Within(ys, L) && Interleaves(zs, xs, ys)
    ensures AgreeOn(K, Changed(m, zs), Changed(m, xs)) && AgreeOn(L, Changed(m, zs), Changed(m, ys))
    ensures forall x :: x !in K && x !in L ==> Lookup(Changed(m, zs), x) == Lookup(m, x)
    decreases |zs|
  {
    if zs != [] {
      hide Touches, Apply, Lookup;
      var z, rest := zs[|zs| - 1], zs[..|zs| - 1];
      if xs != [] && z == xs[|xs| - 1] && Interleaves(rest, xs[..|xs| - 1], ys) {
        EachSeesItsOwn(m, rest, xs[..|xs| - 1], ys, K, L);
        FileStepsAreLocal(z, K);
        StepLocal(Changed(m, rest), Changed(m, xs[..|xs| - 1]), z, K);
      } else {
        EachSeesItsOwn(m, rest, xs, ys[..|ys| - 1], K, L);
        FileStepsAreLocal(z, L);
        StepLocal(Changed(m, rest), Changed(m, ys[..|ys| - 1]), z, L);
      }
    }
  }

  lemma StepLocal(m: Entries, n: Entries, op: FileOp, names: set<string>)
    requires LocalTo((e: Entries) => Change(e, op), names)
    ensures forall x :: x !in names ==> Lookup(Change(m, op), x) == Lookup(m, x)
    ensures AgreeOn(names, m, n) ==> AgreeOn(names, Change(m, op), Change(n, op))
  {
    hide Change;
    var step := (e: Entries) => Change(e, op);
    assert step(m) == Change(m, op) && step(n) == Change(n, op);
  }

  /** Every interleaving of the changes of two runs in separate places gives the tree of one after the other. */
  lemma AnyInterleaving(m: Entries, zs: seq<FileOp>, xs: seq<FileOp>, ys: seq<FileOp>, K: set<string>, L: set<string>)
    requires K !! L && Within(xs, K) && Within(ys, L) && Interleaves(zs, xs, ys)
    ensures Changed(m, zs) == Changed(m, xs + ys)
  {
    hide Interleaves, Changed, Within;
    OneAfterTheOther(xs, ys);
    EachSeesItsOwn(m, zs, xs, ys, K, L);
    EachSeesItsOwn(m, xs + ys, xs, ys, K, L);
    forall x
      ensures Lookup(Changed(m, zs), x) == Lookup(Changed(m, xs + ys), x)
    {
    }
    SameEntries(Changed(m, zs), Changed(m, xs + ys));
  }

  lemma {:induction false} OneAfterTheOther(xs: seq<FileOp>, ys: seq<FileOp>)
    ensures Interleaves(xs + ys, xs, ys)
    decreases |xs| + |ys|
  {
    var zs := xs + ys;
    if ys != [] {
      OneAfterTheOther(xs, ys[..|ys| - 1]);
      assert zs[..|zs| - 1] == xs + ys[..|ys| - 1];
    } else if xs != [] {
      OneAfterTheOther(xs[..|xs| - 1], []);
      assert zs[..|zs| - 1] == xs[..|xs| - 1] + [];
    }
  }

  /** However the file operations of two pipelines of different products interleave, the tree in the end is that
      of running one after the other. xs and ys are what Run records on the disk. */
  lemma InterleavedRuns(p: string, q: string, e: Env, f: Env, m: Entries,
                        zs: seq<FileOp>, xs: seq<FileOp>, ys: seq<FileOp>)
    requires ValidName(p) && ValidName(q) && p != q
    requires Adds([], xs, Places(p)) && Changed(m, xs) == After(m, p, e)
    requires Adds([], ys, Places(q)) && Changed(m, ys) == After(m, q, f)
    requires Interleaves(zs, xs, ys)
    ensures Changed(m, zs) == After(After(m, p, e), q, f)
  {
    hide Interleaves, Changed, After, Touches;
    OwnApart(p, q);
    AddsWithin(xs, p);
    AddsWithin(ys, q);
    EachSeesItsOwn(m, zs, xs, ys, Own(p), Own(q));
    RunIsLocal(p, e);
    RunIsLocal(q, f);
    var both := After(After(m, p, e), q, f);
    assert AgreeOn(Own(q), After(m, p, e), m);
    assert AgreeOn(Own(q), both, After(m, q, f));
    forall x
      ensures Lookup(Changed(m, zs), x) == Lookup(both, x)
    {
      if x in Own(p) {
        assert x !in Own(q);
      } else if x !in Own(q) {
        assert Lookup(both, x) == Lookup(After(m, p, e), x);
      }
    }
    SameEntries(Changed(m, zs), both);
  }

  lemma AddsWithin(ops: seq<FileOp>, product: string)
    requires Adds([], ops, Places(product))
    ensures Within(ops, Own(product))
  {
    hide Touches;
    forall op | op in ops
      ensures Touches(op) <= Own(product)
    {
      var i :| 0 <= i < |ops| && ops[i] == op;
    }
  }

  /** The whole effect of a pipeline run is local to its product. */
  lemma RunIsLocal(product: string, env: Env)
    ensures forall m, x :: x !in Own(product) ==> Lookup(After(m, product, env), x) == Lookup(m, x)
    ensures forall m, n :: AgreeOn(Own(product), m, n) ==>
      AgreeOn(Own(product), After(m, product, env), After(n, product, env))
  {
    hide Published;
    forall m, n | AgreeOn(Own(product), m, n)
      ensures AgreeOn(Own(product), After(m, product, env), After(n, product, env))
    {
      assert Lookup(m, product) == Lookup(n, product);
      assert Lookup(m, TempName(product)) == Lookup(n, TempName(product));
    }
  }

  /** Runs of two products with valid, different names give the same tree in either order. */
  lemma RunsCommute(p: string, q: string, e: Env, f: Env, m: Entries)
    requires ValidName(p) && ValidName(q) && p != q
    ensures After(After(m, p, e), q, f) == After(After(m, q, f), p, e)
  {
    OwnApart(p, q);
    RunIsLocal(p, e);
    RunIsLocal(q, f);
    forall x
      ensures Lookup(After(After(m, p, e), q, f), x) == Lookup(After(After(m, q, f), p, e), x)
    {
      assert AgreeOn(Own(p), After(m, q, f), m);
      assert AgreeOn(Own(q), After(m, p, e), m);
      if x in Own(p) {
        assert AgreeOn(Own(p), After(After(m, q, f), p, e), After(m, p, e));
      } else if x in Own(q) {
        assert AgreeOn(Own(q), After(After(m, p, e), q, f), After(m, q, f));
      }
    }
    SameEntries(After(After(m, p, e), q, f), After(After(m, q, f), p, e));
  }
}
