/** Restoring a snapshot (internal/service/repo_service.go). */
module Rollback {
  import opened Wrappers
  import opened Names
  import opened FileTree
  import opened FileSystem
  import opened Snapshots
  import opened Publish
  import opened Decimals
  import opened Timestamps

  function TempName(product: string): string { product + ".rollback-tmp" }

  predicate IsNameEnd(c: char) { 'a' <= c <= 'z' || '0' <= c <= '9' }

  /** The names validateProduct lets through. */
  predicate ValidProduct(product: string) {
    && |product| >= 2 && IsNameEnd(product[0]) && IsNameEnd(product[|product| - 1])
    && (forall i :: 0 <= i < |product| ==> IsNameEnd(product[i]) || product[i] in "._-")
    && (forall i :: 0 < i < |product| && product[i] == '.' ==> product[i - 1] != '.')
  }

  predicate ValidSnapshotName(snapshot: string) {
    forall c :: c in snapshot ==> c !in "/\\."
  }

  /** Production after its snapshot has taken its place. */
  function Restored(prod: Node, snapshot: string): Node
    requires snapshot in History(prod)
  {
    var n := History(prod)[snapshot];
    if n.Dir? && ROLLBACK !in n.entries then Dir(n.entries[ROLLBACK := Dir(History(prod) - {snapshot})]) else n
  }

  /** Restores a snapshot. `restoreFails` is a failure of the rename that would put it in place. */
  method Rollback(disk: Disk, product: string, snapshot: string, restoreFails: bool) returns (ok: bool)
    requires disk.Valid() && snapshot != ""
    modifies disk
    ensures disk.Valid() && Adds(old(disk.ops), disk.ops, {product, TempName(product)})
    ensures var m := old(disk.Tree());
      && (ok <==>
            && ValidProduct(product) && ValidSnapshotName(snapshot) && !restoreFails
            && product in m && snapshot in History(m[product]) && TempName(product) !in m)
      && disk.Tree() == if ok then m[product := Restored(m[product], snapshot)] else m
  {
    hide Get, Put, Cut, ValidProduct, ValidSnapshotName, Disk.Logged;
    ghost var m := disk.Tree();
    if !ValidProduct(product) { return false; }
    if !ValidSnapshotName(snapshot) { return false; }
    var temp := TempName(product);
    assert product != temp by { assert |product| != |temp|; }
    GetShort(m, product, ROLLBACK, snapshot);
    if Get(disk.root, [product, ROLLBACK, snapshot]).None? { return false; }
    GetShort(m, temp, "", "");
    assert [product][..0] == [] && [temp][..0] == [];
    assert [product][0] != [temp][0];
    ok := disk.Rename([product], [temp]);
    if !ok { return false; }
    CutShort(m, product, "");
    PutShort(m - {product}, temp, "", m[product]);
    ghost var m1 := (m - {product})[temp := m[product]];
    GetShort(m1, temp, ROLLBACK, snapshot);
    GetShort(m1, product, "", "");
    assert [temp, ROLLBACK, snapshot][0] != [product][0];
    if restoreFails {
      CutShort(m1, temp, "");
      PutShort(m1 - {temp}, product, "", m[product]);
      assert (m1 - {temp})[product := m[product]] == m;
      ok := disk.Rename([temp], [product]);
      return false;
    }
    ok := disk.Rename([temp, ROLLBACK, snapshot], [product]);
    ghost var ops := disk.ops;
    Finish(disk, product, snapshot, m, m1);
    AddsTwice(old(disk.ops), ops, disk.ops, {product, temp});
  }

  /** Gives the restored tree the remaining snapshots and removes the temporary tree. */
  method Finish(disk: Disk, product: string, snapshot: string, ghost m: Entries, ghost m1: Entries)
    requires disk.Valid() && product in m && snapshot in History(m[product]) && TempName(product) !in m
    requires m1 == (m - {product})[TempName(product) := m[product]]
    requires disk.root == Put(Cut(Dir(m1), [TempName(product), ROLLBACK, snapshot]), [product],
                              History(m[product])[snapshot])
    modifies disk
    ensures disk.Valid() && Adds(old(disk.ops), disk.ops, {product, TempName(product)})
    ensures disk.root == Dir(m[product := Restored(m[product], snapshot)])
  {
    hide Get, Put, Cut, Disk.Logged;
    var temp := TempName(product);
    assert product != temp by { assert |product| != |temp|; }
    ghost var prod, n, others := m[product].entries, History(m[product])[snapshot], History(m[product]) - {snapshot};
    CutLong(m1, temp, ROLLBACK, snapshot);
    ghost var rest := m1[temp := Dir(prod[ROLLBACK := Dir(others)])];
    PutShort(rest, product, "", n);
    ghost var m2 := rest[product := n];
    GetShort(m2, temp, ROLLBACK, "");
    GetShort(m2, product, ROLLBACK, "");
    assert [product, ROLLBACK][..1] == [product];
    assert [temp, ROLLBACK][0] != [product, ROLLBACK][0];
    var moved := disk.Rename([temp, ROLLBACK], [product, ROLLBACK]);
    CutShort(m2, temp, ROLLBACK);
    ghost var m3 := m2[temp := Dir(prod[ROLLBACK := Dir(others)] - {ROLLBACK})];
    PutShort(m3, product, ROLLBACK, Dir(others));
    ghost var m4 := if moved then m3[product := Dir(n.entries[ROLLBACK := Dir(others)])] else m2;
    assert disk.root == Dir(m4);
    CutShort(m4, temp, "");
    disk.RemoveAll([temp]);
    assert m4 - {temp} == m[product := Restored(m[product], snapshot)];
  }

  /** Rollback accepts the name of every snapshot that publish writes. */
  lemma StampAccepted(t: Time)
    requires OnCalendar(t)
    ensures Stamp(t) != "" && ValidSnapshotName(Stamp(t))
  {
    hide Padded, Pow10;
    SmallPowers();
    LongestMonth(t);
    DigitsOnly(t.year, 4);
    DigitsOnly(t.month, 2);
    DigitsOnly(t.day, 2);
    DigitsOnly(t.hour, 2);
    DigitsOnly(t.minute, 2);
    DigitsOnly(t.second, 2);
  }

  lemma DigitsOnly(n: nat, w: nat)
    requires n < Pow10(w)
    ensures forall c :: c in Padded(n, w) ==> IsDigit(c)
  {
    PaddedReadsBack(n, w);
  }

  /** The snapshots of a product, the newest first. */
  method ListRollbacks(disk: Disk, product: string) returns (names: seq<string>)
    requires disk.Valid()
    ensures forall x :: x in names <==>
      ValidProduct(product) && product in disk.Tree() && x in DirNames(History(disk.Tree()[product]))
    ensures forall i, j :: 0 <= i < j < |names| ==> Less(names[j], names[i])
    ensures forall i, j, t, u :: 0 <= i < j < |names| && OnCalendar(t) && OnCalendar(u) ==>
      names[i] == Stamp(t) && names[j] == Stamp(u) ==> Seconds(u) < Seconds(t)
  {
    hide Less, Get, Stamp, OnCalendar, Seconds;
    forall t, u | OnCalendar(t) && OnCalendar(u)
      ensures Less(Stamp(u), Stamp(t)) ==> Seconds(u) < Seconds(t)
    {
      StampOrder(u, t);
    }
    if !ValidProduct(product) { return []; }
    ghost var m := disk.Tree();
    GetShort(m, product, ROLLBACK, "");
    var d := Get(disk.root, [product, ROLLBACK]);
    if d.None? || !d.value.Dir? { return []; }
    var up := Sort(DirNames(d.value.entries));
    names := seq(|up|, i requires 0 <= i < |up| => up[|up| - 1 - i]);
    forall x | x in up
      ensures x in names
    {
      var i :| 0 <= i < |up| && up[i] == x;
      assert names[|up| - 1 - i] == x;
    }
  }
}
