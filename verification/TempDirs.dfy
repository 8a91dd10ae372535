/** The temporary directories of builds, and which products share one (internal/pipeline/stage_build.go). */
module TempDirs {
  import opened DistroMap
  import opened FileTree
  import opened Rollback
  import opened ProductIsolation

  function NfpmName(product: string, line: string, arch: string): string {
    "nfpm-" + product + "-" + line + "-" + arch
  }

  /** The directory in which a package is put together, and the one for downloaded programs, below the
      directory for temporary files. */
  function NfpmDir(product: string, line: string, arch: string): Path { [NfpmName(product, line, arch)] }

  function BinaryDir(product: string): Path { ["binaries", product] }

  /** Neither path is inside the other. */
  predicate Separate(a: Path, b: Path) { !(a <= b) && !(b <= a) }

  /** What can follow a dash at the end of a product name. */
  predicate NameTail(w: string) {
    w != "" && IsNameEnd(w[|w| - 1]) && forall i :: 0 <= i < |w| ==> IsNameEnd(w[i]) || w[i] == '-'
  }

  predicate BuiltIn(l: ProductLine) { l in DEFAULT_LINES }

  /** The architecture a is b after the id of a built-in line, with the tail of a product name before that or not:
      a directory name with a also reads as one with b, of a longer product name. */
  predicate Hides(a: string, b: string) {
    exists l :: l in DEFAULT_LINES && HidesAfter(a, l, b)
  }

  predicate HidesAfter(a: string, l: ProductLine, b: string) {
    a == l.id + "-" + b || AddsTail(a, "-" + l.id + "-" + b)
  }

  /** The text is the tail of a product name and then this end. */
  predicate AddsTail(a: string, end: string) {
    |end| <= |a| && a[|a| - |end|..] == end && NameTail(a[..|a| - |end|])
  }

  /** Two different products that use the same directory for these architectures. */
  ghost predicate Share(p: string, l: ProductLine, a: string, q: string, k: ProductLine, b: string) {
    && ValidName(p) && ValidName(q) && p != q && BuiltIn(l) && BuiltIn(k)
    && NfpmDir(p, l.id, a) == NfpmDir(q, k.id, b)
  }

  // ---- texts with dashes ----

  lemma SamePrefix(s: string, p: string, q: string)
    requires s + p == s + q
    ensures p == q
  {
    assert p == (s + p)[|s|..] && q == (s + q)[|s|..];
  }

  /** Texts whose last parts have no dash agree part by part. */
  lemma LastDash(s: string, a: string, t: string, b: string)
    requires s + "-" + a == t + "-" + b && '-' !in a && '-' !in b
    ensures s == t && a == b
  {
    NoLaterDash(s, a, t, b);
    NoLaterDash(t, b, s, a);
    var x := s + "-" + a;
    assert s == x[..|s|] && t == x[..|t|] && a == x[|s| + 1..] && b == x[|t| + 1..];
  }

  lemma NoLaterDash(s: string, a: string, t: string, b: string)
    requires s + "-" + a == t + "-" + b && '-' !in a
    ensures |t| <= |s|
  {
    var x := s + "-" + a;
    assert x == t + "-" + b && x[|t|] == '-';
    forall i | |s| < i < |x|
      ensures x[i] != '-'
    {
      assert x[i] == a[i - |s| - 1];
    }
  }

  /** The text before the last dash and the one after it. */
  lemma {:induction false} AtLastDash(c: string) returns (w: string, id: string)
    requires '-' in c
    ensures c == w + "-" + id && '-' !in id
  {
    var n := |c| - 1;
    assert c == c[..n] + [c[n]];
    if c[n] == '-' {
      w, id := c[..n], "";
    } else {
      var x, y := AtLastDash(c[..n]);
      w, id := x, y + [c[n]];
      assert x + "-" + y + [c[n]] == x + "-" + (y + [c[n]]);
    }
  }

  /** When one of two endings is longer, it ends with the other. */
  lemma LongerEnding(s: string, a: string, t: string, b: string) returns (c: string)
    requires s + "-" + a == t + "-" + b && |a| > |b|
    ensures a == c + "-" + b && s + "-" + c == t
  {
    var x, n := s + "-" + a, |a| - |b| - 1;
    assert x == t + "-" + b && |t| == |s| + 1 + n;
    c := a[..n];
    assert x[|t|] == '-' && a[n] == x[|s| + 1 + n];
    assert a[n + 1..] == x[|t| + 1..] == b;
    assert a == a[..n] + [a[n]] + a[n + 1..];
    assert t == x[..|t|];
    assert x[..|t|] == s + "-" + a[..n];
  }

  // ---- who shares ----

  /** Built-in ids are not empty and have no dash. */
  lemma LineIds(l: ProductLine)
    requires BuiltIn(l)
    ensures l.id != "" && '-' !in l.id
  {
  }

  /** A product name and a line id that read as a longer text with another id: the longer text adds an id, or
      the tail of a product name and an id. */
  lemma LongerName(p: string, l: ProductLine, c: string, q: string, k: ProductLine)
    requires BuiltIn(l) && BuiltIn(k) && ValidName(q)
    requires p + "-" + l.id + "-" + c == q + "-" + k.id
    ensures c == k.id || exists w :: NameTail(w) && c == w + "-" + k.id
  {
    LineIds(k);
    var s := p + "-" + l.id;
    if '-' in c {
      var w, id := AtLastDash(c);
      assert s + "-" + c == s + "-" + w + "-" + id;
      LastDash(s + "-" + w, id, q, k.id);
      TailOf(s, w, q);
    } else {
      LastDash(s, c, q, k.id);
    }
  }

  lemma TailOf(s: string, w: string, q: string)
    requires ValidName(q) && q == s + "-" + w
    ensures NameTail(w)
  {
    assert q[|s|] == '-';
    assert forall i :: 0 <= i < |w| ==> w[i] == q[|s| + 1 + i];
  }

  lemma LongerHides(p: string, l: ProductLine, a: string, q: string, k: ProductLine, b: string)
    requires Share(p, l, a, q, k, b) && |a| > |b|
    ensures Hides(a, b)
  {
    hide BuiltIn, ValidName, NfpmName, NameTail, AddsTail;
    var c := WithoutEnding(p, l.id, a, q, k.id, b);
    LongerName(p, l, c, q, k);
    if c == k.id {
      assert HidesAfter(a, k, b);
    } else {
      var w :| NameTail(w) && c == w + "-" + k.id;
      assert a == w + ("-" + k.id + "-" + b);
      TailAdded(a, w, "-" + k.id + "-" + b);
    }
    IsBuiltIn(k);
  }

  lemma IsBuiltIn(l: ProductLine)
    requires BuiltIn(l)
    ensures l in DEFAULT_LINES
  {
  }

  lemma WithoutEnding(p: string, l: string, a: string, q: string, k: string, b: string) returns (c: string)
    requires NfpmName(p, l, a) == NfpmName(q, k, b) && |a| > |b|
    ensures a == c + "-" + b && p + "-" + l + "-" + c == q + "-" + k
  {
    var s, t := "nfpm-" + p + "-" + l, "nfpm-" + q + "-" + k;
    c := LongerEnding(s, a, t, b);
    var x, y := p + "-" + l + "-" + c, q + "-" + k;
    assert "nfpm-" + x == s + "-" + c;
    assert "nfpm-" + y == t;
    SamePrefix("nfpm-", x, y);
  }

  lemma TailAdded(a: string, w: string, end: string)
    requires NameTail(w) && a == w + end
    ensures AddsTail(a, end)
  {
    assert a[..|a| - |end|] == w;
  }

  lemma SharingHides(p: string, l: ProductLine, a: string, q: string, k: ProductLine, b: string)
    requires Share(p, l, a, q, k, b)
    ensures Hides(a, b) || Hides(b, a)
  {
    if |a| > |b| {
      LongerHides(p, l, a, q, k, b);
    } else if |b| > |a| {
      LongerHides(q, k, b, p, l, a);
    } else {
      LineIds(l);
      LineIds(k);
      var s, t := "nfpm-" + p + "-" + l.id, "nfpm-" + q + "-" + k.id;
      assert s + "-" + a == t + "-" + b;
      assert s == (s + "-" + a)[..|s|] && t == (t + "-" + b)[..|t|];
      LastDash("nfpm-" + p, l.id, "nfpm-" + q, k.id);
      SamePrefix("nfpm-", p, q);
      assert false;
    }
  }

  const EL8 := DEFAULT_LINES[0]

  lemma El8()
    ensures BuiltIn(EL8) && EL8.id == "el8"
  {
  }

  /** An architecture that hides another lets two products share a directory. */
  lemma HidingShares(a: string, b: string) returns (p: string, l: ProductLine, q: string, k: ProductLine)
    requires Hides(a, b)
    ensures Share(p, l, a, q, k, b)
  {
    hide HidesAfter, NfpmName, ValidName;
    k :| k in DEFAULT_LINES && HidesAfter(a, k, b);
    assert BuiltIn(k);
    hide BuiltIn;
    El8();
    p, l := "aa", EL8;
    ShortName();
    q := SharingName(a, k.id, b, k);
    assert NfpmDir(p, l.id, a) == NfpmDir(q, k.id, b);
  }

  lemma ShortName()
    ensures ValidName("aa")
  {
  }

  lemma SharingName(a: string, id: string, b: string, k: ProductLine) returns (q: string)
    requires HidesAfter(a, k, b) && id == k.id
    ensures ValidName(q) && q != "aa" && NfpmName("aa", "el8", a) == NfpmName(q, id, b)
  {
    hide NfpmName, ValidName;
    if a == id + "-" + b {
      q := "aa" + "-" + "el8";
      IdMoves("aa", "el8", id, b);
      LongestName();
    } else {
      var end := "-" + id + "-" + b;
      var w := a[..|a| - |end|];
      assert a == w + end;
      q := "aa" + "-" + "el8" + "-" + w;
      assert q == "aa-el8-" + w;
      TailMoves("aa", "el8", w, id, b);
      LongerIsValid(w);
    }
  }

  lemma LongestName()
    ensures ValidName("aa" + "-" + "el8")
  {
    assert "aa" + "-" + "el8" == "aa-el8";
  }

  lemma IdMoves(p: string, l: string, id: string, b: string)
    ensures NfpmName(p, l, id + "-" + b) == NfpmName(p + "-" + l, id, b)
  {
  }

  lemma TailMoves(p: string, l: string, w: string, id: string, b: string)
    ensures NfpmName(p, l, w + ("-" + id + "-" + b)) == NfpmName(p + "-" + l + "-" + w, id, b)
  {
    IdMoves(p + "-" + l, w, id, b);
    assert w + ("-" + id + "-" + b) == w + "-" + (id + "-" + b);
    IdMoves(p, l, w, id + "-" + b);
  }

  lemma LongerIsValid(w: string)
    requires NameTail(w)
    ensures ValidName("aa-el8-" + w)
  {
    var q := "aa-el8-" + w;
    assert q[|q| - 1] == w[|w| - 1];
    assert forall i :: 7 <= i < |q| ==> q[i] == w[i - 7];
  }

  /** Two different products can use the same directory for two architectures exactly when one of the
      architectures hides the other. */
  lemma SharesExactly(a: string, b: string)
    ensures (exists p, l, q, k :: Share(p, l, a, q, k, b)) <==> Hides(a, b) || Hides(b, a)
  {
    hide Share, Hides;
    if p, l, q, k :| Share(p, l, a, q, k, b) {
      SharingHides(p, l, a, q, k, b);
    }
    if Hides(a, b) {
      var p, l, q, k := HidingShares(a, b);
    } else if Hides(b, a) {
      var p, l, q, k := HidingShares(b, a);
      ShareTurned(p, l, b, q, k, a);
    }
  }

  lemma ShareTurned(p: string, l: ProductLine, a: string, q: string, k: ProductLine, b: string)
    requires Share(p, l, a, q, k, b)
    ensures Share(q, k, b, p, l, a)
  {
  }

  /** Unless one architecture hides the other, which takes a dash, different products use separate temporary
      directories for every line. */
  lemma TempDirsApart(p: string, q: string, l: ProductLine, k: ProductLine, a: string, b: string)
    requires ValidName(p) && ValidName(q) && p != q && l in DEFAULT_LINES && k in DEFAULT_LINES
    ensures Separate(BinaryDir(p), BinaryDir(q)) && Separate(NfpmDir(p, l.id, a), BinaryDir(q))
    ensures !Hides(a, b) && !Hides(b, a) ==> Separate(NfpmDir(p, l.id, a), NfpmDir(q, k.id, b))
    ensures '-' !in a && '-' !in b ==> !Hides(a, b) && !Hides(b, a)
  {
    assert BuiltIn(l) && BuiltIn(k);
    hide Hides, NfpmName, ValidName, BuiltIn;
    if NfpmName(p, l.id, a) == NfpmName(q, k.id, b) {
      SharingHides(p, l, a, q, k, b);
    }
    assert NfpmDir(p, l.id, a)[0] == NfpmName(p, l.id, a) && NfpmDir(q, k.id, b)[0] == NfpmName(q, k.id, b);
    NotBinaries(p, l.id, a);
    assert BinaryDir(p)[1] == p && BinaryDir(q)[1] == q && BinaryDir(q)[0] == "binaries";
    if Hides(a, b) { HidingHasDash(a, b); }
    if Hides(b, a) { HidingHasDash(b, a); }
  }

  lemma NotBinaries(p: string, l: string, a: string)
    ensures NfpmName(p, l, a) != "binaries"
  {
    assert NfpmName(p, l, a)[0] == 'n' && "binaries"[0] == 'b';
  }

  lemma HidingHasDash(a: string, b: string)
    requires Hides(a, b)
    ensures '-' in a
  {
    var l :| l in DEFAULT_LINES && HidesAfter(a, l, b);
    if a == l.id + "-" + b {
      assert a[|l.id|] == '-';
    } else {
      var end := "-" + l.id + "-" + b;
      assert a[|a| - |end|] == end[0];
    }
  }
}
