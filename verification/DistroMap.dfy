/** Distributions and the product lines they share (internal/distromap). */
module DistroMap {
  import opened Wrappers
  import opened Subsequences

  datatype ProductLine = ProductLine(id: string, path: string, tag: string, compression: string)

  datatype DistroVersion = DistroVersion(distro: string, version: string) {
    function ToString(): string { distro + ":" + version }
  }

  const DEFAULT_LINES := [
    ProductLine("el8", "el8", "el8", "xz"),
    ProductLine("el9", "el9", "el9", "zstd"),
    ProductLine("el10", "el10", "el10", "zstd"),
    ProductLine("al2023", "al2023", "al2023", "zstd"),
    ProductLine("fedora", "fedora", "fc", "zstd"),
    ProductLine("oe22", "openeuler/22", "oe2203", "zstd"),
    ProductLine("oe24", "openeuler/24", "oe2403", "zstd")]

  const DISTRO_MAP: map<string, string> := map[
    "rhel:8" := "el8", "centos:8" := "el8", "alma:8" := "el8", "rocky:8" := "el8", "oracle:8" := "el8",
    "anolis:8" := "el8", "kylin:v10" := "el8",
    "rhel:9" := "el9", "centos:9" := "el9", "alma:9" := "el9", "rocky:9" := "el9", "oracle:9" := "el9",
    "anolis:23" := "el9", "alinux:3" := "el9", "kylin:v11" := "el9",
    "rhel:10" := "el10", "centos:10" := "el10", "alma:10" := "el10", "rocky:10" := "el10", "oracle:10" := "el10",
    "alinux:4" := "el10",
    "amzn:2023" := "al2023",
    "fedora:42" := "fedora", "fedora:43" := "fedora",
    "openeuler:22" := "oe22", "openeuler:24" := "oe24"]

  /** The place of the first colon, or the length. */
  function ColonAt(s: string): (i: nat)
    ensures i <= |s|
    ensures forall j :: 0 <= j < i ==> s[j] != ':'
    ensures i < |s| ==> s[i] == ':'
  {
    if s == "" || s[0] == ':' then 0 else 1 + ColonAt(s[1..])
  }

  function ParseDistroVersion(s: string): DistroVersion {
    var i := ColonAt(s);
    if i < |s| then DistroVersion(s[..i], s[i + 1..]) else DistroVersion(s, "")
  }

  /** Printing what was parsed gives the text back exactly when it has a colon. */
  lemma ParseThenPrint(s: string)
    ensures ParseDistroVersion(s).ToString() == s <==> ':' in s
  {
    var i := ColonAt(s);
    if i < |s| {
      assert s[..i] + ":" + s[i + 1..] == s;
    } else {
      assert |ParseDistroVersion(s).ToString()| == |s| + 1;
    }
  }

  /** Parsing what was printed gives the value back exactly when the distribution has no colon. */
  lemma PrintThenParse(d: DistroVersion)
    ensures ParseDistroVersion(d.ToString()) == d <==> ':' !in d.distro
  {
    var s, i := d.ToString(), ColonAt(d.ToString());
    assert s[|d.distro|] == ':' && s[|d.distro| + 1..] == d.version && s[..|d.distro|] == d.distro;
    if ':' in d.distro {
      var j :| 0 <= j < |d.distro| && d.distro[j] == ':';
      assert s[j] == ':';
      assert |s[..i]| < |d.distro|;
    }
  }

  /** The first line with an id. */
  function GetLine(id: string, lines: seq<ProductLine>): (r: Option<ProductLine>)
    ensures r.Some? ==> r.value.id == id && r.value in lines
    ensures r.None? ==> forall l :: l in lines ==> l.id != id
  {
    if lines == [] then None
    else if lines[0].id == id then Some(lines[0])
    else GetLine(id, lines[1..])
  }

  /** GetProductLineByID: a custom line with the id, or else a built-in one. */
  function LineFor(id: string, customLines: seq<ProductLine>): Option<ProductLine> {
    var custom := GetLine(id, customLines);
    if custom.Some? then custom else GetLine(id, DEFAULT_LINES)
  }

  function Resolve(distroVersion: string, customLines: seq<ProductLine>): Option<ProductLine> {
    if distroVersion !in DISTRO_MAP then None else LineFor(DISTRO_MAP[distroVersion], customLines)
  }

  /** A distribution resolves exactly when the built-in table has it and some line has the id it gives; it resolves to
      a line of that id, a custom one when there is one. */
  lemma ResolveMeans(dv: string, customLines: seq<ProductLine>)
    ensures Resolve(dv, customLines).Some? <==>
      dv in DISTRO_MAP && exists l :: l in customLines + DEFAULT_LINES && l.id == DISTRO_MAP[dv]
    ensures Resolve(dv, customLines).Some? ==>
      var l := Resolve(dv, customLines).value;
      && l.id == DISTRO_MAP[dv]
      && if exists k :: k in customLines && k.id == DISTRO_MAP[dv] then l in customLines else l in DEFAULT_LINES
  {
    hide DISTRO_MAP, DEFAULT_LINES, GetLine;
  }

  ghost predicate Resolvable(dvs: seq<string>, customLines: seq<ProductLine>) {
    forall dv :: dv in dvs ==> Resolve(dv, customLines).Some?
  }

  /** The lines of a list of distributions that resolve, each as often as it is named. */
  function LinesOf(dvs: seq<string>, customLines: seq<ProductLine>): seq<ProductLine> {
    if dvs == [] then []
    else
      var before, r := LinesOf(dvs[..|dvs| - 1], customLines), Resolve(dvs[|dvs| - 1], customLines);
      if r.Some? then before + [r.value] else before
  }

  predicate HasId(lines: seq<ProductLine>, id: string) {
    exists l :: l in lines && l.id == id
  }

  /** Each line where its id first occurs. */
  function FirstById(lines: seq<ProductLine>): seq<ProductLine> {
    if lines == [] then []
    else
      var before, l := FirstById(lines[..|lines| - 1]), lines[|lines| - 1];
      if HasId(before, l.id) then before else before + [l]
  }

  method ResolveAll(dvs: seq<string>, customLines: seq<ProductLine>) returns (result: Option<seq<ProductLine>>)
    ensures result.Some? <==> Resolvable(dvs, customLines)
    ensures result.Some? ==> result.value == FirstById(LinesOf(dvs, customLines))
  {
    hide Resolve, FirstById, LinesOf, HasId, Resolvable;
    var seen: set<string> := {};
    var lines: seq<ProductLine> := [];
    NothingResolved(customLines);
    for i := 0 to |dvs|
      invariant lines == FirstById(LinesOf(dvs[..i], customLines))
      invariant forall id :: id in seen <==> HasId(lines, id)
      invariant Resolvable(dvs[..i], customLines)
    {
      var pl := Resolve(dvs[i], customLines);
      ResolvesNext(dvs, i, customLines);
      if pl.None? { return None; }
      if pl.value.id !in seen {
        IdsGrow(lines, pl.value);
        seen := seen + {pl.value.id};
        lines := lines + [pl.value];
      }
    }
    assert dvs[..|dvs|] == dvs;
    return Some(lines);
  }

  lemma NothingResolved(customLines: seq<ProductLine>)
    ensures FirstById(LinesOf([], customLines)) == [] && Resolvable([], customLines)
    ensures forall id :: !HasId([], id)
  {
  }

  lemma ResolvesNext(dvs: seq<string>, i: nat, customLines: seq<ProductLine>)
    requires i < |dvs|
    ensures var pl, lines := Resolve(dvs[i], customLines), FirstById(LinesOf(dvs[..i], customLines));
      if pl.None? then !Resolvable(dvs, customLines)
      else
        && (Resolvable(dvs[..i], customLines) ==> Resolvable(dvs[..i + 1], customLines))
        && FirstById(LinesOf(dvs[..i + 1], customLines)) ==
             if HasId(lines, pl.value.id) then lines else lines + [pl.value]
  {
    hide Resolve, FirstById, HasId;
    assert dvs[..i + 1][..i] == dvs[..i] && dvs[i] in dvs;
    var pl := Resolve(dvs[i], customLines);
    if pl.Some? {
      LinesGrow(LinesOf(dvs[..i], customLines), pl.value);
    }
  }

  lemma LinesGrow(lines: seq<ProductLine>, l: ProductLine)
    ensures FirstById(lines + [l]) ==
      if HasId(FirstById(lines), l.id) then FirstById(lines) else FirstById(lines) + [l]
  {
    assert (lines + [l])[..|lines|] == lines;
  }

  lemma IdsGrow(lines: seq<ProductLine>, l: ProductLine)
    ensures forall id :: HasId(lines + [l], id) <==> HasId(lines, id) || id == l.id
  {
    forall id
      ensures HasId(lines + [l], id) <==> HasId(lines, id) || id == l.id
    {
      assert l in lines + [l];
      if HasId(lines, id) {
        var k :| k in lines && k.id == id;
        assert k in lines + [l];
      }
    }
  }

  ghost predicate DistinctIds(lines: seq<ProductLine>) {
    forall i, j :: 0 <= i < j < |lines| ==> lines[i].id != lines[j].id
  }

  lemma {:induction false} FirstDistinct(lines: seq<ProductLine>)
    ensures DistinctIds(FirstById(lines)) && Subsequence(FirstById(lines), lines)
  {
    hide Subsequence, HasId;
    if lines == [] {
      NoLines();
    } else {
      var before, l := lines[..|lines| - 1], lines[|lines| - 1];
      FirstDistinct(before);
      assert lines == before + [l];
      SubsequenceSkips(FirstById(before), before, l);
      SubsequenceTakes(FirstById(before), before, l);
      if !HasId(FirstById(before), l.id) {
        NewId(FirstById(before), l);
      }
    }
  }

  lemma NoLines()
    ensures Subsequence<ProductLine>([], [])
  {
  }

  lemma {:induction false} FirstCovers(lines: seq<ProductLine>)
    ensures forall l :: l in lines ==> HasId(FirstById(lines), l.id)
  {
    hide HasId;
    if lines != [] {
      var before, last := lines[..|lines| - 1], lines[|lines| - 1];
      FirstCovers(before);
      IdsGrow(FirstById(before), last);
      assert lines == before + [last];
    }
  }

  /** ResolveAll leaves no id out, repeats none, keeps the order, and only ever adds at the end:
      the lines of a shorter list come first. */
  lemma {:induction false} FirstByIdMeans(lines: seq<ProductLine>, k: nat)
    requires k <= |lines|
    ensures DistinctIds(FirstById(lines)) && Subsequence(FirstById(lines), lines)
    ensures forall l :: l in lines ==> HasId(FirstById(lines), l.id)
    ensures FirstById(lines[..k]) <= FirstById(lines)
  {
    hide Subsequence, HasId, DistinctIds;
    FirstDistinct(lines);
    FirstCovers(lines);
    if k < |lines| {
      var before := lines[..|lines| - 1];
      FirstByIdMeans(before, k);
      assert before[..k] == lines[..k];
    } else {
      assert lines[..k] == lines;
    }
  }

  lemma NewId(lines: seq<ProductLine>, l: ProductLine)
    requires DistinctIds(lines) && !HasId(lines, l.id)
    ensures DistinctIds(lines + [l])
  {
    forall i | 0 <= i < |lines|
      ensures lines[i].id != l.id
    {
      assert lines[i] in lines;
    }
  }

  /** The links of SymlinksForDistros: link path to target. */
  function LinkPath(dv: string): string {
    ParseDistroVersion(dv).distro + "/" + ParseDistroVersion(dv).version
  }

  function LinksOf(dvs: seq<string>, customLines: seq<ProductLine>): map<string, string> {
    if dvs == [] then map[]
    else
      var dv := dvs[|dvs| - 1];
      var before, r := LinksOf(dvs[..|dvs| - 1], customLines), Resolve(dv, customLines);
      if r.None? || LinkPath(dv) == r.value.path then before else before[LinkPath(dv) := "../" + r.value.path]
  }

  method SymlinksForDistros(dvs: seq<string>, customLines: seq<ProductLine>)
      returns (links: Option<map<string, string>>)
    ensures links.Some? <==> Resolvable(dvs, customLines)
    ensures links.Some? ==> links.value == LinksOf(dvs, customLines)
  {
    hide Resolve, LinkPath;
    var m: map<string, string> := map[];
    for i := 0 to |dvs|
      invariant m == LinksOf(dvs[..i], customLines)
      invariant Resolvable(dvs[..i], customLines)
    {
      assert dvs[..i + 1][..i] == dvs[..i];
      var pl := Resolve(dvs[i], customLines);
      if pl.None? {
        assert dvs[i] in dvs;
        return None;
      }
      var linkPath := LinkPath(dvs[i]);
      if linkPath != pl.value.path {
        m := m[linkPath := "../" + pl.value.path];
      }
    }
    assert dvs[..|dvs|] == dvs;
    return Some(m);
  }

  // ---- the built-in table ----

  lemma ShapeOf(dv: string, distro: string, version: string)
    requires dv == distro + ":" + version && ':' !in distro
    ensures ParseDistroVersion(dv) == DistroVersion(distro, version)
  {
    PrintThenParse(DistroVersion(distro, version));
  }

  predicate Simple(name: string) {
    name != "" && name[0] != '.' && '/' !in name && ':' !in name
  }

  /** dv is a plain distribution, a colon and a plain version. */
  ghost predicate PlainPair(dv: string) {
    exists distro, version :: Simple(distro) && Simple(version) && dv == distro + ":" + version
  }

  lemma Pair(dv: string, distro: string, version: string)
    requires Simple(distro) && Simple(version) && dv == distro + ":" + version
    ensures PlainPair(dv)
  {
  }

  lemma Pairs0()
    ensures PlainPair("rhel:8")
    ensures PlainPair("centos:8")
    ensures PlainPair("alma:8")
    ensures PlainPair("rocky:8")
    ensures PlainPair("oracle:8")
  {
    hide PlainPair;
    Pair("rhel:8", "rhel", "8");
    Pair("centos:8", "centos", "8");
    Pair("alma:8", "alma", "8");
    Pair("rocky:8", "rocky", "8");
    Pair("oracle:8", "oracle", "8");
  }

  lemma Pairs1()
    ensures PlainPair("anolis:8")
    ensures PlainPair("kylin:v10")
    ensures PlainPair("rhel:9")
    ensures PlainPair("centos:9")
    ensures PlainPair("alma:9")
  {
    hide PlainPair;
    Pair("anolis:8", "anolis", "8");
    Pair("kylin:v10", "kylin", "v10");
    Pair("rhel:9", "rhel", "9");
    Pair("centos:9", "centos", "9");
    Pair("alma:9", "alma", "9");
  }

  lemma Pairs2()
    ensures PlainPair("rocky:9")
    ensures PlainPair("oracle:9")
    ensures PlainPair("anolis:23")
    ensures PlainPair("alinux:3")
    ensures PlainPair("kylin:v11")
  {
    hide PlainPair;
    Pair("rocky:9", "rocky", "9");
    Pair("oracle:9", "oracle", "9");
    Pair("anolis:23", "anolis", "23");
    Pair("alinux:3", "alinux", "3");
    Pair("kylin:v11", "kylin", "v11");
  }

  lemma Pairs3()
    ensures PlainPair("rhel:10")
    ensures PlainPair("centos:10")
    ensures PlainPair("alma:10")
    ensures PlainPair("rocky:10")
    ensures PlainPair("oracle:10")
  {
    hide PlainPair;
    Pair("rhel:10", "rhel", "10");
    Pair("centos:10", "centos", "10");
    Pair("alma:10", "alma", "10");
    Pair("rocky:10", "rocky", "10");
    Pair("oracle:10", "oracle", "10");
  }

  lemma Pairs4()
    ensures PlainPair("alinux:4")
    ensures PlainPair("amzn:2023")
    ensures PlainPair("fedora:42")
    ensures PlainPair("fedora:43")
    ensures PlainPair("openeuler:22")
  {
    hide PlainPair;
    Pair("alinux:4", "alinux", "4");
    Pair("amzn:2023", "amzn", "2023");
    Pair("fedora:42", "fedora", "42");
    Pair("fedora:43", "fedora", "43");
    Pair("openeuler:22", "openeuler", "22");
  }

  lemma Pairs5()
    ensures PlainPair("openeuler:24")
  {
    hide PlainPair;
    Pair("openeuler:24", "openeuler", "24");
  }

  /** Every built-in distribution is a plain name and a plain version. */
  lemma TableIsPlain(dv: string)
    requires dv in DISTRO_MAP
    ensures PlainPair(dv)
  {
    hide PlainPair;
    Pairs0();
    Pairs1();
    Pairs2();
    Pairs3();
    Pairs4();
    Pairs5();
  }

  /** Only built-in distributions resolve, and a line is determined by its id. */
  lemma ResolvedIsPlain(dv: string, customLines: seq<ProductLine>)
    requires Resolve(dv, customLines).Some?
    ensures PlainPair(dv)
    ensures var l := Resolve(dv, customLines).value; LineFor(l.id, customLines) == Some(l)
  {
    hide PlainPair, GetLine;
    TableIsPlain(dv);
  }

  lemma {:induction false} LinesOfMeans(dvs: seq<string>, customLines: seq<ProductLine>)
    ensures forall l :: l in LinesOf(dvs, customLines) ==> LineFor(l.id, customLines) == Some(l)
    ensures forall dv :: dv in dvs && Resolve(dv, customLines).Some? ==>
      Resolve(dv, customLines).value in LinesOf(dvs, customLines)
  {
    hide Resolve, LineFor;
    if dvs != [] {
      var before, dv := dvs[..|dvs| - 1], dvs[|dvs| - 1];
      LinesOfMeans(before, customLines);
      assert dvs == before + [dv];
      if Resolve(dv, customLines).Some? {
        ResolvedIsPlain(dv, customLines);
      }
    }
  }

  lemma {:induction false} FirstAreLines(lines: seq<ProductLine>)
    ensures forall l :: l in FirstById(lines) ==> l in lines
  {
    hide HasId;
    if lines != [] {
      var before := lines[..|lines| - 1];
      FirstAreLines(before);
      assert lines == before + [lines[|lines| - 1]];
    }
  }

  /** The line of every distribution is among the lines that ResolveAll returns. */
  lemma LineIsBuilt(dvs: seq<string>, customLines: seq<ProductLine>, dv: string)
    requires dv in dvs && Resolve(dv, customLines).Some?
    ensures Resolve(dv, customLines).value in FirstById(LinesOf(dvs, customLines))
  {
    hide Resolve, LineFor, FirstById;
    LinesOfMeans(dvs, customLines);
    var lines, l := LinesOf(dvs, customLines), Resolve(dv, customLines).value;
    FirstCovers(lines);
    FirstAreLines(lines);
    var k :| k in FirstById(lines) && k.id == l.id;
    assert LineFor(k.id, customLines) == Some(k) && LineFor(l.id, customLines) == Some(l);
  }

  lemma SameLinkPath(a: string, b: string)
    requires PlainPair(a) && PlainPair(b) && LinkPath(a) == LinkPath(b)
    ensures a == b
  {
    var d, v :| Simple(d) && Simple(v) && a == d + ":" + v;
    var e, w :| Simple(e) && Simple(w) && b == e + ":" + w;
    ShapeOf(a, d, v);
    ShapeOf(b, e, w);
    var x, y := d + "/" + v, e + "/" + w;
    assert x == y && x[|d|] == '/' && y[|e|] == '/';
    assert forall i :: 0 <= i < |d| ==> x[i] == d[i];
    assert forall i :: 0 <= i < |e| ==> y[i] == e[i];
    assert |d| == |e|;
    assert d == x[..|d|] && e == y[..|e|] && v == x[|d| + 1..] && w == y[|e| + 1..];
  }

  /** The alias of a distribution leads to its line, unless it is the line's own path. */
  lemma {:induction false} AliasTarget(dvs: seq<string>, customLines: seq<ProductLine>, dv: string)
    requires dv in dvs && Resolve(dv, customLines).Some? && LinkPath(dv) != Resolve(dv, customLines).value.path
    ensures LinkPath(dv) in LinksOf(dvs, customLines)
    ensures LinksOf(dvs, customLines)[LinkPath(dv)] == "../" + Resolve(dv, customLines).value.path
  {
    hide Resolve, LinkPath, PlainPair;
    var last := dvs[|dvs| - 1];
    assert dvs == dvs[..|dvs| - 1] + [last];
    if last != dv {
      AliasTarget(dvs[..|dvs| - 1], customLines, dv);
      if Resolve(last, customLines).Some? && LinkPath(last) == LinkPath(dv) {
        ResolvedIsPlain(last, customLines);
        ResolvedIsPlain(dv, customLines);
        SameLinkPath(last, dv);
      }
    }
  }
}
