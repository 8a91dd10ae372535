/** Splitting text at a character. */
module SplitText {
  /** `text.split(sep)` of JavaScript; the names of a path when the character is a slash. */
  function Split(text: string, sep: char): (lines: seq<string>)
    ensures lines != []
  {
    if text == "" then [""]
    else
      var n := |text| - 1;
      var lines := Split(text[..n], sep);
      if text[n] == sep then lines + [""] else Glued(lines, [[text[n]]])
  }

  /** Lines whose last one goes on with the first of some more lines. */
  function Glued(lines: seq<string>, more: seq<string>): seq<string>
    requires lines != [] && more != []
  {
    lines[..|lines| - 1] + [lines[|lines| - 1] + more[0]] + more[1..]
  }

  lemma GluedLaws(x: seq<string>, y: seq<string>, z: seq<string>)
    requires x != [] && y != []
    ensures Glued(x, y) + z == Glued(x, y + z)
    ensures z != [] ==> Glued(Glued(x, y), z) == Glued(x, Glued(y, z))
    ensures Glued(x, [""]) == x
    ensures Glued(x + [""], y) == x + y
  {
    assert x[|x| - 1] + "" == x[|x| - 1] && "" + y[0] == y[0];
    if z != [] {
      GluedAssociative(x, y, z);
    }
  }

  lemma GluedAssociative(x: seq<string>, y: seq<string>, z: seq<string>)
    requires x != [] && y != [] && z != []
    ensures Glued(Glued(x, y), z) == Glued(x, Glued(y, z))
  {
    var l := x[|x| - 1];
    if |y| == 1 {
      assert l + y[0] + z[0] == l + (y[0] + z[0]);
    }
  }

  lemma {:induction false} SplitConcat(a: string, b: string, sep: char)
    ensures Split(a + b, sep) == Glued(Split(a, sep), Split(b, sep))
    decreases |b|
  {
    hide Glued;
    if b == "" {
      assert a + b == a;
      GluedLaws(Split(a, sep), [""], []);
    } else {
      var n := |b| - 1;
      SplitConcat(a, b[..n], sep);
      assert (a + b)[..|a + b| - 1] == a + b[..n];
      GluedLaws(Split(a, sep), Split(b[..n], sep), if b[n] == sep then [""] else [[b[n]]]);
    }
  }

  lemma SplitAtSeparator(a: string, b: string, sep: char)
    ensures Split(a + [sep] + b, sep) == Split(a, sep) + Split(b, sep)
  {
    hide Glued;
    SplitConcat(a + [sep], b, sep);
    assert (a + [sep])[..|a|] == a;
    assert Split(a + [sep], sep) == Split(a, sep) + [""];
    GluedLaws(Split(a, sep), Split(b, sep), []);
  }

  lemma {:induction false} NoneInside(text: string, sep: char)
    ensures forall s :: s in Split(text, sep) ==> sep !in s
  {
    if text != "" { NoneInside(text[..|text| - 1], sep); }
  }

  lemma {:induction false} FirstPiece(text: string, sep: char)
    requires text != ""
    ensures Split(text, sep)[0] == "" <==> text[0] == sep
  {
    var n := |text| - 1;
    if n == 0 {
      assert text[..0] == "";
    } else {
      FirstPiece(text[..n], sep);
    }
  }

  lemma {:induction false} NothingToSplit(text: string, sep: char)
    requires sep !in text
    ensures Split(text, sep) == [text]
  {
    if text != "" {
      var n := |text| - 1;
      assert text[n] in text && forall x :: x in text[..n] ==> x in text;
      NothingToSplit(text[..n], sep);
      assert text[..n] + [text[n]] == text;
    }
  }

  function Join(pieces: seq<string>, sep: char): string
    requires pieces != []
  {
    var n := |pieces| - 1;
    if n == 0 then pieces[0] else Join(pieces[..n], sep) + [sep] + pieces[n]
  }

  /** Splitting loses nothing. */
  lemma {:induction false} JoinSplit(text: string, sep: char)
    ensures Join(Split(text, sep), sep) == text
  {
    if text != "" {
      var n := |text| - 1;
      var pieces := Split(text[..n], sep);
      var k := |pieces| - 1;
      JoinSplit(text[..n], sep);
      assert text == text[..n] + [text[n]];
      if text[n] == sep {
        assert (pieces + [""])[..k + 1] == pieces;
        assert text[..n] + [sep] + "" == text;
      } else {
        var longer := pieces[k] + [text[n]];
        assert Split(text, sep) == pieces[..k] + [longer];
        assert (pieces[..k] + [longer])[..k] == pieces[..k];
        if k > 0 {
          assert Join(pieces[..k], sep) + [sep] + longer == Join(pieces[..k], sep) + [sep] + pieces[k] + [text[n]];
        }
      }
    }
  }
}
