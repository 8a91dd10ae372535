/** A websocket viewer of a build log: the file first, then the live stream (internal/handler/ws_handler.go). */
module LogStream {
  import opened Subsequences
  import opened LogWriter

  const FINISHED := "\n--- Build finished ---\n"

  /** An empty file is not sent. */
  function First(content: Data): seq<Data> {
    if content == "" then [] else [content]
  }

  /** Sends the file content, then each piece of the stream until the channel is closed, the client
      leaves, or a send fails. `stream` is what the channel delivers before its end; `closed` tells
      whether that end is a close; sendOk(i) is the outcome of sending piece i. */
  method BuildLog(content: Data, live: bool, stream: seq<Data>, closed: bool, sendOk: nat -> bool)
      returns (messages: seq<Data>, delivered: nat)
    ensures live ==> delivered <= |stream|
    ensures live ==>
      messages == First(content) + stream[..delivered] + (if closed && delivered == |stream| then [FINISHED] else [])
    ensures live && delivered < |stream| ==> !sendOk(delivered)
    ensures !live ==> messages == First(content) + [FINISHED]
  {
    messages, delivered := First(content), 0;
    if !live {
      messages := messages + [FINISHED];
      return;
    }
    ghost var first := messages;
    while delivered < |stream|
      invariant delivered <= |stream|
      invariant messages == first + stream[..delivered]
    {
      if !sendOk(delivered) { return; }
      messages := messages + [stream[delivered]];
      delivered := delivered + 1;
    }
    if closed {
      messages := messages + [FINISHED];
    }
  }

  lemma {:induction false} WritesConcat(xs: seq<Action>, ys: seq<Action>)
    ensures Writes(xs + ys) == Writes(xs) + Writes(ys)
    decreases |ys|
  {
    if ys == [] {
      assert xs + ys == xs;
    } else {
      var n := |ys| - 1;
      WritesConcat(xs, ys[..n]);
      assert (xs + ys)[..|xs + ys| - 1] == xs + ys[..n];
    }
  }

  lemma {:induction false} ConcatConcat(xs: seq<Data>, ys: seq<Data>)
    ensures Concat(xs + ys) == Concat(xs) + Concat(ys)
    decreases |ys|
  {
    if ys == [] {
      assert xs + ys == xs;
    } else {
      var n := |ys| - 1;
      ConcatConcat(xs, ys[..n]);
      assert (xs + ys)[..|xs + ys| - 1] == xs + ys[..n];
    }
  }

  ghost predicate NoneEmpty(pieces: seq<Data>) {
    forall x :: x in pieces ==> x != ""
  }

  /** Leaving out pieces that are not empty makes the text shorter. */
  lemma {:induction false} LeavingOutShortens(xs: seq<Data>, ys: seq<Data>)
    requires Subsequence(xs, ys) && NoneEmpty(ys)
    ensures |Concat(xs)| <= |Concat(ys)|
    ensures |Concat(xs)| == |Concat(ys)| ==> xs == ys
    decreases |ys|
  {
    if ys != [] {
      var n := |ys| - 1;
      assert ys == ys[..n] + [ys[n]];
      assert ys[n] in ys && forall x :: x in ys[..n] ==> x in ys;
      if xs != [] && xs[|xs| - 1] == ys[n] {
        LeavingOutShortens(xs[..|xs| - 1], ys[..n]);
        assert xs == xs[..|xs| - 1] + [xs[|xs| - 1]];
      } else {
        EmptySubsequence(ys[..n]);
        LeavingOutShortens(xs, ys[..n]);
      }
    }
  }

  lemma EmptySubsequence(ys: seq<Data>)
    ensures Subsequence([], ys)
  {
  }

  /** Some write after `before` does not reach the channel. */
  ghost predicate Missed(before: seq<Action>, after: seq<Action>, c: nat) {
    after != [] &&
    var rest, a := after[..|after| - 1], after[|after| - 1];
    Missed(before, rest, c) || (a.Write? && !Reached(Run(before + rest), c))
  }

  /** The stream of a channel made by the last step of `before`. */
  lemma {:induction false} LaterStream(before: seq<Action>, after: seq<Action>, c: nat)
    requires SentTo(Run(before), c) == []
    ensures var sent := SentTo(Run(before + after), c);
      && Subsequence(sent, Writes(after))
      && (sent == Writes(after) <==> !Missed(before, after, c))
    decreases |after|
  {
    hide Next, Good, Subsequence, SentTo;
    if after == [] {
      assert before + after == before;
      EmptySubsequence([]);
    } else {
      var rest, a := after[..|after| - 1], after[|after| - 1];
      LaterStream(before, rest, c);
      assert (before + after)[..|before + after| - 1] == before + rest;
      RunGood(before + rest);
      SentStep(Run(before + rest), a, c);
      StreamGrows(SentTo(Run(before + rest), c), Writes(rest), Missed(before, rest, c),
                  Reached(Run(before + rest), c), true, a);
    }
  }

  /** What a subscriber's channel carries after these writes: all of them while there are at most 256, whether it
      is read or not; and exactly the first 256 when nothing is taken out. */
  ghost predicate CarriesFirst(l: Log, id: string, c: nat, written: seq<Data>, unread: bool) {
    && id in l.subscribers && l.subscribers[id] == c && c < |l.chans|
    && var sent := l.chans[c].sent;
    && (|written| <= 256 ==> sent == written)
    && (unread ==> l.chans[c].taken == 0 && sent == if |written| <= 256 then written else written[..256])
  }

  /** The channel of a subscriber holds the first 256 pieces written after it subscribed. */
  lemma {:induction false} FirstPiecesArrive(before: seq<Action>, id: string, after: seq<Action>)
    requires ClosedNoMore(after) && LeavesAlone(after, id)
    ensures var c := |Run(before).chans|;
      CarriesFirst(Run(before + [Subscribe(id)] + after), id, c, Writes(after), Receive(c) !in after)
    decreases |after|
  {
    hide Next, Good, CarriesFirst;
    var start, c := before + [Subscribe(id)], |Run(before).chans|;
    if after == [] {
      assert start + after == start && start[..|before|] == before;
      CarriesNothing(Run(before), id);
    } else {
      var rest, a := after[..|after| - 1], after[|after| - 1];
      FirstPiecesArrive(before, id, rest);
      assert (start + after)[..|start + after| - 1] == start + rest;
      assert after == rest + [a];
      RunGood(start + rest);
      assert after[|after| - 1] == a;
      CarriesOneMore(Run(start + rest), id, c, Writes(rest), Receive(c) !in rest, a);
    }
  }

  lemma CarriesNothing(l: Log, id: string)
    ensures CarriesFirst(Next(l, Subscribe(id)), id, |l.chans|, [], true)
  {
  }

  lemma CarriesOneMore(l: Log, id: string, c: nat, written: seq<Data>, unread: bool, a: Action)
    requires Good(l) && CarriesFirst(l, id, c, written, unread)
    requires !a.CloseChannels? && a != Subscribe(id) && a != Unsubscribe(id)
    ensures CarriesFirst(Next(l, a), id, c, With(written, true, a), unread && a != Receive(c))
  {
    assert Subscribed(l, c);
    if a.Write? {
      assert Reached(l, c) <==> l.chans[c].Unread() < 256;
      assert With(written, true, a) == written + [a.p];
      if |written| >= 256 {
        assert (written + [a.p])[..256] == written[..256];
      }
    }
  }

  lemma {:induction false} StoredPrefix(before: seq<Action>, after: seq<Action>)
    requires StoredWhole(before + after)
    ensures StoredWhole(before)
    decreases |after|
  {
    if after == [] {
      assert before + after == before;
    } else {
      assert (before + after)[..|before + after| - 1] == before + after[..|after| - 1];
      StoredPrefix(before, after[..|after| - 1]);
    }
  }

  /** A viewer reads the file after `read`, subscribes after `gap`, and receives everything the channel
      carries during `rest`. It gets pieces of the log in order and none twice; it gets the whole log
      exactly when nothing was written in the gap and every later write reached its channel. */
  lemma ViewerSees(read: seq<Action>, gap: seq<Action>, id: string, rest: seq<Action>)
    requires var all := read + gap + [Subscribe(id)] + rest; StoredWhole(all) && NoneEmpty(Writes(all))
    ensures var before := read + gap + [Subscribe(id)];
      var c := |Run(read + gap).chans|;
      var sent := SentTo(Run(before + rest), c);
      var seen := Run(read).file + Concat(sent);
      && seen == Concat(Writes(read) + sent)
      && Subsequence(Writes(read) + sent, Writes(before + rest))
      && (seen == Run(before + rest).file <==> Writes(gap) == [] && !Missed(before, rest, c))
  {
    hide Subsequence, Missed, Concat, StoredWhole, NoneEmpty;
    var before := read + gap + [Subscribe(id)];
    var c := |Run(read + gap).chans|;
    NewChannel(read + gap, id);
    LaterStream(before, rest, c);
    var sent := SentTo(Run(before + rest), c);
    FileIsWrites(before + rest);
    assert before + rest == read + (gap + [Subscribe(id)] + rest);
    StoredPrefix(read, gap + [Subscribe(id)] + rest);
    FileIsWrites(read);
    AllWrites(read, gap, id, rest);
    var x, y, z := Writes(read), Writes(gap), Writes(rest);
    ConcatConcat(x, sent);
    Compared(x, y, z, sent);
  }

  /** A viewer that reads the file after `read` and finds no log writer after `gap`, because the build has ended
      meanwhile, gets the file and the closing text. It saw the whole log exactly when nothing was written
      in the gap; what was written there it is never sent. */
  lemma FinishedViewerSees(read: seq<Action>, gap: seq<Action>)
    requires StoredWhole(read + gap) && NoneEmpty(Writes(read + gap))
    ensures var content, log := Run(read).file, Run(read + gap).file;
      && Concat(First(content) + [FINISHED]) == content + FINISHED
      && log == content + Concat(Writes(gap))
      && (content == log <==> Writes(gap) == [])
  {
    hide Run, StoredWhole, Writes;
    StoredPrefix(read, gap);
    FileIsWrites(read);
    FileIsWrites(read + gap);
    WritesConcat(read, gap);
    ConcatConcat(Writes(read), Writes(gap));
    ConcatConcat(First(Run(read).file), [FINISHED]);
    OnePiece(Run(read).file);
    OnePiece(FINISHED);
    if Writes(gap) != [] {
      LastNotEmpty(Writes(read), Writes(gap));
    }
  }

  lemma OnePiece(p: Data)
    ensures Concat([p]) == p && Concat(First(p)) == p
  {
    assert [p][..0] == [];
  }

  lemma LastNotEmpty(x: seq<Data>, y: seq<Data>)
    requires NoneEmpty(x + y) && y != []
    ensures Concat(y) != ""
  {
    assert (x + y)[|x| + |y| - 1] == y[|y| - 1] && y[|y| - 1] in x + y;
  }

  lemma NewChannel(before: seq<Action>, id: string)
    ensures SentTo(Run(before + [Subscribe(id)]), |Run(before).chans|) == []
  {
    assert (before + [Subscribe(id)])[..|before|] == before;
  }

  lemma AllWrites(read: seq<Action>, gap: seq<Action>, id: string, rest: seq<Action>)
    ensures Writes(read + gap + [Subscribe(id)] + rest) == Writes(read) + Writes(gap) + Writes(rest)
  {
    WritesConcat(read + gap + [Subscribe(id)], rest);
    WritesConcat(read + gap, [Subscribe(id)]);
    WritesConcat(read, gap);
    assert [Subscribe(id)][..0] == [];
    assert Writes([Subscribe(id)]) == [];
  }

  lemma Compared(x: seq<Data>, y: seq<Data>, z: seq<Data>, sent: seq<Data>)
    requires Subsequence(sent, z) && NoneEmpty(x + y + z)
    ensures Subsequence(x + sent, x + y + z)
    ensures Concat(x + sent) == Concat(x + y + z) <==> y == [] && sent == z
  {
    hide Concat, Subsequence, NoneEmpty;
    PrefixSubsequence(x, y);
    SubsequencePair(x, x + y, sent, z);
    SubsequenceLength(sent, z);
    LeavingOutShortens(x + sent, x + y + z);
    if y == [] && sent == z {
      assert x + sent == x + y + z;
    }
  }

  lemma {:induction false} PrefixSubsequence(x: seq<Data>, y: seq<Data>)
    ensures Subsequence(x, x + y)
    decreases |y|
  {
    if y == [] {
      assert x + y == x;
      SelfSubsequence(x);
    } else {
      PrefixSubsequence(x, y[..|y| - 1]);
      SubsequenceSkips(x, x + y[..|y| - 1], y[|y| - 1]);
      assert x + y == x + y[..|y| - 1] + [y[|y| - 1]];
    }
  }

  lemma {:induction false} SelfSubsequence(x: seq<Data>)
    ensures Subsequence(x, x)
  {
    if x != [] { SelfSubsequence(x[..|x| - 1]); }
  }

  lemma {:induction false} SubsequencePair(x: seq<Data>, y: seq<Data>, s: seq<Data>, z: seq<Data>)
    requires Subsequence(x, y) && Subsequence(s, z)
    ensures Subsequence(x + s, y + z)
    decreases |z|
  {
    if z == [] {
      assert x + s == x && y + z == y;
    } else {
      var n := |z| - 1;
      assert y + z == y + z[..n] + [z[n]];
      if s != [] && s[|s| - 1] == z[n] {
        SubsequencePair(x, y, s[..|s| - 1], z[..n]);
        SubsequenceTakes(x + s[..|s| - 1], y + z[..n], z[n]);
        assert x + s == x + s[..|s| - 1] + [s[|s| - 1]];
      } else {
        EmptySubsequence(z[..n]);
        SubsequencePair(x, y, s, z[..n]);
        SubsequenceSkips(x + s, y + z[..n], z[n]);
      }
    }
  }
}
