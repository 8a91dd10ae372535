/** The build log and its broadcast to subscribers (internal/pipeline/log.go). */
module LogWriter {
  import opened Subsequences

  type Data = string

  const CAPACITY := 256

  // sent: everything put into the channel; taken: how much of it the reader has received;
  // closes: how often it was closed.
  datatype Chan = Chan(sent: seq<Data>, taken: nat, closes: nat) {
    function Unread(): int { |sent| - taken }
  }

  // Channels are numbered in the order they are made; subscribers maps an id to a channel.
  datatype Log = Log(file: Data, open: bool, offset: nat, subscribers: map<string, nat>, chans: seq<Chan>)

  const EMPTY := Log("", true, 0, map[], [])

  /** The steps of the log; Close is its locked part and then the closing of the file. */
  datatype Action =
    | Write(p: Data, stored: nat)   // the file takes the first `stored` bytes
    | Subscribe(id: string)
    | Unsubscribe(id: string)
    | CloseChannels
    | CloseFile
    | Receive(chan: nat)

  predicate Subscribed(l: Log, c: nat) {
    exists id :: id in l.subscribers && l.subscribers[id] == c
  }

  /** A channel that a write reaches: subscribed, and with room in its buffer. */
  predicate Reached(l: Log, c: nat) {
    Subscribed(l, c) && c < |l.chans| && l.chans[c].Unread() < CAPACITY
  }

  function Stored(l: Log, p: Data, stored: nat): Data {
    if !l.open then "" else if stored <= |p| then p[..stored] else p
  }

  /** An open file takes the first bytes of a piece, a closed one none. */
  lemma StoredIsPrefix(l: Log, p: Data, stored: nat)
    ensures var n := if !l.open then 0 else if stored <= |p| then stored else |p|;
      Stored(l, p, stored) == p[..n]
  {
  }

  function Broadcast(l: Log, p: Data): (chans: seq<Chan>)
    ensures |chans| == |l.chans|
  {
    seq(|l.chans|, c requires 0 <= c < |l.chans| =>
      if Reached(l, c) then l.chans[c].(sent := l.chans[c].sent + [p]) else l.chans[c])
  }

  function CloseAll(l: Log): (chans: seq<Chan>)
    ensures |chans| == |l.chans|
  {
    seq(|l.chans|, c requires 0 <= c < |l.chans| =>
      if Subscribed(l, c) then l.chans[c].(closes := l.chans[c].closes + 1) else l.chans[c])
  }

  function Next(l: Log, a: Action): Log {
    match a
    case Write(p, n) =>
      l.(file := l.file + Stored(l, p, n), offset := l.offset + |Stored(l, p, n)|, chans := Broadcast(l, p))
    case Subscribe(id) => l.(subscribers := l.subscribers[id := |l.chans|], chans := l.chans + [Chan([], 0, 0)])
    case Unsubscribe(id) =>
      if id in l.subscribers && l.subscribers[id] < |l.chans| then
        var c := l.subscribers[id];
        l.(subscribers := l.subscribers - {id}, chans := l.chans[c := l.chans[c].(closes := l.chans[c].closes + 1)])
      else l
    case CloseChannels => l.(subscribers := map[], chans := CloseAll(l))
    case CloseFile => l.(open := false)
    case Receive(c) =>
      if c < |l.chans| && l.chans[c].Unread() > 0
      then l.(chans := l.chans[c := l.chans[c].(taken := l.chans[c].taken + 1)])
      else l
  }

  function Run(actions: seq<Action>): Log {
    if actions == [] then EMPTY else Next(Run(actions[..|actions| - 1]), actions[|actions| - 1])
  }

  // ---- every run ----

  /** Ids name different open channels; buffers hold at most CAPACITY items; no channel is closed twice. */
  ghost predicate Good(l: Log) {
    && (forall id :: id in l.subscribers ==> l.subscribers[id] < |l.chans| && l.chans[l.subscribers[id]].closes == 0)
    && (forall i, j | i in l.subscribers && j in l.subscribers :: l.subscribers[i] == l.subscribers[j] ==> i == j)
    && (forall c :: 0 <= c < |l.chans| ==> 0 <= l.chans[c].Unread() <= CAPACITY && l.chans[c].closes <= 1)
    && l.offset == |l.file|
  }

  lemma SubscribedOpen(l: Log, c: nat)
    requires Good(l) && Subscribed(l, c)
    ensures c < |l.chans| && l.chans[c].closes == 0
  {
  }

  lemma WriteGood(l: Log, p: Data, n: nat)
    requires Good(l)
    ensures Good(Next(l, Write(p, n)))
  {
    hide Subscribed, Stored;
  }

  lemma CloseGood(l: Log)
    requires Good(l)
    ensures Good(Next(l, CloseChannels))
  {
    hide Subscribed;
    forall c | 0 <= c < |l.chans|
      ensures CloseAll(l)[c].closes <= 1
    {
      if Subscribed(l, c) {
        SubscribedOpen(l, c);
      }
    }
  }

  lemma NextGood(l: Log, a: Action)
    requires Good(l)
    ensures Good(Next(l, a))
  {
    match a
    case Write(p, n) => WriteGood(l, p, n);
    case CloseChannels => CloseGood(l);
    case Unsubscribe(_) => UnsubscribeGood(l, a);
    case _ => QuietGood(l, a);
  }

  lemma UnsubscribeGood(l: Log, a: Action)
    requires Good(l) && a.Unsubscribe?
    ensures Good(Next(l, a))
  {
    hide Broadcast, CloseAll, Stored, Subscribed;
  }

  lemma QuietGood(l: Log, a: Action)
    requires Good(l) && !a.Write? && !a.CloseChannels? && !a.Unsubscribe?
    ensures Good(Next(l, a))
  {
    hide Broadcast, CloseAll, Stored, Subscribed;
  }

  lemma {:induction false} RunGood(actions: seq<Action>)
    ensures Good(Run(actions))
  {
    if actions != [] {
      hide Good, Next;
      RunGood(actions[..|actions| - 1]);
      NextGood(Run(actions[..|actions| - 1]), actions[|actions| - 1]);
    } else {
      EmptyGood();
    }
  }

  lemma EmptyGood()
    ensures Good(EMPTY)
  {
  }

  /** Nothing is ever put into a closed channel, and it is not closed again. */
  lemma ClosedIsFinal(l: Log, a: Action, c: nat)
    requires Good(l) && c < |l.chans| && l.chans[c].closes > 0
    ensures c < |Next(l, a).chans| && Next(l, a).chans[c].sent == l.chans[c].sent
    ensures Next(l, a).chans[c].closes == 1
  {
    hide Good;
    NextGood(l, a);
    if Subscribed(l, c) {
      SubscribedOpen(l, c);
    }
    ClosesGrow(l, a, c);
  }

  lemma ClosesGrow(l: Log, a: Action, c: nat)
    requires c < |l.chans|
    ensures c < |Next(l, a).chans| && Next(l, a).chans[c].closes >= l.chans[c].closes
    ensures !Reached(l, c) ==> Next(l, a).chans[c].sent == l.chans[c].sent
  {
    hide Subscribed;
  }

  // ---- streams ----

  /** The pieces with the one a write adds, if it counts. */
  function With(pieces: seq<Data>, counts: bool, a: Action): seq<Data> {
    if a.Write? && counts then pieces + [a.p] else pieces
  }

  /** Everything written, in order. */
  function Writes(actions: seq<Action>): seq<Data> {
    if actions == [] then []
    else
      var a := actions[|actions| - 1];
      With(Writes(actions[..|actions| - 1]), true, a)
  }

  /** What was written while a channel was subscribed. */
  ghost function Offered(actions: seq<Action>, c: nat): seq<Data> {
    if actions == [] then []
    else
      var before, a := actions[..|actions| - 1], actions[|actions| - 1];
      With(Offered(before, c), Subscribed(Run(before), c), a)
  }

  /** Some write found the channel subscribed and its buffer full. */
  ghost predicate Overflowed(actions: seq<Action>, c: nat) {
    actions != [] &&
    var before, a := actions[..|actions| - 1], actions[|actions| - 1];
    Overflowed(before, c) || (a.Write? && Subscribed(Run(before), c) && !Reached(Run(before), c))
  }

  function SentTo(l: Log, c: nat): seq<Data> {
    if c < |l.chans| then l.chans[c].sent else []
  }

  lemma SentStep(l: Log, a: Action, c: nat)
    requires Good(l)
    ensures SentTo(Next(l, a), c) == With(SentTo(l, c), Reached(l, c), a)
    ensures Subscribed(l, c) ==> c < |l.chans|
  {
    hide Subscribed, Stored;
    if Subscribed(l, c) {
      SubscribedOpen(l, c);
    }
  }

  /** A subscriber's stream is a subsequence of what was written while it was subscribed, and is all of it
      exactly when no write then found its buffer holding CAPACITY unread items. */
  lemma {:induction false} StreamOf(actions: seq<Action>, c: nat)
    ensures var sent := SentTo(Run(actions), c);
      && Subsequence(sent, Offered(actions, c))
      && (sent == Offered(actions, c) <==> !Overflowed(actions, c))
  {
    hide Next, Good, Subsequence, SentTo;
    if actions == [] {
      EmptyStream(c);
    } else {
      var before, a := actions[..|actions| - 1], actions[|actions| - 1];
      StreamOf(before, c);
      RunGood(before);
      var l := Run(before);
      SentStep(l, a, c);
      StreamGrows(SentTo(l, c), Offered(before, c), Overflowed(before, c), Reached(l, c), Subscribed(l, c), a);
    }
  }

  lemma EmptyStream(c: nat)
    ensures SentTo(EMPTY, c) == [] && Subsequence<Data>([], [])
  {
  }

  lemma StreamGrows(sent: seq<Data>, offered: seq<Data>, lost: bool, reached: bool, subscribed: bool, a: Action)
    requires Subsequence(sent, offered) && (sent == offered <==> !lost) && (reached ==> subscribed)
    ensures Subsequence(With(sent, reached, a), With(offered, subscribed, a))
    ensures With(sent, reached, a) == With(offered, subscribed, a) <==> !lost && !(a.Write? && subscribed && !reached)
  {
    SubsequenceLength(sent, offered);
    if a.Write? && subscribed {
      if reached {
        SubsequenceTakes(sent, offered, a.p);
        assert (sent + [a.p])[..|sent|] == sent && (offered + [a.p])[..|offered|] == offered;
      } else {
        SubsequenceSkips(sent, offered, a.p);
      }
    }
  }

  /** What was offered to a channel is a subsequence of everything written. */
  lemma {:induction false} OfferedIsWritten(actions: seq<Action>, c: nat)
    ensures Subsequence(Offered(actions, c), Writes(actions))
  {
    if actions != [] {
      hide Run;
      var before, a := actions[..|actions| - 1], actions[|actions| - 1];
      OfferedIsWritten(before, c);
      if a.Write? {
        SubsequenceTakes(Offered(before, c), Writes(before), a.p);
        SubsequenceSkips(Offered(before, c), Writes(before), a.p);
      }
    }
  }

  function Concat(pieces: seq<Data>): Data {
    if pieces == [] then "" else Concat(pieces[..|pieces| - 1]) + pieces[|pieces| - 1]
  }

  /** Every write was stored whole. */
  ghost predicate StoredWhole(actions: seq<Action>) {
    actions == [] ||
    (StoredWhole(actions[..|actions| - 1]) &&
     var a := actions[|actions| - 1]; a.Write? ==> Stored(Run(actions[..|actions| - 1]), a.p, a.stored) == a.p)
  }

  /** The file is the concatenation of the writes, and offset is its length. */
  lemma {:induction false} FileIsWrites(actions: seq<Action>)
    requires StoredWhole(actions)
    ensures Run(actions).file == Concat(Writes(actions))
    ensures Run(actions).offset == |Run(actions).file|
  {
    hide Next;
    if actions != [] {
      var before, a := actions[..|actions| - 1], actions[|actions| - 1];
      FileIsWrites(before);
      FileStep(Run(before), a);
      ConcatGrows(Writes(before), a);
    }
  }

  lemma FileStep(l: Log, a: Action)
    ensures Next(l, a).file == if a.Write? then l.file + Stored(l, a.p, a.stored) else l.file
    ensures l.offset == |l.file| ==> Next(l, a).offset == |Next(l, a).file|
  {
    hide Stored, Broadcast, CloseAll;
  }

  lemma ConcatGrows(pieces: seq<Data>, a: Action)
    ensures Concat(With(pieces, true, a)) == if a.Write? then Concat(pieces) + a.p else Concat(pieces)
  {
    if a.Write? {
      assert (pieces + [a.p])[..|pieces|] == pieces;
    }
  }

  // ---- closing ----

  /** No id is subscribed again while it is in use. */
  ghost predicate FreshIds(actions: seq<Action>) {
    actions == [] ||
    (FreshIds(actions[..|actions| - 1]) &&
     var a := actions[|actions| - 1]; a.Subscribe? ==> a.id !in Run(actions[..|actions| - 1]).subscribers)
  }

  /** With fresh ids, a channel has been closed once, or it is still subscribed and open. */
  lemma {:induction false} ClosedOrSubscribed(actions: seq<Action>, c: nat)
    requires FreshIds(actions) && c < |Run(actions).chans|
    ensures Run(actions).chans[c].closes == if Subscribed(Run(actions), c) then 0 else 1
  {
    if actions != [] {
      var before, a := actions[..|actions| - 1], actions[|actions| - 1];
      RunGood(before);
      if c < |Run(before).chans| {
        ClosedOrSubscribed(before, c);
      }
      ClosesStep(Run(before), a, c);
    }
  }

  lemma ClosesStep(l: Log, a: Action, c: nat)
    requires Good(l) && c < |Next(l, a).chans|
    requires a.Subscribe? ==> a.id !in l.subscribers
    requires c < |l.chans| ==> l.chans[c].closes == if Subscribed(l, c) then 0 else 1
    ensures Next(l, a).chans[c].closes == if Subscribed(Next(l, a), c) then 0 else 1
  {
    match a
    case Subscribe(id) =>
      assert Next(l, a).subscribers[id] == |l.chans|;
      if c < |l.chans| && Subscribed(l, c) {
        var i :| i in l.subscribers && l.subscribers[i] == c;
        assert Next(l, a).subscribers[i] == c;
      }
    case Unsubscribe(id) =>
      if Subscribed(l, c) && id in l.subscribers && l.subscribers[id] != c {
        var i :| i in l.subscribers && l.subscribers[i] == c;
        assert i in Next(l, a).subscribers && Next(l, a).subscribers[i] == c;
      }
    case _ =>
  }

  /** After Close, every channel registered before it has been closed exactly once. */
  lemma CloseClosesAll(actions: seq<Action>, c: nat)
    requires FreshIds(actions) && c < |Run(actions).chans|
    ensures var closed := Next(Run(actions), CloseChannels);
      closed.subscribers == map[] && closed.chans[c].closes == 1
  {
    RunGood(actions);
    ClosedOrSubscribed(actions, c);
    ClosesStep(Run(actions), CloseChannels, c);
  }

  /** Close happens once: no step closes the channels. */
  ghost predicate ClosedNoMore(after: seq<Action>) {
    forall i :: 0 <= i < |after| ==> !after[i].CloseChannels?
  }

  /** Some step after `before` unsubscribed the channel. */
  ghost predicate Unsubscribed(before: seq<Action>, after: seq<Action>, c: nat) {
    after != [] &&
    var rest, a := after[..|after| - 1], after[|after| - 1];
    Unsubscribed(before, rest, c) || Unsubscribes(Run(before + rest), a, c)
  }

  predicate Unsubscribes(l: Log, a: Action, c: nat) {
    a.Unsubscribe? && a.id in l.subscribers && l.subscribers[a.id] == c
  }

  lemma QuietCloses(l: Log, a: Action, c: nat)
    requires Good(l) && !a.CloseChannels?
    ensures c < |l.chans| ==> c < |Next(l, a).chans|
    ensures c < |l.chans| ==>
      Next(l, a).chans[c].closes == l.chans[c].closes + if Unsubscribes(l, a, c) then 1 else 0
    ensures |l.chans| <= c < |Next(l, a).chans| ==>
      Next(l, a).chans[c].closes == 0 && !Unsubscribes(l, a, c)
  {
    hide Subscribed, Stored;
  }

  /** Whatever happens after Close, a channel is closed in the end exactly when it was registered before Close
      or was unsubscribed later; in any case it is closed at most once. */
  lemma {:induction false} ClosedExactly(before: seq<Action>, after: seq<Action>, c: nat)
    requires FreshIds(before) && ClosedNoMore(after)
    requires c < |Run(before + [CloseChannels] + after).chans|
    ensures Run(before + [CloseChannels] + after).chans[c].closes ==
      if c < |Run(before).chans| || Unsubscribed(before + [CloseChannels], after, c) then 1 else 0
    decreases |after|
  {
    hide Good, Next;
    var closing := before + [CloseChannels];
    assert closing[..|before|] == before;
    if after == [] {
      assert closing + after == closing;
      ChannelsStay(Run(before));
      CloseClosesAll(before, c);
    } else {
      var rest, a := after[..|after| - 1], after[|after| - 1];
      assert (closing + after)[..|closing + after| - 1] == closing + rest;
      var l := Run(closing + rest);
      RunGood(closing + rest);
      QuietCloses(l, a, c);
      if c < |l.chans| {
        ClosedExactly(before, rest, c);
        GoodCloses(Next(l, a), l, a, c);
      } else {
        ChannelsGrow(before, rest);
        NotYetUnsubscribed(closing, rest, c);
      }
    }
  }

  lemma ChannelsStay(l: Log)
    ensures |Next(l, CloseChannels).chans| == |l.chans|
  {
  }

  lemma GoodCloses(l': Log, l: Log, a: Action, c: nat)
    requires Good(l) && l' == Next(l, a) && c < |l'.chans|
    ensures l'.chans[c].closes <= 1
  {
    hide Good;
    NextGood(l, a);
    AtMostOnce(l', c);
  }

  lemma AtMostOnce(l: Log, c: nat)
    requires Good(l) && c < |l.chans|
    ensures l.chans[c].closes <= 1
  {
  }

  lemma {:induction false} ChannelsGrow(before: seq<Action>, after: seq<Action>)
    ensures |Run(before).chans| <= |Run(before + [CloseChannels] + after).chans|
    decreases |after|
  {
    hide Next;
    var closing := before + [CloseChannels];
    assert closing[..|before|] == before;
    if after == [] {
      assert closing + after == closing;
      ChannelsStay(Run(before));
    } else {
      var rest := after[..|after| - 1];
      assert (closing + after)[..|closing + after| - 1] == closing + rest;
      ChannelsGrow(before, rest);
      NoFewer(Run(closing + rest), after[|after| - 1]);
    }
  }

  /** A channel that does not exist yet has not been unsubscribed. */
  lemma {:induction false} NotYetUnsubscribed(before: seq<Action>, after: seq<Action>, c: nat)
    requires c >= |Run(before + after).chans|
    ensures !Unsubscribed(before, after, c)
    decreases |after|
  {
    if after != [] {
      hide Good, Next;
      var rest, a := after[..|after| - 1], after[|after| - 1];
      assert (before + after)[..|before + after| - 1] == before + rest;
      RunGood(before + rest);
      NoFewer(Run(before + rest), a);
      NamesExist(Run(before + rest), a, c);
      NotYetUnsubscribed(before, rest, c);
    }
  }

  lemma NoFewer(l: Log, a: Action)
    ensures |l.chans| <= |Next(l, a).chans|
  {
  }

  lemma NamesExist(l: Log, a: Action, c: nat)
    requires Good(l) && c >= |l.chans|
    ensures !Unsubscribes(l, a, c)
  {
  }

  /** No step subscribes or unsubscribes this id. */
  ghost predicate LeavesAlone(after: seq<Action>, id: string) {
    forall i :: 0 <= i < |after| ==> after[i] != Subscribe(id) && after[i] != Unsubscribe(id)
  }

  /** A viewer that subscribes after Close stays subscribed, and its channel is never closed, however the run
      goes on: it is never told that the build has finished. */
  lemma {:induction false} LateSubscriberStaysOpen(before: seq<Action>, id: string, after: seq<Action>)
    requires ClosedNoMore(after) && LeavesAlone(after, id)
    ensures var l, c := Run(before + [CloseChannels, Subscribe(id)] + after), |Run(before).chans|;
      && id in l.subscribers && l.subscribers[id] == c
      && c < |l.chans| && l.chans[c].closes == 0
    decreases |after|
  {
    hide Good, Next;
    var start, c := before + [CloseChannels, Subscribe(id)], |Run(before).chans|;
    if after == [] {
      assert start[..|before| + 1] == before + [CloseChannels] && (before + [CloseChannels])[..|before|] == before;
      assert start + after == start;
      SubscribedNow(Run(before), id);
    } else {
      var rest, a := after[..|after| - 1], after[|after| - 1];
      LateSubscriberStaysOpen(before, id, rest);
      assert (start + after)[..|start + after| - 1] == start + rest;
      RunGood(start + rest);
      assert after[|after| - 1] == a;
      OtherIdsAlone(Run(start + rest), a, id, c);
    }
  }

  lemma SubscribedNow(l: Log, id: string)
    ensures var l', c := Next(Next(l, CloseChannels), Subscribe(id)), |l.chans|;
      id in l'.subscribers && l'.subscribers[id] == c && c < |l'.chans| && l'.chans[c].closes == 0
  {
  }

  lemma OtherIdsAlone(l: Log, a: Action, id: string, c: nat)
    requires Good(l) && id in l.subscribers && l.subscribers[id] == c && c < |l.chans| && l.chans[c].closes == 0
    requires !a.CloseChannels? && a != Subscribe(id) && a != Unsubscribe(id)
    ensures var l' := Next(l, a);
      id in l'.subscribers && l'.subscribers[id] == c && c < |l'.chans| && l'.chans[c].closes == 0
  {
    hide Subscribed, Stored;
  }

  // ---- the object ----

  /** Some id among these names the channel. */
  predicate NamedBy(l: Log, ids: set<string>, c: nat) {
    exists id :: id in ids && id in l.subscribers && l.subscribers[id] == c
  }

  /** A broadcast that has reached the channels of some ids. */
  function BroadcastTo(l: Log, p: Data, ids: set<string>): (chans: seq<Chan>)
    ensures |chans| == |l.chans|
  {
    seq(|l.chans|, c requires 0 <= c < |l.chans| =>
      if NamedBy(l, ids, c) && l.chans[c].Unread() < CAPACITY then l.chans[c].(sent := l.chans[c].sent + [p])
      else l.chans[c])
  }

  /** A close that has reached the channels of some ids. */
  function CloseOf(l: Log, ids: set<string>): (chans: seq<Chan>)
    ensures |chans| == |l.chans|
  {
    seq(|l.chans|, c requires 0 <= c < |l.chans| =>
      if NamedBy(l, ids, c) then l.chans[c].(closes := l.chans[c].closes + 1) else l.chans[c])
  }

  lemma NamedMore(l: Log, ids: set<string>, id: string, c: nat)
    requires Good(l) && id in l.subscribers && id !in ids
    ensures NamedBy(l, ids + {id}, c) <==> NamedBy(l, ids, c) || l.subscribers[id] == c
    ensures l.subscribers[id] < |l.chans| && !NamedBy(l, ids, l.subscribers[id])
  {
    if l.subscribers[id] == c {
      assert id in ids + {id};
    }
    if NamedBy(l, ids, c) {
      var i :| i in ids && i in l.subscribers && l.subscribers[i] == c;
      assert i in ids + {id};
    }
  }

  lemma LoopEnds(l: Log, p: Data)
    ensures BroadcastTo(l, p, {}) == l.chans && CloseOf(l, {}) == l.chans
    ensures BroadcastTo(l, p, l.subscribers.Keys) == Broadcast(l, p)
    ensures CloseOf(l, l.subscribers.Keys) == CloseAll(l)
  {
    forall c: nat
      ensures NamedBy(l, l.subscribers.Keys, c) <==> Subscribed(l, c)
    {
    }
  }

  lemma LoopStep(l: Log, p: Data, ids: set<string>, id: string)
    requires Good(l) && id in l.subscribers && id !in ids
    ensures l.subscribers[id] < |l.chans|
    ensures var c, before := l.subscribers[id], BroadcastTo(l, p, ids);
      before[c] == l.chans[c] &&
      BroadcastTo(l, p, ids + {id}) ==
        if before[c].Unread() < CAPACITY then before[c := before[c].(sent := before[c].sent + [p])] else before
    ensures var c, before := l.subscribers[id], CloseOf(l, ids);
      CloseOf(l, ids + {id}) == before[c := before[c].(closes := before[c].closes + 1)]
  {
    hide Good, NamedBy;
    forall c: nat
      ensures NamedBy(l, ids + {id}, c) <==> NamedBy(l, ids, c) || l.subscribers[id] == c
    {
      NamedMore(l, ids, id, c);
    }
    NamedMore(l, ids, id, 0);
  }

  /** The loop over the subscribers that offers a piece to each. */
  method Offer(l: Log, p: Data) returns (chans: seq<Chan>)
    requires Good(l)
    ensures chans == Broadcast(l, p)
  {
    hide Good, Broadcast, BroadcastTo, CloseOf, CloseAll;
    chans := l.chans;
    var todo := l.subscribers.Keys;
    ghost var done: set<string> := {};
    LoopEnds(l, p);
    while todo != {}
      invariant done + todo == l.subscribers.Keys && done !! todo
      invariant chans == BroadcastTo(l, p, done)
      decreases |todo|
    {
      var id :| id in todo;
      var c := l.subscribers[id];
      LoopStep(l, p, done, id);
      if chans[c].Unread() < CAPACITY {
        chans := chans[c := chans[c].(sent := chans[c].sent + [p])];
      }
      done, todo := done + {id}, todo - {id};
    }
    assert done == l.subscribers.Keys;
  }

  /** The loop over the subscribers that closes and forgets each. */
  method CloseEach(l: Log) returns (chans: seq<Chan>)
    requires Good(l)
    ensures chans == CloseAll(l)
  {
    hide Good, Broadcast, BroadcastTo, CloseOf, CloseAll;
    chans := l.chans;
    var todo := l.subscribers.Keys;
    ghost var done: set<string> := {};
    LoopEnds(l, "");
    while todo != {}
      invariant done + todo == l.subscribers.Keys && done !! todo
      invariant chans == CloseOf(l, done)
      decreases |todo|
    {
      var id :| id in todo;
      var c := l.subscribers[id];
      LoopStep(l, "", done, id);
      chans := chans[c := chans[c].(closes := chans[c].closes + 1)];
      done, todo := done + {id}, todo - {id};
    }
    assert done == l.subscribers.Keys;
  }

  class Writer {
    var file: Data
    var open: bool
    var offset: nat
    var subscribers: map<string, nat>
    var chans: seq<Chan>

    constructor ()
      ensures View() == EMPTY
    {
      file, open, offset, subscribers, chans := "", true, 0, map[], [];
    }

    function View(): Log
      reads this
    {
      Log(file, open, offset, subscribers, chans)
    }

    /** Appends to the file and offers the piece to every subscriber, dropping it where the buffer is full. */
    method Write(p: Data, stored: nat) returns (n: nat)
      requires Good(View())
      modifies this
      ensures View() == Next(old(View()), Action.Write(p, stored))
      ensures n == if !old(open) then 0 else if stored <= |p| then stored else |p|
      ensures file == old(file) + p[..n] && offset == old(offset) + n
    {
      hide Good, Stored, Broadcast;
      StoredIsPrefix(View(), p, stored);
      var written := Stored(View(), p, stored);
      n := |written|;
      var reached := Offer(View(), p);
      file, offset, chans := file + written, offset + n, reached;
    }

    method Subscribe(id: string) returns (c: nat)
      modifies this
      ensures View() == Next(old(View()), Action.Subscribe(id))
      ensures c == old(|chans|) && Subscribed(View(), c)
    {
      c := |chans|;
      chans := chans + [Chan([], 0, 0)];
      subscribers := subscribers[id := c];
      assert subscribers[id] == c;
    }

    method Unsubscribe(id: string)
      requires Good(View())
      modifies this
      ensures View() == Next(old(View()), Action.Unsubscribe(id))
    {
      if id in subscribers {
        var c := subscribers[id];
        chans := chans[c := chans[c].(closes := chans[c].closes + 1)];
        subscribers := subscribers - {id};
      }
    }

    /** Closes every subscriber's channel, then the file. */
    method Close()
      requires Good(View())
      modifies this
      ensures View() == Next(Next(old(View()), CloseChannels), CloseFile)
    {
      hide Good, CloseAll;
      var closed := CloseEach(View());
      chans, subscribers := closed, map[];
      open := false;
    }
  }
}
