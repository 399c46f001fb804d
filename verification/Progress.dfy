/**
 That the pipeline gets somewhere: streams send in order, a stream goes on as soon as its next chunk is announced,
 what is published reaches the table, and a file whose torrent completes it can be streamed from its first byte to
 its last.
 */
module Progress {
  import TC = TorrentCore
  import NU = NotificationUnit
  import FB = FileInfoBuffer
  import CS = ChunkedStream
  import opened Pipeline

  // ----- Runs -----

  lemma {:induction false} RunSplits(s: State, before: seq<Action>, after: seq<Action>)
    requires Inv(s)
    ensures Run(s, before + after) == Run(Run(s, before), after)
  {
    hide Inv, Next;
    var all, k := before + after, |after| - 1;
    if after == [] {
      assert all == before;
    } else {
      assert all[..|all| - 1] == before + after[..k];
      RunSplits(s, before, after[..k]);
      RunLast(s, all);
      RunLast(Run(s, before), after);
    }
  }

  lemma RunOne(s: State, a: Action)
    requires Inv(s)
    ensures Run(s, [a]) == Next(s, a)
  {
    hide Inv, Next;
    assert [a][..0] == [];
  }

  // ----- Streams send in order -----

  /** Where the last chunk that the stream has sent ended. */
  function SentEnd(sent: seq<Sent>, stream: nat, start: int): int {
    if sent == [] then start
    else if sent[|sent| - 1].stream == stream then sent[|sent| - 1].to
    else SentEnd(sent[..|sent| - 1], stream, start)
  }

  /** Each chunk that the stream has sent starts where the one before it ended, the first one at `start`. */
  ghost predicate InOrder(sent: seq<Sent>, stream: nat, start: int) {
    sent == [] || (
      var before, x := sent[..|sent| - 1], sent[|sent| - 1];
      && InOrder(before, stream, start)
      && (x.stream == stream ==> x.from == SentEnd(before, stream, start) && x.from <= x.to))
  }

  ghost predicate Sending(s: State, stream: nat) {
    if stream in s.streams then
      var start := ReadStart(s.streams[stream].request);
      && InOrder(s.sent, stream, start)
      && (!s.streams[stream].pc.Ended? ==> s.streams[stream].seekPos == SentEnd(s.sent, stream, start))
    else forall x :: x in s.sent ==> x.stream != stream
  }

  lemma {:induction false} NothingSent(sent: seq<Sent>, stream: nat, start: int)
    requires forall x :: x in sent ==> x.stream != stream
    ensures SentEnd(sent, stream, start) == start && InOrder(sent, stream, start)
  {
    if sent != [] {
      assert sent[|sent| - 1] in sent;
      NothingSent(sent[..|sent| - 1], stream, start);
    }
  }

  lemma {:induction false} LastChunk(sent: seq<Sent>, stream: nat, start: int, i: nat)
    requires i < |sent| && sent[i].stream == stream && forall h :: i < h < |sent| ==> sent[h].stream != stream
    ensures SentEnd(sent, stream, start) == sent[i].to
  {
    if i < |sent| - 1 {
      LastChunk(sent[..|sent| - 1], stream, start, i);
    }
  }

  /** Of two chunks of the stream, with no other of it between them, the later starts where the other ends. */
  lemma {:induction false} OneBehindTheOther(sent: seq<Sent>, stream: nat, start: int, i: nat, j: nat)
    requires InOrder(sent, stream, start) && i < j < |sent| && sent[i].stream == sent[j].stream == stream
    requires forall h :: i < h < j ==> sent[h].stream != stream
    ensures sent[i].to == sent[j].from <= sent[j].to
  {
    var last := |sent| - 1;
    if j < last {
      OneBehindTheOther(sent[..last], stream, start, i, j);
    } else {
      LastChunk(sent[..last], stream, start, i);
    }
  }

  /** Its first chunk starts at the start. */
  lemma {:induction false} FirstChunk(sent: seq<Sent>, stream: nat, start: int, j: nat)
    requires InOrder(sent, stream, start) && j < |sent| && sent[j].stream == stream
    requires forall h :: 0 <= h < j ==> sent[h].stream != stream
    ensures start == sent[j].from <= sent[j].to
  {
    var last := |sent| - 1;
    if j < last {
      FirstChunk(sent[..last], stream, start, j);
    } else {
      assert forall x :: x in sent[..last] ==> x.stream != stream;
      NothingSent(sent[..last], stream, start);
    }
  }

  /** A stream that sends in order has sent every byte from its start to where its last chunk ends. */
  lemma {:induction false} EveryByteSent(sent: seq<Sent>, stream: nat, start: int, i: int)
    requires InOrder(sent, stream, start) && start <= i < SentEnd(sent, stream, start)
    ensures exists x :: x in sent && x.stream == stream && x.from <= i < x.to
  {
    var last := sent[|sent| - 1];
    if last.stream != stream || i < last.from {
      EveryByteSent(sent[..|sent| - 1], stream, start, i);
    }
  }

  /** Every one of the first n bytes is in some chunk that the stream has sent. */
  ghost predicate AllSent(sent: seq<Sent>, stream: nat, n: nat) {
    forall i: nat :: i < n ==> ByteSent(sent, stream, i)
  }

  ghost predicate ByteSent(sent: seq<Sent>, stream: nat, i: nat) {
    exists x :: x in sent && x.stream == stream && x.from <= i < x.to
  }

  lemma InOrderSendsAll(sent: seq<Sent>, stream: nat, n: nat)
    requires InOrder(sent, stream, 0) && SentEnd(sent, stream, 0) == n
    ensures AllSent(sent, stream, n)
  {
    forall i: nat | i < n
      ensures ByteSent(sent, stream, i)
    {
      EveryByteSent(sent, stream, 0, i);
    }
  }

  lemma OneMoreSent(sent: seq<Sent>, x: Sent, stream: nat, start: int)
    requires InOrder(sent, stream, start)
    requires x.stream == stream ==> x.from == SentEnd(sent, stream, start) && x.from <= x.to
    ensures InOrder(sent + [x], stream, start)
    ensures SentEnd(sent + [x], stream, start) == if x.stream == stream then x.to else SentEnd(sent, stream, start)
  {
    assert (sent + [x])[..|sent|] == sent;
  }

  lemma SendInOrder(s: State, stream: nat, bytes: nat, complete: bool, other: nat)
    requires stream in s.streams && s.streams[stream].pc.Ready? && Sending(s, other)
    ensures Sending(SendChunk(s, stream, bytes, complete), other)
  {
    var w := s.streams[stream];
    var x := Sent(stream, w.path, w.request, w.size, w.seekPos, w.seekPos + bytes, w.told);
    if other in s.streams {
      OneMoreSent(s.sent, x, other, ReadStart(s.streams[other].request));
    }
    hide InOrder, SentEnd, ReadStart;
  }

  lemma NextInOrder(s: State, a: Action, stream: nat)
    requires Inv(s) && Sending(s, stream)
    ensures Sending(Next(s, a), stream)
  {
    match a
    case Send(sender, bytes, complete) =>
      hide Inv, Sending, SendChunk;
      if sender in s.streams && s.streams[sender].pc.Ready? && bytes <= s.chunk {
        SendInOrder(s, sender, bytes, complete, stream);
      }
    case Lookup(other, path, request) =>
      hide Inv, InOrder, SentEnd, ReadEnd;
      NothingSentIf(s.sent, stream, ReadStart(request));
    case _ =>
      hide Inv, InOrder, SentEnd, ReadStart, CS.BytesWait, FB.Registered, FB.Apply, NU.Work, NU.Add, TC.Next;
  }

  lemma NothingSentIf(sent: seq<Sent>, stream: nat, start: int)
    ensures (forall x :: x in sent ==> x.stream != stream) ==>
              SentEnd(sent, stream, start) == start && InOrder(sent, stream, start)
  {
    if forall x :: x in sent ==> x.stream != stream {
      NothingSent(sent, stream, start);
    }
  }

  lemma {:induction false} ReachedSends(
      chunk: nat, maxNotifications: nat, drainAtExit: bool, actions: seq<Action>, stream: nat)
    ensures Sending(Reached(chunk, maxNotifications, drainAtExit, actions), stream)
  {
    var start := Start(chunk, maxNotifications, drainAtExit);
    if actions == [] {
      hide Inv;
    } else {
      hide Inv, Sending, Next, Start, Run;
      RunLast(start, actions);
      ReachedSends(chunk, maxNotifications, drainAtExit, actions[..|actions| - 1], stream);
      NextInOrder(Run(start, actions[..|actions| - 1]), actions[|actions| - 1], stream);
    }
  }

  /** In every interleaving every stream sends one chunk behind the other, from the start that was asked for. */
  lemma StreamsSendInOrder(
      chunk: nat, maxNotifications: nat, drainAtExit: bool, actions: seq<Action>, stream: nat)
    ensures var s := Reached(chunk, maxNotifications, drainAtExit, actions);
            stream in s.streams ==>
              var start := match s.streams[stream].request
                           case Whole => 0
                           case Partial(None, end) => 0
                           case Partial(Some(start), end) => start;
              InOrder(s.sent, stream, start)
  {
    ReachedSends(chunk, maxNotifications, drainAtExit, actions, stream);
    hide Reached, InOrder, Inv;
  }

  // ----- A stream goes on -----

  /**
   A waiting stream gets to send exactly when it is not broken and has been told of the whole next chunk, or of all
   that is asked for.
   */
  lemma ArrivedProceeds(s: State, stream: nat)
    requires Inv(s) && stream in s.streams && s.streams[stream].pc.Waiting?
    ensures stream in s.buffer.told
    ensures var w, told := s.streams[stream], s.buffer.told[stream];
            var end := match w.request
                       case Whole => w.size
                       case Partial(start, None) => w.size
                       case Partial(start, Some(end)) => end;
            var t := Next(s, Arrived(stream));
            && w.readEnd == end
            && t == s.(streams := t.streams) && t.streams.Keys == s.streams.Keys
            && (forall x :: x in s.streams && x != stream ==> t.streams[x] == s.streams[x])
            && if !told.breaked && (w.seekPos + s.chunk <= told.avaliableBytes || end <= told.avaliableBytes)
               then t.streams[stream] == w.(pc := Ready, told := told.avaliableBytes)
               else t == s
  {
    StreamKnown(s, stream);
    CS.WaitsForNextChunk(s.streams[stream].seekPos, s.chunk, s.streams[stream].readEnd,
        s.buffer.told[stream].avaliableBytes);
    hide Inv, CS.BytesWait;
  }

  lemma StreamKnown(s: State, stream: nat)
    requires Inv(s) && stream in s.streams
    ensures var w := s.streams[stream];
            && stream in s.buffer.told && w.record in s.buffer.records && w.readEnd == ReadEnd(w.request, w.size)
            && s.buffer.records[w.record].filePath == w.path
            && (w.pc.Found? ==> s.buffer.told[stream] == FB.Told(0, false))
  {
    assert StreamInv(s.buffer, stream, s.streams[stream], s.chunk, s.unit.delivered);
  }

  /**
   What was written goes out. If that was all that was read, and something, and the chunk does not reach the end of what
   is asked for, the stream waits for the next chunk; otherwise it ends.
   */
  lemma SendProceeds(s: State, stream: nat, bytes: nat, complete: bool)
    requires Inv(s) && stream in s.streams && s.streams[stream].pc.Ready? && bytes <= s.chunk
    ensures var w, t := s.streams[stream], Next(s, Send(stream, bytes, complete));
            && t == s.(streams := t.streams, sent := t.sent) && t.streams.Keys == s.streams.Keys
            && (forall x :: x in s.streams && x != stream ==> t.streams[x] == s.streams[x])
            && t.sent == s.sent + [Sent(stream, w.path, w.request, w.size, w.seekPos, w.seekPos + bytes, w.told)]
            && t.streams[stream] == if complete && bytes > 0 && w.seekPos + s.chunk < w.readEnd
                                    then w.(pc := Waiting, seekPos := w.seekPos + bytes)
                                    else w.(pc := Ended)
  {
    hide Inv;
    CS.GoesOn(s.streams[stream].seekPos, s.chunk, s.streams[stream].readEnd, bytes, complete && bytes > 0);
    hide CS.AfterChunk;
  }

  /** What a stream that sends alone leaves as it is. */
  predicate OnlyStream(s: State, t: State, stream: nat) {
    && t == s.(streams := t.streams, sent := t.sent) && t.streams.Keys == s.streams.Keys && stream in s.streams
    && t.streams[stream].request == s.streams[stream].request && t.streams[stream].readEnd == s.streams[stream].readEnd
    && t.streams[stream].path == s.streams[stream].path && t.streams[stream].size == s.streams[stream].size
  }

  /** How far a stream has got: to the end of what is asked for, or to where the next chunk is not announced. */
  ghost predicate GotAsFar(t: State, stream: nat, told: int)
    requires stream in t.streams
  {
    var w := t.streams[stream];
    if w.pc.Ended? then SentEnd(t.sent, stream, ReadStart(w.request)) == w.readEnd
    else w.pc.Waiting? && told < w.seekPos + t.chunk && told < w.readEnd
  }

  lemma ServeRound(s: State, stream: nat) returns (t: State, bytes: nat)
    requires Inv(s) && s.chunk > 0 && stream in s.streams && stream in s.buffer.told && Sending(s, stream)
    requires var w, told := s.streams[stream], s.buffer.told[stream];
             && w.pc.Waiting? && w.seekPos < w.readEnd && !told.breaked
             && (w.seekPos + s.chunk <= told.avaliableBytes || w.readEnd <= told.avaliableBytes)
    ensures t == Run(s, [Arrived(stream), Send(stream, bytes, true)])
    ensures Inv(t) && Sending(t, stream) && OnlyStream(s, t, stream)
    ensures var w, v := s.streams[stream], t.streams[stream];
            if w.seekPos + s.chunk >= w.readEnd
            then v.pc.Ended? && SentEnd(t.sent, stream, ReadStart(v.request)) == w.readEnd
            else v.pc.Waiting? && v.seekPos == w.seekPos + s.chunk < w.readEnd
  {
    hide *;
    var w := s.streams[stream];
    bytes := if w.readEnd - w.seekPos < s.chunk then w.readEnd - w.seekPos else s.chunk;
    ArrivedProceeds(s, stream);
    NextInOrder(s, Arrived(stream), stream);
    NextInv(s, Arrived(stream));
    var r := Next(s, Arrived(stream));
    SendProceeds(r, stream, bytes, true);
    NextInOrder(r, Send(stream, bytes, true), stream);
    NextInv(r, Send(stream, bytes, true));
    t := Next(r, Send(stream, bytes, true));
    RunTwo(s, Arrived(stream), Send(stream, bytes, true));
    LastSent(t.sent, stream, ReadStart(w.request));
    RoundMeans(s, r, t, stream);
  }

  lemma RunTwo(s: State, a: Action, b: Action)
    requires Inv(s)
    ensures Inv(Next(s, a)) && Run(s, [a, b]) == Next(Next(s, a), b)
  {
    hide Inv, Next;
    RunOne(s, a);
    RunLast(s, [a, b]);
    assert [a, b][..1] == [a];
  }

  lemma RoundMeans(s: State, r: State, t: State, stream: nat)
    requires stream in s.streams && r == s.(streams := r.streams) && r.streams.Keys == s.streams.Keys
    requires t == r.(streams := t.streams, sent := t.sent) && t.streams.Keys == r.streams.Keys
    requires t.streams[stream] == r.streams[stream].(pc := t.streams[stream].pc, seekPos := t.streams[stream].seekPos)
    requires r.streams[stream] == s.streams[stream].(pc := Ready, told := r.streams[stream].told)
    ensures OnlyStream(s, t, stream)
  {
  }

  lemma LastSent(sent: seq<Sent>, stream: nat, start: int)
    ensures sent != [] && sent[|sent| - 1].stream == stream ==> SentEnd(sent, stream, start) == sent[|sent| - 1].to
  {
  }

  /** A stream can be served as far as it has been told, with no other thread doing anything. */
  lemma {:induction false} Serve(s: State, stream: nat) returns (actions: seq<Action>)
    requires Inv(s) && s.chunk > 0 && stream in s.streams && stream in s.buffer.told && Sending(s, stream)
    requires s.streams[stream].pc.Waiting? && s.streams[stream].seekPos < s.streams[stream].readEnd
    requires !s.buffer.told[stream].breaked
    ensures var t := Run(s, actions);
            && OnlyStream(s, t, stream) && Sending(t, stream)
            && GotAsFar(t, stream, s.buffer.told[stream].avaliableBytes)
    decreases s.streams[stream].readEnd - s.streams[stream].seekPos
  {
    var w, told := s.streams[stream], s.buffer.told[stream].avaliableBytes;
    if w.seekPos + s.chunk <= told || w.readEnd <= told {
      var t, bytes := ServeRound(s, stream);
      var round := [Arrived(stream), Send(stream, bytes, true)];
      hide Inv, Sending, Run;
      if t.streams[stream].pc.Ended? {
        actions := round;
      } else {
        var rest := Serve(t, stream);
        RunSplits(s, round, rest);
        actions := round + rest;
      }
    } else {
      actions := [];
      hide Inv, Sending;
    }
  }

  // ----- What is published reaches the table -----

  /** The worker is in its loop, and nobody has asked it to stop. */
  ghost predicate Running(s: State) {
    Inv(s) && NU.Settled(s.unit) && NU.Working(s.unit)
  }

  /** What an action does to the notification unit. */
  lemma UnitOf(s: State, a: Action)
    requires Inv(s)
    ensures Next(s, a).unit ==
      match a
      case Publish => if s.core.outbox == [] then s.unit else NU.Next(s.unit, NU.Adds(s.core.outbox[0]))
      case StopUnit => NU.Next(s.unit, NU.Stops)
      case WorkUnit(unused) => if unused in s.buffer.records then s.unit else NU.Next(s.unit, NU.Works)
      case _ => s.unit
  {
    hide Inv, TC.Next, FB.Registered, FB.Apply, NU.Work, NU.Add, NU.Stop, CS.AfterChunk, CS.BytesWait;
  }

  lemma NextRuns(s: State, a: Action)
    requires Inv(s) && NU.Settled(s.unit)
    ensures NU.Settled(Next(s, a).unit) && (NU.Working(s.unit) && !a.StopUnit? ==> NU.Working(Next(s, a).unit))
  {
    hide *;
    UnitOf(s, a);
    if s.core.outbox != [] {
      NU.NextSettled(s.unit, NU.Adds(s.core.outbox[0]));
    }
    NU.NextSettled(s.unit, NU.Stops);
    NU.NextSettled(s.unit, NU.Works);
  }

  lemma {:induction false} ReachedRuns(chunk: nat, maxNotifications: nat, drainAtExit: bool, actions: seq<Action>)
    requires StopUnit !in actions
    ensures Running(Reached(chunk, maxNotifications, drainAtExit, actions))
    ensures Reached(chunk, maxNotifications, drainAtExit, actions).chunk == chunk
  {
    var start := Start(chunk, maxNotifications, drainAtExit);
    if actions == [] {
      hide Inv;
    } else {
      hide Inv, Next, Start, Run, NU.Settled, NU.Working;
      RunLast(start, actions);
      ReachedRuns(chunk, maxNotifications, drainAtExit, actions[..|actions| - 1]);
      NextRuns(Run(start, actions[..|actions| - 1]), actions[|actions| - 1]);
      NextChunk(Run(start, actions[..|actions| - 1]), actions[|actions| - 1]);
    }
  }

  lemma NextChunk(s: State, a: Action)
    requires Inv(s)
    ensures Next(s, a).chunk == s.chunk
  {
    hide Inv, TC.Next, FB.Registered, FB.Apply, NU.Work, NU.Add, CS.AfterChunk, CS.BytesWait;
  }

  lemma {:induction false} UnusedRecord(keys: set<nat>) returns (unused: nat)
    ensures unused !in keys && forall k :: k in keys ==> k < unused
  {
    if keys == {} {
      unused := 0;
    } else {
      var k :| k in keys;
      var rest := UnusedRecord(keys - {k});
      unused := if k < rest then rest else k + 1;
      forall x | x in keys
        ensures x < unused
      {
        assert x == k || x in keys - {k};
      }
    }
  }

  /** Only the notification unit and the buffer have done something. */
  predicate OnlyDelivered(s: State, t: State) {
    t == s.(unit := t.unit, buffer := t.buffer)
  }

  lemma WorkOnce(s: State, unused: nat)
    requires Running(s) && unused !in s.buffer.records && s.unit.delivered != s.unit.accepted
    ensures var t := Next(s, WorkUnit(unused));
            && Running(t) && OnlyDelivered(s, t) && t.unit == NU.Work(s.unit)
            && NU.Due(t.unit) < NU.Due(s.unit) && t.unit.accepted == s.unit.accepted
  {
    NextInv(s, WorkUnit(unused));
    NextRuns(s, WorkUnit(unused));
    UnitConserved(s);
    NU.DueDecreases(s.unit);
    hide Inv, NU.Due, NU.Settled, NU.Working, FB.Apply;
  }

  lemma UnitConserved(s: State)
    requires Inv(s)
    ensures NU.Conserved(s.unit)
  {
  }

  /** The worker alone delivers everything that was accepted. */
  lemma {:induction false} Drain(s: State) returns (actions: seq<Action>)
    requires Running(s)
    ensures var t := Run(s, actions);
            && Running(t) && OnlyDelivered(s, t) && t.unit.delivered == t.unit.accepted == s.unit.accepted
            && StopUnit !in actions
    decreases NU.Due(s.unit)
  {
    if s.unit.delivered == s.unit.accepted {
      actions := [];
      hide Inv, NU.Settled, NU.Working;
    } else {
      var unused := UnusedRecord(s.buffer.records.Keys);
      WorkOnce(s, unused);
      var t := Next(s, WorkUnit(unused));
      hide *;
      RunningInv(s);
      RunningInv(t);
      var rest := Drain(t);
      RunOne(s, WorkUnit(unused));
      RunSplits(s, [WorkUnit(unused)], rest);
      actions := [WorkUnit(unused)] + rest;
      DeliveredTwice(s, t, Run(t, rest));
    }
  }

  lemma RunningInv(s: State)
    requires Running(s)
    ensures Inv(s)
  {
  }

  lemma DeliveredTwice(s: State, t: State, u: State)
    requires OnlyDelivered(s, t) && OnlyDelivered(t, u)
    ensures OnlyDelivered(s, u)
  {
  }

  /** Everything that was accepted is delivered. */
  ghost predicate Drained(s: State) {
    Running(s) && s.unit.delivered == s.unit.accepted
  }

  lemma PublishOnce(s: State)
    requires Drained(s) && s.core.outbox != []
    ensures var t := Next(s, Publish);
            && Running(t) && t.unit.accepted == s.unit.accepted + [s.core.outbox[0]]
            && t == s.(core := t.core, unit := t.unit, published := t.published)
            && t.core == s.core.(outbox := s.core.outbox[1..])
  {
    NextInv(s, Publish);
    NextRuns(s, Publish);
    UnitConserved(s);
    NU.AddAccepts(s.unit, s.core.outbox[0]);
    hide Inv, NU.Settled, NU.Add;
  }

  /** Only the messages that were waiting have gone through. */
  ghost predicate OnlyPublished(s: State, t: State) {
    && t == s.(core := t.core, unit := t.unit, published := t.published, buffer := t.buffer)
    && t.core.torrents == s.core.torrents
  }

  /** All messages that wait in the outbox can be delivered, in their order. */
  lemma {:induction false} PublishAll(s: State) returns (actions: seq<Action>)
    requires Drained(s)
    ensures var t := Run(s, actions);
            && Drained(t) && OnlyPublished(s, t) && t.core.outbox == []
            && t.unit.delivered == s.unit.delivered + s.core.outbox && StopUnit !in actions
    decreases |s.core.outbox|
  {
    if s.core.outbox == [] {
      actions := [];
      hide Inv, NU.Settled, NU.Working;
    } else {
      hide *;
      DrainedInv(s);
      PublishOnce(s);
      var r := Next(s, Publish);
      RunningInv(r);
      var middle := Drain(r);
      var t := Run(r, middle);
      MessageDelivered(s, r, t);
      var rest := PublishAll(t);
      RunOne(s, Publish);
      RunSplits(s, [Publish], middle);
      RunSplits(s, [Publish] + middle, rest);
      actions := [Publish] + middle + rest;
      PublishedTwice(s, t, Run(t, rest));
      FirstAndRest(s.unit.delivered, s.core.outbox);
    }
  }

  lemma FirstAndRest<T>(s: seq<T>, more: seq<T>)
    requires more != []
    ensures s + [more[0]] + more[1..] == s + more
  {
  }

  lemma DrainedInv(s: State)
    requires Drained(s)
    ensures Inv(s) && Running(s) && s.unit.delivered == s.unit.accepted
  {
  }

  lemma MessageDelivered(s: State, r: State, t: State)
    requires Drained(s) && s.core.outbox != [] && Running(t) && OnlyDelivered(r, t)
    requires r == s.(core := r.core, unit := r.unit, published := r.published)
    requires r.core == s.core.(outbox := s.core.outbox[1..]) && r.unit.accepted == s.unit.accepted + [s.core.outbox[0]]
    requires t.unit.delivered == t.unit.accepted == r.unit.accepted
    ensures Drained(t) && OnlyPublished(s, t) && t.core.outbox == s.core.outbox[1..]
    ensures t.unit.delivered == s.unit.delivered + [s.core.outbox[0]]
  {
    hide Inv, NU.Settled, NU.Working;
  }

  lemma PublishedTwice(s: State, t: State, u: State)
    requires OnlyPublished(s, t) && OnlyPublished(t, u)
    ensures OnlyPublished(s, u)
  {
  }

  // ----- A completed file can be streamed -----

  lemma {:induction false} LatestOfAppend(events: seq<FB.Event>, more: seq<FB.Event>, path: string, k: nat)
    requires k < |more| && more[k].path == path && forall j :: k < j < |more| ==> more[j].path != path
    ensures Latest(events + more, path) == FB.Some(more[k])
    decreases |more|
  {
    var last := |more| - 1;
    assert (events + more)[..|events + more| - 1] == events + more[..last];
    if k < last {
      LatestOfAppend(events, more[..last], path, k);
    }
  }

  lemma EventsAppend(messages: seq<TC.Message>, more: seq<TC.Message>)
    ensures Events(messages + more) == Events(messages) + Events(more)
  {
  }

  /** After the torrent's files have been added, the table shows the file with its size and no bytes. */
  lemma AddedInTable(events: seq<FB.Event>, id: nat, files: seq<TC.Spec>, outbox: seq<TC.Message>, k: nat)
    requires k < |files| == |outbox| && forall j :: k < j < |files| ==> files[j].path != files[k].path
    requires forall i :: 0 <= i < |files| ==> outbox[i] == TC.Message(FB.FileAdd(files[i].path, files[i].size), id, i)
    ensures var table := FB.Fold(events + Events(outbox));
            files[k].path in table && table[files[k].path] == FB.Entry(files[k].size, 0)
  {
    hide FB.Fold, Latest;
    var more, path := Events(outbox), files[k].path;
    forall j | 0 <= j < |more|
      ensures more[j] == FB.FileAdd(files[j].path, files[j].size)
    {
      assert outbox[j] == TC.Message(FB.FileAdd(files[j].path, files[j].size), id, j);
    }
    LatestOfAppend(events, more, path, k);
    TableShowsLatest(events + more, path);
  }

  lemma UpdatedInTable(events: seq<FB.Event>, path: string, size: int, m: TC.Message)
    requires m.event == FB.FileUpdate(path, size) && path in FB.Fold(events) && FB.Fold(events)[path].fileSize == size
    ensures path in FB.Fold(events + Events([m])) && FB.Fold(events + Events([m]))[path] == FB.Entry(size, size)
  {
    assert Events([m]) == [m.event];
    assert (events + [m.event])[..|events|] == events;
  }

  /** The table shows the file with all its bytes. */
  ghost predicate Shown(s: State, path: string, size: int) {
    && Inv(s) && path in s.buffer.infos && s.buffer.infos[path] in s.buffer.records
    && s.buffer.records[s.buffer.infos[path]].fileSize == s.buffer.records[s.buffer.infos[path]].avaliableBytes == size
  }

  lemma ShownByFold(s: State, path: string, size: int)
    requires Inv(s) && path in FB.Fold(Events(s.unit.delivered))
    requires FB.Fold(Events(s.unit.delivered))[path] == FB.Entry(size, size)
    ensures Shown(s, path, size)
  {
    hide TC.Inv, UnitInv, StreamsInv, SentInv, FB.Fold;
  }

  /** A torrent's alert is handled, and what it publishes is delivered. */
  lemma Handle(s: State, alert: TC.Action) returns (actions: seq<Action>)
    requires Drained(s) && s.core.outbox == [] && TC.Inv(s.core)
    ensures var t, core := Run(s, actions), TC.Next(s.core, alert);
            && Drained(t) && t == s.(core := t.core, unit := t.unit, published := t.published, buffer := t.buffer)
            && t.core == core.(outbox := []) && t.unit.delivered == s.unit.delivered + core.outbox
            && StopUnit !in actions
  {
    NextInv(s, Alert(alert));
    NextRuns(s, Alert(alert));
    var r := Next(s, Alert(alert));
    hide Inv, NU.Settled, NU.Working, TC.Next, TC.Inv;
    var rest := PublishAll(r);
    RunOne(s, Alert(alert));
    RunSplits(s, [Alert(alert)], rest);
    actions := [Alert(alert)] + rest;
  }

  /** A stream that asks for the whole of a file that is all there sends all of it. */
  lemma StreamShown(s: State, stream: nat, path: string, size: nat) returns (actions: seq<Action>)
    requires Shown(s, path, size) && size > 0 && s.chunk > 0 && stream !in s.streams && Sending(s, stream)
    ensures var t := Run(s, actions);
            && t.core == s.core && stream in t.streams
            && t.streams[stream].path == path && t.streams[stream].request == Whole && t.streams[stream].pc.Ended?
            && InOrder(t.sent, stream, 0) && SentEnd(t.sent, stream, 0) == size
  {
    var look := Lookup(stream, path, Whole);
    NextInv(s, look);
    NextInOrder(s, look, stream);
    var r := Next(s, look);
    LookedUpShown(s, stream, path, size);
    NextInv(r, Subscribe(stream));
    NextInOrder(r, Subscribe(stream), stream);
    var t := Next(r, Subscribe(stream));
    SubscribedShown(r, stream, path, size);
    hide *;
    var rest := Serve(t, stream);
    RunTwo(s, look, Subscribe(stream));
    RunSplits(s, [look, Subscribe(stream)], rest);
    actions := [look, Subscribe(stream)] + rest;
    ServedAll(t, Run(t, rest), stream, size);
  }

  lemma LookedUpShown(s: State, stream: nat, path: string, size: nat)
    requires Shown(s, path, size) && stream !in s.streams
    ensures var r := Next(s, Lookup(stream, path, Whole));
            && stream in r.streams && r.streams[stream] == Opened(path, s.buffer.infos[path], Whole, size)
            && r.core == s.core && r.chunk == s.chunk && r.buffer.records == s.buffer.records
            && r.buffer.infos == s.buffer.infos
            && stream in r.buffer.told && r.buffer.told[stream] == FB.Told(0, false)
  {
    hide Inv;
  }

  lemma SubscribedShown(r: State, stream: nat, path: string, size: nat)
    requires Inv(r) && stream in r.streams && stream in r.buffer.told && r.buffer.told[stream] == FB.Told(0, false)
    requires path in r.buffer.infos && r.buffer.infos[path] in r.buffer.records
    requires r.streams[stream] == Opened(path, r.buffer.infos[path], Whole, size)
    requires r.buffer.records[r.buffer.infos[path]].avaliableBytes == size
    ensures var t := Next(r, Subscribe(stream));
            && stream in t.streams && stream in t.buffer.told && t.buffer.told[stream] == FB.Told(size, false)
            && t.streams[stream] == r.streams[stream].(pc := Waiting, live := t.streams[stream].live)
            && t.streams[stream].seekPos == 0 && t.streams[stream].readEnd == size
            && t.streams[stream].request == Whole && t.streams[stream].path == path
            && t.core == r.core && t.chunk == r.chunk
  {
    hide *;
    FB.RegisterTells(r.buffer, r.buffer.infos[path], stream);
    RegisteredTable(r.buffer, r.buffer.infos[path], stream);
    OpenedWhole(path, r.buffer.infos[path], size);
    SubscribeMoves(r, stream);
  }

  lemma OpenedWhole(path: string, record: nat, size: nat)
    ensures Opened(path, record, Whole, size) == Stream(path, record, Whole, size, 0, size, Found, 0, false)
  {
  }

  lemma SubscribeMoves(s: State, stream: nat)
    requires Inv(s) && stream in s.streams && s.streams[stream].pc.Found?
    ensures var w, t := s.streams[stream], Next(s, Subscribe(stream));
            && w.record in s.buffer.records && stream in s.buffer.told
            && t.buffer == FB.Registered(s.buffer, w.record, stream) && stream in t.streams
            && t.streams[stream] == w.(pc := Waiting, live := t.streams[stream].live)
            && t.core == s.core && t.chunk == s.chunk
  {
    StreamKnown(s, stream);
    hide Inv, FB.Registered, InTable;
  }

  lemma ServedAll(s: State, t: State, stream: nat, size: nat)
    requires OnlyStream(s, t, stream) && Sending(t, stream) && GotAsFar(t, stream, size)
    requires s.streams[stream].readEnd == size && s.streams[stream].request == Whole
    ensures t.core == s.core && stream in t.streams
    ensures t.streams[stream].path == s.streams[stream].path && t.streams[stream].request == Whole
    ensures t.streams[stream].pc.Ended? && InOrder(t.sent, stream, 0) && SentEnd(t.sent, stream, 0) == size
  {
    hide InOrder, SentEnd;
  }

  /** After anything at all, short of a stop: everything that was published or waits to be can be delivered. */
  lemma Quieten(s: State) returns (actions: seq<Action>)
    requires Running(s)
    ensures var t := Run(s, actions); Drained(t) && OnlyPublished(s, t) && t.core.outbox == []
  {
    hide *;
    RunningInv(s);
    var first := Drain(s);
    var r := Run(s, first);
    DrainsRunning(r);
    var rest := PublishAll(r);
    RunSplits(s, first, rest);
    actions := first + rest;
    QuietMeans(s, r, Run(r, rest));
  }

  lemma DrainsRunning(s: State)
    requires Running(s) && s.unit.delivered == s.unit.accepted
    ensures Drained(s)
  {
  }

  lemma QuietMeans(s: State, r: State, t: State)
    requires OnlyDelivered(s, r) && OnlyPublished(r, t)
    ensures OnlyPublished(s, t)
  {
  }

  /** The torrent is added, and its files are in the table. */
  lemma TorrentAdded(s: State, a: TC.Action, k: nat) returns (actions: seq<Action>)
    requires Drained(s) && s.core.outbox == [] && TC.Inv(s.core)
    requires a.AddTorrent? && a.id !in s.core.torrents && TC.Geometry(a.pieceLength, a.files) && k < |a.files|
    requires forall j :: k < j < |a.files| ==> a.files[j].path != a.files[k].path
    ensures var t, path := Run(s, actions), a.files[k].path;
            && Drained(t) && t.core.outbox == [] && t.chunk == s.chunk && TC.Inv(t.core)
            && a.id in t.core.torrents && t.core.torrents[a.id].files == a.files && !t.core.torrents[a.id].deleted
            && var table := FB.Fold(Events(t.unit.delivered));
            path in table && table[path] == FB.Entry(a.files[k].size, 0)
  {
    hide *;
    InvOf(s);
    TC.AddPublishes(s.core, a);
    TC.NextInv(s.core, a);
    actions := Handle(s, a);
    var core := TC.Next(s.core, a);
    EventsAppend(s.unit.delivered, core.outbox);
    AddedInTable(Events(s.unit.delivered), a.id, a.files, core.outbox, k);
    InvOf(Run(s, actions));
  }

  lemma InvOf(s: State)
    requires Drained(s)
    ensures Inv(s) && TC.Inv(s.core)
  {
  }

  /** The file is completed, and the table shows all of it. */
  lemma FileCompleted(s: State, id: nat, k: nat) returns (actions: seq<Action>)
    requires Drained(s) && s.core.outbox == [] && TC.Inv(s.core)
    requires id in s.core.torrents && !s.core.torrents[id].deleted && k < |s.core.torrents[id].files|
    requires var file, table := s.core.torrents[id].files[k], FB.Fold(Events(s.unit.delivered));
             file.path in table && table[file.path].fileSize == file.size
    ensures var t, file := Run(s, actions), s.core.torrents[id].files[k];
            Drained(t) && t.chunk == s.chunk && Shown(t, file.path, file.size)
  {
    hide *;
    InvOf(s);
    var file, alert := s.core.torrents[id].files[k], TC.FileComplete(id, k);
    HandlesIt(s, id);
    TC.CompletionPublishes(s.core, id, k);
    actions := Handle(s, alert);
    var core, t := TC.Next(s.core, alert), Run(s, actions);
    EventsAppend(s.unit.delivered, core.outbox);
    UpdatedInTable(Events(s.unit.delivered), file.path, file.size, core.outbox[0]);
    InvOf(t);
    ShownByFold(t, file.path, file.size);
  }

  lemma HandlesIt(s: State, id: nat)
    requires id in s.core.torrents && !s.core.torrents[id].deleted && s.core.outbox == []
    ensures TC.Handles(s.core, id)
  {
  }

  /**
   From every reachable state in which nobody has asked the notification unit to stop: when a torrent is added and one
   of its files is completed, there is a run in which a stream that asks for the whole file sends it from its first
   byte to its last. (Of two files with the same path only the last one is in the table.)
   */
  lemma CompletedFileIsServed(
      chunk: nat, maxNotifications: nat, drainAtExit: bool, actions: seq<Action>, a: TC.Action, k: nat)
    returns (more: seq<Action>, stream: nat)
    requires StopUnit !in actions && chunk > 0
    requires a.AddTorrent? && TC.Geometry(a.pieceLength, a.files) && k < |a.files|
    requires a.id !in Reached(chunk, maxNotifications, drainAtExit, actions).core.torrents
    requires forall j :: k < j < |a.files| ==> a.files[j].path != a.files[k].path
    ensures var t := Reached(chunk, maxNotifications, drainAtExit, actions + more);
            && stream in t.streams && t.streams[stream].path == a.files[k].path && t.streams[stream].request == Whole
            && t.streams[stream].pc.Ended? && InOrder(t.sent, stream, 0)
            && SentEnd(t.sent, stream, 0) == a.files[k].size && AllSent(t.sent, stream, a.files[k].size)
  {
    hide *;
    var file := a.files[k];
    PositiveSize(a.pieceLength, a.files, k);
    var start := Start(chunk, maxNotifications, drainAtExit);
    ReachedRuns(chunk, maxNotifications, drainAtExit, actions);
    ReachedIsRun(chunk, maxNotifications, drainAtExit, actions);
    var s := Run(start, actions);
    var quiet := Quieten(s);
    var s1 := Run(s, quiet);
    SameTorrents(s, s1);
    InvOf(s1);
    var adding := TorrentAdded(s1, a, k);
    var s2 := Run(s1, adding);
    var completing := FileCompleted(s2, a.id, k);
    var s3 := Run(s2, completing);
    InvOf(s2);
    InvOf(s3);
    stream := UnusedRecord(s3.streams.Keys);
    RunSplits(start, actions, quiet);
    RunSplits(start, actions + quiet, adding);
    RunSplits(start, actions + quiet + adding, completing);
    var soFar := actions + quiet + adding + completing;
    ReachedIsRun(chunk, maxNotifications, drainAtExit, soFar);
    ReachedSends(chunk, maxNotifications, drainAtExit, soFar, stream);
    var streaming := StreamShown(s3, stream, file.path, file.size);
    RunSplits(start, soFar, streaming);
    more := quiet + adding + completing + streaming;
    assert actions + more == soFar + streaming;
    ReachedIsRun(chunk, maxNotifications, drainAtExit, actions + more);
    InOrderSendsAll(Run(s3, streaming).sent, stream, file.size);
  }

  lemma PositiveSize(pieceLength: nat, files: seq<TC.Spec>, k: nat)
    requires TC.Geometry(pieceLength, files) && k < |files|
    ensures files[k].size > 0
  {
  }

  lemma SameTorrents(s: State, t: State)
    requires OnlyPublished(s, t)
    ensures t.core.torrents == s.core.torrents && t.chunk == s.chunk
  {
  }
}
