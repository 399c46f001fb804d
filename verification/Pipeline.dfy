/**
 The whole availability pipeline as one transition system: the torrent core handles alerts and sends
 events, the notification unit carries them, the buffer applies them, and any number of streams look a
 file up, subscribe, wait and send. Every action is one step that the locks of the source make atomic, so a
 sequence of actions is an interleaving of all the threads.
 */
module Pipeline {
  import TC = TorrentCore
  import TO = TorrentOrder
  import NU = NotificationUnit
  import FB = FileInfoBuffer
  import CS = ChunkedStream

  /** What a client asks for: the whole file, or a part of it whose bounds may be left open. */
  datatype Request = Whole | Partial(start: FB.Option<nat>, end: FB.Option<int>)

  datatype StreamPc = Found | Waiting | Ready | Ended

  /**
   `size` is the size that the table showed at the look-up. When a wait ends well, `told` is the number of bytes that
   the stream had been told of. A stream is `live` when its record was still in the table as it subscribed.
   */
  datatype Stream = Stream(
    path: string, record: nat, request: Request, size: int, seekPos: int, readEnd: int, pc: StreamPc, told: int,
    live: bool)

  /** The stream has sent the bytes from..to of the file at path. */
  datatype Sent = Sent(stream: nat, path: string, request: Request, size: int, from: int, to: int, told: int)

  datatype State = State(
    chunk: nat,
    core: TC.Core,
    published: seq<TC.Message>,     // history: what the torrent core has sent, also what the unit refused
    unit: NU.Unit<TC.Message>,
    buffer: FB.Buffer<nat, nat>,
    streams: map<nat, Stream>,
    sent: seq<Sent>)                // history

  datatype Action =
    | Alert(alert: TC.Action)
    | Publish
    | StopUnit
    | WorkUnit(unused: nat)
    | Lookup(stream: nat, path: string, request: Request)
    | Subscribe(stream: nat)
    | Arrived(stream: nat)
    | Send(stream: nat, bytes: nat, complete: bool)
    | GiveUp(stream: nat)

  function Start(chunk: nat, maxNotifications: nat, drainAtExit: bool): (r: State)
    ensures Inv(r)
  {
    State(chunk, TC.Core(map[], []), [], NU.Start(maxNotifications, drainAtExit),
          FB.Buffer(map[], map[], map[]), map[], [])
  }

  /** The next message of the torrent core's outbox is handed to the notification unit. */
  function PublishNext(s: State): State
    requires s.core.outbox != []
  {
    var m := s.core.outbox[0];
    s.(core := s.core.(outbox := s.core.outbox[1..]), published := s.published + [m], unit := NU.Add(s.unit, m))
  }

  /** The worker of the notification unit; a delivery applies the notification to the buffer. */
  function Work(s: State, unused: nat): State
    requires FB.Consistent(s.buffer)
  {
    var u := s.unit;
    if u.pc.AtNotify? && u.notifications != [] then
      s.(unit := NU.Work(u), buffer := FB.Apply(s.buffer, u.notifications[0].event, unused))
    else
      s.(unit := NU.Work(u))
  }

  function Move(s: State, stream: nat, w: Stream): State {
    s.(streams := s.streams[stream := w])
  }

  function ReadStart(request: Request): nat {
    if request.Partial? && request.start.Some? then request.start.value else 0
  }

  function ReadEnd(request: Request, size: int): int {
    if request.Partial? && request.end.Some? then request.end.value else size
  }

  /** A stream that has looked its file up; it has been told nothing yet. */
  function Opened(path: string, record: nat, request: Request, size: int): Stream {
    Stream(path, record, request, size, ReadStart(request), ReadEnd(request, size), Found, 0, false)
  }

  predicate InTable(b: FB.Buffer<nat, nat>, w: Stream) {
    w.path in b.infos && b.infos[w.path] == w.record
  }

  /** The table with a new stream that has been told nothing. */
  function Entered(b: FB.Buffer<nat, nat>, stream: nat): FB.Buffer<nat, nat> {
    b.(told := b.told[stream := FB.Told(0, false)])
  }

  /** A stream that subscribes starts to wait. */
  function Joined(b: FB.Buffer<nat, nat>, w: Stream): Stream {
    w.(pc := Waiting, live := InTable(b, w))
  }

  /** One chunk goes out, and the stream takes the next round of its loop. */
  function SendChunk(s: State, stream: nat, bytes: nat, complete: bool): State
    requires stream in s.streams
  {
    var w := s.streams[stream];
    var next := match CS.AfterChunk(w.seekPos, s.chunk, w.readEnd, bytes, complete && bytes > 0)
      case Continue(seekPos) => w.(seekPos := seekPos, pc := Waiting)
      case Finish(ok) => w.(pc := Ended);
    Move(s, stream, next)
    .(sent := s.sent + [Sent(stream, w.path, w.request, w.size, w.seekPos, w.seekPos + bytes, w.told)])
  }

  /** An action that is not possible in a state leaves it as it is. */
  ghost function Next(s: State, a: Action): State
    requires Inv(s)
  {
    match a
    case Alert(alert) => s.(core := TC.Next(s.core, alert))
    case Publish => if s.core.outbox == [] then s else PublishNext(s)
    case StopUnit => s.(unit := NU.Stop(s.unit))
    case WorkUnit(unused) =>
      if unused in s.buffer.records then s else Work(s, unused)
    case Lookup(stream, path, request) =>
      if stream in s.streams || path !in s.buffer.infos then s
      else
        var record := s.buffer.infos[path];
        Move(s, stream, Opened(path, record, request, s.buffer.records[record].fileSize))
        .(buffer := Entered(s.buffer, stream))
    case Subscribe(stream) =>
      if stream !in s.streams || !s.streams[stream].pc.Found? then s
      else
        var w := s.streams[stream];
        Move(s, stream, Joined(s.buffer, w)).(buffer := FB.Registered(s.buffer, w.record, stream))
    case Arrived(stream) =>
      if stream !in s.streams || !s.streams[stream].pc.Waiting? then s
      else
        var w := s.streams[stream];
        if s.buffer.told[stream].breaked
           || CS.BytesWait(w.seekPos, s.chunk, w.readEnd) > s.buffer.told[stream].avaliableBytes then s
        else Move(s, stream, w.(pc := Ready, told := s.buffer.told[stream].avaliableBytes))
    case Send(stream, bytes, complete) =>
      if stream !in s.streams || !s.streams[stream].pc.Ready? || bytes > s.chunk then s
      else SendChunk(s, stream, bytes, complete)
    case GiveUp(stream) =>
      if stream !in s.streams || s.streams[stream].pc.Found? then s
      else Move(s, stream, s.streams[stream].(pc := Ended))
  }

  // ----- The invariant -----

  /** The number was delivered as an announcement for the path; nobody has to announce that there are no bytes. */
  ghost predicate Announced(delivered: seq<TC.Message>, path: string, bytes: int) {
    bytes <= 0 || exists m :: m in delivered && m.event == FB.FileUpdate(path, bytes)
  }

  /** The path was added with this size. */
  ghost predicate SizeKnown(delivered: seq<TC.Message>, path: string, size: int) {
    exists m :: m in delivered && m.event == FB.FileAdd(path, size)
  }

  function Events(messages: seq<TC.Message>): seq<FB.Event> {
    seq(|messages|, i requires 0 <= i < |messages| => messages[i].event)
  }

  /** The last event about a path. */
  function Latest(events: seq<FB.Event>, path: string): FB.Option<FB.Event> {
    if events == [] then FB.None
    else if events[|events| - 1].path == path then FB.Some(events[|events| - 1])
    else Latest(events[..|events| - 1], path)
  }

  ghost predicate UnitInv(u: NU.Unit<TC.Message>, published: seq<TC.Message>) {
    NU.Conserved(u) && forall m :: m in u.accepted ==> m in published
  }

  ghost predicate RecordInv(record: FB.Record<nat>, delivered: seq<TC.Message>) {
    && Announced(delivered, record.filePath, record.avaliableBytes)
    && SizeKnown(delivered, record.filePath, record.fileSize)
  }

  ghost predicate BufferInv(b: FB.Buffer<nat, nat>, delivered: seq<TC.Message>) {
    && FB.Consistent(b)
    && forall r :: r in b.records ==> RecordInv(b.records[r], delivered)
  }

  /** A stream waits on the record of its path, and what it was told was announced for that path. */
  ghost predicate StreamInv(b: FB.Buffer<nat, nat>, stream: nat, w: Stream, chunk: nat, delivered: seq<TC.Message>) {
    && w.record in b.records && b.records[w.record].filePath == w.path && stream in b.told
    && w.readEnd == ReadEnd(w.request, w.size) && SizeKnown(delivered, w.path, w.size)
    && Announced(delivered, w.path, b.told[stream].avaliableBytes)
    && (w.pc.Ready? ==> Allowed(w, chunk, delivered))
    && (if w.pc.Found? then b.told[stream] == FB.Told(0, false)
        else stream in b.records[w.record].subscribers && (w.live ==> UpToDate(b, stream, w, delivered)))
  }

  ghost predicate Allowed(w: Stream, chunk: nat, delivered: seq<TC.Message>) {
    CS.BytesWait(w.seekPos, chunk, w.readEnd) <= w.told && Announced(delivered, w.path, w.told)
  }

  /**
   As long as its record is in the table a stream is not broken and knows the latest number, unless the path has been
   added anew since; after that it is broken.
   */
  ghost predicate UpToDate(b: FB.Buffer<nat, nat>, stream: nat, w: Stream, delivered: seq<TC.Message>)
    requires stream in b.told
  {
    if InTable(b, w) then
      && !b.told[stream].breaked
      && forall n :: Latest(Events(delivered), w.path) == FB.Some(FB.FileUpdate(w.path, n)) ==>
           b.told[stream].avaliableBytes == n
    else b.told[stream].breaked
  }

  ghost predicate SubscribersInv(b: FB.Buffer<nat, nat>, streams: map<nat, Stream>) {
    forall r, i :: r in b.records && 0 <= i < |b.records[r].subscribers| ==>
      Subscribed(streams, b.records[r].subscribers[i], r)
  }

  predicate Subscribed(streams: map<nat, Stream>, stream: nat, r: nat) {
    stream in streams && streams[stream].record == r && !streams[stream].pc.Found?
  }

  ghost predicate StreamsInv(b: FB.Buffer<nat, nat>, streams: map<nat, Stream>, chunk: nat,
                              delivered: seq<TC.Message>) {
    && (forall w :: w in streams ==> StreamInv(b, w, streams[w], chunk, delivered))
    && SubscribersInv(b, streams)
  }

  ghost predicate SentInv(sent: seq<Sent>, delivered: seq<TC.Message>) {
    forall x :: x in sent ==>
      && SizeKnown(delivered, x.path, x.size)
      && (x.from < x.to ==>
           CS.Min(x.to, ReadEnd(x.request, x.size)) <= x.told && Announced(delivered, x.path, x.told))
  }

  ghost predicate Inv(s: State) {
    && TC.Inv(s.core)
    && UnitInv(s.unit, s.published)
    && BufferInv(s.buffer, s.unit.delivered)
    && FB.View(s.buffer) == FB.Fold(Events(s.unit.delivered))
    && StreamsInv(s.buffer, s.streams, s.chunk, s.unit.delivered)
    && SentInv(s.sent, s.unit.delivered)
  }

  // ----- Publishing -----

  lemma UnitAdd(u: NU.Unit<TC.Message>, published: seq<TC.Message>, m: TC.Message)
    requires UnitInv(u, published)
    ensures UnitInv(NU.Add(u, m), published + [m]) && NU.Add(u, m).delivered == u.delivered
  {
    NU.NextConserves(u, NU.Adds(m));
  }

  lemma PublishStep(s: State)
    requires Inv(s) && s.core.outbox != []
    ensures Inv(PublishNext(s))
  {
    assert TC.Inv(PublishNext(s).core);
    hide TC.Inv, UnitInv, BufferInv, StreamsInv, SentInv, FB.View, FB.Fold;
    UnitAdd(s.unit, s.published, s.core.outbox[0]);
  }

  // ----- The notification unit and the buffer -----

  /** What was announced stays announced, so everything that rests on it survives. */
  lemma BufferGrows(b: FB.Buffer<nat, nat>, delivered: seq<TC.Message>, m: TC.Message)
    requires BufferInv(b, delivered)
    ensures BufferInv(b, delivered + [m])
  {
    forall r | r in b.records ensures RecordInv(b.records[r], delivered + [m]) {
      assert RecordInv(b.records[r], delivered);
      HistoryGrows(delivered, m, b.records[r].filePath, b.records[r].avaliableBytes, b.records[r].fileSize);
    }
  }

  lemma HistoryGrows(delivered: seq<TC.Message>, m: TC.Message, path: string, bytes: int, size: int)
    ensures Announced(delivered, path, bytes) ==> Announced(delivered + [m], path, bytes)
    ensures SizeKnown(delivered, path, size) ==> SizeKnown(delivered + [m], path, size)
  {
  }

  lemma SentGrows(sent: seq<Sent>, delivered: seq<TC.Message>, m: TC.Message)
    requires SentInv(sent, delivered)
    ensures SentInv(sent, delivered + [m])
  {
    hide CS.Min, Announced, SizeKnown;
    forall x | x in sent
      ensures SizeKnown(delivered + [m], x.path, x.size)
      ensures Announced(delivered, x.path, x.told) ==> Announced(delivered + [m], x.path, x.told)
    {
      HistoryGrows(delivered, m, x.path, x.told, x.size);
    }
  }

  /** The event was the last one to be delivered. */
  ghost predicate LastIs(delivered: seq<TC.Message>, e: FB.Event) {
    delivered != [] && delivered[|delivered| - 1].event == e
  }

  lemma ApplyBuffer(b: FB.Buffer<nat, nat>, e: FB.Event, unused: nat, delivered: seq<TC.Message>)
    requires BufferInv(b, delivered) && unused !in b.records && LastIs(delivered, e)
    ensures BufferInv(FB.Apply(b, e, unused), delivered)
  {
    assert delivered[|delivered| - 1] in delivered;
    hide FB.View, FB.FoldStep;
    FB.ApplyFolds(b, e, unused);
  }

  lemma LatestMore(delivered: seq<TC.Message>, m: TC.Message, path: string)
    ensures Latest(Events(delivered + [m]), path)
         == if m.event.path == path then FB.Some(m.event) else Latest(Events(delivered), path)
  {
    EventsMore(delivered, m);
    assert (Events(delivered) + [m.event])[..|delivered|] == Events(delivered);
  }

  /** What an event does to the records. */
  lemma ApplyRecords(b: FB.Buffer<nat, nat>, e: FB.Event, unused: nat, r: nat)
    requires FB.Consistent(b) && unused !in b.records && r in b.records
    ensures var c := FB.Apply(b, e, unused);
            && r in c.records && c.records[r].filePath == b.records[r].filePath
            && c.records[r].subscribers == b.records[r].subscribers
            && (forall x :: x in c.records && x !in b.records ==> x == unused && c.records[x].subscribers == [])
            && (forall p :: p != e.path ==>
                 (p in c.infos <==> p in b.infos) && (p in b.infos ==> c.infos[p] == b.infos[p]))
            && (e.path in c.infos <==> if e.FileAdd? then true else if e.FileRemove? then false else e.path in b.infos)
            && (e.path in c.infos && e.path in b.infos ==> c.infos[e.path] == b.infos[e.path])
            && (e.path in c.infos && e.path !in b.infos ==> c.infos[e.path] == unused)
  {
  }

  /** What an event tells one stream. */
  lemma ApplyTold(b: FB.Buffer<nat, nat>, e: FB.Event, unused: nat, s: nat)
    requires FB.Consistent(b) && unused !in b.records && s in b.told
    ensures var c := FB.Apply(b, e, unused);
            var reached := e.path in b.infos && s in b.records[b.infos[e.path]].subscribers;
            && s in c.told
            && c.told[s].avaliableBytes == (if e.FileUpdate? && reached then e.bytes else b.told[s].avaliableBytes)
            && (c.told[s].breaked <==> b.told[s].breaked || (e.FileRemove? && reached))
  {
    match e
    case FileAdd(path, fileSize) =>
    case FileUpdate(path, bytes) => FB.UpdateTells(b, path, bytes, s);
    case FileRemove(path) => FB.RemoveBreaks(b, path, s);
  }

  /** A stream is reached by the events about its own path only, and then if its record is in the table. */
  lemma ReachedIff(b: FB.Buffer<nat, nat>, streams: map<nat, Stream>, path: string, s: nat)
    requires FB.Consistent(b) && SubscribersInv(b, streams) && s in streams
    requires streams[s].record in b.records && b.records[streams[s].record].filePath == streams[s].path
    requires !streams[s].pc.Found? ==> s in b.records[streams[s].record].subscribers
    ensures path in b.infos && s in b.records[b.infos[path]].subscribers <==>
      !streams[s].pc.Found? && streams[s].path == path && InTable(b, streams[s])
  {
    if path in b.infos && s in b.records[b.infos[path]].subscribers {
      var r := b.infos[path];
      var i :| 0 <= i < |b.records[r].subscribers| && b.records[r].subscribers[i] == s;
      assert Subscribed(streams, b.records[r].subscribers[i], r);
    }
  }

  lemma ApplyStream(b: FB.Buffer<nat, nat>, unused: nat, streams: map<nat, Stream>, s: nat, chunk: nat,
                    delivered: seq<TC.Message>, m: TC.Message)
    requires FB.Consistent(b) && SubscribersInv(b, streams) && unused !in b.records
    requires s in streams && StreamInv(b, s, streams[s], chunk, delivered)
    ensures StreamInv(FB.Apply(b, m.event, unused), s, streams[s], chunk, delivered + [m])
  {
    var w, e := streams[s], m.event;
    assert m in delivered + [m];
    ReachedIff(b, streams, e.path, s);
    ApplyRecords(b, e, unused, w.record);
    ApplyTold(b, e, unused, s);
    LatestMore(delivered, m, w.path);
    HistoryGrows(delivered, m, w.path, b.told[s].avaliableBytes, w.size);
    HistoryGrows(delivered, m, w.path, w.told, w.size);
    hide FB.Apply, SubscribersInv, Latest, SizeKnown, CS.BytesWait, ReadEnd, Events;
  }

  lemma ApplySubscribers(b: FB.Buffer<nat, nat>, e: FB.Event, unused: nat, streams: map<nat, Stream>)
    requires FB.Consistent(b) && SubscribersInv(b, streams) && unused !in b.records
    ensures SubscribersInv(FB.Apply(b, e, unused), streams)
  {
    var c := FB.Apply(b, e, unused);
    hide Subscribed;
    forall r, i | r in c.records && 0 <= i < |c.records[r].subscribers|
      ensures Subscribed(streams, c.records[r].subscribers[i], r)
    {
      if r in b.records {
        ApplyRecords(b, e, unused, r);
      }
    }
  }

  lemma ApplyStreams(b: FB.Buffer<nat, nat>, unused: nat, streams: map<nat, Stream>, chunk: nat,
                     delivered: seq<TC.Message>, m: TC.Message)
    requires FB.Consistent(b) && unused !in b.records && StreamsInv(b, streams, chunk, delivered)
    ensures StreamsInv(FB.Apply(b, m.event, unused), streams, chunk, delivered + [m])
  {
    hide StreamInv, SubscribersInv, FB.Apply, FB.Consistent;
    forall s | s in streams ensures StreamInv(FB.Apply(b, m.event, unused), s, streams[s], chunk, delivered + [m]) {
      ApplyStream(b, unused, streams, s, chunk, delivered, m);
    }
    ApplySubscribers(b, m.event, unused, streams);
  }

  lemma EventsMore(delivered: seq<TC.Message>, m: TC.Message)
    ensures Events(delivered + [m]) == Events(delivered) + [m.event]
    ensures FB.Fold(Events(delivered + [m])) == FB.FoldStep(FB.Fold(Events(delivered)), m.event)
  {
    hide FB.FoldStep;
    assert (Events(delivered) + [m.event])[..|delivered|] == Events(delivered);
  }

  lemma NextDelivery(u: NU.Unit<TC.Message>, published: seq<TC.Message>)
    requires UnitInv(u, published) && u.pc.AtNotify? && u.notifications != []
    ensures u.notifications[0] in published && NU.Work(u).delivered == u.delivered + [u.notifications[0]]
  {
    assert u.notifications[0] in u.notifications && u.notifications[0] in u.accepted;
  }

  /** A delivered message was published, and it extends the fold that the buffer shows. */
  lemma DeliverStep(s: State, unused: nat)
    requires Inv(s) && unused !in s.buffer.records && s.unit.pc.AtNotify? && s.unit.notifications != []
    ensures s.unit.notifications[0] in s.published
    ensures var b, delivered := FB.Apply(s.buffer, s.unit.notifications[0].event, unused), NU.Work(s.unit).delivered;
            && BufferInv(b, delivered) && StreamsInv(b, s.streams, s.chunk, delivered) && SentInv(s.sent, delivered)
            && FB.View(b) == FB.Fold(Events(delivered))
  {
    var u, m := s.unit, s.unit.notifications[0];
    var delivered := u.delivered + [m];
    NextDelivery(u, s.published);
    hide TC.Inv, UnitInv, StreamsInv, SentInv, FB.FoldStep, FB.Fold, FB.View, FB.Apply, Events, RecordInv, NU.Work;
    BufferGrows(s.buffer, u.delivered, m);
    SentGrows(s.sent, u.delivered, m);
    ApplyBuffer(s.buffer, m.event, unused, delivered);
    ApplyStreams(s.buffer, unused, s.streams, s.chunk, u.delivered, m);
    FB.ApplyFolds(s.buffer, m.event, unused);
    EventsMore(u.delivered, m);
  }

  lemma UnitWorks(s: State)
    requires Inv(s)
    ensures UnitInv(NU.Work(s.unit), s.published)
    ensures !(s.unit.pc.AtNotify? && s.unit.notifications != []) ==> NU.Work(s.unit).delivered == s.unit.delivered
  {
    hide TC.Inv, BufferInv, StreamsInv, SentInv, FB.View, FB.Fold, NU.Conserved;
    NU.NextConserves(s.unit, NU.Works);
  }

  lemma WorkStep(s: State, unused: nat)
    requires Inv(s) && unused !in s.buffer.records
    ensures Inv(Work(s, unused))
  {
    UnitWorks(s);
    hide TC.Inv, UnitInv, BufferInv, StreamsInv, SentInv, FB.View, FB.Apply, FB.Fold, FB.Consistent, NU.Work;
    if s.unit.pc.AtNotify? && s.unit.notifications != [] {
      DeliverStep(s, unused);
    }
  }

  // ----- The streams -----

  /** What the last event about a path says is what the table shows for it. */
  lemma {:induction false} TableShowsLatest(events: seq<FB.Event>, path: string)
    ensures var latest, table := Latest(events, path), FB.Fold(events);
            && (latest == FB.None || latest.value.FileRemove? ==> path !in table)
            && (latest.Some? && latest.value.FileAdd? ==>
                 path in table && table[path] == FB.Entry(latest.value.fileSize, 0))
            && (latest.Some? && latest.value.FileUpdate? && path in table ==>
                 table[path].avaliableBytes == latest.value.bytes)
            && (latest.Some? ==> latest.value.path == path)
  {
    if events != [] {
      TableShowsLatest(events[..|events| - 1], path);
    }
  }

  lemma MoveStep(s: State, stream: nat, w: Stream)
    requires Inv(s) && StreamInv(s.buffer, stream, w, s.chunk, s.unit.delivered)
    requires stream in s.streams ==>
               s.streams[stream].record == w.record && (w.pc.Found? ==> s.streams[stream].pc.Found?)
    ensures Inv(Move(s, stream, w))
  {
    hide TC.Inv, UnitInv, BufferInv, SentInv, StreamInv, FB.View, FB.Fold;
    var streams := s.streams[stream := w];
    forall x | x in streams ensures StreamInv(s.buffer, x, streams[x], s.chunk, s.unit.delivered) {
      assert x != stream ==> StreamInv(s.buffer, x, s.streams[x], s.chunk, s.unit.delivered);
    }
    SubscribersMove(s.buffer, s.streams, stream, w);
  }

  lemma SubscribersMove(b: FB.Buffer<nat, nat>, streams: map<nat, Stream>, stream: nat, w: Stream)
    requires SubscribersInv(b, streams)
    requires stream in streams ==> streams[stream].record == w.record && (w.pc.Found? ==> streams[stream].pc.Found?)
    ensures SubscribersInv(b, streams[stream := w])
  {
    forall r, i | r in b.records && 0 <= i < |b.records[r].subscribers|
      ensures Subscribed(streams[stream := w], b.records[r].subscribers[i], r)
    {
      assert Subscribed(streams, b.records[r].subscribers[i], r);
    }
  }

  /** A new stream starts on the record that the path leads to, and has been told nothing. */
  lemma LookupStep(s: State, stream: nat, path: string, request: Request)
    requires Inv(s) && stream !in s.streams && path in s.buffer.infos
    ensures s.buffer.infos[path] in s.buffer.records
    ensures var record := s.buffer.infos[path];
            var w := Opened(path, record, request, s.buffer.records[record].fileSize);
            Inv(Move(s, stream, w).(buffer := Entered(s.buffer, stream)))
  {
    hide TC.Inv, UnitInv, SentInv, Announced, Allowed, SizeKnown, Latest, ReadStart, ReadEnd;
    var b, record := Entered(s.buffer, stream), s.buffer.infos[path];
    assert RecordInv(s.buffer.records[record], s.unit.delivered);
    NothingAnnounced(s.unit.delivered, path);
    assert FB.View(b) == FB.View(s.buffer);
    forall x | x in s.streams ensures StreamInv(b, x, s.streams[x], s.chunk, s.unit.delivered) {
      assert StreamInv(s.buffer, x, s.streams[x], s.chunk, s.unit.delivered);
    }
    MoveStep(s.(buffer := b), stream, Opened(path, record, request, s.buffer.records[record].fileSize));
  }

  lemma NothingAnnounced(delivered: seq<TC.Message>, path: string)
    ensures Announced(delivered, path, 0)
  {
  }

  /** A new subscriber is told the latest number, if its record is still in the table. */
  lemma JoinedStream(s: State, stream: nat)
    requires Inv(s) && stream in s.streams && s.streams[stream].pc.Found?
    ensures s.streams[stream].record in s.buffer.records && stream in s.buffer.told
    ensures var w := s.streams[stream];
            StreamInv(FB.Registered(s.buffer, w.record, stream), stream, Joined(s.buffer, w), s.chunk, s.unit.delivered)
  {
    hide TC.Inv, UnitInv, SentInv, SizeKnown, Latest, ReadEnd, CS.BytesWait, FB.Fold, SubscribersInv, FB.Registered,
        Events;
    var w := s.streams[stream];
    assert StreamInv(s.buffer, stream, w, s.chunk, s.unit.delivered);
    assert RecordInv(s.buffer.records[w.record], s.unit.delivered);
    FB.RegisterTells(s.buffer, w.record, stream);
    RegisteredTable(s.buffer, w.record, stream);
    TableShowsLatest(Events(s.unit.delivered), w.path);
  }

  lemma RegisteredTable(b: FB.Buffer<nat, nat>, r: nat, s: nat)
    requires r in b.records && s in b.told
    ensures var c := FB.Registered(b, r, s);
            && c.infos == b.infos && c.records.Keys == b.records.Keys && c.told.Keys == b.told.Keys
            && c.records[r].filePath == b.records[r].filePath
            && c.records[r].avaliableBytes == b.records[r].avaliableBytes
            && c.records[r].fileSize == b.records[r].fileSize
            && c.records[r].subscribers == b.records[r].subscribers + [s]
  {
  }

  lemma OthersStay(b: FB.Buffer<nat, nat>, r: nat, s: nat, x: nat, w: Stream, chunk: nat, delivered: seq<TC.Message>)
    requires r in b.records && s in b.told && x != s && StreamInv(b, x, w, chunk, delivered)
    ensures StreamInv(FB.Registered(b, r, s), x, w, chunk, delivered)
  {
    hide SizeKnown, Latest, ReadEnd, CS.BytesWait, FB.Registered, Announced, Allowed;
    FB.RegisterTells(b, r, s);
    RegisteredTable(b, r, s);
  }

  lemma JoinedSubscribers(b: FB.Buffer<nat, nat>, streams: map<nat, Stream>, stream: nat, w: Stream)
    requires SubscribersInv(b, streams) && stream in streams && w.record == streams[stream].record && !w.pc.Found?
    requires w.record in b.records && stream in b.told
    ensures SubscribersInv(FB.Registered(b, w.record, stream), streams[stream := w])
  {
    SubscribersMove(b, streams, stream, w);
    var c, after := FB.Registered(b, w.record, stream), streams[stream := w];
    hide Subscribed;
    assert Subscribed(after, stream, w.record) by { IsSubscribed(after, stream, w.record); }
    forall r, i | r in c.records && 0 <= i < |c.records[r].subscribers|
      ensures Subscribed(after, c.records[r].subscribers[i], r)
    {
      if i < |b.records[r].subscribers| {
        assert Subscribed(after, b.records[r].subscribers[i], r);
      }
    }
  }

  lemma IsSubscribed(streams: map<nat, Stream>, stream: nat, r: nat)
    requires stream in streams && streams[stream].record == r && !streams[stream].pc.Found?
    ensures Subscribed(streams, stream, r)
  {
  }

  lemma RegisteredBuffer(b: FB.Buffer<nat, nat>, r: nat, s: nat, delivered: seq<TC.Message>)
    requires BufferInv(b, delivered) && r in b.records && s in b.told
    ensures BufferInv(FB.Registered(b, r, s), delivered) && FB.View(FB.Registered(b, r, s)) == FB.View(b)
  {
    hide FB.View, Announced, SizeKnown;
    FB.RegisterKeepsView(b, r, s);
    var c := FB.Registered(b, r, s);
    forall x | x in c.records ensures RecordInv(c.records[x], delivered) {
      assert RecordInv(b.records[x], delivered);
    }
  }

  lemma SubscribeStep(s: State, stream: nat)
    requires Inv(s) && stream in s.streams && s.streams[stream].pc.Found?
    ensures var w := s.streams[stream];
            && w.record in s.buffer.records && stream in s.buffer.told
            && Inv(Move(s, stream, Joined(s.buffer, w)).(buffer := FB.Registered(s.buffer, w.record, stream)))
  {
    hide TC.Inv, UnitInv, BufferInv, SentInv, StreamInv, SubscribersInv, FB.View, FB.Fold, FB.Registered, FB.Consistent;
    var w := s.streams[stream];
    JoinedStream(s, stream);
    RegisteredBuffer(s.buffer, w.record, stream, s.unit.delivered);
    JoinedSubscribers(s.buffer, s.streams, stream, Joined(s.buffer, w));
    var b := FB.Registered(s.buffer, w.record, stream);
    var streams := s.streams[stream := Joined(s.buffer, w)];
    forall x | x in streams ensures StreamInv(b, x, streams[x], s.chunk, s.unit.delivered) {
      if x != stream {
        OthersStay(s.buffer, w.record, stream, x, s.streams[x], s.chunk, s.unit.delivered);
      }
    }
  }

  /** A wait that ends well has been told enough for the chunk. */
  lemma ArrivedStep(s: State, stream: nat)
    requires Inv(s) && stream in s.streams && stream in s.buffer.told && s.streams[stream].pc.Waiting?
    requires
      var w := s.streams[stream];
      CS.BytesWait(w.seekPos, s.chunk, w.readEnd) <= s.buffer.told[stream].avaliableBytes
    ensures Inv(Move(s, stream, s.streams[stream].(pc := Ready, told := s.buffer.told[stream].avaliableBytes)))
  {
    hide TC.Inv, UnitInv, BufferInv, SentInv, Announced, CS.BytesWait, SizeKnown, Latest, ReadEnd;
    assert StreamInv(s.buffer, stream, s.streams[stream], s.chunk, s.unit.delivered);
    MoveStep(s, stream, s.streams[stream].(pc := Ready, told := s.buffer.told[stream].avaliableBytes));
  }

  lemma SendStep(s: State, stream: nat, bytes: nat, complete: bool)
    requires Inv(s) && stream in s.streams && s.streams[stream].pc.Ready? && bytes <= s.chunk
    ensures Inv(SendChunk(s, stream, bytes, complete))
  {
    hide TC.Inv, UnitInv, BufferInv, SubscribersInv, FB.View, FB.Fold, SizeKnown, Announced, Latest, ReadEnd;
    var w := s.streams[stream];
    assert StreamInv(s.buffer, stream, w, s.chunk, s.unit.delivered);
    var x := Sent(stream, w.path, w.request, w.size, w.seekPos, w.seekPos + bytes, w.told);
    assert CS.Min(x.to, ReadEnd(x.request, x.size)) <= x.told;
    assert SentInv(s.sent + [x], s.unit.delivered);
    var t := s.(sent := s.sent + [x]);
    MoveStep(t, stream, SendChunk(s, stream, bytes, complete).streams[stream]);
  }

  lemma EndStep(s: State, stream: nat)
    requires Inv(s) && stream in s.streams && !s.streams[stream].pc.Found?
    ensures Inv(Move(s, stream, s.streams[stream].(pc := Ended)))
  {
    hide TC.Inv, UnitInv, BufferInv, SentInv, Announced, CS.BytesWait, SizeKnown, Latest, ReadEnd;
    assert StreamInv(s.buffer, stream, s.streams[stream], s.chunk, s.unit.delivered);
    MoveStep(s, stream, s.streams[stream].(pc := Ended));
  }

  // ----- Every interleaving -----

  lemma StreamMeans(s: State, stream: nat)
    requires Inv(s) && stream in s.streams
    ensures s.streams[stream].record in s.buffer.records && stream in s.buffer.told
  {
    assert StreamInv(s.buffer, stream, s.streams[stream], s.chunk, s.unit.delivered);
  }

  lemma AlertStep(s: State, alert: TC.Action)
    requires Inv(s)
    ensures Inv(Next(s, Alert(alert)))
  {
    hide TC.Next, TC.Inv, UnitInv, BufferInv, StreamsInv, SentInv, FB.View, FB.Fold;
    TC.NextInv(s.core, alert);
  }

  lemma StopStep(s: State)
    requires Inv(s)
    ensures Inv(Next(s, StopUnit))
  {
    hide TC.Inv, BufferInv, StreamsInv, SentInv, FB.View, FB.Fold;
    NU.NextConserves(s.unit, NU.Stops);
  }

  lemma NextInv(s: State, a: Action)
    requires Inv(s)
    ensures Inv(Next(s, a))
  {
    match a
    case Alert(alert) => hide *; AlertStep(s, alert);
    case Publish =>
      hide Inv;
      if s.core.outbox != [] {
        PublishStep(s);
      }
    case StopUnit => hide *; StopStep(s);
    case WorkUnit(unused) =>
      hide Inv, Work;
      if unused !in s.buffer.records {
        WorkStep(s, unused);
      }
    case Lookup(stream, path, request) =>
      hide Inv, Move, Entered, Opened;
      if stream !in s.streams && path in s.buffer.infos {
        LookupStep(s, stream, path, request);
      }
    case Subscribe(stream) =>
      hide Inv, FB.Registered, Move, Joined;
      if stream in s.streams && s.streams[stream].pc.Found? {
        SubscribeStep(s, stream);
      }
    case Arrived(stream) =>
      hide Inv, CS.BytesWait, Move;
      if stream in s.streams && s.streams[stream].pc.Waiting? {
        StreamMeans(s, stream);
        var w := s.streams[stream];
        if CS.BytesWait(w.seekPos, s.chunk, w.readEnd) <= s.buffer.told[stream].avaliableBytes {
          ArrivedStep(s, stream);
        }
      }
    case Send(stream, bytes, complete) =>
      hide Inv, SendChunk;
      if stream in s.streams && s.streams[stream].pc.Ready? && bytes <= s.chunk {
        SendStep(s, stream, bytes, complete);
      }
    case GiveUp(stream) =>
      hide Inv, Move;
      if stream in s.streams && !s.streams[stream].pc.Found? {
        EndStep(s, stream);
      }
  }

  ghost function Run(s: State, actions: seq<Action>): (r: State)
    requires Inv(s)
    ensures Inv(r)
  {
    if actions == [] then s
    else
      var before := Run(s, actions[..|actions| - 1]);
      NextInv(before, actions[|actions| - 1]);
      Next(before, actions[|actions| - 1])
  }

  /** The state after an interleaving, from the start of the program. */
  ghost function Reached(chunk: nat, maxNotifications: nat, drainAtExit: bool, actions: seq<Action>): (r: State)
    ensures Inv(r)
  {
    Run(Start(chunk, maxNotifications, drainAtExit), actions)
  }

  /**
   In every interleaving of the torrent core, the notification worker and any number of streams, whatever the
   order of pieces and whatever paths are used again: each byte of the file that was sent and had been asked for is
   below the number that its stream had been told, and that number was announced for the path by a message delivered
   before. Of a file asked for as a whole, or from somewhere on, that is every byte below a size that was delivered
   for the path.
   */
  lemma StreamingIsSafe(
      chunk: nat, maxNotifications: nat, drainAtExit: bool, actions: seq<Action>, x: Sent, i: nat)
    requires x in Reached(chunk, maxNotifications, drainAtExit, actions).sent && x.from <= i < x.to
    requires i < match x.request
                 case Whole => x.size
                 case Partial(start, None) => x.size
                 case Partial(start, Some(end)) => end
    ensures var delivered := Reached(chunk, maxNotifications, drainAtExit, actions).unit.delivered;
            && i < x.told
            && (exists m :: m in delivered && m.event == FB.FileUpdate(x.path, x.told))
            && (exists m :: m in delivered && m.event == FB.FileAdd(x.path, x.size))
  {
    hide Reached, UnitInv, BufferInv, StreamsInv, TC.Inv;
    var s := Reached(chunk, maxNotifications, drainAtExit, actions);
    assert SentInv(s.sent, s.unit.delivered);
  }

  /** Streams come from look-ups, and keep their path and request; what is sent is theirs. */
  lemma StreamsComeFromLookups(s: State, a: Action)
    requires Inv(s)
    ensures forall w :: w in Next(s, a).streams ==>
              if w in s.streams
              then Next(s, a).streams[w].path == s.streams[w].path
                  && Next(s, a).streams[w].request == s.streams[w].request
              else a == Lookup(w, Next(s, a).streams[w].path, Next(s, a).streams[w].request)
    ensures forall x :: x in Next(s, a).sent && x !in s.sent ==>
              x.stream in s.streams && x.path == s.streams[x.stream].path && x.request == s.streams[x.stream].request
  {
    hide Inv, TC.Next, FB.Registered, FB.Apply, NU.Work, NU.Add, CS.AfterChunk, CS.BytesWait, InTable, ReadStart,
        ReadEnd;
  }

  ghost predicate LookedUp(s: State, actions: seq<Action>) {
    && (forall x :: x in s.sent ==> Lookup(x.stream, x.path, x.request) in actions)
    && (forall w :: w in s.streams ==> Lookup(w, s.streams[w].path, s.streams[w].request) in actions)
  }

  lemma LookedUpStep(s: State, a: Action, actions: seq<Action>)
    requires Inv(s) && LookedUp(s, actions)
    ensures LookedUp(Next(s, a), actions + [a])
  {
    hide Inv, Next;
    StreamsComeFromLookups(s, a);
  }

  lemma RunLast(s: State, actions: seq<Action>)
    requires Inv(s) && actions != []
    ensures var before, a := actions[..|actions| - 1], actions[|actions| - 1];
            actions == before + [a] && Run(s, actions) == Next(Run(s, before), a)
  {
    hide Inv, Next;
  }

  lemma {:induction false} ReachedLookedUp(
      chunk: nat, maxNotifications: nat, drainAtExit: bool, actions: seq<Action>)
    ensures LookedUp(Reached(chunk, maxNotifications, drainAtExit, actions), actions)
  {
    var start := Start(chunk, maxNotifications, drainAtExit);
    if actions == [] {
      hide Inv;
    } else {
      hide Inv, LookedUp, Next, Start, Run;
      RunLast(start, actions);
      ReachedLookedUp(chunk, maxNotifications, drainAtExit, actions[..|actions| - 1]);
      LookedUpStep(Run(start, actions[..|actions| - 1]), actions[|actions| - 1], actions[..|actions| - 1]);
    }
  }

  /** What a stream sends was asked for, by the look-up that the stream started with. */
  lemma RequestsWereMade(chunk: nat, maxNotifications: nat, drainAtExit: bool, actions: seq<Action>, x: Sent)
    requires x in Reached(chunk, maxNotifications, drainAtExit, actions).sent
    ensures Lookup(x.stream, x.path, x.request) in actions
  {
    ReachedLookedUp(chunk, maxNotifications, drainAtExit, actions);
    hide Reached;
  }

  /**
   A stream that subscribed while its record was in the table: as long as the record is there, the stream is not
   broken and knows the number that was announced last, unless the path has been added anew since; after that it is
   broken.
   */
  lemma StreamsAreUpToDate(chunk: nat, maxNotifications: nat, drainAtExit: bool, actions: seq<Action>, stream: nat)
    ensures var s := Reached(chunk, maxNotifications, drainAtExit, actions);
            stream in s.streams && s.streams[stream].live && !s.streams[stream].pc.Found? ==>
              var w := s.streams[stream];
              && stream in s.buffer.told
              && (s.buffer.told[stream].breaked <==> w.path !in s.buffer.infos || s.buffer.infos[w.path] != w.record)
              && (!s.buffer.told[stream].breaked ==> forall n ::
                   Latest(Events(s.unit.delivered), w.path) == FB.Some(FB.FileUpdate(w.path, n)) ==>
                     w.record in s.buffer.records
                     && s.buffer.told[stream].avaliableBytes == s.buffer.records[w.record].avaliableBytes == n)
  {
    var s := Reached(chunk, maxNotifications, drainAtExit, actions);
    if stream in s.streams {
      hide Reached, UnitInv, SentInv, TC.Inv, SizeKnown, RecordInv, Announced, Latest, FB.Fold, Events;
      var w := s.streams[stream];
      assert StreamInv(s.buffer, stream, w, s.chunk, s.unit.delivered);
      TableShowsLatest(Events(s.unit.delivered), w.path);
    }
  }

  /** In every interleaving the table of the buffer is the fold of a prefix of the accepted messages. */
  lemma BufferShowsPrefix(chunk: nat, maxNotifications: nat, drainAtExit: bool, actions: seq<Action>)
    ensures var s := Reached(chunk, maxNotifications, drainAtExit, actions);
            && FB.Consistent(s.buffer)
            && s.unit.delivered <= s.unit.accepted
            && FB.View(s.buffer) == FB.Fold(Events(s.unit.accepted[..|s.unit.delivered|]))
            && (forall m :: m in s.unit.accepted ==> m in s.published)
  {
    hide Reached, FB.View, FB.Fold, TC.Inv, StreamsInv, SentInv;
    var s := Reached(chunk, maxNotifications, drainAtExit, actions);
    assert s.unit.delivered == s.unit.accepted[..|s.unit.delivered|];
  }

  // ----- Orderly torrents -----

  /** Every alert of the run is one that an orderly torrent gives. */
  ghost predicate OrderlyRun(s: State, actions: seq<Action>)
    requires Inv(s)
  {
    actions == [] || (
      && OrderlyRun(s, actions[..|actions| - 1])
      && (actions[|actions| - 1].Alert? ==>
        TO.Orderly(Run(s, actions[..|actions| - 1]).core, actions[|actions| - 1].alert)))
  }

  /** Whatever was or is about to be published is on disk. */
  ghost predicate TruthfulState(s: State)
    requires Inv(s)
  {
    && TO.Sound(s.core)
    && (forall m :: m in s.core.outbox ==> TO.Truthful(s.core, m))
    && (forall m :: m in s.published ==> TO.Truthful(s.core, m))
  }

  lemma AlertKeepsTruth(s: State, alert: TC.Action)
    requires Inv(s) && TruthfulState(s) && TO.Orderly(s.core, alert)
    ensures Inv(Next(s, Alert(alert))) && TruthfulState(Next(s, Alert(alert)))
  {
    NextInv(s, Alert(alert));
    hide Inv, TC.Next, TO.Sound, TO.Truthful, TO.Orderly, TC.Inv;
    CoreInv(s);
    TO.NextTruthful(s.core, alert);
    var d := TC.Next(s.core, alert);
    forall m | m in s.published
      ensures TO.Truthful(d, m)
    {
      TO.TruthStays(s.core, alert, m);
    }
  }

  lemma CoreInv(s: State)
    requires Inv(s)
    ensures TC.Inv(s.core)
  {
  }

  lemma PublishKeepsTruth(s: State)
    requires Inv(s) && TruthfulState(s) && s.core.outbox != []
    ensures Inv(PublishNext(s)) && TruthfulState(PublishNext(s))
  {
    PublishStep(s);
    hide Inv, TC.Inv;
    CoreInv(s);
    var d := PublishNext(s);
    CoreInv(d);
    forall m | m in s.published + s.core.outbox
      ensures TO.Truthful(d.core, m)
    {
      assert TO.Truthful(s.core, m);
    }
  }

  lemma OtherKeepsTruth(s: State, a: Action)
    requires Inv(s) && TruthfulState(s) && !a.Alert? && !a.Publish?
    ensures Inv(Next(s, a)) && TruthfulState(Next(s, a))
  {
    NextInv(s, a);
    SameCore(s, a);
    hide Inv, Next, TO.Truthful, TO.Sound;
    CoreInv(s);
  }

  lemma SameCore(s: State, a: Action)
    requires Inv(s) && !a.Alert? && !a.Publish?
    ensures Next(s, a).core == s.core && Next(s, a).published == s.published
  {
    hide Inv;
  }

  lemma {:induction false} OrderlyIsTruthful(chunk: nat, maxNotifications: nat, drainAtExit: bool, actions: seq<Action>)
    requires OrderlyRun(Start(chunk, maxNotifications, drainAtExit), actions)
    ensures TruthfulState(Run(Start(chunk, maxNotifications, drainAtExit), actions))
  {
    var s := Start(chunk, maxNotifications, drainAtExit);
    if actions != [] {
      var before, a := actions[..|actions| - 1], actions[|actions| - 1];
      OrderlyIsTruthful(chunk, maxNotifications, drainAtExit, before);
      var r := Run(s, before);
      hide Inv, TruthfulState, TO.Orderly, TC.Next, Start;
      if a.Alert? {
        AlertKeepsTruth(r, a.alert);
      } else if a.Publish? {
        if r.core.outbox != [] {
          PublishKeepsTruth(r);
        }
      } else {
        OtherKeepsTruth(r, a);
      }
    }
  }

  /**
   When the pieces of every file finish window by window, and files are completed when they are on disk: each byte
   that was sent and had been asked for is on disk, in the very file and torrent whose announcement let it be sent.
   */
  lemma OrderlyStreamsFromDisk(
      chunk: nat, maxNotifications: nat, drainAtExit: bool, actions: seq<Action>, x: Sent, i: nat)
    returns (m: TC.Message)
    requires forall k: nat :: k < |actions| && actions[k].Alert? ==>
               TO.Orderly(Reached(chunk, maxNotifications, drainAtExit, actions[..k]).core, actions[k].alert)
    requires x in Reached(chunk, maxNotifications, drainAtExit, actions).sent && x.from <= i < x.to
    requires i < match x.request
                 case Whole => x.size
                 case Partial(start, None) => x.size
                 case Partial(start, Some(end)) => end
    ensures var s := Reached(chunk, maxNotifications, drainAtExit, actions);
            && m in s.unit.delivered && m.event == FB.FileUpdate(x.path, x.told) && i < x.told
            && m.id in s.core.torrents
            && var t := s.core.torrents[m.id];
            && m.file < |t.files| && t.files[m.file].path == x.path && t.pieceLength > 0
            && (TC.Offset(t.files, m.file) + i) / t.pieceLength in t.disk
  {
    hide *;
    var s := Reached(chunk, maxNotifications, drainAtExit, actions);
    StreamingIsSafe(chunk, maxNotifications, drainAtExit, actions, x, i);
    OrderlyByStep(chunk, maxNotifications, drainAtExit, actions);
    OrderlyIsTruthful(chunk, maxNotifications, drainAtExit, actions);
    ReachedIsRun(chunk, maxNotifications, drainAtExit, actions);
    m :| m in s.unit.delivered && m.event == FB.FileUpdate(x.path, x.told);
    DeliveredIsTrue(s, m, x.path, x.told, i);
  }

  /** A run is orderly when each of its alerts is, where it happens. */
  lemma {:induction false} OrderlyByStep(chunk: nat, maxNotifications: nat, drainAtExit: bool, actions: seq<Action>)
    requires forall k: nat :: k < |actions| && actions[k].Alert? ==>
               TO.Orderly(Reached(chunk, maxNotifications, drainAtExit, actions[..k]).core, actions[k].alert)
    ensures OrderlyRun(Start(chunk, maxNotifications, drainAtExit), actions)
  {
    hide TO.Orderly, Run, Start, TC.Inv, UnitInv, BufferInv, StreamsInv, SentInv, FB.View, FB.Fold;
    if actions != [] {
      var before := actions[..|actions| - 1];
      forall k: nat | k < |before| && before[k].Alert?
        ensures TO.Orderly(Reached(chunk, maxNotifications, drainAtExit, before[..k]).core, before[k].alert)
      {
        assert before[..k] == actions[..k];
        CoreInv(Reached(chunk, maxNotifications, drainAtExit, before[..k]));
      }
      OrderlyByStep(chunk, maxNotifications, drainAtExit, before);
      assert actions[..|actions| - 1] == before;
    }
  }

  lemma ReachedIsRun(chunk: nat, maxNotifications: nat, drainAtExit: bool, actions: seq<Action>)
    ensures var start := Start(chunk, maxNotifications, drainAtExit);
            Inv(start) && Reached(chunk, maxNotifications, drainAtExit, actions) == Run(start, actions)
  {
  }

  lemma DeliveredIsTrue(s: State, m: TC.Message, path: string, told: int, i: nat)
    requires Inv(s) && TruthfulState(s)
    requires m in s.unit.delivered && m.event == FB.FileUpdate(path, told) && i < told
    ensures m.id in s.core.torrents
    ensures var t := s.core.torrents[m.id];
            && m.file < |t.files| && t.files[m.file].path == path && t.pieceLength > 0
            && (TC.Offset(t.files, m.file) + i) / t.pieceLength in t.disk
  {
    DeliveredIsPublished(s, m);
    hide Inv, TO.Sound;
    assert TO.Truthful(s.core, m);
    assert TO.ByteThere(s.core.torrents[m.id], m.file, i);
  }

  lemma DeliveredIsPublished(s: State, m: TC.Message)
    requires Inv(s) && m in s.unit.delivered
    ensures m in s.published
  {
    hide TC.Inv, BufferInv, StreamsInv, SentInv, FB.View, FB.Fold;
    assert m in s.unit.accepted;
  }
}
