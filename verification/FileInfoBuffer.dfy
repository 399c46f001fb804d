/**
 The HTTP side's view of the files: a table of shared records, each with the streams that wait on it.

 `Buffer` is the value of the table for arbitrary identities of records (R) and of waiting streams (S);
 the class below is an instance of it whose identities are objects.
 */
module FileInfoBuffer {
  datatype Option<T> = None | Some(value: T)

  datatype Event = FileAdd(path: string, fileSize: int)
                 | FileUpdate(path: string, bytes: int)
                 | FileRemove(path: string)

  datatype Record<S> = Record(filePath: string, fileSize: int, avaliableBytes: int, subscribers: seq<S>)

  /** What a waiting stream has been told. */
  datatype Told = Told(avaliableBytes: int, breaked: bool)

  datatype Buffer<!R, !S> = Buffer(infos: map<string, R>, records: map<R, Record<S>>, told: map<S, Told>)

  function TellBytes<S>(told: map<S, Told>, subscribers: seq<S>, bytes: int): map<S, Told> {
    map s | s in told :: if s in subscribers then told[s].(avaliableBytes := bytes) else told[s]
  }

  function TellBreak<S>(told: map<S, Told>, subscribers: seq<S>): map<S, Told> {
    map s | s in told :: if s in subscribers then told[s].(breaked := true) else told[s]
  }

  /** Every path leads to a record of that path. */
  ghost predicate Consistent<R, S>(b: Buffer<R, S>) {
    forall p :: p in b.infos ==> b.infos[p] in b.records && b.records[b.infos[p]].filePath == p
  }

  /** Adding an existing path only resets its sizes; the streams that wait on it are not told. */
  function FileAdded<R, S>(b: Buffer<R, S>, path: string, fileSize: int, bytes: int, unused: R): Buffer<R, S>
    requires Consistent(b)
  {
    if path in b.infos then
      var r := b.infos[path];
      b.(records := b.records[r := b.records[r].(fileSize := fileSize, avaliableBytes := bytes)])
    else
      b.(infos := b.infos[path := unused], records := b.records[unused := Record(path, fileSize, bytes, [])])
  }

  function FileUpdated<R, S>(b: Buffer<R, S>, path: string, bytes: int): Buffer<R, S>
    requires Consistent(b)
  {
    if path !in b.infos then b
    else
      var r := b.infos[path];
      b.(records := b.records[r := b.records[r].(avaliableBytes := bytes)],
         told := TellBytes(b.told, b.records[r].subscribers, bytes))
  }

  /** The record leaves the table and its streams are broken; a stream may still hold the record itself. */
  function FileRemoved<R, S>(b: Buffer<R, S>, path: string): Buffer<R, S>
    requires Consistent(b)
  {
    if path !in b.infos then b
    else
      b.(infos := b.infos - {path}, told := TellBreak(b.told, b.records[b.infos[path]].subscribers))
  }

  /** Subscribing tells the stream at once how many bytes there are. */
  function Registered<R, S>(b: Buffer<R, S>, r: R, s: S): Buffer<R, S>
    requires r in b.records && s in b.told
  {
    var record := b.records[r];
    b.(records := b.records[r := record.(subscribers := record.subscribers + [s])],
       told := b.told[s := b.told[s].(avaliableBytes := record.avaliableBytes)])
  }

  /** What the realtime updater does with a delivered notification; a new file starts with no bytes. */
  function Apply<R, S>(b: Buffer<R, S>, e: Event, unused: R): Buffer<R, S>
    requires Consistent(b)
  {
    match e
    case FileAdd(path, fileSize) => FileAdded(b, path, fileSize, 0, unused)
    case FileUpdate(path, bytes) => FileUpdated(b, path, bytes)
    case FileRemove(path) => FileRemoved(b, path)
  }

  // ----- The table is the fold of the events delivered to it -----

  datatype Entry = Entry(fileSize: int, avaliableBytes: int)

  function View<R, S>(b: Buffer<R, S>): map<string, Entry>
    requires Consistent(b)
  {
    map p | p in b.infos :: var record := b.records[b.infos[p]]; Entry(record.fileSize, record.avaliableBytes)
  }

  function FoldStep(m: map<string, Entry>, e: Event): map<string, Entry> {
    match e
    case FileAdd(path, fileSize) => m[path := Entry(fileSize, 0)]
    case FileUpdate(path, bytes) => if path in m then m[path := m[path].(avaliableBytes := bytes)] else m
    case FileRemove(path) => m - {path}
  }

  function Fold(events: seq<Event>): map<string, Entry> {
    if events == [] then map[] else FoldStep(Fold(events[..|events| - 1]), events[|events| - 1])
  }

  lemma AddFolds<R, S>(b: Buffer<R, S>, path: string, fileSize: int, unused: R)
    requires Consistent(b) && (path !in b.infos ==> unused !in b.records)
    ensures Consistent(FileAdded(b, path, fileSize, 0, unused))
    ensures View(FileAdded(b, path, fileSize, 0, unused)) == FoldStep(View(b), FileAdd(path, fileSize))
  {
  }

  lemma UpdateFolds<R, S>(b: Buffer<R, S>, path: string, bytes: int)
    requires Consistent(b)
    ensures Consistent(FileUpdated(b, path, bytes))
    ensures View(FileUpdated(b, path, bytes)) == FoldStep(View(b), FileUpdate(path, bytes))
  {
  }

  lemma RemoveFolds<R, S>(b: Buffer<R, S>, path: string)
    requires Consistent(b)
    ensures Consistent(FileRemoved(b, path))
    ensures View(FileRemoved(b, path)) == FoldStep(View(b), FileRemove(path))
  {
  }

  /** An event keeps the table consistent, and the table then shows exactly what the event says. */
  lemma ApplyFolds<R, S>(b: Buffer<R, S>, e: Event, unused: R)
    requires Consistent(b) && (e.FileAdd? && e.path !in b.infos ==> unused !in b.records)
    ensures Consistent(Apply(b, e, unused))
    ensures View(Apply(b, e, unused)) == FoldStep(View(b), e)
  {
    hide FileAdded, FileUpdated, FileRemoved, View, Consistent, FoldStep;
    match e
    case FileAdd(path, fileSize) => AddFolds(b, path, fileSize, unused);
    case FileUpdate(path, bytes) => UpdateFolds(b, path, bytes);
    case FileRemove(path) => RemoveFolds(b, path);
  }

  lemma RegisterKeepsView<R, S>(b: Buffer<R, S>, r: R, s: S)
    requires Consistent(b) && r in b.records && s in b.told
    ensures Consistent(Registered(b, r, s))
    ensures View(Registered(b, r, s)) == View(b)
  {
  }

  // ----- What the waiting streams hear -----

  /** An update tells the new number to exactly the streams that wait on the record of the path, and breaks none. */
  lemma UpdateTells<R, S>(b: Buffer<R, S>, path: string, bytes: int, s: S)
    requires Consistent(b) && s in b.told
    ensures var after := FileUpdated(b, path, bytes).told;
            && after.Keys == b.told.Keys && after[s].breaked == b.told[s].breaked
            && after[s].avaliableBytes ==
               if path in b.infos && s in b.records[b.infos[path]].subscribers then bytes else b.told[s].avaliableBytes
  {
  }

  /** Removing a path breaks exactly the streams that wait on its record, and tells them no number. */
  lemma RemoveBreaks<R, S>(b: Buffer<R, S>, path: string, s: S)
    requires Consistent(b) && s in b.told
    ensures var after := FileRemoved(b, path).told;
            && after.Keys == b.told.Keys && after[s].avaliableBytes == b.told[s].avaliableBytes
            && (after[s].breaked <==>
                b.told[s].breaked || (path in b.infos && s in b.records[b.infos[path]].subscribers))
  {
  }

  /** A new subscriber joins those of the record and is told its number; all others stay as they are. */
  lemma RegisterTells<R, S>(b: Buffer<R, S>, r: R, s: S)
    requires r in b.records && s in b.told
    ensures var after := Registered(b, r, s);
            && s in after.records[r].subscribers && after.told[s].avaliableBytes == after.records[r].avaliableBytes
            && after.told[s].breaked == b.told[s].breaked
            && (forall x :: x in b.records[r].subscribers ==> x in after.records[r].subscribers)
            && (forall x :: x in b.told && x != s ==> after.told[x] == b.told[x])
            && (forall x :: x in b.records && x != r ==> after.records[x] == b.records[x])
  {
  }

  /** Adding a path tells nobody, and a record that exists already keeps its subscribers. */
  lemma AddKeepsSubscribers<R, S>(b: Buffer<R, S>, path: string, fileSize: int, unused: R, r: R)
    requires Consistent(b) && r in b.records && unused !in b.records
    ensures var after := FileAdded(b, path, fileSize, 0, unused);
            && after.told == b.told && r in after.records && after.records[r].subscribers == b.records[r].subscribers
            && (path !in b.infos ==> after.records[r] == b.records[r] && after.records[unused].subscribers == [])
  {
  }

  /** Neither updating nor removing a path changes who waits on which record. */
  lemma SubscribersStay<R, S>(b: Buffer<R, S>, path: string, bytes: int, r: R)
    requires Consistent(b) && r in b.records
    ensures r in FileUpdated(b, path, bytes).records
            && FileUpdated(b, path, bytes).records[r].subscribers == b.records[r].subscribers
    ensures FileRemoved(b, path).records == b.records
  {
  }

  // ----- The objects -----

  /** The part of a stream that the buffer calls back. */
  class Subscriber {
    var avaliableBytes: int
    var breaked: bool

    constructor ()
      ensures avaliableBytes == 0 && !breaked
    {
      avaliableBytes, breaked := 0, false;
    }

    method OnBytesAvaliableChange(bytes: int)
      modifies this
      ensures avaliableBytes == bytes && breaked == old(breaked)
    {
      avaliableBytes := bytes;
    }

    method OnBreak()
      modifies this
      ensures breaked && avaliableBytes == old(avaliableBytes)
    {
      breaked := true;
    }
  }

  class FileRecord {
    const filePath: string
    var fileSize: int
    var avaliableBytes: int
    var subscribers: seq<Subscriber>

    constructor (filePath: string, fileSize: int, avaliableBytes: int)
      ensures this.filePath == filePath && this.fileSize == fileSize
      ensures this.avaliableBytes == avaliableBytes && subscribers == []
    {
      this.filePath, this.fileSize, this.avaliableBytes, subscribers := filePath, fileSize, avaliableBytes, [];
    }
  }

  class Infos {
    var infos: map<string, FileRecord>
    ghost var records: set<FileRecord>   // every record ever created, also those that have left the table
    ghost var waiting: set<Subscriber>

    ghost function Records(): map<FileRecord, Record<Subscriber>>
      reads this, records
    {
      map r: FileRecord | r in records :: Record(r.filePath, r.fileSize, r.avaliableBytes, r.subscribers)
    }

    ghost function Heard(): map<Subscriber, Told>
      reads this, waiting
    {
      map s: Subscriber | s in waiting :: Told(s.avaliableBytes, s.breaked)
    }

    ghost function State(): Buffer<FileRecord, Subscriber>
      reads this, records, waiting
    {
      Buffer(infos, Records(), Heard())
    }

    ghost predicate Valid()
      reads this, records, waiting
    {
      && Consistent(State())
      && forall r :: r in records ==> forall s :: s in r.subscribers ==> s in waiting
    }

    constructor ()
      ensures Valid() && State() == Buffer(map[], map[], map[])
    {
      infos, records, waiting := map[], {}, {};
      new;
    }

    method ResetSizes(fi: FileRecord, fileSize: int, bytes: int)
      requires fi in records
      modifies fi
      ensures fi.subscribers == old(fi.subscribers)
      ensures Records() == old(Records())[fi := old(Records()[fi]).(fileSize := fileSize, avaliableBytes := bytes)]
    {
      fi.fileSize := fileSize;
      fi.avaliableBytes := bytes;
    }

    method Insert(path: string, fileSize: int, bytes: int) returns (created: FileRecord)
      modifies this
      ensures fresh(created) && created.subscribers == []
      ensures records == old(records) + {created} && waiting == old(waiting)
      ensures infos == old(infos)[path := created]
      ensures Records() == old(Records())[created := Record(path, fileSize, bytes, [])]
    {
      created := new FileRecord(path, fileSize, bytes);
      infos := infos[path := created];
      records := records + {created};
    }

    method OnFileAdd(path: string, fileSize: int, bytes: int) returns (ghost record: FileRecord)
      requires Valid()
      modifies this, records
      ensures Valid() && fresh(records - old(records)) && waiting == old(waiting)
      ensures old(path in infos) || fresh(record)
      ensures State() == FileAdded(old(State()), path, fileSize, bytes, record)
    {
      if path in infos {
        assert infos[path] in Records();
        ResetSizes(infos[path], fileSize, bytes);
        record := infos[path];
      } else {
        record := Insert(path, fileSize, bytes);
      }
    }

    /** Tell every stream that waits on a record how many bytes there are. */
    method TellAll(fi: FileRecord, bytes: int)
      requires fi in records && forall s :: s in fi.subscribers ==> s in waiting
      modifies waiting
      ensures Heard() == TellBytes(old(Heard()), fi.subscribers, bytes)
      ensures forall s :: s in waiting ==>
                && s.breaked == old(s.breaked)
                && s.avaliableBytes == if s in fi.subscribers then bytes else old(s.avaliableBytes)
    {
      for i := 0 to |fi.subscribers|
        invariant forall s :: s in waiting ==>
          s.breaked == old(s.breaked)
          && s.avaliableBytes == if s in fi.subscribers[..i] then bytes else old(s.avaliableBytes)
      {
        fi.subscribers[i].OnBytesAvaliableChange(bytes);
        assert fi.subscribers[..i + 1] == fi.subscribers[..i] + [fi.subscribers[i]];
      }
      assert fi.subscribers[..|fi.subscribers|] == fi.subscribers;
    }

    method BreakAll(fi: FileRecord)
      requires fi in records && forall s :: s in fi.subscribers ==> s in waiting
      modifies waiting
      ensures Heard() == TellBreak(old(Heard()), fi.subscribers)
      ensures forall s :: s in waiting ==>
                && s.avaliableBytes == old(s.avaliableBytes)
                && (s.breaked <==> s in fi.subscribers || old(s.breaked))
    {
      for i := 0 to |fi.subscribers|
        invariant forall s :: s in waiting ==>
          s.avaliableBytes == old(s.avaliableBytes)
          && s.breaked == (s in fi.subscribers[..i] || old(s.breaked))
      {
        fi.subscribers[i].OnBreak();
        assert fi.subscribers[..i + 1] == fi.subscribers[..i] + [fi.subscribers[i]];
      }
      assert fi.subscribers[..|fi.subscribers|] == fi.subscribers;
    }

    method OnFileUpdate(path: string, bytes: int)
      requires Valid()
      modifies records, waiting
      ensures Valid()
      ensures State() == FileUpdated(old(State()), path, bytes)
      ensures path in infos ==>
                infos[path].avaliableBytes == bytes && infos[path].subscribers == old(infos[path].subscribers)
      ensures forall s :: s in waiting ==>
                && s.breaked == old(s.breaked)
                && s.avaliableBytes ==
                   if path in infos && s in infos[path].subscribers then bytes else old(s.avaliableBytes)
    {
      if path in infos {
        var found := infos[path];
        assert found in records;
        found.avaliableBytes := bytes;
        TellAll(found, bytes);
      }
    }

    method OnFileRemove(path: string)
      requires Valid()
      modifies this, waiting
      ensures Valid() && records == old(records) && waiting == old(waiting)
      ensures State() == FileRemoved(old(State()), path)
      ensures infos == old(infos) - {path}
      ensures forall s :: s in waiting ==>
                && s.avaliableBytes == old(s.avaliableBytes)
                && (s.breaked <==> old(s.breaked) || (path in old(infos) && s in old(infos)[path].subscribers))
    {
      if path in infos {
        var found := infos[path];
        assert found in records;
        infos := infos - {path};
        BreakAll(found);
      }
    }

    method GetInfo(path: string) returns (r: Option<FileRecord>)
      requires Valid()
      ensures r == if path in infos then Some(infos[path]) else None
      ensures r.Some? ==> r.value.filePath == path && r.value in records
    {
      if path in infos {
        assert infos[path] in Records();
        return Some(infos[path]);
      }
      return None;
    }

    method RegistrSubscriber(fi: FileRecord, subscriber: Subscriber) returns (count: nat)
      requires Valid() && fi in records && subscriber in waiting
      modifies fi, subscriber
      ensures Valid() && count == |fi.subscribers|
      ensures State() == Registered(old(State()), fi, subscriber)
      ensures fi.subscribers == old(fi.subscribers) + [subscriber] && fi.avaliableBytes == old(fi.avaliableBytes)
      ensures subscriber.avaliableBytes == fi.avaliableBytes && subscriber.breaked == old(subscriber.breaked)
    {
      fi.subscribers := fi.subscribers + [subscriber];
      subscriber.OnBytesAvaliableChange(fi.avaliableBytes);
      count := |fi.subscribers|;
    }

    /** The realtime updater's switch on the kind of notification. */
    method OnNotify(e: Event) returns (ghost created: FileRecord?)
      requires Valid()
      modifies this, records, waiting
      ensures Valid() && fresh(records - old(records)) && waiting == old(waiting)
      ensures match e
              case FileAdd(path, fileSize) =>
                created != null && State() == FileAdded(old(State()), path, fileSize, 0, created)
              case FileUpdate(path, bytes) => State() == FileUpdated(old(State()), path, bytes)
              case FileRemove(path) => State() == FileRemoved(old(State()), path)
      ensures forall s :: s in waiting ==>
                s.avaliableBytes ==
                if e.FileUpdate? && e.path in infos && s in infos[e.path].subscribers then e.bytes
                else old(s.avaliableBytes)
      ensures forall s :: s in waiting ==> (
                s.breaked <==>
                old(s.breaked) || (e.FileRemove? && e.path in old(infos) && s in old(infos)[e.path].subscribers))
    {
      created := null;
      match e
      case FileAdd(path, fileSize) => created := OnFileAdd(path, fileSize, 0);
      case FileUpdate(path, bytes) => OnFileUpdate(path, bytes);
      case FileRemove(path) => OnFileRemove(path);
    }
  }
}
