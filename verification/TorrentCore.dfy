/**
 The torrent core as the publisher of file events: torrents with their files, one behind the other, and
 pieces numbered through the whole torrent.

 Pieces may finish in any order and any number of times, files may be completed at any moment, and paths
 may be used again. What is announced is on disk when the pieces of each file finish window by window, in any
 order inside a window.
 */
module TorrentCore {
  import T = SequentialTracker
  import TR = TrackerRuns
  import TW = TrackerWindows
  import TF = TorrentFiles
  import FB = FileInfoBuffer

  datatype Spec = Spec(path: string, size: nat)

  datatype Torrent = Torrent(
    pieceLength: nat,
    maxPartial: nat,
    files: seq<Spec>,
    trackers: seq<T.Tracker>,
    complete: set<nat>,   // the files whose completion has been reported
    deleted: bool,
    disk: set<int>,       // the pieces that are on disk
    start: nat,           // pieces before this one were there when the torrent was added
    credited: seq<seq<int>>)  // history: the pieces each file was credited with since it was added or complete

  /** An event, with the torrent and the file that it is about. */
  datatype Message = Message(event: FB.Event, id: nat, file: nat)

  /** Events of one alert wait in the outbox; the next alert is handled when all of them are sent. */
  datatype Core = Core(torrents: map<nat, Torrent>, outbox: seq<Message>)

  datatype Action =
    | AddTorrent(id: nat, pieceLength: nat, maxPartial: nat, files: seq<Spec>, disk: set<int>, start: nat)
    | PieceOnDisk(id: nat, piece: int)
    | PieceFinished(id: nat, piece: int)
    | FileComplete(id: nat, index: nat)
    | Delete(id: nat)

  // ----- Where the files are -----

  /** How many bytes the first i files take. */
  function Offset(files: seq<Spec>, i: nat): nat
    requires i <= |files|
  {
    if i == 0 then 0 else Offset(files, i - 1) + files[i - 1].size
  }

  predicate Geometry(pieceLength: nat, files: seq<Spec>) {
    && pieceLength > 0
    && (forall i :: 0 <= i < |files| ==> files[i].size > 0)
    && (files != [] ==> T.PieceOf(Offset(files, |files|) - 1, pieceLength) < T.INT_MAX - 1)
  }

  function FirstPiece(pieceLength: nat, files: seq<Spec>, i: nat): nat
    requires pieceLength > 0 && i < |files|
  {
    T.PieceOf(Offset(files, i), pieceLength)
  }

  function LastPiece(pieceLength: nat, files: seq<Spec>, i: nat): nat
    requires pieceLength > 0 && i < |files| && files[i].size > 0
  {
    T.PieceOf(Offset(files, i) + files[i].size - 1, pieceLength)
  }

  function FreshTracker(pieceLength: nat, maxPartial: nat, files: seq<Spec>, i: nat): T.Tracker
    requires pieceLength > 0 && i < |files| && files[i].size > 0
  {
    T.Fresh(Offset(files, i), files[i].size, pieceLength, maxPartial)
  }

  // ----- What the alert handlers do -----

  function AddEvents(id: nat, files: seq<Spec>): seq<Message> {
    seq(|files|, i requires 0 <= i < |files| => Message(FB.FileAdd(files[i].path, files[i].size), id, i))
  }

  function RemoveEvents(id: nat, files: seq<Spec>): seq<Message> {
    seq(|files|, i requires 0 <= i < |files| => Message(FB.FileRemove(files[i].path), id, i))
  }

  function NewTorrent(pieceLength: nat, maxPartial: nat, files: seq<Spec>, disk: set<int>, start: nat): Torrent
    requires Geometry(pieceLength, files)
  {
    Torrent(pieceLength, maxPartial, files,
            seq(|files|, i requires 0 <= i < |files| => FreshTracker(pieceLength, maxPartial, files, i)),
            {}, false, disk, start, seq(|files|, _ => []))
  }

  function Credit(credited: seq<seq<int>>, k: nat, piece: int): seq<seq<int>> {
    if k < |credited| then credited[k := credited[k] + [piece]] else credited
  }

  function AfterPiece(t: Torrent, piece: int): Torrent
    requires TF.AllShaped(t.trackers)
  {
    t.(trackers := TF.Update(t.trackers, piece), disk := t.disk + {piece},
       credited := Credit(t.credited, TF.FirstInRange(t.trackers, piece), piece))
  }

  /** The controller announces at most the size of the file. */
  function PieceEvents(id: nat, t: Torrent, piece: int): seq<Message>
    requires TF.AllShaped(t.trackers) && |t.trackers| == |t.files|
  {
    var k := TF.Announces(t.trackers, piece);
    if k < 0 then []
    else [Message(FB.FileUpdate(t.files[k].path, TF.Update(t.trackers, piece)[k].Announced()), id, k)]
  }

  function AfterCompletion(t: Torrent, index: nat): Torrent
    requires index < |t.files| == |t.trackers| == |t.credited|
  {
    t.(trackers := t.trackers[index := T.Reinit(t.trackers[index])], complete := t.complete + {index},
       credited := t.credited[index := []])
  }

  function CompletionEvents(id: nat, t: Torrent, index: nat): seq<Message>
    requires index < |t.files|
  {
    [Message(FB.FileUpdate(t.files[index].path, t.files[index].size), id, index)]
  }

  /** An alert that is not possible in a state leaves it as it is; so does one for a torrent that is not known. */
  function Next(c: Core, a: Action): Core
    requires Inv(c)
  {
    match a
    case AddTorrent(id, pieceLength, maxPartial, files, disk, start) =>
      if id in c.torrents || c.outbox != [] || !Geometry(pieceLength, files) then c
      else Core(c.torrents[id := NewTorrent(pieceLength, maxPartial, files, disk, start)], AddEvents(id, files))
    case PieceOnDisk(id, piece) =>
      if id !in c.torrents then c
      else var t := c.torrents[id]; c.(torrents := c.torrents[id := t.(disk := t.disk + {piece})])
    case PieceFinished(id, piece) =>
      if !Handles(c, id) then c
      else Core(c.torrents[id := AfterPiece(c.torrents[id], piece)], PieceEvents(id, c.torrents[id], piece))
    case FileComplete(id, index) =>
      if !Handles(c, id) || index >= |c.torrents[id].files| then c
      else
        var t := c.torrents[id];
        Core(c.torrents[id := AfterCompletion(t, index)], CompletionEvents(id, t, index))
    case Delete(id) =>
      if !Handles(c, id) then c
      else
        var t := c.torrents[id];
        Core(c.torrents[id := t.(deleted := true)], RemoveEvents(id, t.files))
  }

  predicate Handles(c: Core, id: nat) {
    id in c.torrents && !c.torrents[id].deleted && c.outbox == []
  }

  // ----- Any order -----

  ghost predicate TorrentInv(t: Torrent) {
    && Geometry(t.pieceLength, t.files) && |t.trackers| == |t.credited| == |t.files| && TF.AllShaped(t.trackers)
    && forall i :: 0 <= i < |t.files| ==> TrackerInv(t, i)
  }

  ghost predicate TrackerInv(t: Torrent, i: nat)
    requires Geometry(t.pieceLength, t.files) && i < |t.files| == |t.trackers|
  {
    T.Inv(t.trackers[i]) && TR.SameFile(FreshTracker(t.pieceLength, t.maxPartial, t.files, i), t.trackers[i])
  }

  ghost predicate Inv(c: Core) {
    forall id :: id in c.torrents ==> TorrentInv(c.torrents[id])
  }

  /** The files of a torrent lie one behind the other, the first one at its start. */
  lemma FilesInOrder(files: seq<Spec>, i: nat)
    requires i < |files|
    ensures Offset(files, 0) == 0 && Offset(files, i + 1) == Offset(files, i) + files[i].size
  {
  }

  lemma {:induction false} OffsetsGrow(files: seq<Spec>, i: nat, j: nat)
    requires i <= j <= |files|
    ensures Offset(files, i) <= Offset(files, j)
  {
    if i < j {
      OffsetsGrow(files, i, j - 1);
    }
  }

  /** Every file of a torrent has a last piece that can be counted. */
  lemma FileGeometry(pieceLength: nat, files: seq<Spec>, i: nat)
    requires Geometry(pieceLength, files) && i < |files|
    ensures LastPiece(pieceLength, files, i) < T.INT_MAX - 1
  {
    OffsetsGrow(files, i + 1, |files|);
    T.PieceOfMonotone(Offset(files, i + 1) - 1, Offset(files, |files|) - 1, pieceLength);
  }

  lemma NewTorrentInv(pieceLength: nat, maxPartial: nat, files: seq<Spec>, disk: set<int>, start: nat)
    requires Geometry(pieceLength, files)
    ensures TorrentInv(NewTorrent(pieceLength, maxPartial, files, disk, start))
  {
    hide T.Inv, T.Shape, T.Fresh, FreshTracker, LastPiece, TR.SameFile;
    var t := NewTorrent(pieceLength, maxPartial, files, disk, start);
    forall i | 0 <= i < |files|
      ensures TrackerInv(t, i) && T.Shape(t.trackers[i])
    {
      FreshTrackerInv(pieceLength, maxPartial, files, i);
    }
  }

  lemma FreshTrackerInv(pieceLength: nat, maxPartial: nat, files: seq<Spec>, i: nat)
    requires Geometry(pieceLength, files) && i < |files|
    ensures var t := FreshTracker(pieceLength, maxPartial, files, i); T.Inv(t) && T.Shape(t) && TR.SameFile(t, t)
  {
    FileGeometry(pieceLength, files, i);
    T.FreshInv(Offset(files, i), files[i].size, pieceLength, maxPartial);
  }

  lemma AfterPieceInv(t: Torrent, piece: int)
    requires TorrentInv(t)
    ensures TorrentInv(AfterPiece(t, piece))
  {
    var k := TF.FirstInRange(t.trackers, piece);
    hide T.Inv, T.Report, T.Fresh;
    forall i | 0 <= i < |t.files|
      ensures TrackerInv(AfterPiece(t, piece), i)
    {
      assert TrackerInv(t, i);
      if i == k {
        T.ReportInv(t.trackers[i], piece);
        TR.ReportKeepsFile(t.trackers[i], piece);
      }
    }
  }

  lemma AfterCompletionInv(t: Torrent, index: nat)
    requires TorrentInv(t) && index < |t.files|
    ensures TorrentInv(AfterCompletion(t, index))
  {
    hide T.Inv, T.Fresh;
    forall i | 0 <= i < |t.files|
      ensures TrackerInv(AfterCompletion(t, index), i)
    {
      assert TrackerInv(t, i);
      T.ReinitInv(t.trackers[i]);
    }
  }

  /** Every alert, in any order, keeps every tracker of every torrent consistent. */
  lemma NextInv(c: Core, a: Action)
    requires Inv(c)
    ensures Inv(Next(c, a))
  {
    hide TorrentInv, AfterPiece, AfterCompletion, NewTorrent, PieceEvents;
    match a
    case AddTorrent(id, pieceLength, maxPartial, files, disk, start) =>
      if Geometry(pieceLength, files) {
        NewTorrentInv(pieceLength, maxPartial, files, disk, start);
      }
    case PieceOnDisk(id, piece) =>
      if id in c.torrents {
        SameTrackers(c.torrents[id], c.torrents[id].(disk := c.torrents[id].disk + {piece}));
      }
    case PieceFinished(id, piece) =>
      if id in c.torrents {
        AfterPieceInv(c.torrents[id], piece);
      }
    case FileComplete(id, index) =>
      if id in c.torrents && index < |c.torrents[id].files| {
        AfterCompletionInv(c.torrents[id], index);
      }
    case Delete(id) =>
      if id in c.torrents {
        SameTrackers(c.torrents[id], c.torrents[id].(deleted := true));
      }
  }

  lemma SameTrackers(t: Torrent, u: Torrent)
    requires TorrentInv(t)
    requires u.pieceLength == t.pieceLength && u.maxPartial == t.maxPartial && u.files == t.files
    requires u.trackers == t.trackers && u.credited == t.credited
    ensures TorrentInv(u)
  {
    forall i | 0 <= i < |u.files|
      ensures TrackerInv(u, i)
    {
      assert TrackerInv(t, i);
    }
  }

  // ----- What is published -----

  /** Adding a torrent publishes each of its files, in order, with its path and size, and starts its trackers. */
  lemma AddPublishes(c: Core, a: Action)
    requires Inv(c) && a.AddTorrent? && a.id !in c.torrents && c.outbox == [] && Geometry(a.pieceLength, a.files)
    ensures var d := Next(c, a);
            && |d.outbox| == |a.files| && d.torrents.Keys == c.torrents.Keys + {a.id}
            && (forall id :: id in c.torrents ==> d.torrents[id] == c.torrents[id])
            && (forall i :: 0 <= i < |a.files| ==>
                 d.outbox[i] == Message(FB.FileAdd(a.files[i].path, a.files[i].size), a.id, i))
            && var t := d.torrents[a.id];
            && t.files == a.files && t.pieceLength == a.pieceLength && !t.deleted && t.complete == {}
            && t.disk == a.disk && t.start == a.start && |t.trackers| == |t.credited| == |a.files|
            && forall i :: 0 <= i < |a.files| ==>
                 t.credited[i] == [] && t.trackers[i] == FreshTracker(a.pieceLength, a.maxPartial, a.files, i)
  {
    hide FreshTracker;
  }

  /**
   A finished piece publishes a number exactly when a file's announced bytes grow, for that file, at most its size.
   */
  lemma PiecePublishes(c: Core, id: nat, piece: int)
    requires Inv(c) && Handles(c, id)
    ensures var d, t := Next(c, PieceFinished(id, piece)), c.torrents[id];
            && d.torrents.Keys == c.torrents.Keys
            && (forall x :: x in c.torrents && x != id ==> d.torrents[x] == c.torrents[x])
            && var u := d.torrents[id];
            && |u.trackers| == |t.trackers| == |t.files| && u.files == t.files && u.disk == t.disk + {piece}
            && (forall k :: 0 <= k < |t.files| ==> u.trackers[k].avBytes >= t.trackers[k].avBytes)
            && (d.outbox == [] <==> forall k :: 0 <= k < |t.files| ==> u.trackers[k].avBytes == t.trackers[k].avBytes)
            && (forall k :: 0 <= k < |t.files| && u.trackers[k].avBytes > t.trackers[k].avBytes ==>
                 var bytes, size := u.trackers[k].avBytes, t.files[k].size;
                 d.outbox == [Message(FB.FileUpdate(t.files[k].path, if bytes > size then size else bytes), id, k)])
  {
    var t := c.torrents[id];
    assert TorrentInv(t);
    var k := TF.FirstInRange(t.trackers, piece);
    hide T.Report, TF.FirstInRange, T.Inv, T.Fresh, TrackerInv, Geometry;
    if k < |t.files| {
      PieceGrows(t, k, piece);
    }
  }

  lemma PieceGrows(t: Torrent, k: nat, piece: int)
    requires TorrentInv(t) && k < |t.files|
    ensures var o := T.Report(t.trackers[k], piece);
            && t.trackers[k].avBytes <= o.next.avBytes && o.next.size == t.files[k].size
            && (o.Updated? && o.announce <==> o.next.avBytes > t.trackers[k].avBytes)
  {
    assert TrackerInv(t, k);
    hide T.Report, T.Inv, T.Fresh;
    T.ReportInv(t.trackers[k], piece);
    TR.ReportKeepsFile(t.trackers[k], piece);
    SizeOfFresh(t.pieceLength, t.maxPartial, t.files, k);
  }

  lemma SizeOfFresh(pieceLength: nat, maxPartial: nat, files: seq<Spec>, k: nat)
    requires Geometry(pieceLength, files) && k < |files|
    ensures FreshTracker(pieceLength, maxPartial, files, k).size == files[k].size
  {
  }

  /** A completion publishes the size of the file, and its tracker counts from the start again. */
  lemma CompletionPublishes(c: Core, id: nat, index: nat)
    requires Inv(c) && Handles(c, id) && index < |c.torrents[id].files|
    ensures var d, t := Next(c, FileComplete(id, index)), c.torrents[id];
            && d.outbox == [Message(FB.FileUpdate(t.files[index].path, t.files[index].size), id, index)]
            && d.torrents.Keys == c.torrents.Keys
            && (forall x :: x in c.torrents && x != id ==> d.torrents[x] == c.torrents[x])
            && var u := d.torrents[id];
            && u.complete == t.complete + {index} && u.files == t.files && u.disk == t.disk
            && |u.trackers| == |t.trackers| == |t.files|
            && u.trackers[index] == T.Reinit(t.trackers[index])
            && forall k :: 0 <= k < |t.files| && k != index ==> u.trackers[k] == t.trackers[k]
  {
    assert TorrentInv(c.torrents[id]);
    hide T.Inv, TrackerInv, T.Reinit;
  }

  /** Deleting a torrent publishes that each of its files is gone, and no alert of it is handled any more. */
  lemma DeletePublishes(c: Core, id: nat)
    requires Inv(c) && Handles(c, id)
    ensures var d, t := Next(c, Delete(id)), c.torrents[id];
            && |d.outbox| == |t.files| && !Handles(d.(outbox := []), id)
            && (forall i :: 0 <= i < |t.files| ==> d.outbox[i] == Message(FB.FileRemove(t.files[i].path), id, i))
  {
  }

  /** Nothing that waits to be sent is lost to another alert; only the disk goes on changing meanwhile. */
  lemma OutboxIsKept(c: Core, a: Action)
    requires Inv(c) && c.outbox != []
    ensures Next(c, a).outbox == c.outbox && (!a.PieceOnDisk? ==> Next(c, a) == c)
  {
  }

  /** A piece that reaches the disk is there, and nothing else has changed. */
  lemma PieceReachesDisk(c: Core, id: nat, piece: int)
    requires Inv(c) && id in c.torrents
    ensures var d := Next(c, PieceOnDisk(id, piece));
            && d.outbox == c.outbox && d.torrents.Keys == c.torrents.Keys
            && d.torrents[id] == c.torrents[id].(disk := c.torrents[id].disk + {piece})
            && forall x :: x in c.torrents && x != id ==> d.torrents[x] == c.torrents[x]
  {
  }
}
