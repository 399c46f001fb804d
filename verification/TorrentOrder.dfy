/**
 When what the torrent core announces is on disk: the pieces of each file finish window by window, inside a
 window in any order, and a file is completed when it is on disk. Pieces in increasing order are a special case.
 */
module TorrentOrder {
  import T = SequentialTracker
  import TR = TrackerRuns
  import TW = TrackerWindows
  import TF = TorrentFiles
  import FB = FileInfoBuffer
  import opened TorrentCore

  /** Byte i of file k is on disk. */
  predicate ByteThere(t: Torrent, k: nat, i: nat)
    requires t.pieceLength > 0 && k < |t.files|
  {
    T.PieceOf(Offset(t.files, k) + i, t.pieceLength) in t.disk
  }

  ghost predicate BytesThere(t: Torrent, k: nat, n: nat)
    requires t.pieceLength > 0 && k < |t.files|
  {
    forall i: nat :: i < n ==> ByteThere(t, k, i)
  }

  ghost predicate FileThere(t: Torrent, k: nat)
    requires t.pieceLength > 0 && k < |t.files| && t.files[k].size > 0
  {
    forall p :: FirstPiece(t.pieceLength, t.files, k) <= p <= LastPiece(t.pieceLength, t.files, k) ==> p in t.disk
  }

  /** The files before file k end in its first piece. */
  predicate Shared(t: Torrent, k: nat)
    requires t.pieceLength > 0 && k < |t.files|
  {
    k > 0 && t.files[k - 1].size > 0 && LastPiece(t.pieceLength, t.files, k - 1)
        == FirstPiece(t.pieceLength, t.files, k)
  }

  /** The first piece of file k that the files before it do not overlap. */
  function FirstOwn(t: Torrent, k: nat): nat
    requires t.pieceLength > 0 && k < |t.files|
  {
    FirstPiece(t.pieceLength, t.files, k) + if Shared(t, k) then 1 else 0
  }

  /** The first piece that file k can be credited with. */
  function Begin(t: Torrent, k: nat): nat
    requires t.pieceLength > 0 && k < |t.files|
  {
    if FirstOwn(t, k) < t.start then t.start else FirstOwn(t, k)
  }

  /** The piece that a file shares with the files before it is on disk. */
  predicate BeginReady(t: Torrent, k: nat)
    requires t.pieceLength > 0 && k < |t.files|
  {
    Shared(t, k) ==> FirstPiece(t.pieceLength, t.files, k) in t.disk
  }

  /** A completed file is on disk; any other has seen its pieces window by window. */
  ghost predicate FileSound(t: Torrent, k: nat)
    requires Geometry(t.pieceLength, t.files) && k < |t.files| == |t.trackers| == |t.credited|
  {
    if k in t.complete then FileThere(t, k)
    else
      && TW.Tidy(t.trackers[k], Begin(t, k), t.credited[k])
      && (forall p :: p in t.credited[k] ==> p in t.disk)
      && (t.credited[k] != [] ==> BeginReady(t, k))
  }

  ghost predicate TorrentSound(t: Torrent)
    requires TorrentInv(t)
  {
    && (forall p :: 0 <= p < t.start ==> p in t.disk)
    && forall k :: 0 <= k < |t.files| ==> FileSound(t, k)
  }

  ghost predicate Sound(c: Core)
    requires Inv(c)
  {
    forall id :: id in c.torrents ==> TorrentSound(c.torrents[id])
  }

  /** The piece belongs to the window that its file is in, or is the first of the next one. */
  ghost predicate NextInWindows(t: Torrent, piece: int)
    requires TorrentInv(t)
  {
    var k := TF.FirstInRange(t.trackers, piece);
    k < |t.files| && k !in t.complete ==>
      BeginReady(t, k) && TW.ByWindows(t.trackers[k], Begin(t, k), t.credited[k] + [piece])
  }

  ghost predicate Orderly(c: Core, a: Action)
    requires Inv(c)
  {
    match a
    case AddTorrent(id, pieceLength, maxPartial, files, disk, start) => forall p :: 0 <= p < start ==> p in disk
    case PieceFinished(id, piece) => Handles(c, id) ==> NextInWindows(c.torrents[id], piece)
    case FileComplete(id, index) =>
      Handles(c, id) && index < |c.torrents[id].files| ==>
        TorrentInv(c.torrents[id]) && FileThere(c.torrents[id], index)
    case _ => true
  }

  // Which file a piece is credited to.

  lemma PiecesGrow(t: Torrent, j: nat, k: nat)
    requires Geometry(t.pieceLength, t.files) && j < k < |t.files|
    ensures LastPiece(t.pieceLength, t.files, j) <= FirstPiece(t.pieceLength, t.files, k)
    ensures FirstPiece(t.pieceLength, t.files, j) <= LastPiece(t.pieceLength, t.files, j)
  {
    OffsetsGrow(t.files, j + 1, k);
    T.PieceOfMonotone(Offset(t.files, j) + t.files[j].size - 1, Offset(t.files, k), t.pieceLength);
    T.PieceOfMonotone(Offset(t.files, j), Offset(t.files, j) + t.files[j].size - 1, t.pieceLength);
  }

  lemma RangeOf(t: Torrent, k: nat)
    requires TorrentInv(t) && k < |t.files|
    ensures t.trackers[k].firstPiece == FirstPiece(t.pieceLength, t.files, k)
    ensures t.trackers[k].LastPiece() == LastPiece(t.pieceLength, t.files, k)
  {
    hide T.Inv;
    assert TrackerInv(t, k);
    FileGeometry(t.pieceLength, t.files, k);
    T.FreshInv(Offset(t.files, k), t.files[k].size, t.pieceLength, t.maxPartial);
  }

  lemma CreditedIff(t: Torrent, k: nat, p: nat)
    requires TorrentInv(t) && k < |t.files|
    ensures TF.FirstInRange(t.trackers, p) == k <==>
      FirstOwn(t, k) <= p <= LastPiece(t.pieceLength, t.files, k)
  {
    hide TorrentInv, FirstPiece, LastPiece, TF.FirstInRange;
    assert Geometry(t.pieceLength, t.files) && |t.trackers| == |t.files| by { TorrentMeans(t); }
    RangeOf(t, k);
    if k > 0 {
      PiecesGrow(t, k - 1, k);
      RangeOf(t, k - 1);
    }
    if FirstOwn(t, k) <= p <= LastPiece(t.pieceLength, t.files, k) {
      forall j | 0 <= j < k
        ensures !t.trackers[j].InRange(p)
      {
        RangeOf(t, j);
        PiecesGrow(t, j, k);
        if j < k - 1 { PiecesGrow(t, j, k - 1); }
      }
      TF.FirstInRangeAt(t.trackers, p, k);
    }
  }

  lemma TorrentMeans(t: Torrent)
    requires TorrentInv(t)
    ensures Geometry(t.pieceLength, t.files) && |t.trackers| == |t.credited| == |t.files| && TF.AllShaped(t.trackers)
  {
  }

  // What a step does to one file.

  lemma PieceKeepsFile(t: Torrent, k: nat, piece: int)
    requires TorrentInv(t) && k < |t.files| && FileSound(t, k) && NextInWindows(t, piece)
    ensures TorrentInv(AfterPiece(t, piece)) && FileSound(AfterPiece(t, piece), k)
  {
    AfterPieceInv(t, piece);
    if k !in t.complete && TF.FirstInRange(t.trackers, piece) == k {
      hide TorrentInv, T.Report, TW.Tidy, TW.ByWindows, FirstPiece, LastPiece, TF.FirstInRange;
      TW.ReportTidy(t.trackers[k], Begin(t, k), t.credited[k], piece);
    } else {
      hide TorrentInv, FirstPiece, LastPiece, TF.FirstInRange, TW.Tidy, T.Report;
    }
  }

  lemma PieceKeepsSound(t: Torrent, piece: int)
    requires TorrentInv(t) && TorrentSound(t) && NextInWindows(t, piece)
    ensures TorrentInv(AfterPiece(t, piece)) && TorrentSound(AfterPiece(t, piece))
  {
    AfterPieceInv(t, piece);
    hide TorrentInv, FileSound, TF.Update, NextInWindows;
    forall k | 0 <= k < |t.files|
      ensures FileSound(AfterPiece(t, piece), k)
    {
      PieceKeepsFile(t, k, piece);
    }
  }

  /** What a file is sound by, apart from the rest of the torrent. */
  lemma SoundStays(t: Torrent, u: Torrent, k: nat)
    requires Geometry(t.pieceLength, t.files) && |t.files| == |t.trackers| == |t.credited| && k < |t.files|
    requires |u.trackers| == |u.credited| == |u.files| && FileSound(t, k)
    requires u.pieceLength == t.pieceLength && u.files == t.files && u.start == t.start && t.disk <= u.disk
    requires (k in u.complete <==> k in t.complete) && u.trackers[k] == t.trackers[k] && u.credited[k] == t.credited[k]
    ensures FileSound(u, k)
  {
    hide TW.Tidy, FirstPiece, LastPiece, Geometry;
  }

  lemma CompletionKeepsSound(t: Torrent, index: nat)
    requires TorrentInv(t) && TorrentSound(t) && index < |t.files| && FileThere(t, index)
    ensures TorrentInv(AfterCompletion(t, index)) && TorrentSound(AfterCompletion(t, index))
  {
    AfterCompletionInv(t, index);
    TorrentMeans(t);
    var u := AfterCompletion(t, index);
    hide TorrentInv, FileSound, FileThere, Geometry, T.Reinit;
    forall k | 0 <= k < |t.files|
      ensures FileSound(u, k)
    {
      if k == index {
        CompletedIsSound(t, index);
      } else {
        SoundStays(t, u, k);
      }
    }
  }

  lemma CompletedIsSound(t: Torrent, index: nat)
    requires TorrentInv(t) && index < |t.files| && FileThere(t, index)
    ensures TorrentInv(AfterCompletion(t, index)) && FileSound(AfterCompletion(t, index), index)
  {
    AfterCompletionInv(t, index);
    hide TorrentInv, TW.Tidy;
  }

  lemma SameFilesSound(t: Torrent, u: Torrent)
    requires TorrentInv(t) && TorrentSound(t)
    requires u == t.(disk := u.disk, deleted := u.deleted) && t.disk <= u.disk
    ensures TorrentInv(u) && TorrentSound(u)
  {
    SameTrackers(t, u);
    TorrentMeans(t);
    hide TorrentInv, FileSound, Geometry;
    forall k | 0 <= k < |t.files|
      ensures FileSound(u, k)
    {
      SoundStays(t, u, k);
    }
  }

  lemma NewTorrentSound(pieceLength: nat, maxPartial: nat, files: seq<Spec>, disk: set<int>, start: nat)
    requires Geometry(pieceLength, files) && forall p :: 0 <= p < start ==> p in disk
    ensures var t := NewTorrent(pieceLength, maxPartial, files, disk, start); TorrentInv(t) && TorrentSound(t)
  {
    NewTorrentInv(pieceLength, maxPartial, files, disk, start);
    var t := NewTorrent(pieceLength, maxPartial, files, disk, start);
    hide TorrentInv, TW.Tidy, T.Shape, T.Inv, T.Fresh;
    forall k | 0 <= k < |files|
      ensures FileSound(t, k)
    {
      FileGeometry(pieceLength, files, k);
      TW.FreshTidy(Offset(files, k), files[k].size, pieceLength, maxPartial, Begin(t, k));
    }
  }

  // What is announced is on disk.

  lemma FileBytes(t: Torrent, k: nat)
    requires Geometry(t.pieceLength, t.files) && k < |t.files| && FileThere(t, k)
    ensures BytesThere(t, k, t.files[k].size)
  {
    forall i: nat | i < t.files[k].size
      ensures ByteThere(t, k, i)
    {
      T.PieceOfMonotone(Offset(t.files, k), Offset(t.files, k) + i, t.pieceLength);
      T.PieceOfMonotone(Offset(t.files, k) + i, Offset(t.files, k) + t.files[k].size - 1, t.pieceLength);
    }
  }

  /** Of a file whose pieces come window by window, what is announced is on disk. */
  lemma TidyThere(t: Torrent, k: nat)
    requires TorrentInv(t) && TorrentSound(t) && k < |t.files| && k !in t.complete
    ensures BytesThere(t, k, t.trackers[k].Announced())
  {
    hide TorrentInv, Begin, TW.Tidy, Geometry;
    TorrentMeans(t);
    SizesArePositive(t, k);
    assert FileSound(t, k);
    forall i: nat | i < t.trackers[k].Announced()
      ensures ByteThere(t, k, i)
    {
      TidyBlock(t, k, i);
      BeginAbove(t, k);
      TW.TidyBytes(t.trackers[k], Begin(t, k), t.credited[k], Offset(t.files, k), i);
      BeforeBegin(t, k, T.PieceOf(Offset(t.files, k) + i, t.pieceLength));
    }
  }

  lemma SizesArePositive(t: Torrent, k: nat)
    requires Geometry(t.pieceLength, t.files) && k < |t.files|
    ensures t.pieceLength > 0 && t.files[k].size > 0
  {
  }

  lemma TidyBlock(t: Torrent, k: nat, i: nat)
    requires TorrentInv(t) && k < |t.files| && TW.Tidy(t.trackers[k], Begin(t, k), t.credited[k])
    requires i < t.trackers[k].Announced()
    ensures t.trackers[k].blockSize == t.pieceLength && t.credited[k] != []
  {
    hide T.Inv, Begin;
    assert TrackerInv(t, k);
    TW.TidyLong(t.trackers[k], Begin(t, k), t.credited[k], i);
    BlockIsPiece(t, k);
  }

  lemma BlockIsPiece(t: Torrent, k: nat)
    requires TorrentInv(t) && k < |t.files| && t.trackers[k].pieces >= 2
    ensures t.trackers[k].blockSize == t.pieceLength
  {
    hide T.Inv;
    assert TrackerInv(t, k);
    FileGeometry(t.pieceLength, t.files, k);
    T.FreshInv(Offset(t.files, k), t.files[k].size, t.pieceLength, t.maxPartial);
    TR.LongFileBlocks(Offset(t.files, k), t.files[k].size, t.pieceLength);
  }

  lemma BeginAbove(t: Torrent, k: nat)
    requires t.pieceLength > 0 && k < |t.files|
    ensures FirstPiece(t.pieceLength, t.files, k) <= Begin(t, k)
    ensures T.PieceOf(Offset(t.files, k), t.pieceLength) == FirstPiece(t.pieceLength, t.files, k)
  {
  }

  /** A file's pieces before its first credited one are on disk. */
  lemma BeforeBegin(t: Torrent, k: nat, p: nat)
    requires t.pieceLength > 0 && k < |t.files| && BeginReady(t, k) && forall p :: 0 <= p < t.start ==> p in t.disk
    requires FirstPiece(t.pieceLength, t.files, k) <= p
    ensures p < Begin(t, k) ==> p in t.disk
  {
    hide FirstPiece, LastPiece;
  }

  /** In an orderly torrent what a tracker announces is on disk. */
  lemma AnnouncedThere(t: Torrent, k: nat)
    requires TorrentInv(t) && TorrentSound(t) && k < |t.files|
    ensures BytesThere(t, k, t.trackers[k].Announced())
  {
    if k in t.complete {
      assert FileSound(t, k) && TrackerInv(t, k);
      FileBytes(t, k);
      AnnouncedFits(t.trackers[k], t.files[k].size);
    } else {
      TidyThere(t, k);
    }
  }

  lemma AnnouncedFits(t: T.Tracker, size: nat)
    requires t.size == size
    ensures t.Announced() <= size
  {
  }

  /** File k of the torrent has this path, and its first n bytes are on disk. */
  ghost predicate HasBytes(t: Torrent, k: nat, path: string, n: int) {
    t.pieceLength > 0 && k < |t.files| && t.files[k].path == path && forall i: nat :: i < n ==> ByteThere(t, k, i)
  }

  /** The torrent and the file that a message names have the bytes that it announces. */
  ghost predicate Truthful(c: Core, m: Message) {
    m.event.FileUpdate? ==>
      m.id in c.torrents && HasBytes(c.torrents[m.id], m.file, m.event.path, m.event.bytes)
  }

  // ----- Every step of an orderly run -----

  lemma SetTorrent(c: Core, id: nat, t: Torrent, outbox: seq<Message>)
    requires Inv(c) && Sound(c) && TorrentInv(t) && TorrentSound(t)
    ensures var d := Core(c.torrents[id := t], outbox); Inv(d) && Sound(d)
  {
    hide TorrentInv, TorrentSound;
  }

  /** An orderly step keeps the trackers sound. */
  lemma NextSound(c: Core, a: Action)
    requires Inv(c) && Sound(c) && Orderly(c, a)
    ensures Inv(Next(c, a)) && Sound(Next(c, a))
  {
    hide TorrentInv, TorrentSound, AfterPiece, AfterCompletion, NewTorrent, PieceEvents, FileThere, FileSound,
        NextInWindows;
    match a
    case AddTorrent(id, pieceLength, maxPartial, files, disk, start) =>
      if Geometry(pieceLength, files) {
        NewTorrentSound(pieceLength, maxPartial, files, disk, start);
        SetTorrent(c, id, NewTorrent(pieceLength, maxPartial, files, disk, start), AddEvents(id, files));
      }
    case PieceOnDisk(id, piece) =>
      if id in c.torrents {
        var t := c.torrents[id];
        SameFilesSound(t, t.(disk := t.disk + {piece}));
        SetTorrent(c, id, t.(disk := t.disk + {piece}), c.outbox);
      }
    case PieceFinished(id, piece) =>
      if Handles(c, id) {
        var t := c.torrents[id];
        TorrentMeans(t);
        PieceKeepsSound(t, piece);
        SetTorrent(c, id, AfterPiece(t, piece), PieceEvents(id, t, piece));
      }
    case FileComplete(id, index) =>
      if Handles(c, id) && index < |c.torrents[id].files| {
        var t := c.torrents[id];
        TorrentMeans(t);
        CompletionKeepsSound(t, index);
        SetTorrent(c, id, AfterCompletion(t, index), CompletionEvents(id, t, index));
      }
    case Delete(id) =>
      if id in c.torrents {
        var t := c.torrents[id];
        SameFilesSound(t, t.(deleted := true));
        SetTorrent(c, id, t.(deleted := true), RemoveEvents(id, t.files));
      }
  }

  /** A torrent keeps its files, and what is on disk stays there. */
  lemma TruthStays(c: Core, a: Action, m: Message)
    requires Inv(c) && Truthful(c, m)
    ensures Truthful(Next(c, a), m)
  {
    hide TorrentInv, PieceEvents, TF.Update, HasBytes, NewTorrent, Geometry;
    if m.event.FileUpdate? {
      assert m.id in Next(c, a).torrents;
      DiskGrows(c.torrents[m.id], Next(c, a).torrents[m.id], m.file, m.event.path, m.event.bytes);
    }
  }

  lemma DiskGrows(t: Torrent, u: Torrent, k: nat, path: string, n: int)
    requires HasBytes(t, k, path, n) && u.pieceLength == t.pieceLength && u.files == t.files && t.disk <= u.disk
    ensures HasBytes(u, k, path, n)
  {
    forall i: nat | i < n
      ensures ByteThere(u, k, i)
    {
      assert ByteThere(t, k, i);
    }
  }

  lemma PieceTruthful(c: Core, id: nat, t: Torrent, piece: int, m: Message)
    requires TorrentInv(t) && id in c.torrents && c.torrents[id] == AfterPiece(t, piece)
    requires TorrentInv(c.torrents[id]) && TorrentSound(c.torrents[id]) && |t.trackers| == |t.files|
    requires m in PieceEvents(id, t, piece)
    ensures Truthful(c, m)
  {
    var k := TF.Announces(t.trackers, piece);
    hide TorrentInv, TorrentSound, TF.Announces, TF.Update;
    AnnouncedThere(c.torrents[id], k);
    assert HasBytes(c.torrents[id], k, t.files[k].path, c.torrents[id].trackers[k].Announced());
  }

  lemma CompletionTruthful(c: Core, id: nat, t: Torrent, index: nat, m: Message)
    requires TorrentInv(t) && index < |t.files| && FileThere(t, index)
    requires id in c.torrents && c.torrents[id] == AfterCompletion(t, index) && m in CompletionEvents(id, t, index)
    ensures Truthful(c, m)
  {
    FileBytes(t, index);
    hide TorrentInv, FileThere;
    assert HasBytes(t, index, t.files[index].path, t.files[index].size);
    DiskGrows(t, c.torrents[id], index, t.files[index].path, t.files[index].size);
  }

  /** In an orderly run every announcement is on disk when it is made. */
  lemma NextTruthful(c: Core, a: Action)
    requires Inv(c) && Sound(c) && Orderly(c, a) && forall m :: m in c.outbox ==> Truthful(c, m)
    ensures Inv(Next(c, a)) && Sound(Next(c, a)) && forall m :: m in Next(c, a).outbox ==> Truthful(Next(c, a), m)
  {
    NextSound(c, a);
    var d := Next(c, a);
    forall m | m in d.outbox
      ensures Truthful(d, m)
    {
      if m.event.FileUpdate? {
        if m in c.outbox {
          TruthStays(c, a, m);
        } else {
          NewEventTruthful(c, a, m);
        }
      }
    }
  }

  lemma NewEventTruthful(c: Core, a: Action, m: Message)
    requires Inv(c) && Sound(c) && Orderly(c, a) && Inv(Next(c, a)) && Sound(Next(c, a))
    requires m in Next(c, a).outbox && m !in c.outbox && m.event.FileUpdate?
    ensures Truthful(Next(c, a), m)
  {
    hide TorrentSound, TorrentInv, Truthful, FileThere, PieceEvents, CompletionEvents, AfterPiece, AfterCompletion;
    match a
    case PieceFinished(id, piece) =>
      TorrentMeans(c.torrents[id]);
      PieceTruthful(Next(c, a), id, c.torrents[id], piece, m);
    case FileComplete(id, index) =>
      TorrentMeans(c.torrents[id]);
      CompletionTruthful(Next(c, a), id, c.torrents[id], index, m);
    case _ =>
  }

  // ----- Pieces in increasing order -----

  /** How many of the pieces before `next` file k is credited with. */
  function Count(t: Torrent, k: nat, next: nat): nat
    requires t.pieceLength > 0 && k < |t.files| && t.files[k].size > 0
  {
    var begin, last := Begin(t, k), LastPiece(t.pieceLength, t.files, k);
    if begin > last || next <= begin then 0 else if next > last then last + 1 - begin else next - begin
  }

  function Range(b: int, n: nat): seq<int> { seq(n, i => b + i) }

  /** So far the pieces of the torrent have finished one after the other. */
  ghost predicate Increasing(t: Torrent, next: nat)
    requires TorrentInv(t)
  {
    && t.start <= next
    && (forall p :: 0 <= p < next ==> p in t.disk)
    && forall k :: 0 <= k < |t.files| && k !in t.complete ==> Ascending(t, k, next)
  }

  ghost predicate Ascending(t: Torrent, k: nat, next: nat)
    requires Geometry(t.pieceLength, t.files) && k < |t.files| == |t.credited|
  {
    t.credited[k] == Range(Begin(t, k), Count(t, k, next))
  }

  /** Which files the next piece counts for. */
  lemma PieceCounts(t: Torrent, k: nat, next: nat)
    requires TorrentInv(t) && k < |t.files| && t.start <= next
    ensures if TF.FirstInRange(t.trackers, next) == k
            then Count(t, k, next + 1) == Count(t, k, next) + 1 && Begin(t, k) + Count(t, k, next) == next
            else Count(t, k, next + 1) == Count(t, k, next)
  {
    CreditedIff(t, k, next);
    hide FirstPiece, LastPiece, TF.FirstInRange;
  }

  lemma RangeMore(b: int, n: nat)
    ensures Range(b, n) + [b + n] == Range(b, n + 1)
  {
  }

  /**
   When the pieces finish one after the other, each file sees its own from its first credited piece on, without a
   gap.
   */
  lemma PieceKeepsIncreasing(t: Torrent, next: nat)
    requires TorrentInv(t) && Increasing(t, next)
    ensures TorrentInv(AfterPiece(t, next)) && Increasing(AfterPiece(t, next), next + 1)
  {
    AfterPieceInv(t, next);
    TorrentMeans(t);
    var u := AfterPiece(t, next);
    hide TorrentInv, Range, Begin, Count, TF.FirstInRange, TF.Update;
    forall k | 0 <= k < |t.files| && k !in t.complete
      ensures Ascending(u, k, next + 1)
    {
      assert Ascending(t, k, next);
      PieceCounts(t, k, next);
      SameCounts(t, u, k, next + 1);
      RangeMore(Begin(t, k), Count(t, k, next));
    }
  }

  lemma SameCounts(t: Torrent, u: Torrent, k: nat, next: nat)
    requires t.pieceLength > 0 && k < |t.files| && t.files[k].size > 0
    requires u.pieceLength == t.pieceLength && u.files == t.files && u.start == t.start
    ensures Begin(u, k) == Begin(t, k) && Count(u, k, next) == Count(t, k, next)
  {
  }

  /** Pieces in increasing order are a special case of pieces that come window by window. */
  lemma IncreasingIsOrderly(t: Torrent, next: nat)
    requires TorrentInv(t) && Increasing(t, next)
    ensures NextInWindows(t, next)
  {
    TorrentMeans(t);
    var k := TF.FirstInRange(t.trackers, next);
    if k < |t.files| && k !in t.complete {
      assert Ascending(t, k, next);
      PieceCounts(t, k, next);
      CreditedIff(t, k, next);
      hide TorrentInv, Begin, Count, FirstPiece, LastPiece, TF.FirstInRange;
      RangeMore(Begin(t, k), Count(t, k, next));
      if t.trackers[k].pieces >= 2 {
        TrackerWindow(t, k);
        TW.ConsecutiveInWindows(t.trackers[k].chocked, Begin(t, k), Range(Begin(t, k), Count(t, k, next) + 1));
      }
    }
  }

  lemma TrackerWindow(t: Torrent, k: nat)
    requires TorrentInv(t) && k < |t.files| && t.trackers[k].pieces >= 2
    ensures t.trackers[k].chocked > 0
  {
    assert TrackerInv(t, k);
  }

  lemma NewIncreasing(pieceLength: nat, maxPartial: nat, files: seq<Spec>, disk: set<int>, start: nat)
    requires Geometry(pieceLength, files) && forall p :: 0 <= p < start ==> p in disk
    ensures var t := NewTorrent(pieceLength, maxPartial, files, disk, start); TorrentInv(t) && Increasing(t, start)
  {
    NewTorrentInv(pieceLength, maxPartial, files, disk, start);
    var t := NewTorrent(pieceLength, maxPartial, files, disk, start);
    hide TorrentInv, T.Fresh;
    forall k | 0 <= k < |files|
      ensures Ascending(t, k, start)
    {
    }
  }

  lemma CompletionKeepsIncreasing(t: Torrent, index: nat, next: nat)
    requires TorrentInv(t) && Increasing(t, next) && index < |t.files|
    ensures TorrentInv(AfterCompletion(t, index)) && Increasing(AfterCompletion(t, index), next)
  {
    AfterCompletionInv(t, index);
    TorrentMeans(t);
    var u := AfterCompletion(t, index);
    hide TorrentInv, Range, Begin, Count;
    forall k | 0 <= k < |t.files| && k !in u.complete
      ensures Ascending(u, k, next)
    {
      assert Ascending(t, k, next);
      SameCounts(t, u, k, next);
    }
  }

  lemma SameFilesIncreasing(t: Torrent, u: Torrent, next: nat)
    requires TorrentInv(t) && Increasing(t, next)
    requires u == t.(disk := u.disk, deleted := u.deleted) && t.disk <= u.disk
    ensures TorrentInv(u) && Increasing(u, next)
  {
    SameTrackers(t, u);
    TorrentMeans(t);
    hide TorrentInv, Range, Begin, Count;
    forall k | 0 <= k < |t.files| && k !in u.complete
      ensures Ascending(u, k, next)
    {
      assert Ascending(t, k, next);
      SameCounts(t, u, k, next);
    }
  }

  ghost predicate InOrder(c: Core, next: map<nat, nat>)
    requires Inv(c)
  {
    forall id :: id in c.torrents ==> id in next && Increasing(c.torrents[id], next[id])
  }

  /** The alerts of torrents whose pieces finish one after the other. */
  ghost predicate NextInOrder(c: Core, a: Action, next: map<nat, nat>)
    requires Inv(c)
  {
    match a
    case PieceFinished(id, piece) => Handles(c, id) && id in next ==> piece == next[id]
    case _ => Orderly(c, a)
  }

  function Advance(c: Core, a: Action, next: map<nat, nat>): map<nat, nat> {
    match a
    case AddTorrent(id, pieceLength, maxPartial, files, disk, start) =>
      if id in c.torrents then next else next[id := start]
    case PieceFinished(id, piece) =>
      if Handles(c, id) && id in next then next[id := next[id] + 1] else next
    case _ => next
  }

  lemma SetIncreasing(c: Core, next: map<nat, nat>, id: nat, t: Torrent, n: nat, outbox: seq<Message>)
    requires Inv(c) && InOrder(c, next) && TorrentInv(t) && Increasing(t, n)
    ensures var d := Core(c.torrents[id := t], outbox); Inv(d) && InOrder(d, next[id := n])
  {
    hide TorrentInv, Increasing;
  }

  lemma AddInOrder(c: Core, a: Action, next: map<nat, nat>)
    requires Inv(c) && InOrder(c, next) && a.AddTorrent? && Orderly(c, a)
    ensures Inv(Next(c, a)) && InOrder(Next(c, a), Advance(c, a, next))
  {
    hide TorrentInv, Increasing, NewTorrent, Geometry;
    NextInv(c, a);
    if a.id !in c.torrents && c.outbox == [] && Geometry(a.pieceLength, a.files) {
      NewIncreasing(a.pieceLength, a.maxPartial, a.files, a.disk, a.start);
    }
  }

  lemma PieceInOrder(c: Core, a: Action, next: map<nat, nat>)
    requires Inv(c) && InOrder(c, next) && a.PieceFinished? && NextInOrder(c, a, next)
    ensures Orderly(c, a) && Inv(Next(c, a)) && InOrder(Next(c, a), Advance(c, a, next))
  {
    hide TorrentInv, Increasing, AfterPiece, PieceEvents, NextInWindows;
    NextInv(c, a);
    if Handles(c, a.id) {
      var t := c.torrents[a.id];
      TorrentMeans(t);
      IncreasingIsOrderly(t, a.piece);
      PieceKeepsIncreasing(t, a.piece);
      SetIncreasing(c, next, a.id, AfterPiece(t, a.piece), a.piece + 1, PieceEvents(a.id, t, a.piece));
    }
  }

  lemma CompletionInOrder(c: Core, a: Action, next: map<nat, nat>)
    requires Inv(c) && InOrder(c, next) && a.FileComplete?
    ensures Inv(Next(c, a)) && InOrder(Next(c, a), next)
  {
    hide TorrentInv, Increasing, AfterCompletion;
    NextInv(c, a);
    if Handles(c, a.id) && a.index < |c.torrents[a.id].files| {
      TorrentMeans(c.torrents[a.id]);
      CompletionKeepsIncreasing(c.torrents[a.id], a.index, next[a.id]);
    }
  }

  lemma OtherInOrder(c: Core, a: Action, next: map<nat, nat>)
    requires Inv(c) && InOrder(c, next) && (a.PieceOnDisk? || a.Delete?)
    ensures Inv(Next(c, a)) && InOrder(Next(c, a), next)
  {
    hide TorrentInv, Increasing;
    NextInv(c, a);
    if a.id in c.torrents {
      var t := c.torrents[a.id];
      SameFilesIncreasing(t, Next(c, a).torrents[a.id], next[a.id]);
    }
  }

  /** Torrents whose pieces finish one after the other are orderly, and stay so. */
  lemma InOrderIsOrderly(c: Core, a: Action, next: map<nat, nat>)
    requires Inv(c) && InOrder(c, next) && NextInOrder(c, a, next)
    ensures Orderly(c, a) && Inv(Next(c, a)) && InOrder(Next(c, a), Advance(c, a, next))
  {
    hide InOrder, Inv, Next;
    match a
    case AddTorrent(id, pieceLength, maxPartial, files, disk, start) => AddInOrder(c, a, next);
    case PieceFinished(id, piece) => PieceInOrder(c, a, next);
    case FileComplete(id, index) => CompletionInOrder(c, a, next);
    case _ => OtherInOrder(c, a, next);
  }
}
