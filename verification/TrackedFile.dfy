/**
 The mutable record of one file of a torrent, and the list of them that a finished piece is looked up in.
 */
module TrackedFile {
  import opened Sorting
  import T = SequentialTracker
  import TF = TorrentFiles

  class FileInfo {
    const pieces: nat
    const piecesRangeFirst: nat
    const piecesRangeLast: nat
    const size: nat
    const blockSize: nat
    const chockedRange: nat
    var avPieces: seq<int>
    var totalPiecesDownloadCount: nat
    var piecesDownloadCount: nat
    var avaliableBytes: nat
    var lastAvPos: nat
    var endAvPos: nat
    var lastAvPiecesPos: nat
    var recheckAv: int

    ghost function State(): T.Tracker
      reads this
    {
      T.Tracker(pieces, piecesRangeFirst, size, blockSize, chockedRange,
                avPieces, totalPiecesDownloadCount, piecesDownloadCount, avaliableBytes,
                lastAvPos, endAvPos, lastAvPiecesPos, recheckAv)
    }

    ghost predicate Valid()
      reads this
    {
      piecesRangeLast == piecesRangeFirst + pieces && T.Inv(State())
    }

    constructor (offset: nat, size: nat, pieceLength: nat, maxPartial: nat)
      requires size > 0 && pieceLength > 0
      requires T.PieceOf(offset + size - 1, pieceLength) < T.INT_MAX - 1
      ensures Valid()
      ensures State() == T.Fresh(offset, size, pieceLength, maxPartial)
    {
      T.FreshInv(offset, size, pieceLength, maxPartial);
      var first := T.PieceOf(offset, pieceLength);
      var last := T.PieceOf(offset + size - 1, pieceLength);
      piecesRangeFirst, piecesRangeLast := first, last;
      this.size := size;
      var block := if pieceLength > size then size else pieceLength;
      blockSize := block;
      T.PieceOfMonotone(offset, offset + size - 1, pieceLength);
      var count := last - first;
      pieces := count;
      var chocked := T.DownloadOffset(maxPartial, size, block, count);
      endAvPos, chockedRange := chocked, chocked;
      recheckAv := T.OFF_RECHECK;
      lastAvPos, lastAvPiecesPos, piecesDownloadCount, avaliableBytes, totalPiecesDownloadCount := 0, 0, 0, 0, 0;
      avPieces := seq(count + 1, _ => T.INT_MAX);
    }

    predicate PieceInRange(piece: int)
      requires Valid()
      reads this
      ensures PieceInRange(piece) == State().InRange(piece)
    {
      piecesRangeFirst <= piece <= piecesRangeLast
    }

    method UpdateCounters()
      modifies this
      ensures State() == T.Counted(old(State()))
      ensures if old(totalPiecesDownloadCount) + 1 > pieces
              then State() == old(State()).(total := pieces)
              else && totalPiecesDownloadCount == old(totalPiecesDownloadCount) + 1
                   && piecesDownloadCount == old(piecesDownloadCount) + 1
                   && lastAvPiecesPos == old(lastAvPiecesPos) + 1
                   && recheckAv == old(if recheckAv == T.OFF_RECHECK then recheckAv else recheckAv + 1)
    {
      if totalPiecesDownloadCount + 1 > pieces {
        totalPiecesDownloadCount := pieces;
        return;
      }
      totalPiecesDownloadCount := totalPiecesDownloadCount + 1;
      piecesDownloadCount := piecesDownloadCount + 1;
      lastAvPiecesPos := lastAvPiecesPos + 1;
      if recheckAv != T.OFF_RECHECK {
        recheckAv := recheckAv + 1;
      }
    }

    /** Walk the current window; `threw` is the exception of the checked access behind the last slot. */
    method ScanWindow() returns (threw: bool)
      modifies this`lastAvPos
      ensures var scan := T.Scan(avPieces, old(lastAvPos), endAvPos, old(lastAvPos), recheckAv == T.OFF_RECHECK);
              threw == scan.OutOfRange? && lastAvPos == scan.last
    {
      var it := lastAvPos;
      threw := false;
      while it < endAvPos
        invariant T.Scan(avPieces, it, endAvPos, lastAvPos, recheckAv == T.OFF_RECHECK)
               == T.Scan(avPieces, old(lastAvPos), endAvPos, old(lastAvPos), recheckAv == T.OFF_RECHECK)
        decreases endAvPos - it
      {
        if |avPieces| == it {
          break;
        }
        if it + 1 >= |avPieces| {
          threw := true;
          return;
        }
        if avPieces[it] == avPieces[it + 1] - 1 {
          lastAvPos := it;
        } else if recheckAv == T.OFF_RECHECK {
          break;
        }
        it := it + 1;
      }
    }

    method CloseWindow() returns (announce: bool)
      modifies this
      ensures T.CloseWindow(old(State())) == T.Updated(State(), announce)
    {
      if endAvPos > 0 && lastAvPos >= endAvPos - 1 {
        lastAvPos := endAvPos;
        endAvPos := lastAvPos + chockedRange;
        piecesDownloadCount := 0;
        recheckAv := T.OFF_RECHECK;
      } else {
        recheckAv := recheckAv + 1;
      }
      var bytes := lastAvPos * blockSize;
      if avaliableBytes < bytes {
        avaliableBytes := bytes;
        return true;
      }
      return false;
    }

    /** A piece of this file has finished. */
    method Report(piece: int) returns (threw: bool, announce: bool)
      requires Valid() && State().InRange(piece)
      modifies this
      ensures Valid()
      ensures T.Report(old(State()), piece) == if threw then T.Threw(State()) else T.Updated(State(), announce)
    {
      T.ReportInv(State(), piece);
      threw, announce := false, false;
      avPieces := avPieces[lastAvPiecesPos := piece];
      UpdateCounters();
      if (piecesDownloadCount >= chockedRange || recheckAv > T.RECHECK_LIMIT)
         && totalPiecesDownloadCount < pieces {
        avPieces := SortPrefix(avPieces, totalPiecesDownloadCount);
        threw := ScanWindow();
        if !threw {
          announce := CloseWindow();
        }
      }
    }

    /** The file is complete. */
    method Reinit()
      requires Valid()
      modifies this
      ensures Valid() && State() == T.Reinit(old(State()))
    {
      T.ReinitInv(State());
      recheckAv := T.OFF_RECHECK;
      lastAvPos, lastAvPiecesPos, piecesDownloadCount, totalPiecesDownloadCount := 0, 0, 0, 0;
      avPieces := seq(|avPieces|, _ => T.INT_MAX);
    }
  }

  ghost function States(files: seq<FileInfo>): (r: seq<T.Tracker>)
    reads files
    ensures |r| == |files|
  {
    seq(|files|, i requires 0 <= i < |files| reads files => files[i].State())
  }

  lemma AllAreShaped(files: seq<FileInfo>)
    requires forall f :: f in files ==> f.Valid()
    ensures TF.AllShaped(States(files))
  {
    forall i | 0 <= i < |files|
      ensures T.Shape(States(files)[i])
    {
      assert files[i].Valid();
    }
  }

  /**
   A finished piece is credited to the first file it overlaps and to no other, even when it spans two files.
   The announcement names that file.
   */
  method FileInfoUpdate(files: seq<FileInfo>, piece: int) returns (threw: bool, announced: FileInfo?)
    requires forall f :: f in files ==> f.Valid()
    requires forall i, j :: 0 <= i < j < |files| ==> files[i] != files[j]
    modifies files
    ensures forall f :: f in files ==> f.Valid()
    ensures TF.AllShaped(old(States(files))) && States(files) == TF.Update(old(States(files)), piece)
    ensures threw == TF.Throws(old(States(files)), piece)
    ensures var k := TF.Announces(old(States(files)), piece); announced == if k >= 0 then files[k] else null
  {
    hide FileInfo.Valid, T.Report, T.Inv, T.Shape;
    AllAreShaped(files);
    threw, announced := false, null;
    ghost var before := States(files);
    for i := 0 to |files|
      invariant forall j :: 0 <= j < i ==> !before[j].InRange(piece)
      invariant forall f :: f in files ==> f.Valid()
      invariant States(files) == before && !threw && announced == null
    {
      var file := files[i];
      assert before[i] == file.State();
      if file.PieceInRange(piece) {
        TF.FirstInRangeAt(before, piece, i);
        var announce;
        threw, announce := file.Report(piece);
        announced := if announce && !threw then file else null;
        assert forall j :: 0 <= j < |files| && j != i ==> files[j].State() == before[j];
        return;
      }
    }
    TF.FirstInRangeAt(before, piece, |files|);
  }
}
