/**
 The sequential-piece tracker of one torrent file: how many leading pieces are present,
 and therefore how many bytes may be streamed.

 `Report` is the transition that one finished piece makes. The class in TrackedFile.dfy
 performs it step by step; the lemmas of TrackerRuns.dfy are about runs of it.
 */
module SequentialTracker {
  import opened Sorting

  const INT_MAX := 0x7fff_ffff
  const OFF_RECHECK := -1
  const RECHECK_LIMIT := 5

  datatype Tracker = Tracker(
    pieces: nat,       // one less than the number of pieces the file touches
    firstPiece: nat,
    size: nat,
    blockSize: nat,
    chocked: nat,      // length of a window of pieces
    av: seq<int>,      // piece numbers in arrival order, sorted by each window check
    total: nat,
    window: nat,       // pieces counted since the last complete window
    avBytes: nat,
    lastAv: nat,
    endAv: nat,
    lastSlot: nat,
    recheck: int)
  {
    function LastPiece(): nat { firstPiece + pieces }

    predicate InRange(piece: int) { firstPiece <= piece <= LastPiece() }

    /** The controller never announces more than the size of the file. */
    function Announced(): nat { if avBytes > size then size else avBytes }
  }

  function DownloadOffset(maxPartial: nat, size: nat, blockSize: nat, pieces: nat): nat
    requires blockSize > 0
  {
    var offset := PieceOf(maxPartial, blockSize);
    if offset < 10 then 10
    else if maxPartial >= size || offset >= pieces then pieces
    else offset
  }

  /**
   How many blocks a window has, by what may be downloaded ahead: ten when that is less than ten blocks, all pieces
   when it is the whole file or reaches the pieces, and otherwise its whole blocks.
   */
  lemma WindowLength(maxPartial: nat, size: nat, blockSize: nat, pieces: nat, blocks: nat)
    requires blockSize > 0 && blocks * blockSize <= maxPartial < (blocks + 1) * blockSize
    ensures maxPartial < 10 * blockSize ==> DownloadOffset(maxPartial, size, blockSize, pieces) == 10
    ensures maxPartial >= 10 * blockSize && (maxPartial >= size || maxPartial >= pieces * blockSize) ==>
      DownloadOffset(maxPartial, size, blockSize, pieces) == pieces
    ensures maxPartial >= 10 * blockSize && maxPartial < size && maxPartial < pieces * blockSize ==>
      DownloadOffset(maxPartial, size, blockSize, pieces) == blocks
  {
    BlocksAreUnique(maxPartial, blockSize, blocks, PieceOf(maxPartial, blockSize));
    hide PieceOf;
    BlocksAgainst(maxPartial, blockSize, blocks, 10);
    BlocksAgainst(maxPartial, blockSize, blocks, pieces);
  }

  lemma BlocksAgainst(n: nat, d: nat, blocks: nat, k: nat)
    requires d > 0 && blocks * d <= n < (blocks + 1) * d
    ensures blocks < k <==> n < k * d
  {
    if blocks < k {
      ProductMonotone(blocks + 1, k, d);
    } else {
      ProductMonotone(k, blocks, d);
    }
  }

  lemma BlocksAreUnique(n: nat, d: nat, x: nat, y: nat)
    requires d > 0 && x * d <= n < (x + 1) * d && y * d <= n < y * d + d
    ensures x == y
  {
    if x < y { ProductMonotone(x + 1, y, d); }
    if y < x { ProductMonotone(y + 1, x, d); }
    assert (y + 1) * d == y * d + d;
  }

  /** The piece that holds byte `position` of the torrent. */
  function PieceOf(position: nat, pieceLength: nat): (p: nat)
    requires pieceLength > 0
    ensures p * pieceLength <= position < p * pieceLength + pieceLength
  {
    position / pieceLength
  }

  lemma PieceOfMonotone(a: nat, b: nat, pieceLength: nat)
    requires a <= b && pieceLength > 0
    ensures PieceOf(a, pieceLength) <= PieceOf(b, pieceLength)
  {
    var p, q := PieceOf(a, pieceLength), PieceOf(b, pieceLength);
    if p > q {
      ProductMonotone(q + 1, p, pieceLength);
      assert false;
    }
  }

  lemma ProductMonotone(x: nat, y: nat, d: nat)
    requires x <= y
    ensures x * d <= y * d
  {
  }

  /** A file of `size` bytes that starts `offset` bytes into a torrent cut into pieces of `pieceLength` bytes. */
  function Fresh(offset: nat, size: nat, pieceLength: nat, maxPartial: nat): (t: Tracker)
    requires size > 0 && pieceLength > 0
  {
    var first := PieceOf(offset, pieceLength);
    var last := PieceOf(offset + size - 1, pieceLength);
    PieceOfMonotone(offset, offset + size - 1, pieceLength);
    var pieces := last - first;
    var blockSize := if pieceLength > size then size else pieceLength;
    var chocked := DownloadOffset(maxPartial, size, blockSize, pieces);
    Tracker(pieces, first, size, blockSize, chocked, seq(pieces + 1, _ => INT_MAX), 0, 0, 0, 0, chocked, 0, OFF_RECHECK)
  }

  /** Once a file is complete its window restarts, but the end of the window and the announced bytes stay. */
  function Reinit(t: Tracker): Tracker {
    t.(recheck := OFF_RECHECK, lastAv := 0, lastSlot := 0, window := 0, total := 0,
       av := seq(|t.av|, _ => INT_MAX))
  }

  /** The sizes that a tracked file keeps from its creation on. */
  ghost predicate Shape(t: Tracker) {
    && |t.av| == t.pieces + 1
    && t.lastSlot == t.total <= t.pieces
    && t.window <= t.total
    && t.blockSize > 0
    && t.LastPiece() < INT_MAX - 1
  }

  // ----- One finished piece -----

  /** Throwing stands for the out-of-range exception of a checked vector access. */
  datatype Outcome = Updated(next: Tracker, announce: bool) | Threw(next: Tracker)

  datatype ScanResult = Stopped(last: nat) | OutOfRange(last: nat)

  /** The walk over one window: remember the last position whose successor holds the next piece. */
  function Scan(av: seq<int>, it: nat, end: nat, last: nat, stopAtGap: bool): (r: ScanResult)
    decreases end - it
  {
    if it >= end || it == |av| then Stopped(last)
    else if it + 1 >= |av| then OutOfRange(last)
    else if av[it] == av[it + 1] - 1 then Scan(av, it + 1, end, it, stopAtGap)
    else if stopAtGap then Stopped(last)
    else Scan(av, it + 1, end, last, stopAtGap)
  }

  function Counted(t: Tracker): Tracker {
    if t.total + 1 > t.pieces then t.(total := t.pieces)
    else t.(total := t.total + 1, window := t.window + 1, lastSlot := t.lastSlot + 1,
            recheck := if t.recheck != OFF_RECHECK then t.recheck + 1 else t.recheck)
  }

  predicate CheckDue(t: Tracker) {
    (t.window >= t.chocked || t.recheck > RECHECK_LIMIT) && t.total < t.pieces
  }

  /** Both positions are unsigned in the source, so an end of 0 is never reached. */
  predicate WindowComplete(t: Tracker) { t.endAv > 0 && t.lastAv >= t.endAv - 1 }

  function CloseWindow(t: Tracker): Outcome {
    var next :=
      if WindowComplete(t) then
        t.(lastAv := t.endAv, endAv := t.endAv + t.chocked, window := 0, recheck := OFF_RECHECK)
      else
        t.(recheck := t.recheck + 1);
    var bytes := next.lastAv * next.blockSize;
    if next.avBytes < bytes then Updated(next.(avBytes := bytes), true) else Updated(next, false)
  }

  /** Sort what was reported so far, walk the window, and close it when the walk reached its end. */
  function Check(counted: Tracker): (o: Outcome)
    requires Shape(counted)
    ensures Shape(o.next)
  {
    var sorted := counted.(av := SortPrefix(counted.av, counted.total));
    match Scan(sorted.av, sorted.lastAv, sorted.endAv, sorted.lastAv, sorted.recheck == OFF_RECHECK)
    case OutOfRange(last) => Threw(sorted.(lastAv := last))
    case Stopped(last) => CloseWindow(sorted.(lastAv := last))
  }

  function Report(t: Tracker, piece: int): (o: Outcome)
    requires Shape(t)
    ensures Shape(o.next)
  {
    if !t.InRange(piece) then Updated(t, false)
    else
      var counted := Counted(t.(av := t.av[t.lastSlot := piece]));
      if CheckDue(counted) then Check(counted) else Updated(counted, false)
  }

  // ----- What every report keeps, in any order of arrival -----

  ghost predicate Slots(t: Tracker)
    requires Shape(t)
  {
    && (forall k :: 0 <= k < t.total ==> t.InRange(t.av[k]))
    && (t.total < t.pieces ==> forall k :: t.total <= k <= t.pieces ==> t.av[k] == INT_MAX)
  }

  ghost predicate Windows(t: Tracker) {
    && t.recheck >= OFF_RECHECK
    && t.lastAv <= t.total
    && t.lastAv <= t.endAv
    && (t.pieces <= 1 ==> t.lastAv == 0)
    && (t.pieces >= 2 ==> t.chocked >= 2 && t.lastAv + 2 <= t.endAv)
    // The retry counter only runs in a window that is already full.
    && (t.recheck != OFF_RECHECK ==> t.window >= t.chocked)
  }

  ghost predicate Inv(t: Tracker) {
    Shape(t) && Slots(t) && Windows(t)
  }

  lemma FreshInv(offset: nat, size: nat, pieceLength: nat, maxPartial: nat)
    requires size > 0 && pieceLength > 0
    requires PieceOf(offset + size - 1, pieceLength) < INT_MAX - 1
    ensures Inv(Fresh(offset, size, pieceLength, maxPartial))
    ensures Fresh(offset, size, pieceLength, maxPartial).LastPiece() == PieceOf(offset + size - 1, pieceLength)
  {
  }

  lemma {:induction false} ScanFindsPair(av: seq<int>, it: nat, end: nat, last: nat, stopAtGap: bool)
    ensures var found := Scan(av, it, end, last, stopAtGap).last;
            found == last || (it <= found < end && found + 1 < |av| && av[found] == av[found + 1] - 1)
    decreases end - it
  {
    if it >= end || it + 1 >= |av| {
    } else if av[it] == av[it + 1] - 1 {
      ScanFindsPair(av, it + 1, end, it, stopAtGap);
    } else if !stopAtGap {
      ScanFindsPair(av, it + 1, end, last, stopAtGap);
    }
  }

  /** Without a retry the walk stops at the first gap, so it never runs off the vector. */
  lemma {:induction false} ScanStopsAtGap(av: seq<int>, it: nat, end: nat, last: nat, gap: nat)
    requires it <= gap && gap + 1 < |av| && av[gap] != av[gap + 1] - 1
    ensures Scan(av, it, end, last, true).Stopped?
    decreases gap - it
  {
    if it < end && it < gap && av[it] == av[it + 1] - 1 {
      ScanStopsAtGap(av, it + 1, end, it, gap);
    }
  }

  /** A retry walks past gaps, so it runs off the vector exactly when the window ends behind it. */
  lemma {:induction false} ScanRunsOff(av: seq<int>, it: nat, end: nat, last: nat)
    requires it < |av|
    ensures Scan(av, it, end, last, false).OutOfRange? <==> it < end && |av| <= end
    decreases end - it
  {
    if it < end && it + 1 < |av| {
      ScanRunsOff(av, it + 1, end, if av[it] == av[it + 1] - 1 then it else last);
    }
  }

  lemma SortPrefixSlots(t: Tracker)
    requires Shape(t) && Slots(t) && t.total < t.pieces
    ensures Slots(t.(av := SortPrefix(t.av, t.total)))
    ensures IsSorted(SortPrefix(t.av, t.total)[..t.total])
    ensures multiset(SortPrefix(t.av, t.total)[..t.total]) == multiset(t.av[..t.total])
  {
    var s := Sorted(t.av[..t.total]);
    SortedSorts(t.av[..t.total]);
    SortedPermutes(t.av[..t.total]);
    assert SortPrefix(t.av, t.total)[..t.total] == s;
    forall k | 0 <= k < t.total ensures t.InRange(s[k]) {
      assert s[k] in multiset(t.av[..t.total]);
    }
  }

  lemma CountedInv(t: Tracker, piece: int)
    requires Inv(t) && t.InRange(piece)
    ensures Inv(Counted(t.(av := t.av[t.lastSlot := piece])))
  {
  }

  lemma CheckScan(c: Tracker)
    requires Inv(c) && c.total < c.pieces && c.pieces >= 2
    ensures var scan := Scan(c.av, c.lastAv, c.endAv, c.lastAv, c.recheck == OFF_RECHECK);
            && (scan.OutOfRange? <==> c.recheck != OFF_RECHECK && c.endAv > c.pieces)
            && (scan.last == c.lastAv || (scan.last + 1 < c.total && scan.last < c.endAv))
            && (scan.OutOfRange? ==> scan.last + 2 <= c.endAv)
  {
    ScanFindsPair(c.av, c.lastAv, c.endAv, c.lastAv, c.recheck == OFF_RECHECK);
    assert c.av[c.total] == INT_MAX && c.av[c.total + 1] == INT_MAX;
    if c.recheck == OFF_RECHECK {
      ScanStopsAtGap(c.av, c.lastAv, c.endAv, c.lastAv, c.total);
    } else {
      ScanRunsOff(c.av, c.lastAv, c.endAv, c.lastAv);
    }
  }

  lemma CloseWindowInv(c: Tracker, last: nat)
    requires Inv(c) && c.total < c.pieces && c.pieces >= 2 && c.window >= c.chocked
    requires last == c.lastAv || (last + 1 < c.total && last < c.endAv)
    ensures CloseWindow(c.(lastAv := last)).Updated? && Inv(CloseWindow(c.(lastAv := last)).next)
  {
  }

  /** A check keeps the invariant, and throws exactly on a retry whose window ends behind the vector. */
  lemma CheckInv(c: Tracker)
    requires Inv(c) && c.total < c.pieces && c.pieces >= 2 && c.window >= c.chocked
    ensures Inv(Check(c).next) && c.avBytes <= Check(c).next.avBytes
    ensures Check(c).Threw? <==> c.recheck != OFF_RECHECK && c.endAv > c.pieces
    ensures Check(c).Updated? && Check(c).announce <==> Check(c).next.avBytes > c.avBytes
  {
    SortPrefixSlots(c);
    var sorted := c.(av := SortPrefix(c.av, c.total));
    CheckScan(sorted);
    var scan := Scan(sorted.av, sorted.lastAv, sorted.endAv, sorted.lastAv, sorted.recheck == OFF_RECHECK);
    if scan.Stopped? {
      CloseWindowInv(sorted, scan.last);
    }
  }

  /** A report of any piece, in any order, keeps the invariant, even when it ends in the exception. */
  lemma ReportInv(t: Tracker, piece: int)
    requires Inv(t)
    ensures Inv(Report(t, piece).next)
    ensures t.avBytes <= Report(t, piece).next.avBytes
    ensures Report(t, piece).Updated? && Report(t, piece).announce <==> Report(t, piece).next.avBytes > t.avBytes
  {
    if t.InRange(piece) {
      var counted := Counted(t.(av := t.av[t.lastSlot := piece]));
      CountedInv(t, piece);
      if CheckDue(counted) {
        CheckInv(counted);
      }
    }
  }

  /** The exception is thrown exactly on a retry whose window ends behind the vector. */
  lemma ReportThrows(t: Tracker, piece: int)
    requires Inv(t)
    ensures Report(t, piece).Threw? <==>
            && t.InRange(piece) && CheckDue(Counted(t.(av := t.av[t.lastSlot := piece])))
            && t.recheck != OFF_RECHECK && t.endAv > t.pieces
  {
    if t.InRange(piece) {
      var counted := Counted(t.(av := t.av[t.lastSlot := piece]));
      CountedInv(t, piece);
      if CheckDue(counted) {
        CheckInv(counted);
      }
    }
  }

  /** The retry limit never decides: a running retry counter already implies a full window. */
  lemma RetryLimitIsRedundant(t: Tracker)
    requires Inv(t)
    ensures CheckDue(t) <==> t.window >= t.chocked && t.total < t.pieces
  {
  }

  lemma ReinitInv(t: Tracker)
    requires Inv(t)
    ensures Inv(Reinit(t))
  {
  }
}
