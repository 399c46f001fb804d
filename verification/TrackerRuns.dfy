/**
 What whole runs of the sequential tracker guarantee: under every order of arrival,
 and exactly when the pieces arrive in increasing order.
 */
module TrackerRuns {
  import opened Sorting
  import opened SequentialTracker

  datatype Alert = PieceFinished(piece: int) | FileComplete

  function Step(t: Tracker, a: Alert): Tracker
    requires Shape(t)
    ensures Shape(Step(t, a))
  {
    match a
    case PieceFinished(piece) => Report(t, piece).next
    case FileComplete => Reinit(t)
  }

  function Run(t: Tracker, alerts: seq<Alert>): Tracker
    requires Shape(t)
    ensures Shape(Run(t, alerts))
  {
    if alerts == [] then t else Step(Run(t, alerts[..|alerts| - 1]), alerts[|alerts| - 1])
  }

  /** The pieces of this file that were reported since the file was last complete. */
  function Reported(t: Tracker, alerts: seq<Alert>): seq<int> {
    if alerts == [] then []
    else
      var before := Reported(t, alerts[..|alerts| - 1]);
      match alerts[|alerts| - 1]
      case PieceFinished(piece) => if t.InRange(piece) then before + [piece] else before
      case FileComplete => []
  }

  predicate SameFile(t: Tracker, u: Tracker) {
    && t.pieces == u.pieces && t.firstPiece == u.firstPiece && t.size == u.size
    && t.blockSize == u.blockSize && t.chocked == u.chocked
  }

  // ----- Any order of arrival -----

  /** The tracker remembers exactly the first reports, up to order. */
  ghost predicate Remembers(t: Tracker, reported: seq<int>)
    requires Shape(t)
  {
    && t.total == (if |reported| < t.pieces then |reported| else t.pieces)
    && multiset(t.av[..t.total]) == multiset(reported[..t.total])
  }

  lemma StoredRemembers(t: Tracker, piece: int, reported: seq<int>)
    requires Inv(t) && t.InRange(piece) && Remembers(t, reported)
    ensures Remembers(Counted(t.(av := t.av[t.lastSlot := piece])), reported + [piece])
  {
    hide Slots, Windows;
    if t.total < t.pieces {
      StoredNext(t.av, t.total, piece, reported);
    } else {
      StoredLast(t.av, t.total, piece, reported);
    }
  }

  lemma StoredNext(av: seq<int>, n: nat, piece: int, reported: seq<int>)
    requires n < |av| && n == |reported| && multiset(av[..n]) == multiset(reported[..n])
    ensures multiset(av[n := piece][..n + 1]) == multiset((reported + [piece])[..n + 1])
  {
    assert av[n := piece][..n + 1] == av[..n] + [piece];
    assert (reported + [piece])[..n + 1] == reported[..n] + [piece];
  }

  lemma StoredLast(av: seq<int>, n: nat, piece: int, reported: seq<int>)
    requires n < |av| && n <= |reported| && multiset(av[..n]) == multiset(reported[..n])
    ensures multiset(av[n := piece][..n]) == multiset((reported + [piece])[..n])
  {
    assert av[n := piece][..n] == av[..n];
    assert (reported + [piece])[..n] == reported[..n];
  }

  lemma CheckRemembers(c: Tracker, reported: seq<int>)
    requires Shape(c) && Slots(c) && c.total < c.pieces && Remembers(c, reported)
    ensures Remembers(Check(c).next, reported) && SameFile(c, Check(c).next)
  {
    SortPrefixSlots(c);
    assert Check(c).next.av == SortPrefix(c.av, c.total);
  }

  lemma ReportRemembers(t: Tracker, piece: int, reported: seq<int>)
    requires Inv(t) && Remembers(t, reported)
    ensures Remembers(Report(t, piece).next, if t.InRange(piece) then reported + [piece] else reported)
    ensures SameFile(t, Report(t, piece).next)
  {
    if t.InRange(piece) {
      var counted := Counted(t.(av := t.av[t.lastSlot := piece]));
      StoredRemembers(t, piece, reported);
      CountedInv(t, piece);
      if CheckDue(counted) {
        CheckRemembers(counted, reported + [piece]);
      }
    }
  }

  /**
   After any alerts in any order, thrown exceptions included, the tracker is consistent and holds what was reported.
   */
  lemma {:induction false} AnyOrder(t: Tracker, alerts: seq<Alert>)
    requires Inv(t) && t.total == 0
    ensures Inv(Run(t, alerts)) && SameFile(t, Run(t, alerts))
    ensures Remembers(Run(t, alerts), Reported(t, alerts))
    ensures t.avBytes <= Run(t, alerts).avBytes
  {
    if alerts != [] {
      var prior := alerts[..|alerts| - 1];
      var u := Run(t, prior);
      AnyOrder(t, prior);
      match alerts[|alerts| - 1]
      case PieceFinished(piece) =>
        ReportInv(u, piece);
        ReportRemembers(u, piece, Reported(t, prior));
      case FileComplete =>
        ReinitInv(u);
    }
  }

  /** A check leaves the remembered pieces in order. */
  lemma CheckSorts(t: Tracker, piece: int)
    requires Inv(t) && t.InRange(piece) && CheckDue(Counted(t.(av := t.av[t.lastSlot := piece])))
    ensures var next := Report(t, piece).next; IsSorted(next.av[..next.total])
  {
    CountedInv(t, piece);
    SortPrefixSlots(Counted(t.(av := t.av[t.lastSlot := piece])));
  }

  // ----- The checked access cannot fail before the first restart -----

  /** The window ends no further ahead than one window behind the uncounted pieces. */
  ghost predicate Led(t: Tracker) {
    t.endAv + t.window <= t.total + t.chocked
  }

  lemma CloseWindowLed(c: Tracker, last: nat)
    requires Inv(c) && Led(c) && c.total < c.pieces && c.pieces >= 2
    requires last == c.lastAv || (last + 1 < c.total && last < c.endAv)
    ensures Led(CloseWindow(c.(lastAv := last)).next)
  {
  }

  lemma CheckLed(c: Tracker)
    requires Inv(c) && Led(c) && c.total < c.pieces && c.pieces >= 2 && c.window >= c.chocked
    ensures Led(Check(c).next)
  {
    SortPrefixSlots(c);
    var sorted := c.(av := SortPrefix(c.av, c.total));
    CheckScan(sorted);
    var scan := Scan(sorted.av, sorted.lastAv, sorted.endAv, sorted.lastAv, sorted.recheck == OFF_RECHECK);
    CloseWindowLed(sorted, scan.last);
  }

  lemma ReportLed(t: Tracker, piece: int)
    requires Inv(t) && Led(t)
    ensures Led(Report(t, piece).next) && Report(t, piece).Updated?
  {
    ReportThrows(t, piece);
    if t.InRange(piece) {
      var counted := Counted(t.(av := t.av[t.lastSlot := piece]));
      CountedInv(t, piece);
      if CheckDue(counted) {
        CheckLed(counted);
      }
    }
  }

  /** Until a file completes for the first time, no order of pieces makes the tracker throw. */
  lemma NeverThrowsBeforeRestart(offset: nat, size: nat, pieceLength: nat, maxPartial: nat, alerts: seq<Alert>,
      piece: int)
    requires size > 0 && pieceLength > 0 && PieceOf(offset + size - 1, pieceLength) < INT_MAX - 1
    requires FileComplete !in alerts
    ensures Report(Run(Fresh(offset, size, pieceLength, maxPartial), alerts), piece).Updated?
  {
    hide Report;
    FreshInv(offset, size, pieceLength, maxPartial);
    var t := Fresh(offset, size, pieceLength, maxPartial);
    LedBeforeRestart(t, alerts);
    ReportLed(Run(t, alerts), piece);
  }

  lemma {:induction false} LedBeforeRestart(t: Tracker, alerts: seq<Alert>)
    requires Inv(t) && Led(t)
    requires FileComplete !in alerts
    ensures Inv(Run(t, alerts)) && Led(Run(t, alerts))
  {
    if alerts != [] {
      var prior := alerts[..|alerts| - 1];
      LedBeforeRestart(t, prior);
      assert alerts[|alerts| - 1].PieceFinished?;
      ReportInv(Run(t, prior), alerts[|alerts| - 1].piece);
      ReportLed(Run(t, prior), alerts[|alerts| - 1].piece);
    }
  }

  // ----- Pieces in increasing order -----

  /**
   The start of the last complete window once n consecutive pieces have arrived: the largest multiple of c below n.
   */
  function WindowStart(c: nat, n: nat): (w: nat)
    requires c > 0
    ensures n >= 1 ==> w < n <= w + c
  {
    if n <= c then 0 else c + WindowStart(c, n - c)
  }

  lemma {:induction false} WindowStartStep(c: nat, n: nat)
    requires c > 0 && n >= 1
    ensures WindowStart(c, n + 1) == if n == WindowStart(c, n) + c then n else WindowStart(c, n)
  {
    if n > c {
      WindowStartStep(c, n - c);
    }
  }

  /** How many blocks are announced after n consecutive pieces, for windows of c pieces. */
  function Blocks(c: nat, n: nat): nat
    requires c >= 2
  {
    if n < c then 0 else if n == c then c - 2 else WindowStart(c, n)
  }

  /** The announced prefix lags behind the received one by at least one block and by at most one window. */
  lemma BlocksLag(c: nat, n: nat)
    requires c >= 2
    ensures n >= 1 ==> Blocks(c, n) + 1 <= n
    ensures n <= Blocks(c, n) + c
  {
  }

  /** The alerts of n pieces in increasing order from piece b. */
  function Consecutive(b: nat, n: nat): (r: seq<Alert>)
    ensures |r| == n
  {
    if n == 0 then [] else Consecutive(b, n - 1) + [PieceFinished(b + n - 1)]
  }

  /** The counters after n < pieces consecutive pieces. */
  ghost predicate Phase(t: Tracker, n: nat) {
    && t.total == n
    && t.chocked >= 2
    && t.lastAv == Blocks(t.chocked, n)
    && t.avBytes == t.lastAv * t.blockSize
    && (if n < t.chocked then t.endAv == t.chocked && t.window == n && t.recheck == OFF_RECHECK
        else if n == t.chocked then t.endAv == t.chocked && t.window == n && t.recheck == 0
        else t.endAv == t.lastAv + t.chocked && t.window == n - 1 - t.lastAv && t.recheck == OFF_RECHECK)
  }

  /** The remembered pieces after n consecutive pieces from b. */
  ghost predicate Content(t: Tracker, b: nat, n: nat) {
    n <= |t.av| && forall k :: 0 <= k < n ==> t.av[k] == b + k
  }

  lemma {:induction false} ScanConsecutive(av: seq<int>, it: nat, end: nat, last: nat, stopAtGap: bool, gap: nat)
    requires it <= gap && gap + 1 < |av| && av[gap] != av[gap + 1] - 1
    requires forall k :: it <= k < gap ==> av[k] == av[k + 1] - 1
    requires stopAtGap || end <= gap
    ensures Scan(av, it, end, last, stopAtGap)
         == Stopped(var stop := if end < gap then end else gap; if stop <= it then last else stop - 1)
    decreases gap - it
  {
    if it < end && it < gap {
      ScanConsecutive(av, it + 1, end, it, stopAtGap, gap);
    }
  }

  lemma {:induction false} ConsecutiveIsSorted(s: seq<int>, b: int)
    requires forall k :: 0 <= k < |s| ==> s[k] == b + k
    ensures IsSorted(s)
  {
    if |s| >= 2 {
      ConsecutiveIsSorted(s[1..], b + 1);
    }
  }

  lemma SortKeepsConsecutive(av: seq<int>, b: nat, n: nat)
    requires n <= |av| && forall k :: 0 <= k < n ==> av[k] == b + k
    ensures SortPrefix(av, n) == av
  {
    ConsecutiveIsSorted(av[..n], b);
    SortedOfSorted(av[..n]);
    assert av == av[..n] + av[n..];
  }

  /** The counters after one more consecutive piece. */
  function NextCounted(t: Tracker, b: nat): Tracker
    requires Shape(t)
  {
    Counted(t.(av := t.av[t.lastSlot := b + t.total]))
  }

  /** The counters after a check that walked up to the last piece or to the end of the window. */
  function Closed(c: Tracker, n: nat): Outcome {
    var stop := if c.endAv < n then c.endAv else n;
    CloseWindow(c.(lastAv := if stop <= c.lastAv then c.lastAv else stop - 1))
  }

  lemma CheckConsecutive(c: Tracker, b: nat, n: nat)
    requires Shape(c) && c.total == n + 1 && c.(av := SortPrefix(c.av, n + 1)) == c
    requires Content(c, b, n + 1) && n + 1 < |c.av| && c.av[n + 1] == INT_MAX && b + n < INT_MAX - 1
    requires c.lastAv <= n && (c.recheck == OFF_RECHECK || c.endAv <= n)
    ensures Check(c) == Closed(c, n)
  {
    ScanConsecutive(c.av, c.lastAv, c.endAv, c.lastAv, c.recheck == OFF_RECHECK, n);
  }

  lemma NextContent(t: Tracker, b: nat, n: nat)
    requires Shape(t) && Slots(t) && Content(t, b, n) && t.total == n && n + 1 < t.pieces
    ensures var c := NextCounted(t, b);
            && Content(c, b, n + 1) && c.av[n + 1] == INT_MAX
            && c.(av := SortPrefix(c.av, n + 1)) == c
  {
    var c := NextCounted(t, b);
    assert c.av == t.av[n := b + n];
    SortKeepsConsecutive(c.av, b, n + 1);
  }

  /** On consecutive pieces sorting changes nothing, and the walk meets no gap before the last piece. */
  lemma NextReport(t: Tracker, b: nat, n: nat)
    requires Shape(t) && Slots(t) && Content(t, b, n) && t.total == n && n + 1 < t.pieces
    requires t.firstPiece <= b && b + n <= t.LastPiece() && t.lastAv <= n
    requires t.recheck == OFF_RECHECK || t.endAv <= n
    ensures var c := NextCounted(t, b);
            && Content(c, b, n + 1)
            && Report(t, b + n) == if CheckDue(c) then Closed(c, n) else Updated(c, false)
  {
    hide *;
    NextContent(t, b, n);
    NextFacts(t, b, n);
    var c := NextCounted(t, b);
    ReportChecks(t, b + n, c);
    if CheckDue(c) {
      CheckConsecutive(c, b, n);
    }
  }

  /** The counters after one more consecutive piece that is not one of the last two. */
  lemma NextFacts(t: Tracker, b: nat, n: nat)
    requires Shape(t) && Slots(t) && t.total == n && n + 1 < t.pieces
    requires t.firstPiece <= b && b + n <= t.LastPiece()
    ensures var c := NextCounted(t, b);
            && Shape(c) && t.InRange(b + n) && c == Counted(t.(av := t.av[t.lastSlot := b + n]))
            && c.total == n + 1 < c.pieces && n + 1 < |c.av| && b + n < INT_MAX - 1
            && c.lastAv == t.lastAv && c.endAv == t.endAv
            && (t.recheck == OFF_RECHECK ==> c.recheck == OFF_RECHECK)
            && (t.recheck >= 0 ==> c.recheck != OFF_RECHECK)
            && (t.window + 1 >= t.chocked ==> CheckDue(c))
            && forall k :: n < k <= c.pieces ==> c.av[k] == INT_MAX
  {
  }

  lemma ReportChecks(t: Tracker, piece: int, c: Tracker)
    requires Shape(t) && t.InRange(piece) && c == Counted(t.(av := t.av[t.lastSlot := piece]))
    ensures Shape(c) && Report(t, piece) == if CheckDue(c) then Check(c) else Updated(c, false)
  {
    hide Check, CheckDue;
  }

  /** Closing a window announces exactly the blocks before the new position. */
  lemma ClosedBytes(c: Tracker, last: nat)
    requires c.avBytes == c.lastAv * c.blockSize && c.lastAv <= last < c.endAv
    ensures var next := CloseWindow(c.(lastAv := last)).next;
            next.avBytes == next.lastAv * next.blockSize
  {
    ProductMonotone(c.lastAv, last, c.blockSize);
    ProductMonotone(c.lastAv, c.endAv, c.blockSize);
  }

  /** The piece that fills the first window: the walk ends one pair short, so a retry starts. */
  lemma FirstCheckPhase(t: Tracker, b: nat, n: nat)
    requires Shape(t) && Phase(t, n) && n + 1 == t.chocked && n + 1 < t.pieces
    ensures CheckDue(NextCounted(t, b)) && Phase(Closed(NextCounted(t, b), n).next, n + 1)
  {
    ClosedBytes(NextCounted(t, b), if n == 0 then 0 else n - 1);
  }

  /** The retry one piece later completes the first window. */
  lemma RetryPhase(t: Tracker, b: nat, n: nat)
    requires Shape(t) && Phase(t, n) && n == t.chocked && n + 1 < t.pieces
    ensures CheckDue(NextCounted(t, b)) && Phase(Closed(NextCounted(t, b), n).next, n + 1)
  {
    ClosedBytes(NextCounted(t, b), n - 1);
    WindowStartStep(t.chocked, n);
  }

  /** The piece that fills a later window completes it at once. */
  lemma WindowPhase(t: Tracker, b: nat, n: nat)
    requires Shape(t) && Phase(t, n) && t.chocked < n == t.lastAv + t.chocked && n + 1 < t.pieces
    ensures CheckDue(NextCounted(t, b)) && Phase(Closed(NextCounted(t, b), n).next, n + 1)
  {
    ClosedBytes(NextCounted(t, b), n - 1);
    WindowStartStep(t.chocked, n);
  }

  lemma InsidePhase(t: Tracker, b: nat, n: nat)
    requires Shape(t) && Phase(t, n) && n + 1 < t.pieces
    requires n + 1 < t.chocked || t.chocked < n < t.lastAv + t.chocked
    ensures !CheckDue(NextCounted(t, b)) && Phase(NextCounted(t, b), n + 1)
  {
    if n > t.chocked {
      WindowStartStep(t.chocked, n);
    }
  }

  lemma NextPhase(t: Tracker, b: nat, n: nat)
    requires Inv(t) && Phase(t, n) && Content(t, b, n) && n + 1 < t.pieces
    requires t.firstPiece <= b && b + n <= t.LastPiece()
    ensures Phase(Report(t, b + n).next, n + 1) && Content(Report(t, b + n).next, b, n + 1)
  {
    hide Report;
    if n > t.chocked {
      WindowStartStep(t.chocked, n);
    }
    NextReport(t, b, n);
    if n + 1 == t.chocked {
      FirstCheckPhase(t, b, n);
    } else if n == t.chocked {
      RetryPhase(t, b, n);
    } else if n > t.chocked && n == t.lastAv + t.chocked {
      WindowPhase(t, b, n);
    } else {
      InsidePhase(t, b, n);
    }
  }

  // ----- The announced bytes of an increasing run -----

  lemma ReportLast(t: Tracker, piece: int)
    requires Inv(t) && t.total + 1 >= t.pieces
    ensures var next := Report(t, piece).next;
            next.avBytes == t.avBytes && next.lastAv == t.lastAv && next.endAv == t.endAv
  {
  }

  /** The number of consecutive pieces that the announcement after n of them is computed from. */
  function Effective(t: Tracker, n: nat): nat {
    if n < t.pieces then n else if t.pieces == 0 then 0 else t.pieces - 1
  }

  /** Where the window ends that is open after n consecutive pieces. */
  function WindowEnd(c: nat, n: nat): nat
    requires c >= 2
  {
    if n <= c then c else WindowStart(c, n) + c
  }

  /** The tracker u is what n consecutive pieces from b made of t. */
  ghost predicate After(t: Tracker, u: Tracker, b: nat, n: nat) {
    && Inv(u) && SameFile(t, u) && t.chocked >= 2
    && u.total == (if n < t.pieces then n else t.pieces)
    && u.lastAv == Blocks(t.chocked, Effective(t, n)) && u.avBytes == u.lastAv * t.blockSize
    && u.endAv == WindowEnd(t.chocked, Effective(t, n))
    && (n < t.pieces ==> Phase(u, n) && Content(u, b, n))
  }

  lemma ReportKeepsFile(t: Tracker, piece: int)
    requires Inv(t)
    ensures SameFile(t, Report(t, piece).next)
    ensures t.InRange(piece) ==> Report(t, piece).next.total == if t.total + 1 > t.pieces then t.pieces else t.total + 1
  {
  }

  lemma NextAfterInside(t: Tracker, u: Tracker, b: nat, n: nat)
    requires After(t, u, b, n) && n + 1 < t.pieces
    requires t.firstPiece <= b && b + n <= t.LastPiece()
    ensures After(t, Report(u, b + n).next, b, n + 1)
  {
    hide Report;
    ReportInv(u, b + n);
    ReportKeepsFile(u, b + n);
    NextPhase(u, b, n);
  }

  lemma NextAfterEnd(t: Tracker, u: Tracker, b: nat, n: nat)
    requires After(t, u, b, n) && n + 1 >= t.pieces >= 2
    requires t.firstPiece <= b && b + n <= t.LastPiece()
    ensures After(t, Report(u, b + n).next, b, n + 1)
  {
    hide Report;
    ReportInv(u, b + n);
    ReportKeepsFile(u, b + n);
    ReportLast(u, b + n);
  }

  lemma AfterNothing(t: Tracker, b: nat)
    requires Inv(t) && Phase(t, 0) && t.pieces >= 2
    ensures After(t, Run(t, Consecutive(b, 0)), b, 0)
  {
  }

  lemma RunConsecutive(t: Tracker, b: nat, n: nat)
    requires Shape(t) && n > 0
    ensures Run(t, Consecutive(b, n)) == Report(Run(t, Consecutive(b, n - 1)), b + (n - 1)).next
  {
    hide Report;
    var alerts := Consecutive(b, n);
    assert alerts[..n - 1] == Consecutive(b, n - 1);
  }

  lemma {:induction false} ConsecutiveRun(t: Tracker, b: nat, n: nat)
    requires Inv(t) && Phase(t, 0) && t.pieces >= 2
    requires t.firstPiece <= b && b + n <= t.LastPiece() + 1
    ensures After(t, Run(t, Consecutive(b, n)), b, n)
  {
    hide Report, Run, After;
    if n == 0 {
      AfterNothing(t, b);
    } else {
      ConsecutiveRun(t, b, n - 1);
      RunConsecutive(t, b, n);
      if n < t.pieces {
        NextAfterInside(t, Run(t, Consecutive(b, n - 1)), b, n - 1);
      } else {
        NextAfterEnd(t, Run(t, Consecutive(b, n - 1)), b, n - 1);
      }
    }
  }

  /** A file within one or two pieces is only announced by its completion. */
  lemma {:induction false} SmallFileWaits(t: Tracker, alerts: seq<Alert>)
    requires Inv(t) && t.pieces <= 1 && t.total == 0
    ensures Run(t, alerts).avBytes == t.avBytes
  {
    if alerts != [] {
      var prior := alerts[..|alerts| - 1];
      SmallFileWaits(t, prior);
      AnyOrder(t, prior);
      if alerts[|alerts| - 1].PieceFinished? {
        ReportLast(Run(t, prior), alerts[|alerts| - 1].piece);
      }
    }
  }

  /** How many whole pieces are announced after n consecutive pieces. */
  function AnnouncedBlocks(t: Tracker, n: nat): nat
    requires t.pieces >= 2 ==> t.chocked >= 2
  {
    if t.pieces <= 1 then 0 else Blocks(t.chocked, Effective(t, n))
  }

  /** In-order announcements in closed form. */
  lemma IncreasingRun(offset: nat, size: nat, pieceLength: nat, maxPartial: nat, b: nat, n: nat)
    requires size > 0 && pieceLength > 0 && PieceOf(offset + size - 1, pieceLength) < INT_MAX - 1
    requires PieceOf(offset, pieceLength) <= b && b + n <= PieceOf(offset + size - 1, pieceLength) + 1
    ensures var t := Fresh(offset, size, pieceLength, maxPartial);
            && (t.pieces >= 2 ==> t.chocked >= 2)
            && Run(t, Consecutive(b, n)).avBytes == AnnouncedBlocks(t, n) * pieceLength
  {
    FreshInv(offset, size, pieceLength, maxPartial);
    var t := Fresh(offset, size, pieceLength, maxPartial);
    if t.pieces <= 1 {
      SmallFileWaits(t, Consecutive(b, n));
    } else {
      LongFileBlocks(offset, size, pieceLength);
      ConsecutiveRun(t, b, n);
    }
  }

  /**
   While pieces are missing, the announcement is at most what has arrived and at most one window of blocks behind it.
   */
  lemma IncreasingRunLag(offset: nat, size: nat, pieceLength: nat, maxPartial: nat, b: nat, n: nat)
    requires size > 0 && pieceLength > 0 && PieceOf(offset + size - 1, pieceLength) < INT_MAX - 1
    requires PieceOf(offset, pieceLength) <= b && b + n <= PieceOf(offset + size - 1, pieceLength) + 1
    requires n < Fresh(offset, size, pieceLength, maxPartial).pieces
    ensures var u := Run(Fresh(offset, size, pieceLength, maxPartial), Consecutive(b, n));
            && u.avBytes == u.lastAv * u.blockSize
            && u.lastAv <= n <= u.lastAv + u.chocked
  {
    FreshInv(offset, size, pieceLength, maxPartial);
    var t := Fresh(offset, size, pieceLength, maxPartial);
    if t.pieces >= 2 {
      hide Run, Consecutive;
      ConsecutiveRun(t, b, n);
      BlocksLag(t.chocked, n);
    }
  }

  /** A file over more than two pieces is longer than a piece, so its blocks are whole pieces. */
  lemma LongFileBlocks(offset: nat, size: nat, pieceLength: nat)
    requires size > 0 && pieceLength > 0
    requires PieceOf(offset + size - 1, pieceLength) >= PieceOf(offset, pieceLength) + 2
    ensures size >= pieceLength
  {
    ProductMonotone(PieceOf(offset, pieceLength) + 2, PieceOf(offset + size - 1, pieceLength), pieceLength);
  }

  // ----- Soundness for streaming -----

  /** How many bytes from the start of the file lie in k pieces from its first one on. */
  function LeadingBytes(offset: nat, size: nat, pieceLength: nat, k: nat): nat
    requires pieceLength > 0
  {
    var covered := (PieceOf(offset, pieceLength) + k) * pieceLength;
    if covered <= offset then 0 else if covered - offset > size then size else covered - offset
  }

  lemma {:induction false} SizeKept(t: Tracker, alerts: seq<Alert>)
    requires Shape(t)
    ensures Run(t, alerts).size == t.size
  {
    if alerts != [] {
      SizeKept(t, alerts[..|alerts| - 1]);
    }
  }

  /** What is announced of an increasing run is less than the file, by more than a piece. */
  lemma BlocksWithinFile(offset: nat, size: nat, pieceLength: nat, maxPartial: nat, n: nat)
    requires size > 0 && pieceLength > 0 && PieceOf(offset + size - 1, pieceLength) < INT_MAX - 1
    ensures var t := Fresh(offset, size, pieceLength, maxPartial);
            && (t.pieces >= 2 ==> t.chocked >= 2)
            && (AnnouncedBlocks(t, n) > 0 ==>
              AnnouncedBlocks(t, n) + 1 <= n && (AnnouncedBlocks(t, n) + 1) * pieceLength < size)
  {
    FreshInv(offset, size, pieceLength, maxPartial);
    var t := Fresh(offset, size, pieceLength, maxPartial);
    if t.pieces >= 2 {
      hide Fresh, Inv;
      BlocksLag(t.chocked, Effective(t, n));
      if AnnouncedBlocks(t, n) > 0 {
        SpanSize(offset, size, pieceLength, AnnouncedBlocks(t, n) + 1);
      }
    }
  }

  /** A file over k + 2 pieces is longer than k of them. */
  lemma SpanSize(offset: nat, size: nat, pieceLength: nat, k: nat)
    requires size > 0 && pieceLength > 0
    requires PieceOf(offset, pieceLength) + k + 1 <= PieceOf(offset + size - 1, pieceLength)
    ensures k * pieceLength < size
  {
    var first, last := PieceOf(offset, pieceLength), PieceOf(offset + size - 1, pieceLength);
    hide PieceOf;
    ProductMonotone(first + k + 1, last, pieceLength);
    assert (first + k + 1) * pieceLength == first * pieceLength + k * pieceLength + pieceLength;
  }

  /**
   So many whole pieces lie within the first m pieces of a file; only a file that starts with a piece fills all of
   them.
   */
  predicate Within(offset: nat, pieceLength: nat, blocks: nat, m: nat)
    requires pieceLength > 0
  {
    blocks == 0 || blocks < m || (blocks == m && offset == PieceOf(offset, pieceLength) * pieceLength)
  }

  /** How many bytes lie in m leading pieces, against a number of whole pieces that is shorter than the file. */
  lemma BlocksCovered(offset: nat, size: nat, pieceLength: nat, blocks: nat, m: nat)
    requires pieceLength > 0 && blocks > 0 && (blocks + 1) * pieceLength < size
    ensures blocks * pieceLength <= LeadingBytes(offset, size, pieceLength, m) <==>
            Within(offset, pieceLength, blocks, m)
  {
    var first := PieceOf(offset, pieceLength);
    assert (first + m) * pieceLength == first * pieceLength + m * pieceLength;
    assert (blocks + 1) * pieceLength == blocks * pieceLength + pieceLength;
    if blocks < m {
      ProductMonotone(blocks + 1, m, pieceLength);
    } else if m < blocks {
      ProductMonotone(m + 1, blocks, pieceLength);
      assert (m + 1) * pieceLength == m * pieceLength + pieceLength;
    }
  }

  /**
   After n consecutive pieces from piece b, and with m leading pieces of the file on disk, what is announced is on
   disk exactly when fewer than m pieces are announced, or m of a file that starts with a piece, or none.
   */
  lemma IncreasingRunSound(offset: nat, size: nat, pieceLength: nat, maxPartial: nat, b: nat, n: nat, m: nat)
    requires size > 0 && pieceLength > 0 && PieceOf(offset + size - 1, pieceLength) < INT_MAX - 1
    requires PieceOf(offset, pieceLength) <= b && b + n <= PieceOf(offset + size - 1, pieceLength) + 1
    ensures var t := Fresh(offset, size, pieceLength, maxPartial);
            && (t.pieces >= 2 ==> t.chocked >= 2)
            && (Run(t, Consecutive(b, n)).Announced() <= LeadingBytes(offset, size, pieceLength, m)
                <==> Within(offset, pieceLength, AnnouncedBlocks(t, n), m))
  {
    hide Run, LeadingBytes;
    var t := Fresh(offset, size, pieceLength, maxPartial);
    IncreasingRun(offset, size, pieceLength, maxPartial, b, n);
    SizeKept(t, Consecutive(b, n));
    BlocksWithinFile(offset, size, pieceLength, maxPartial, n);
    var blocks := AnnouncedBlocks(t, n);
    if blocks > 0 {
      assert (blocks + 1) * pieceLength == blocks * pieceLength + pieceLength;
      BlocksCovered(offset, size, pieceLength, blocks, m);
    }
  }

  /**
   When nothing is announced: in a small file, and before the first window is full, or just then if it is the
   smallest.
   */
  lemma NothingAnnounced(t: Tracker, n: nat)
    requires t.pieces >= 2 ==> t.chocked >= 2
    ensures AnnouncedBlocks(t, n) == 0 <==>
      t.pieces <= 1 || Effective(t, n) < t.chocked || (Effective(t, n) == t.chocked == 2)
  {
  }

  /** Without a gap from the first piece on, what is announced is always on disk. */
  lemma WithoutGapSound(offset: nat, size: nat, pieceLength: nat, maxPartial: nat, b: nat, n: nat)
    requires size > 0 && pieceLength > 0 && PieceOf(offset + size - 1, pieceLength) < INT_MAX - 1
    requires PieceOf(offset, pieceLength) <= b && b + n <= PieceOf(offset + size - 1, pieceLength) + 1
    ensures var u := Run(Fresh(offset, size, pieceLength, maxPartial), Consecutive(b, n));
            u.Announced() <= LeadingBytes(offset, size, pieceLength, b + n - PieceOf(offset, pieceLength))
  {
    hide Run, LeadingBytes;
    IncreasingRunSound(offset, size, pieceLength, maxPartial, b, n, b + n - PieceOf(offset, pieceLength));
    BlocksWithinFile(offset, size, pieceLength, maxPartial, n);
  }

  lemma Thirteen()
    ensures var t := Fresh(0, 13, 1, 0);
            && Shape(t) && t.pieces == 12 && t.chocked == 10 && t.firstPiece == 0 && t.blockSize == 1 && t.size == 13
            && t.LastPiece() == 12 && t.avBytes == 0 && t.endAv == 10
            && PieceOf(0, 1) == 0 && PieceOf(12, 1) == 12 < INT_MAX - 1
  {
    FreshInv(0, 13, 1, 0);
    assert PieceOf(0, 1) == 0 && PieceOf(12, 1) == 12;
  }

  /**
   A file of thirteen one-byte pieces: when all but the first and the last have come in order, ten bytes are
   announced although the first is missing.
   */
  lemma MissingStartAnnounced(t: Tracker)
    requires t == Fresh(0, 13, 1, 0)
    ensures Shape(t) && Run(t, Consecutive(1, 11)).Announced() == 10 > LeadingBytes(0, 13, 1, 0) == 0
  {
    hide *;
    Thirteen();
    TenAnnounced(t);
    NothingLeads();
    IncreasingRun(0, 13, 1, 0, 1, 11);
    SizeKept(t, Consecutive(1, 11));
    AnnouncedWithin(Run(t, Consecutive(1, 11)));
  }

  lemma NothingLeads()
    ensures LeadingBytes(0, 13, 1, 0) == 0
  {
  }

  lemma TenAnnounced(t: Tracker)
    requires t.pieces == 12 && t.chocked == 10
    ensures AnnouncedBlocks(t, 11) * 1 == 10
  {
    assert WindowStart(10, 1) == 0;
  }

  lemma AnnouncedWithin(t: Tracker)
    ensures t.avBytes <= t.size ==> t.Announced() == t.avBytes
  {
  }
}
