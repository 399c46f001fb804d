/**
 What a tracker does once its file has been completed and its pieces are reported again:
 which numbers it publishes then, and when it throws.
 */
module TrackerRestarts {
  import opened Sorting
  import opened SequentialTracker
  import opened TrackerRuns

  // ----- How much can be announced, in any order -----

  /** The last position that a window can be closed at. */
  function Room(t: Tracker): nat { if t.pieces >= 2 then t.pieces - 2 else 0 }

  ghost predicate Bounded(t: Tracker) {
    t.lastAv <= Room(t) && t.avBytes <= Room(t) * t.blockSize
  }

  lemma CloseWindowBounded(c: Tracker, last: nat)
    requires Bounded(c) && c.total < c.pieces && c.pieces >= 2 && c.lastAv + 2 <= c.endAv
    requires last == c.lastAv || (last + 1 < c.total && last < c.endAv)
    ensures Bounded(c.(lastAv := last)) && Bounded(CloseWindow(c.(lastAv := last)).next)
  {
    ProductMonotone(CloseWindow(c.(lastAv := last)).next.lastAv, Room(c), c.blockSize);
  }

  /** Where a check stops, and that it then either throws or closes the window. */
  lemma CheckEnds(c: Tracker) returns (last: nat)
    requires Inv(c) && c.total < c.pieces && c.pieces >= 2
    ensures Shape(c) && c.lastAv + 2 <= c.endAv && (last == c.lastAv || (last + 1 < c.total && last < c.endAv))
    ensures var walked := c.(av := SortPrefix(c.av, c.total), lastAv := last);
            Check(c).next == if Check(c).Threw? then walked else CloseWindow(walked).next
  {
    SortPrefixSlots(c);
    var sorted := c.(av := SortPrefix(c.av, c.total));
    CheckScan(sorted);
    last := Scan(sorted.av, sorted.lastAv, sorted.endAv, sorted.lastAv, sorted.recheck == OFF_RECHECK).last;
    hide Scan, CloseWindow, SortPrefix, Slots;
  }

  lemma CheckBounded(c: Tracker)
    requires Inv(c) && Bounded(c) && c.total < c.pieces && c.pieces >= 2
    ensures Bounded(Check(c).next)
  {
    var last := CheckEnds(c);
    hide Inv, Check, CloseWindow;
    CloseWindowBounded(c.(av := SortPrefix(c.av, c.total)), last);
  }

  lemma ReportBounded(t: Tracker, piece: int)
    requires Inv(t) && Bounded(t)
    ensures Bounded(Report(t, piece).next)
  {
    hide CloseWindow, Scan;
    if t.InRange(piece) {
      var counted := Counted(t.(av := t.av[t.lastSlot := piece]));
      CountedInv(t, piece);
      if CheckDue(counted) {
        CheckBounded(counted);
      }
    }
  }

  /** What every tracker is, whatever it has been told: see `HealthyAlways`. */
  ghost predicate Healthy(t: Tracker)
    ensures Healthy(t) ==> Shape(t)
  {
    && Inv(t) && Bounded(t) && Room(t) * t.blockSize < t.size
    && (t.pieces >= 2 ==> t.chocked <= t.endAv)
  }

  lemma ReportKeepsWindow(t: Tracker, piece: int)
    requires Inv(t)
    ensures Report(t, piece).next.endAv >= t.endAv
  {
  }

  lemma ReportHealthy(t: Tracker, piece: int)
    requires Healthy(t)
    ensures Healthy(Report(t, piece).next) && SameFile(t, Report(t, piece).next)
  {
    ReportInv(t, piece);
    ReportKeepsFile(t, piece);
    ReportBounded(t, piece);
    ReportKeepsWindow(t, piece);
    hide Inv, Report;
  }

  lemma ReinitHealthy(t: Tracker)
    requires Healthy(t)
    ensures Healthy(Reinit(t)) && SameFile(t, Reinit(t))
  {
    ReinitInv(t);
    hide Inv;
  }

  lemma {:induction false} RunHealthy(t: Tracker, alerts: seq<Alert>)
    requires Healthy(t)
    ensures Healthy(Run(t, alerts)) && SameFile(t, Run(t, alerts))
  {
    hide Healthy, Report, Reinit;
    if alerts != [] {
      var u := Run(t, alerts[..|alerts| - 1]);
      RunHealthy(t, alerts[..|alerts| - 1]);
      match alerts[|alerts| - 1]
      case PieceFinished(piece) => ReportHealthy(u, piece);
      case FileComplete => ReinitHealthy(u);
    }
  }

  lemma FreshHealthy(offset: nat, size: nat, pieceLength: nat, maxPartial: nat)
    requires size > 0 && pieceLength > 0 && PieceOf(offset + size - 1, pieceLength) < INT_MAX - 1
    ensures var t := Fresh(offset, size, pieceLength, maxPartial);
            && Healthy(t) && t.size == size && (t.pieces >= 2 ==> t.blockSize == pieceLength)
  {
    FreshInv(offset, size, pieceLength, maxPartial);
    var t := Fresh(offset, size, pieceLength, maxPartial);
    assert t.endAv == t.chocked && t.avBytes == 0 && t.lastAv == 0 && t.size == size;
    if t.pieces >= 2 {
      LongFileBlocks(offset, size, pieceLength);
      SpanSize(offset, size, pieceLength, t.pieces - 1);
      hide Fresh, PieceOf, Inv;
      ProductMonotone(t.pieces - 2, t.pieces - 1, pieceLength);
    }
  }

  /** Whatever a tracker is told, in whatever order, and however often its file is completed, it stays healthy. */
  lemma HealthyAlways(offset: nat, size: nat, pieceLength: nat, maxPartial: nat, alerts: seq<Alert>)
    requires size > 0 && pieceLength > 0 && PieceOf(offset + size - 1, pieceLength) < INT_MAX - 1
    ensures Healthy(Run(Fresh(offset, size, pieceLength, maxPartial), alerts))
  {
    hide *;
    FreshHealthy(offset, size, pieceLength, maxPartial);
    RunHealthy(Fresh(offset, size, pieceLength, maxPartial), alerts);
  }

  /**
   Whatever a tracker is told, its pieces announce less than the file, by at least the file's last two pieces. So
   the size never caps them.
   */
  lemma AnyOrderBounded(offset: nat, size: nat, pieceLength: nat, maxPartial: nat, alerts: seq<Alert>)
    requires size > 0 && pieceLength > 0 && PieceOf(offset + size - 1, pieceLength) < INT_MAX - 1
    ensures var u := Run(Fresh(offset, size, pieceLength, maxPartial), alerts);
            u.avBytes <= Room(u) * pieceLength && u.Announced() == u.avBytes < size
  {
    hide *;
    FreshHealthy(offset, size, pieceLength, maxPartial);
    var t := Fresh(offset, size, pieceLength, maxPartial);
    RunHealthy(t, alerts);
    HealthyBytes(t, Run(t, alerts), size, pieceLength);
  }

  lemma HealthyBytes(t: Tracker, u: Tracker, size: nat, pieceLength: nat)
    requires Healthy(u) && SameFile(t, u) && t.size == size && (t.pieces >= 2 ==> t.blockSize == pieceLength)
    ensures u.avBytes <= Room(u) * pieceLength && u.Announced() == u.avBytes < size
  {
  }

  // ----- Consecutive pieces after a restart -----

  /** Where the walk stands after n consecutive pieces, when the window that was left open ends at e. */
  function Position(c: nat, e: nat, n: nat): nat
    requires 2 <= c <= e
  {
    if n < c then 0 else if n <= e then n - 2 else e + WindowStart(c, n - e)
  }

  /**
   How many blocks are announced then, of a file over p + 1 pieces: the walk is cut off when the window ends behind
   them.
   */
  function ReplayBlocks(c: nat, e: nat, p: nat, n: nat): nat
    requires 2 <= c <= e && p >= 1
  {
    var seen := if n < p then n else p - 1;
    Position(c, e, if p < e && c < seen then c else seen)
  }

  lemma PositionStep(c: nat, e: nat, n: nat)
    requires 2 <= c <= e
    ensures Position(c, e, n) <= Position(c, e, n + 1)
    ensures n > e ==> Position(c, e, n) < n <= Position(c, e, n) + c
    ensures n > e ==>
      Position(c, e, n + 1) == if n == Position(c, e, n) + c then n else Position(c, e, n)
  {
    if n > e {
      WindowStartStep(c, n - e);
    }
  }

  lemma ReplayBlocksStep(c: nat, e: nat, p: nat, n: nat)
    requires 2 <= c <= e && p >= 1
    ensures ReplayBlocks(c, e, p, n) <= ReplayBlocks(c, e, p, n + 1)
  {
    PositionStep(c, e, n);
  }

  /** The counters after n < pieces of them. */
  ghost predicate ReplayPhase(u: Tracker, e: nat, n: nat) {
    && 2 <= u.chocked <= e && u.total == n && u.lastAv == Position(u.chocked, e, n)
    && (if n < u.chocked then u.endAv == e && u.window == n && u.recheck == OFF_RECHECK
        else if n <= e then u.endAv == e && u.window == n && u.recheck >= 0
        else u.endAv == u.lastAv + u.chocked && u.window == n - 1 - u.lastAv && u.recheck == OFF_RECHECK)
  }

  /** A retry walks past the last piece, without finding another pair. */
  lemma {:induction false} ScanPastGap(av: seq<int>, it: nat, end: nat, last: nat)
    requires forall k :: it <= k < |av| - 1 ==> av[k] != av[k + 1] - 1
    ensures Scan(av, it, end, last, false).last == last
    decreases end - it
  {
    if it < end && it + 1 < |av| {
      ScanPastGap(av, it + 1, end, last);
    }
  }

  lemma {:induction false} ScanToGap(av: seq<int>, it: nat, end: nat, last: nat, gap: nat)
    requires it <= gap < end && gap < |av|
    requires forall k :: it <= k < gap ==> av[k] == av[k + 1] - 1
    requires forall k :: gap <= k < |av| - 1 ==> av[k] != av[k + 1] - 1
    ensures Scan(av, it, end, last, false).last == if it == gap then last else gap - 1
    decreases gap - it
  {
    if it < gap {
      ScanToGap(av, it + 1, end, it, gap);
    } else {
      ScanPastGap(av, it, end, last);
    }
  }

  /**
   A retry before the window's end: it walks up to the last piece, and throws when the window ends behind the pieces.
   */
  function Retried(c: Tracker, n: nat): Outcome
    requires n >= 1
  {
    var walked := c.(lastAv := n - 1);
    if c.endAv > c.pieces then Threw(walked) else CloseWindow(walked)
  }

  lemma CheckRetry(c: Tracker, b: nat, n: nat)
    requires Shape(c) && c.total == n + 1 < c.pieces && c.(av := SortPrefix(c.av, n + 1)) == c
    requires Content(c, b, n + 1) && b + n < INT_MAX - 1 && forall k :: n < k <= c.pieces ==> c.av[k] == INT_MAX
    requires c.lastAv < n < c.endAv && c.recheck != OFF_RECHECK
    ensures Check(c) == Retried(c, n)
  {
    ScanToGap(c.av, c.lastAv, c.endAv, c.lastAv, n);
    ScanRunsOff(c.av, c.lastAv, c.endAv, c.lastAv);
  }

  lemma NextRetry(t: Tracker, b: nat, n: nat)
    requires Shape(t) && Slots(t) && Content(t, b, n) && t.total == n && n + 1 < t.pieces
    requires t.firstPiece <= b && b + n <= t.LastPiece()
    requires t.lastAv < n < t.endAv && t.recheck >= 0 && t.window + 1 >= t.chocked
    ensures var c := NextCounted(t, b);
            CheckDue(c) && Content(c, b, n + 1) && Report(t, b + n) == Retried(c, n)
  {
    hide *;
    NextContent(t, b, n);
    NextFacts(t, b, n);
    CheckRetry(NextCounted(t, b), b, n);
    ReportChecks(t, b + n, NextCounted(t, b));
  }

  function Max(x: nat, y: nat): nat { if x < y then y else x }

  /** Closing a window announces the blocks before the new position, if that is more than before. */
  lemma ClosedMax(c: Tracker, last: nat)
    ensures var next := CloseWindow(c.(lastAv := last)).next;
            next.avBytes == Max(c.avBytes, next.lastAv * c.blockSize)
  {
  }

  /** What one more consecutive piece makes of a restarted tracker, by where it stands. */
  lemma ReplayInside(t: Tracker, b: nat, e: nat, n: nat)
    requires Shape(t) && ReplayPhase(t, e, n) && n + 1 < t.pieces
    requires n + 1 < t.chocked || e < n < t.lastAv + t.chocked
    ensures var c := NextCounted(t, b);
            !CheckDue(c) && ReplayPhase(c, e, n + 1) && c.lastAv == t.lastAv && c.avBytes == t.avBytes
  {
    PositionStep(t.chocked, e, n);
  }

  /** The piece that fills the first window. */
  lemma ReplayFirst(t: Tracker, b: nat, e: nat, n: nat)
    requires Shape(t) && ReplayPhase(t, e, n) && n + 1 == t.chocked && n + 1 < t.pieces
    ensures var c := NextCounted(t, b);
            CheckDue(c) && ReplayPhase(Closed(c, n).next, e, n + 1) && Closed(c, n).Updated?
    ensures var next := Closed(NextCounted(t, b), n).next; next.avBytes == Max(t.avBytes, next.lastAv * t.blockSize)
  {
    ClosedMax(NextCounted(t, b), n - 1);
  }

  /** A piece that comes before the window's end: a retry. */
  lemma ReplayRetry(t: Tracker, b: nat, e: nat, n: nat)
    requires Shape(t) && ReplayPhase(t, e, n) && t.chocked <= n < e && n + 1 < t.pieces
    ensures var c := NextCounted(t, b); ReplayPhase(Retried(c, n).next, e, n + 1)
    ensures var o := Retried(NextCounted(t, b), n);
            && (o.Threw? <==> t.pieces < e)
            && o.next.avBytes == if t.pieces < e then t.avBytes else Max(t.avBytes, o.next.lastAv * t.blockSize)
  {
    ClosedMax(NextCounted(t, b), n - 1);
  }

  /** The piece behind the window's end, or behind the end of a later window, completes it. */
  lemma ReplayWindow(t: Tracker, b: nat, e: nat, n: nat)
    requires Shape(t) && ReplayPhase(t, e, n) && n + 1 < t.pieces
    requires n == e || (e < n && n == t.lastAv + t.chocked)
    ensures var c := NextCounted(t, b);
            CheckDue(c) && ReplayPhase(Closed(c, n).next, e, n + 1) && Closed(c, n).Updated?
    ensures var next := Closed(NextCounted(t, b), n).next; next.avBytes == Max(t.avBytes, next.lastAv * t.blockSize)
  {
    if n > e {
      PositionStep(t.chocked, e, n);
    }
    ClosedMax(NextCounted(t, b), n - 1);
  }

  /** Whether the walk of piece n + 1 is cut off by the end of the vector. */
  predicate CutOff(u: Tracker, e: nat, n: nat) { u.chocked <= n && u.pieces < e }

  /** What the next consecutive piece does. */
  ghost predicate Stepped(u: Tracker, o: Outcome, b: nat, e: nat, n: nat) {
    && ReplayPhase(o.next, e, n + 1) && Content(o.next, b, n + 1)
    && (o.Threw? <==> CutOff(u, e, n))
    && o.next.avBytes == if o.next.lastAv == u.lastAv || CutOff(u, e, n) then u.avBytes
                         else Max(u.avBytes, o.next.lastAv * u.blockSize)
  }

  lemma ClosedContent(c: Tracker, b: nat, n: nat)
    requires Content(c, b, n + 1)
    ensures Content(Closed(c, n).next, b, n + 1)
    ensures n >= 1 ==> Content(Retried(c, n).next, b, n + 1)
  {
  }

  lemma SteppedByRetry(u: Tracker, b: nat, e: nat, n: nat)
    requires Shape(u) && ReplayPhase(u, e, n) && u.chocked <= n < e && n + 1 < u.pieces
    requires Content(NextCounted(u, b), b, n + 1)
    ensures Stepped(u, Retried(NextCounted(u, b), n), b, e, n)
  {
    ReplayRetry(u, b, e, n);
    ClosedContent(NextCounted(u, b), b, n);
    hide Shape, Content, NextCounted, Retried;
  }

  lemma SteppedByFirst(u: Tracker, b: nat, e: nat, n: nat)
    requires Shape(u) && ReplayPhase(u, e, n) && n + 1 == u.chocked && n + 1 < u.pieces
    requires Content(NextCounted(u, b), b, n + 1)
    ensures CheckDue(NextCounted(u, b)) && Stepped(u, Closed(NextCounted(u, b), n), b, e, n)
  {
    ReplayFirst(u, b, e, n);
    ClosedContent(NextCounted(u, b), b, n);
    hide Shape, Content, NextCounted, Closed, CheckDue;
  }

  lemma SteppedByWindow(u: Tracker, b: nat, e: nat, n: nat)
    requires Shape(u) && ReplayPhase(u, e, n) && n + 1 < u.pieces
    requires n == e || (e < n && n == u.lastAv + u.chocked)
    requires Content(NextCounted(u, b), b, n + 1)
    ensures CheckDue(NextCounted(u, b)) && Stepped(u, Closed(NextCounted(u, b), n), b, e, n)
  {
    ReplayWindow(u, b, e, n);
    ClosedContent(NextCounted(u, b), b, n);
    NotCutOff(u, e, n);
    hide Shape, Content, NextCounted, Closed, CheckDue, CutOff;
  }

  lemma NotCutOff(u: Tracker, e: nat, n: nat)
    requires n < u.chocked || (e <= n < u.pieces)
    ensures !CutOff(u, e, n)
  {
  }

  lemma SteppedInside(u: Tracker, b: nat, e: nat, n: nat)
    requires Shape(u) && ReplayPhase(u, e, n) && n + 1 < u.pieces
    requires n + 1 < u.chocked || e < n < u.lastAv + u.chocked
    requires Content(NextCounted(u, b), b, n + 1)
    ensures !CheckDue(NextCounted(u, b)) && Stepped(u, Updated(NextCounted(u, b), false), b, e, n)
  {
    ReplayInside(u, b, e, n);
    NotCutOff(u, e, n);
    hide Shape, Content, NextCounted, CheckDue, CutOff;
  }

  /** Where a phase can be. */
  lemma PhaseCases(u: Tracker, e: nat, n: nat)
    requires ReplayPhase(u, e, n)
    ensures u.total == n && u.lastAv <= n && (u.recheck == OFF_RECHECK || u.endAv <= n || u.chocked <= n < e)
    ensures u.chocked <= n < e ==> u.lastAv < n < u.endAv && u.recheck >= 0 && u.window + 1 >= u.chocked
    ensures !(u.chocked <= n < e) ==>
      n + 1 == u.chocked || n == e || (e < n && n == u.lastAv + u.chocked)
      || n + 1 < u.chocked || e < n < u.lastAv + u.chocked
  {
    PositionStep(u.chocked, e, n);
  }

  lemma ReplayStep(u: Tracker, b: nat, e: nat, n: nat)
    requires Shape(u) && Slots(u) && ReplayPhase(u, e, n) && Content(u, b, n) && n + 1 < u.pieces
    requires u.firstPiece <= b && b + n <= u.LastPiece()
    ensures Stepped(u, Report(u, b + n), b, e, n)
  {
    hide *;
    PhaseCases(u, e, n);
    if u.chocked <= n < e {
      NextRetry(u, b, n);
      SteppedByRetry(u, b, e, n);
    } else {
      NextReport(u, b, n);
      if n + 1 == u.chocked {
        SteppedByFirst(u, b, e, n);
      } else if n == e || (e < n && n == u.lastAv + u.chocked) {
        SteppedByWindow(u, b, e, n);
      } else {
        SteppedInside(u, b, e, n);
      }
    }
  }

  /** Right after a completion: the window that was left open still ends where it did, or further on. */
  ghost predicate Restarted(t: Tracker)
    ensures Restarted(t) ==> Shape(t)
  {
    && Inv(t) && t.pieces >= 2 && 2 <= t.chocked <= t.endAv
    && Idle(t)
  }

  /** Counting from the start, with no retry running. */
  predicate Idle(t: Tracker) {
    t.total == t.lastAv == t.window == 0 && t.recheck == OFF_RECHECK
  }

  /** How many bytes consecutive pieces announce by themselves. */
  function ReplayBytes(t: Tracker, n: nat): nat
    requires t.pieces >= 2 && 2 <= t.chocked <= t.endAv
  {
    ReplayBlocks(t.chocked, t.endAv, t.pieces, n) * t.blockSize
  }

  /** The tracker u is what n consecutive pieces from b made of the restarted tracker t. */
  ghost predicate ReplayOf(t: Tracker, u: Tracker, b: nat, n: nat) {
    && Inv(u) && SameFile(t, u) && t.pieces >= 2 && 2 <= t.chocked <= t.endAv
    && u.avBytes == Max(t.avBytes, ReplayBytes(t, n))
    && (if n < t.pieces then ReplayPhase(u, t.endAv, n) && Content(u, b, n) else u.total == t.pieces)
  }

  lemma ReplayNothing(t: Tracker, b: nat)
    requires Restarted(t)
    ensures ReplayOf(t, Run(t, Consecutive(b, 0)), b, 0)
  {
  }

  lemma ReplayBytesStep(t: Tracker, n: nat)
    requires t.pieces >= 2 && 2 <= t.chocked <= t.endAv && n + 1 < t.pieces
    ensures ReplayBytes(t, n) <= ReplayBytes(t, n + 1)
    ensures if CutOff(t, t.endAv, n) then ReplayBytes(t, n + 1) == ReplayBytes(t, n)
            else ReplayBytes(t, n + 1) == Position(t.chocked, t.endAv, n + 1) * t.blockSize
    ensures !CutOff(t, t.endAv, n) && Position(t.chocked, t.endAv, n) == Position(t.chocked, t.endAv, n + 1) ==>
      ReplayBytes(t, n + 1) == ReplayBytes(t, n)
  {
    ReplayBlocksStep(t.chocked, t.endAv, t.pieces, n);
    hide Position;
    var before := ReplayBlocks(t.chocked, t.endAv, t.pieces, n);
    ProductMonotone(before, ReplayBlocks(t.chocked, t.endAv, t.pieces, n + 1), t.blockSize);
  }

  lemma SteppedBytes(t: Tracker, u: Tracker, o: Outcome, b: nat, n: nat)
    requires ReplayOf(t, u, b, n) && n + 1 < t.pieces && Stepped(u, o, b, t.endAv, n) && SameFile(u, o.next)
    ensures o.next.avBytes == Max(t.avBytes, ReplayBytes(t, n + 1))
  {
    hide *;
    ReplayOfBytes(t, u, b, n);
    ReplayBytesStep(t, n);
    SteppedMeans(t, u, o, b, n);
    MaxChain(t.avBytes, ReplayBytes(t, n), ReplayBytes(t, n + 1));
  }

  lemma MaxChain(x: nat, y: nat, z: nat)
    requires y <= z
    ensures Max(Max(x, y), z) == Max(x, z)
  {
  }

  lemma SteppedMeans(t: Tracker, u: Tracker, o: Outcome, b: nat, n: nat)
    requires ReplayOf(t, u, b, n) && n + 1 < t.pieces && Stepped(u, o, b, t.endAv, n) && SameFile(u, o.next)
    ensures if CutOff(t, t.endAv, n) || Position(t.chocked, t.endAv, n) == Position(t.chocked, t.endAv, n + 1)
            then o.next.avBytes == u.avBytes
            else o.next.avBytes == Max(u.avBytes, Position(t.chocked, t.endAv, n + 1) * t.blockSize)
  {
    hide Inv, Content, Position, ReplayBytes, Max;
  }

  lemma ReplayNext(t: Tracker, u: Tracker, b: nat, n: nat)
    requires ReplayOf(t, u, b, n) && n + 1 < t.pieces
    requires t.firstPiece <= b && b + n <= t.LastPiece()
    ensures Shape(u) && ReplayOf(t, Report(u, b + n).next, b, n + 1)
    ensures Report(u, b + n).Threw? <==> t.chocked <= n && t.pieces < t.endAv
  {
    hide Report, Shape, Slots, Windows, ReplayBlocks, ReplayPhase, Content;
    ReportInv(u, b + n);
    ReportKeepsFile(u, b + n);
    ReplayStep(u, b, t.endAv, n);
    SteppedBytes(t, u, Report(u, b + n), b, n);
  }

  lemma ReplayEnd(t: Tracker, u: Tracker, b: nat, n: nat)
    requires ReplayOf(t, u, b, n) && n + 1 >= t.pieces
    requires t.firstPiece <= b && b + n <= t.LastPiece()
    ensures Shape(u) && ReplayOf(t, Report(u, b + n).next, b, n + 1) && Report(u, b + n).Updated?
  {
    hide Report, Slots, Windows, Content, Position;
    ReportInv(u, b + n);
    ReportKeepsFile(u, b + n);
    ReportLast(u, b + n);
    ReportThrows(u, b + n);
  }

  lemma {:induction false} ReplayRun(t: Tracker, b: nat, n: nat)
    requires Restarted(t)
    requires t.firstPiece <= b && b + n <= t.LastPiece() + 1
    ensures ReplayOf(t, Run(t, Consecutive(b, n)), b, n)
  {
    hide *;
    if n == 0 {
      ReplayNothing(t, b);
    } else {
      ReplayRun(t, b, n - 1);
      RunConsecutive(t, b, n);
      if n < t.pieces {
        ReplayNext(t, Run(t, Consecutive(b, n - 1)), b, n - 1);
      } else {
        ReplayEnd(t, Run(t, Consecutive(b, n - 1)), b, n - 1);
      }
    }
  }

  // ----- Any order after a restart -----

  /** What any pieces can announce: as much as all of them announce when they come in order. */
  function MostBlocks(t: Tracker): nat
    requires t.pieces >= 2 && 2 <= t.chocked <= t.endAv
  {
    ReplayBlocks(t.chocked, t.endAv, t.pieces, t.pieces)
  }

  /** So many whole windows of c pieces behind e. */
  predicate Reach(c: nat, e: nat, end: nat)
    requires c > 0
    decreases end
  {
    end == e || (end >= e + c && Reach(c, e, end - c))
  }

  lemma {:induction false} ReachWithin(c: nat, e: nat, end: nat, n: nat)
    requires 2 <= c <= e && Reach(c, e, end) && end < n
    ensures e <= end <= Position(c, e, n)
    decreases end
  {
    if end != e {
      ReachWithin(c, e, end - c, n - c);
      assert WindowStart(c, n - e) == c + WindowStart(c, n - e - c);
    }
  }

  lemma ReachNext(c: nat, e: nat, end: nat)
    requires c > 0 && Reach(c, e, end) && end >= e
    ensures Reach(c, e, end + c)
  {
  }

  /** The window that was open at the restart is not complete yet. */
  predicate InFirst(t: Tracker, u: Tracker) {
    && u.endAv == t.endAv && u.window == u.total
    && (u.total < t.chocked ==> u.lastAv == 0 && u.recheck == OFF_RECHECK)
    && (t.chocked <= u.total < t.pieces ==> u.recheck != OFF_RECHECK)
  }

  /** A later window: it holds one piece less than what was reported since the end of the one before. */
  predicate InLater(t: Tracker, u: Tracker) {
    && t.endAv <= t.pieces && t.chocked > 0
    && Reach(t.chocked, t.endAv, u.endAv) && t.endAv + t.chocked <= u.endAv
    && u.endAv + u.window + 1 <= u.total + t.chocked
  }

  /** The tracker u is what some pieces have made of the restarted tracker t. */
  ghost predicate Limited(t: Tracker, u: Tracker) {
    && Inv(u) && SameFile(t, u) && t.pieces >= 2 && 2 <= t.chocked <= t.endAv
    && u.avBytes <= Max(t.avBytes, MostBlocks(t) * t.blockSize)
    && (t.endAv <= t.pieces ==> u.lastAv <= MostBlocks(t))
    && (InFirst(t, u) || InLater(t, u))
  }

  /** Where a check can stop. */
  predicate StopsAt(c: Tracker, last: nat) {
    && c.lastAv + 2 <= c.endAv && c.total < c.pieces
    && (last == c.lastAv || (last + 1 < c.total && last < c.endAv))
  }

  /** The first check in the open window, or a retry in it. */
  lemma CloseFirst(t: Tracker, c: Tracker, last: nat)
    requires SameFile(t, c) && t.pieces >= 2 && 2 <= t.chocked <= t.endAv && StopsAt(c, last)
    requires c.endAv == t.endAv && c.window == c.total >= t.chocked && c.recheck >= OFF_RECHECK
    requires if t.endAv <= t.pieces then c.lastAv <= MostBlocks(t) else c.lastAv == 0 && c.total == t.chocked
    ensures var next := CloseWindow(c.(lastAv := last)).next;
            next.lastAv <= MostBlocks(t) && (InFirst(t, next) || InLater(t, next))
  {
    var next := CloseWindow(c.(lastAv := last)).next;
    if WindowComplete(c.(lastAv := last)) {
      FirstIsReached(t.chocked, t.endAv);
      ReachWithin(t.chocked, t.endAv, t.endAv, t.pieces - 1);
    }
  }

  lemma FirstIsReached(c: nat, e: nat)
    requires c > 0
    ensures Reach(c, e, e) && Reach(c, e, e + c)
  {
    assert Reach(c, e, e);
  }

  lemma CloseLater(t: Tracker, c: Tracker, last: nat)
    requires SameFile(t, c) && t.pieces >= 2 && 2 <= t.chocked <= t.endAv && StopsAt(c, last)
    requires InLater(t, c) && c.window >= t.chocked && c.lastAv <= MostBlocks(t)
    ensures var next := CloseWindow(c.(lastAv := last)).next; next.lastAv <= MostBlocks(t) && InLater(t, next)
  {
    ReachWithin(t.chocked, t.endAv, c.endAv, t.pieces - 1);
    ReachNext(t.chocked, t.endAv, c.endAv);
    hide Reach, Position;
  }

  /** What has been counted, before a check. */
  ghost predicate Ready(t: Tracker, c: Tracker) {
    && Inv(c) && SameFile(t, c) && t.pieces >= 2 && 2 <= t.chocked <= t.endAv && c.window >= t.chocked
    && c.total < c.pieces
    && c.avBytes <= Max(t.avBytes, MostBlocks(t) * t.blockSize)
    && (t.endAv <= t.pieces ==> c.lastAv <= MostBlocks(t))
    && (InLater(t, c) || (
          && c.endAv == t.endAv && c.window == c.total
          && (c.recheck == OFF_RECHECK ==> c.total == t.chocked && c.lastAv == 0)))
  }

  lemma CountedLimited(t: Tracker, u: Tracker, piece: int)
    requires Limited(t, u) && u.InRange(piece)
    ensures var c := Counted(u.(av := u.av[u.lastSlot := piece]));
            if CheckDue(c) then Ready(t, c) else Limited(t, c)
  {
    CountedInv(u, piece);
    var c := Counted(u.(av := u.av[u.lastSlot := piece]));
    RetryLimitIsRedundant(c);
    hide Slots, MostBlocks, Reach;
  }

  lemma CheckLimited(t: Tracker, c: Tracker)
    requires Ready(t, c)
    ensures Limited(t, Check(c).next)
  {
    CheckInv(c);
    var last := CheckEnds(c);
    CheckKeepsFile(c);
    hide Inv, Check;
    if Check(c).Updated? {
      ClosedLimited(t, c.(av := SortPrefix(c.av, c.total)), last);
    }
  }

  lemma CheckKeepsFile(c: Tracker)
    requires Shape(c)
    ensures SameFile(c, Check(c).next)
  {
    hide Scan, SortPrefix;
  }

  lemma ClosedLimited(t: Tracker, c: Tracker, last: nat)
    requires SameFile(t, c) && t.pieces >= 2 && 2 <= t.chocked <= t.endAv && c.window >= t.chocked
    requires StopsAt(c, last) && c.recheck >= OFF_RECHECK
    requires c.avBytes <= Max(t.avBytes, MostBlocks(t) * t.blockSize)
    requires if t.endAv <= t.pieces then c.lastAv <= MostBlocks(t) else c.recheck == OFF_RECHECK
    requires InLater(t, c) || (
               && c.endAv == t.endAv && c.window == c.total
               && (c.recheck == OFF_RECHECK ==> c.total == t.chocked && c.lastAv == 0))
    ensures var next := CloseWindow(c.(lastAv := last)).next;
            && (t.endAv <= t.pieces ==> next.lastAv <= MostBlocks(t))
            && (InFirst(t, next) || InLater(t, next))
            && next.avBytes <= Max(t.avBytes, MostBlocks(t) * t.blockSize)
  {
    var next := CloseWindow(c.(lastAv := last)).next;
    if InLater(t, c) {
      CloseLater(t, c, last);
    } else {
      CloseFirst(t, c, last);
    }
    ClosedMax(c, last);
    hide CloseWindow, InLater, InFirst, MostBlocks;
    ProductMonotone(next.lastAv, MostBlocks(t), t.blockSize);
  }

  lemma ReportLimited(t: Tracker, u: Tracker, piece: int)
    requires Limited(t, u)
    ensures Shape(u) && Limited(t, Report(u, piece).next)
  {
    if u.InRange(piece) {
      CountedLimited(t, u, piece);
      var c := Counted(u.(av := u.av[u.lastSlot := piece]));
      ReportChecks(u, piece, c);
      hide *;
      if CheckDue(c) {
        CheckLimited(t, c);
      }
    }
  }

  /** Whatever order the pieces come in, they announce no more than they do when all of them come in order. */
  lemma {:induction false} RunLimited(t: Tracker, alerts: seq<Alert>)
    requires Restarted(t) && FileComplete !in alerts
    ensures Limited(t, Run(t, alerts))
  {
    hide Limited, Report, Restarted;
    if alerts == [] {
      RestartLimited(t);
    } else {
      RunLimited(t, alerts[..|alerts| - 1]);
      assert alerts[|alerts| - 1].PieceFinished?;
      ReportLimited(t, Run(t, alerts[..|alerts| - 1]), alerts[|alerts| - 1].piece);
    }
  }

  lemma RestartLimited(t: Tracker)
    requires Restarted(t)
    ensures Limited(t, t)
  {
    hide MostBlocks, Slots;
  }

  // ----- The exception -----

  /**
   Restarted, and fed with consecutive pieces, the tracker throws on exactly those pieces that come behind the
   first full window and before the last two, if the window that was left open ends behind the pieces.
   */
  lemma RestartThrows(t: Tracker, b: nat, n: nat)
    requires Restarted(t)
    requires t.firstPiece <= b && b + n <= t.LastPiece()
    ensures Report(Run(t, Consecutive(b, n)), b + n).Threw? <==> t.chocked <= n < t.pieces - 1 && t.pieces < t.endAv
  {
    hide *;
    ReplayRun(t, b, n);
    if n + 1 < t.pieces {
      ReplayNext(t, Run(t, Consecutive(b, n)), b, n);
    } else {
      ReplayEnd(t, Run(t, Consecutive(b, n)), b, n);
    }
  }

  lemma HealthyRestarts(t: Tracker)
    requires Healthy(t)
    ensures var u := Reinit(t);
            && Healthy(u) && SameFile(t, u) && u.endAv == t.endAv && u.avBytes == t.avBytes
            && (t.pieces >= 2 ==> Restarted(u) && 2 <= t.chocked <= t.endAv)
  {
    ReinitHealthy(t);
  }

  /**
   After a completion, whatever was before it: what consecutive pieces do then is decided by the window that was
   open.
   */
  lemma ThrowsAfterCompletion(t: Tracker, b: nat, n: nat)
    requires Healthy(t) && t.firstPiece <= b && b + n <= t.LastPiece()
    ensures Report(Run(Reinit(t), Consecutive(b, n)), b + n).Threw? <==>
            t.chocked <= n < t.pieces - 1 && t.pieces < t.endAv
  {
    HealthyRestarts(t);
    var u := Reinit(t);
    hide *;
    SameSpan(t, u);
    if t.pieces >= 2 {
      RestartThrows(u, b, n);
    } else {
      RunHealthy(u, Consecutive(b, n));
      SameSpan(u, Run(u, Consecutive(b, n)));
      SmallNeverThrows(Run(u, Consecutive(b, n)), b + n);
    }
  }

  lemma SmallNeverThrows(t: Tracker, piece: int)
    requires Healthy(t) && t.pieces < 2
    ensures Report(t, piece).Updated?
  {
    ReportThrows(t, piece);
    hide Report;
  }

  /** An exception in any order: the walk runs off in the window that was left open, behind a check in it. */
  lemma LimitedThrows(t: Tracker, u: Tracker, piece: int)
    requires Limited(t, u)
    ensures Shape(u) && (Report(u, piece).Threw? ==> t.pieces < t.endAv && t.chocked + 1 < t.pieces)
  {
    ReportThrows(u, piece);
    hide Report;
    if Report(u, piece).Threw? {
      CountedLimited(t, u, piece);
      LimitedRetry(t, u, Counted(u.(av := u.av[u.lastSlot := piece])));
    }
  }

  lemma LimitedRetry(t: Tracker, u: Tracker, c: Tracker)
    requires Limited(t, u) && Ready(t, c) && u.recheck != OFF_RECHECK && u.endAv > u.pieces
    requires c.endAv == u.endAv && c.total == u.total + 1
    ensures t.pieces < t.endAv && t.chocked + 1 < t.pieces
  {
    hide Slots, MostBlocks, Reach;
  }

  /**
   After a completion some order of pieces makes the tracker throw if and only if the window that was left open ends
   behind the pieces and is full before the last two of them.
   */
  lemma ThrowsInSomeOrder(t: Tracker)
    requires Healthy(t) && t.pieces >= 2
    ensures (forall alerts, piece :: FileComplete !in alerts ==> Report(Run(Reinit(t), alerts), piece).Updated?)
            <==> t.endAv <= t.pieces || t.pieces <= t.chocked + 1
  {
    HealthyRestarts(t);
    var u := Reinit(t);
    hide *;
    SameSpan(t, u);
    FirstInFile(t);
    if t.endAv <= t.pieces || t.pieces <= t.chocked + 1 {
      forall alerts, piece | FileComplete !in alerts
        ensures Report(Run(u, alerts), piece).Updated?
      {
        RunLimited(u, alerts);
        LimitedThrows(u, Run(u, alerts), piece);
      }
    } else {
      ThrowsAfterCompletion(t, t.firstPiece, t.chocked);
      ConsecutivePieces(t.firstPiece, t.chocked);
    }
  }

  /**
   All pieces come in order, the file is completed, and its pieces come in order again: the report behind the first
   full window.
   */
  function SecondRound(t: Tracker): Outcome
    requires Shape(t)
  {
    var restarted := Reinit(Run(t, Consecutive(t.firstPiece, t.pieces + 1)));
    Report(Run(restarted, Consecutive(t.firstPiece, t.chocked)), t.firstPiece + t.chocked)
  }

  /** Whether that report throws is decided by the size of the file. */
  lemma ThrowsOnReplay(offset: nat, size: nat, pieceLength: nat, maxPartial: nat)
    requires size > 0 && pieceLength > 0 && PieceOf(offset + size - 1, pieceLength) < INT_MAX - 1
    requires var t := Fresh(offset, size, pieceLength, maxPartial); t.chocked + 1 < t.pieces
    ensures var t := Fresh(offset, size, pieceLength, maxPartial);
            t.chocked >= 2 && Shape(t) && (SecondRound(t).Threw? <==> t.pieces < WindowEnd(t.chocked, t.pieces - 1))
  {
    hide Report, Run, Consecutive, WindowStart, Healthy;
    FreshInv(offset, size, pieceLength, maxPartial);
    var t := Fresh(offset, size, pieceLength, maxPartial);
    ConsecutiveRun(t, t.firstPiece, t.pieces + 1);
    HealthyAlways(offset, size, pieceLength, maxPartial, Consecutive(t.firstPiece, t.pieces + 1));
    ThrowsAfterCompletion(Run(t, Consecutive(t.firstPiece, t.pieces + 1)), t.firstPiece, t.chocked);
  }

  /** Thirteen pieces of one byte, windows of ten: the eleventh piece of the second round throws. */
  lemma ThirteenPiecesThrow(t: Tracker)
    requires t == Fresh(0, 13, 1, 0)
    ensures Shape(t) && t.pieces == 12 && t.chocked == 10 && SecondRound(t).Threw?
  {
    hide *;
    Thirteen();
    SecondWindow();
    ThrowsOnReplay(0, 13, 1, 0);
  }

  lemma SecondWindow()
    ensures WindowEnd(10, 11) == 20
  {
  }
  // ----- The numbers that are published for a file -----

  /** What the controller publishes on each alert. */
  function Numbers(t: Tracker, alerts: seq<Alert>): seq<nat>
    requires Shape(t)
  {
    if alerts == [] then []
    else
      var u := Run(t, alerts[..|alerts| - 1]);
      Numbers(t, alerts[..|alerts| - 1]) + match alerts[|alerts| - 1]
        case PieceFinished(piece) =>
          var o := Report(u, piece);
          if o.Updated? && o.announce then [o.next.Announced()] else []
        case FileComplete => [t.size]
  }

  predicate NeverDecreases(s: seq<nat>) {
    forall i :: 0 <= i < |s| - 1 ==> s[i] <= s[i + 1]
  }

  /** One more number at the end. */
  lemma OneMoreNumber(before: seq<nat>, x: nat, low: nat, high: nat)
    requires NeverDecreases(before) && (forall i :: 0 <= i < |before| ==> low <= before[i] <= high) && low <= high <= x
    ensures NeverDecreases(before + [x]) && forall i :: 0 <= i < |before| + 1 ==> low <= (before + [x])[i] <= x
  {
  }

  /**
   Between completions the numbers never decrease, and stay between the announcements of the tracker before and
   after.
   */
  lemma {:induction false} NumbersGrow(t: Tracker, alerts: seq<Alert>)
    requires Inv(t) && FileComplete !in alerts
    ensures var u, numbers := Run(t, alerts), Numbers(t, alerts);
      && Inv(u) && u.size == t.size && t.Announced() <= u.Announced()
      && NeverDecreases(numbers) && forall i :: 0 <= i < |numbers| ==> t.Announced() <= numbers[i] <= u.Announced()
  {
    if alerts != [] {
      var prior := alerts[..|alerts| - 1];
      var u := Run(t, prior);
      NumbersGrow(t, prior);
      assert alerts[|alerts| - 1].PieceFinished?;
      var piece := alerts[|alerts| - 1].piece;
      LastNumber(t, alerts);
      ReportAnnounced(u, piece);
      hide *;
      OneMoreNumber(Numbers(t, prior), Report(u, piece).next.Announced(), t.Announced(), u.Announced());
      Widen(Numbers(t, prior), t.Announced(), u.Announced(), Report(u, piece).next.Announced());
    } else {
      NoNumbers(t);
    }
  }

  lemma NoNumbers(t: Tracker)
    requires Shape(t)
    ensures Numbers(t, []) == [] && Run(t, []) == t && NeverDecreases([])
  {
  }

  lemma ReportAnnounced(t: Tracker, piece: int)
    requires Inv(t)
    ensures Inv(Report(t, piece).next) && Report(t, piece).next.size == t.size
    ensures t.Announced() <= Report(t, piece).next.Announced()
  {
    hide Report;
    ReportInv(t, piece);
    ReportKeepsFile(t, piece);
  }

  lemma Widen(s: seq<nat>, low: nat, high: nat, higher: nat)
    requires (forall i :: 0 <= i < |s| ==> low <= s[i] <= high) && high <= higher
    ensures forall i :: 0 <= i < |s| ==> low <= s[i] <= higher
  {
  }

  lemma LastNumber(t: Tracker, alerts: seq<Alert>)
    requires Shape(t) && alerts != [] && alerts[|alerts| - 1].PieceFinished?
    ensures var prior := alerts[..|alerts| - 1];
      var o := Report(Run(t, prior), alerts[|alerts| - 1].piece);
      && Run(t, alerts) == o.next
      && Numbers(t, alerts)
         == if o.Updated? && o.announce then Numbers(t, prior) + [o.next.Announced()] else Numbers(t, prior)
  {
    hide Report;
  }

  /** No number is published exactly when the announced bytes are what they were. */
  lemma {:induction false} SilentIffBytes(t: Tracker, alerts: seq<Alert>)
    requires Inv(t) && FileComplete !in alerts
    ensures Inv(Run(t, alerts)) && t.avBytes <= Run(t, alerts).avBytes
    ensures Numbers(t, alerts) == [] <==> Run(t, alerts).avBytes == t.avBytes
  {
    hide *;
    if alerts != [] {
      var prior := alerts[..|alerts| - 1];
      SilentIffBytes(t, prior);
      assert alerts[|alerts| - 1].PieceFinished?;
      InvShape(t);
      ReportInv(Run(t, prior), alerts[|alerts| - 1].piece);
      LastNumber(t, alerts);
    } else {
      InvShape(t);
      NoNumbers(t);
    }
  }

  lemma InvShape(t: Tracker)
    requires Inv(t)
    ensures Shape(t)
  {
  }

  /** Numbers below one that came before them: the sequence goes down as soon as there is one. */
  lemma GoesDown(size: nat, numbers: seq<nat>)
    requires forall i :: 0 <= i < |numbers| ==> numbers[i] < size
    ensures NeverDecreases([size] + numbers) <==> numbers == []
  {
    if numbers != [] {
      assert ([size] + numbers)[0] == size && ([size] + numbers)[1] == numbers[0];
    }
  }

  /**
   After a completion has published the size, every number that a piece publishes is below it, in any order of
   pieces. So the numbers stay up exactly when the pieces announce nothing that is more than before the completion,
   and always if as much as possible was announced before.
   */
  lemma NumbersAfterCompletion(t: Tracker, alerts: seq<Alert>)
    requires Healthy(t) && FileComplete !in alerts
    ensures Shape(t)
    ensures forall i :: 0 <= i < |Numbers(Reinit(t), alerts)| ==> Numbers(Reinit(t), alerts)[i] < t.size
    ensures NeverDecreases([t.size] + Numbers(Reinit(t), alerts)) <==> Run(Reinit(t), alerts).avBytes == t.avBytes
    ensures t.avBytes == Room(t) * t.blockSize ==> NeverDecreases([t.size] + Numbers(Reinit(t), alerts))
  {
    HealthyRestarts(t);
    var u := Reinit(t);
    hide *;
    RunHealthy(u, alerts);
    HealthyNumbers(u, Run(u, alerts));
    NumbersGrow(u, alerts);
    SilentIffBytes(u, alerts);
    GoesDown(t.size, Numbers(u, alerts));
    SameSpan(t, u);
    SameRoom(t, u);
  }

  lemma HealthyNumbers(t: Tracker, u: Tracker)
    requires Healthy(t) && Healthy(u) && SameFile(t, u)
    ensures Inv(t) && Shape(t) && u.Announced() < t.size && u.avBytes <= Room(t) * t.blockSize
  {
  }

  lemma SameRoom(t: Tracker, u: Tracker)
    requires SameFile(t, u)
    ensures Room(t) * t.blockSize == Room(u) * u.blockSize
  {
  }

  /**
   When the pieces come in order after a completion, what is announced and whether the numbers go down depend on the
   state at the completion: the bytes announced before it and the end of the window that was left open.
   */
  lemma ReplayNumbers(t: Tracker, b: nat, n: nat)
    requires Healthy(t) && t.pieces >= 2 && t.firstPiece <= b && b + n <= t.LastPiece() + 1
    ensures 2 <= t.chocked <= t.endAv && Shape(t)
    ensures Run(Reinit(t), Consecutive(b, n)).avBytes == Max(t.avBytes, ReplayBytes(t, n))
    ensures NeverDecreases([t.size] + Numbers(Reinit(t), Consecutive(b, n))) <==> ReplayBytes(t, n) <= t.avBytes
  {
    HealthyRestarts(t);
    var u := Reinit(t);
    hide *;
    SameSpan(t, u);
    ConsecutivePieces(b, n);
    NumbersAfterCompletion(t, Consecutive(b, n));
    ReplayRun(u, b, n);
    ReplayOfBytes(u, Run(u, Consecutive(b, n)), b, n);
    SameBytes(t, u, n);
    MaxKeeps(t.avBytes, ReplayBytes(t, n));
  }

  /**
   After a completion no order of pieces makes the numbers go down if and only if as much was announced before it as
   all pieces announce in order.
   */
  lemma NumbersStayUp(t: Tracker)
    requires Healthy(t) && t.pieces >= 2
    ensures 2 <= t.chocked <= t.endAv
    ensures (forall alerts :: FileComplete !in alerts ==> NeverDecreases([t.size] + Numbers(Reinit(t), alerts)))
            <==> ReplayBytes(t, t.pieces) <= t.avBytes
  {
    HealthyRestarts(t);
    var u := Reinit(t);
    hide *;
    SameSpan(t, u);
    FirstInFile(t);
    ReplayNumbers(t, t.firstPiece, t.pieces);
    ConsecutivePieces(t.firstPiece, t.pieces);
    if ReplayBytes(t, t.pieces) <= t.avBytes {
      forall alerts | FileComplete !in alerts
        ensures NeverDecreases([t.size] + Numbers(u, alerts))
      {
        RunLimited(u, alerts);
        SilentIffBytes(u, alerts);
        SameBytes(t, u, t.pieces);
        LimitedBytes(u, Run(u, alerts));
        MaxKeeps(t.avBytes, ReplayBytes(t, t.pieces));
        NumbersAfterCompletion(t, alerts);
      }
    }
  }

  lemma FirstInFile(t: Tracker)
    ensures t.firstPiece + t.pieces == t.LastPiece()
  {
  }

  lemma LimitedBytes(t: Tracker, u: Tracker)
    requires Limited(t, u)
    ensures t.pieces >= 2 && 2 <= t.chocked <= t.endAv && u.avBytes <= Max(t.avBytes, ReplayBytes(t, t.pieces))
  {
  }

  lemma SameBytes(t: Tracker, u: Tracker, n: nat)
    requires SameFile(t, u) && t.endAv == u.endAv && t.pieces >= 2 && 2 <= t.chocked <= t.endAv
    ensures u.pieces >= 2 && 2 <= u.chocked <= u.endAv && ReplayBytes(t, n) == ReplayBytes(u, n)
  {
  }

  lemma MaxKeeps(x: nat, y: nat)
    ensures Max(x, y) == x <==> y <= x
  {
  }

  lemma {:induction false} ConsecutivePieces(b: nat, n: nat)
    ensures FileComplete !in Consecutive(b, n)
  {
    if n > 0 {
      ConsecutivePieces(b, n - 1);
    }
  }

  lemma SameSpan(t: Tracker, u: Tracker)
    requires SameFile(t, u)
    ensures u.firstPiece == t.firstPiece && u.LastPiece() == t.LastPiece()
    ensures u.pieces == t.pieces && u.chocked == t.chocked && u.size == t.size && u.blockSize == t.blockSize
  {
  }

  lemma ReplayOfBytes(t: Tracker, u: Tracker, b: nat, n: nat)
    requires ReplayOf(t, u, b, n)
    ensures t.pieces >= 2 && 2 <= t.chocked <= t.endAv
    ensures u.avBytes == Max(t.avBytes, ReplayBytes(t, n))
  {
  }

  /**
   The next piece announces something exactly when the closed form rises above what was ever announced, and what it
   announces is the closed form.
   */
  lemma RestartAnnounces(t: Tracker, b: nat, n: nat)
    requires Restarted(t) && t.firstPiece <= b && b + n <= t.LastPiece()
    ensures var o := Report(Run(t, Consecutive(b, n)), b + n);
            var bytes := ReplayBytes(t, n + 1);
            && (o.Updated? && o.announce <==>
                Max(t.avBytes, ReplayBytes(t, n)) < bytes)
            && (o.Updated? && o.announce ==> o.next.avBytes == bytes)
  {
    hide *;
    var u := Run(t, Consecutive(b, n));
    ReplayRun(t, b, n);
    ReplayOfBytes(t, u, b, n);
    ReplayRun(t, b, n + 1);
    RunConsecutive(t, b, n + 1);
    ReplayOfBytes(t, Run(t, Consecutive(b, n + 1)), b, n + 1);
    ReplayOfInv(t, u, b, n);
    ReportInv(u, b + n);
    MaxRises(t.avBytes, ReplayBytes(t, n), ReplayBytes(t, n + 1));
  }

  lemma ReplayOfInv(t: Tracker, u: Tracker, b: nat, n: nat)
    requires ReplayOf(t, u, b, n)
    ensures Inv(u) && SameFile(t, u)
  {
  }

  lemma MaxRises(x: nat, y: nat, z: nat)
    requires Max(x, y) <= Max(x, z)
    ensures Max(x, z) > Max(x, y) <==> z > Max(x, y)
    ensures z > Max(x, y) ==> Max(x, z) == z
  {
  }

  /** The first number that is published after a completion. */
  lemma FirstNumber(t: Tracker, b: nat, n: nat)
    requires Restarted(t) && t.firstPiece <= b && b + n <= t.LastPiece()
    requires ReplayBytes(t, n) <= t.avBytes
    requires t.avBytes < ReplayBytes(t, n + 1) <= t.size
    ensures Numbers(t, Consecutive(b, n)) == []
    ensures Numbers(t, Consecutive(b, n + 1)) == [ReplayBytes(t, n + 1)]
  {
    hide *;
    var u := Run(t, Consecutive(b, n));
    ReplayRun(t, b, n);
    ReplayOfBytes(t, u, b, n);
    MaxKeeps(t.avBytes, ReplayBytes(t, n));
    ConsecutivePieces(b, n);
    RestartedInv(t);
    SilentIffBytes(t, Consecutive(b, n));
    RestartAnnounces(t, b, n);
    ReplayOfInv(t, u, b, n);
    SameSpan(t, u);
    ReportKeepsFile(u, b + n);
    SameSpan(u, Report(u, b + n).next);
    AnnouncedWithin(Report(u, b + n).next);
    ConsecutiveNumber(t, b, n);
  }

  lemma RestartedInv(t: Tracker)
    requires Restarted(t)
    ensures Inv(t)
  {
  }

  lemma ConsecutiveNumber(t: Tracker, b: nat, n: nat)
    requires Shape(t)
    ensures var o := Report(Run(t, Consecutive(b, n)), b + n);
            o.Updated? && o.announce ==>
              Numbers(t, Consecutive(b, n + 1)) == Numbers(t, Consecutive(b, n)) + [o.next.Announced()]
  {
    hide *;
    ConsecutiveLast(b, n);
    LastNumber(t, Consecutive(b, n + 1));
  }

  lemma ConsecutiveLast(b: nat, n: nat)
    ensures Consecutive(b, n + 1)[..n] == Consecutive(b, n) && Consecutive(b, n + 1)[n] == PieceFinished(b + n)
  {
  }

  /** A file of thirteen one-byte pieces that is completed at once publishes 13, and 8 at the tenth piece after that. */
  lemma ThirteenThenEight(t: Tracker)
    requires t == Fresh(0, 13, 1, 0)
    ensures Shape(t) && t.chocked == 10 && Numbers(t, [FileComplete]) == [13]
    ensures Numbers(Reinit(t), Consecutive(0, t.chocked - 1)) == []
    ensures Numbers(Reinit(t), Consecutive(0, t.chocked)) == [8]
  {
    hide *;
    Thirteen();
    CompletionNumber(t);
    FreshHealthy(0, 13, 1, 0);
    HealthyRestarts(t);
    SameSpan(t, Reinit(t));
    TenBytes(Reinit(t));
    FirstNumber(Reinit(t), 0, 9);
  }

  lemma CompletionNumber(t: Tracker)
    requires Shape(t)
    ensures Numbers(t, [FileComplete]) == [t.size]
  {
    assert [FileComplete][..0] == [];
    NoNumbers(t);
  }

  lemma TenBytes(t: Tracker)
    requires t.pieces == 12 && t.chocked == t.endAv == 10 && t.blockSize == 1
    ensures ReplayBytes(t, 9) == 0 && ReplayBytes(t, 10) == 8
  {
  }
}
