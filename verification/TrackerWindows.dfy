/**
 What a tracker announces when its pieces arrive window by window: inside a window in any order, but each
 window's pieces before those of the next. This is the disorder that the windows of the tracker are made for.
 */
module TrackerWindows {
  import opened Sorting
  import opened SequentialTracker
  import opened TrackerRuns

  /** A whole number of windows of c pieces, and at least one. */
  predicate Aligned(c: nat, e: nat)
    requires c > 0
    decreases e
  {
    e == c || (e > c && Aligned(c, e - c))
  }

  ghost predicate Distinct(r: seq<int>) {
    forall i, j :: 0 <= i < j < |r| ==> r[i] != r[j]
  }

  ghost predicate Contains(r: seq<int>, b: int, n: nat) {
    forall k :: b <= k < b + n ==> k in r
  }

  /** No piece comes twice, none is before b, and whatever fills whole windows is the next pieces from b on. */
  ghost predicate InWindows(c: nat, b: nat, r: seq<int>)
    requires c > 0
  {
    && Distinct(r)
    && (forall k :: 0 <= k < |r| ==> r[k] >= b)
    && forall e: nat :: Aligned(c, e) && e <= |r| ==> Contains(r[..e], b, e)
  }

  lemma InWindowsPrefix(c: nat, b: nat, r: seq<int>, piece: int)
    requires c > 0 && InWindows(c, b, r + [piece])
    ensures InWindows(c, b, r)
  {
    var s := r + [piece];
    assert forall k :: 0 <= k < |r| ==> r[k] == s[k];
    forall e: nat | Aligned(c, e) && e <= |r|
      ensures Contains(r[..e], b, e)
    {
      assert s[..e] == r[..e];
    }
  }

  /** Pieces in increasing order come window by window. */
  lemma ConsecutiveInWindows(c: nat, b: nat, r: seq<int>)
    requires c > 0 && forall k :: 0 <= k < |r| ==> r[k] == b + k
    ensures InWindows(c, b, r)
  {
    forall e: nat | Aligned(c, e) && e <= |r|
      ensures Contains(r[..e], b, e)
    {
      forall k | b <= k < b + e
        ensures k in r[..e]
      {
        assert r[..e][k - b] == k;
      }
    }
  }

  // ----- Sorting puts the whole windows first -----

  lemma {:induction false} FirstOfSorted(s: seq<int>, k: nat)
    requires IsSorted(s) && k < |s|
    ensures s[0] <= s[k]
  {
    if k > 0 {
      FirstOfSorted(s[1..], k - 1);
    }
  }

  /** A sorted list without repetitions that has nothing below b and contains b..b+e starts with them. */
  lemma {:induction false} SortedLeading(s: seq<int>, b: int, e: nat)
    requires IsSorted(s) && Distinct(s) && Contains(s, b, e)
    requires forall k :: 0 <= k < |s| ==> s[k] >= b
    ensures e <= |s| && forall k :: 0 <= k < e ==> s[k] == b + k
  {
    if e > 0 {
      assert b in s;
      var i :| 0 <= i < |s| && s[i] == b;
      FirstOfSorted(s, i);
      forall k | b + 1 <= k < b + e
        ensures k in s[1..]
      {
        assert k in s && s == [s[0]] + s[1..];
      }
      SortedLeading(s[1..], b + 1, e - 1);
    }
  }

  lemma {:induction false} DistinctCounts(r: seq<int>, x: int)
    requires Distinct(r)
    ensures multiset(r)[x] <= 1
  {
    if r != [] {
      assert r == [r[0]] + r[1..];
      assert Distinct(r[1..]);
      DistinctCounts(r[1..], x);
      if x == r[0] {
        assert x !in r[1..];
      }
    }
  }

  /** A permutation of a list without repetitions has none. */
  lemma PermutedDistinct(r: seq<int>, s: seq<int>)
    requires Distinct(r) && multiset(s) == multiset(r)
    ensures Distinct(s)
  {
    forall i, j | 0 <= i < j < |s|
      ensures s[i] != s[j]
    {
      if s[i] == s[j] {
        assert s == s[..j] + [s[j]] + s[j + 1..];
        assert s[i] in multiset(s[..j]) by { assert s[..j][i] == s[i]; }
        assert multiset(s)[s[j]] >= 2;
        DistinctCounts(r, s[j]);
        assert false;
      }
    }
  }

  lemma PermutedElements(r: seq<int>, s: seq<int>)
    requires multiset(s) == multiset(r)
    ensures forall x :: x in s <==> x in r
  {
    assert forall x :: x in s <==> x in multiset(s);
    assert forall x :: x in r <==> x in multiset(r);
  }

  /** What was reported, sorted: the pieces of the whole windows stand at their places. */
  lemma SortedWindows(c: nat, b: nat, r: seq<int>, s: seq<int>, e: nat)
    requires c > 0 && InWindows(c, b, r) && Aligned(c, e) && e <= |r|
    requires IsSorted(s) && multiset(s) == multiset(r)
    ensures e <= |s| && forall k :: 0 <= k < e ==> s[k] == b + k
    ensures Contains(r, b, e)
  {
    PermutedDistinct(r, s);
    PermutedElements(r, s);
    assert Contains(r[..e], b, e);
    forall k | b <= k < b + e
      ensures k in r && k in s
    {
      assert k in r[..e];
    }
    forall k | 0 <= k < |s|
      ensures s[k] >= b
    {
      assert s[k] in r;
    }
    SortedLeading(s, b, e);
  }

  // ----- The tracker -----

  /** The announced blocks, and one more, were reported. */
  ghost predicate Covered(t: Tracker, b: nat, r: seq<int>) {
    && t.avBytes == t.lastAv * t.blockSize
    && (t.lastAv > 0 ==> Contains(r, b, t.lastAv + 1))
  }

  ghost predicate Tidy(t: Tracker, b: nat, r: seq<int>) {
    && Inv(t) && Led(t) && Remembers(t, r) && Covered(t, b, r)
    && (t.pieces >= 2 ==> t.chocked > 0 && Aligned(t.chocked, t.endAv))
  }

  lemma AlignedNext(c: nat, e: nat)
    requires c > 0 && Aligned(c, e)
    ensures Aligned(c, e + c)
  {
  }

  /** Where the walk of a check ends: at the old position, or at a pair of neighbours before the window's end. */
  lemma CheckPair(c: Tracker)
    requires Inv(c) && c.total < c.pieces && c.pieces >= 2
    ensures var av := SortPrefix(c.av, c.total);
            var last := Scan(av, c.lastAv, c.endAv, c.lastAv, c.recheck == OFF_RECHECK).last;
            last == c.lastAv || (c.lastAv <= last < c.endAv && last + 1 < c.total && av[last] + 1 == av[last + 1])
  {
    SortPrefixSlots(c);
    var sorted := c.(av := SortPrefix(c.av, c.total));
    CheckScan(sorted);
    ScanFindsPair(sorted.av, c.lastAv, c.endAv, c.lastAv, c.recheck == OFF_RECHECK);
  }

  /** The sorted pieces at a check. */
  lemma CheckPlaces(c: Tracker, b: nat, r: seq<int>)
    requires Inv(c) && Led(c) && Remembers(c, r) && c.total < c.pieces && c.pieces >= 2 && c.window >= c.chocked
    requires InWindows(c.chocked, b, r) && Aligned(c.chocked, c.endAv)
    ensures var av := SortPrefix(c.av, c.total);
            && c.endAv <= c.total == |r| && Contains(r, b, c.endAv)
            && (forall k :: 0 <= k < c.endAv ==> av[k] == b + k)
            && (forall k :: 0 <= k < c.total ==> av[k] in r)
  {
    hide InWindows, Aligned, Slots;
    SortPrefixSlots(c);
    var s := SortPrefix(c.av, c.total)[..c.total];
    assert r[..c.total] == r;
    SortedWindows(c.chocked, b, r, s, c.endAv);
    PermutedElements(r, s);
    hide *;
    forall k | 0 <= k < c.total
      ensures SortPrefix(c.av, c.total)[k] in r
    {
      assert SortPrefix(c.av, c.total)[k] == s[k];
    }
    forall k | 0 <= k < c.endAv
      ensures SortPrefix(c.av, c.total)[k] == b + k
    {
      assert SortPrefix(c.av, c.total)[k] == s[k];
    }
  }

  /** Closing the window at such a place announces only what was reported. */
  lemma CloseCovered(c: Tracker, last: nat, b: nat, r: seq<int>)
    requires Covered(c, b, r) && Contains(r, b, c.endAv) && c.lastAv + 2 <= c.endAv
    requires last == c.lastAv || (c.lastAv <= last < c.endAv && (last + 1 == c.endAv ==> b + c.endAv in r))
    ensures Covered(CloseWindow(c.(lastAv := last)).next, b, r)
  {
    ClosedBytes(c, last);
  }

  lemma CheckCovered(c: Tracker, b: nat, r: seq<int>)
    requires Inv(c) && Led(c) && Remembers(c, r) && c.total < c.pieces && c.pieces >= 2 && c.window >= c.chocked
    requires InWindows(c.chocked, b, r) && Aligned(c.chocked, c.endAv) && Covered(c, b, r)
    requires c.recheck == OFF_RECHECK || c.endAv <= c.pieces
    ensures Covered(Check(c).next, b, r) && Aligned(c.chocked, Check(c).next.endAv)
  {
    hide *;
    WindowAhead(c);
    CheckPlaces(c, b, r);
    CheckPair(c);
    AlignedNext(c.chocked, c.endAv);
    var last := Scan(SortPrefix(c.av, c.total), c.lastAv, c.endAv, c.lastAv, c.recheck == OFF_RECHECK).last;
    CheckCloses(c);
    SameCovered(c, b, r);
    CloseCovered(c.(av := SortPrefix(c.av, c.total)), last, b, r);
    CloseAligned(c, last);
  }

  lemma CheckCloses(c: Tracker)
    requires Inv(c) && c.total < c.pieces && c.pieces >= 2 && c.window >= c.chocked
    requires c.recheck == OFF_RECHECK || c.endAv <= c.pieces
    ensures var last := Scan(SortPrefix(c.av, c.total), c.lastAv, c.endAv, c.lastAv, c.recheck == OFF_RECHECK).last;
            Check(c).next == CloseWindow(c.(av := SortPrefix(c.av, c.total), lastAv := last)).next
  {
    CheckInv(c);
    hide Slots, CloseWindow, Scan;
  }

  lemma WindowAhead(c: Tracker)
    requires Inv(c) && c.pieces >= 2
    ensures Shape(c) && c.total <= |c.av| && c.chocked > 0 && c.lastAv + 2 <= c.endAv
  {
  }

  lemma SameCovered(c: Tracker, b: nat, r: seq<int>)
    requires Shape(c) && Covered(c, b, r)
    ensures Covered(c.(av := SortPrefix(c.av, c.total)), b, r)
  {
  }

  lemma CloseAligned(c: Tracker, last: nat)
    requires Shape(c) && c.chocked > 0 && Aligned(c.chocked, c.endAv) && Aligned(c.chocked, c.endAv + c.chocked)
    ensures Aligned(c.chocked, CloseWindow(c.(av := SortPrefix(c.av, c.total), lastAv := last)).next.endAv)
  {
  }

  /** So far the pieces of the tracked file came window by window; a file over one or two pieces has no windows. */
  ghost predicate ByWindows(t: Tracker, b: nat, r: seq<int>) {
    t.pieces >= 2 ==> t.chocked > 0 && InWindows(t.chocked, b, r)
  }

  lemma CoveredMore(t: Tracker, u: Tracker, b: nat, r: seq<int>, piece: int)
    requires Covered(t, b, r) && u.avBytes == t.avBytes && u.lastAv == t.lastAv && u.blockSize == t.blockSize
    ensures Covered(u, b, r + [piece])
  {
  }

  lemma CountedTidy(t: Tracker, b: nat, r: seq<int>, piece: int)
    requires Tidy(t, b, r) && t.InRange(piece)
    ensures Tidy(Counted(t.(av := t.av[t.lastSlot := piece])), b, r + [piece])
  {
    var c := Counted(t.(av := t.av[t.lastSlot := piece]));
    CountedInv(t, piece);
    StoredRemembers(t, piece, r);
    CoveredMore(t, c, b, r, piece);
    hide Covered, Remembers, Slots, Aligned;
  }

  lemma CheckTidy(c: Tracker, b: nat, r: seq<int>)
    requires Tidy(c, b, r) && CheckDue(c) && c.pieces >= 2 && InWindows(c.chocked, b, r)
    ensures Tidy(Check(c).next, b, r)
  {
    RetryLimitIsRedundant(c);
    hide Check, CheckDue, Covered, Remembers, Slots, Aligned, InWindows;
    CheckInv(c);
    CheckLed(c);
    CheckRemembers(c, r);
    CheckCovered(c, b, r);
  }

  /** One more piece of the window that is open, or the first of the next. */
  lemma ReportTidy(t: Tracker, b: nat, r: seq<int>, piece: int)
    requires Tidy(t, b, r) && t.InRange(piece) && ByWindows(t, b, r + [piece])
    ensures Tidy(Report(t, piece).next, b, r + [piece])
  {
    CountedTidy(t, b, r, piece);
    var c := Counted(t.(av := t.av[t.lastSlot := piece]));
    hide Check, Tidy, InWindows, CheckDue;
    if CheckDue(c) {
      DueIsLong(t.(av := t.av[t.lastSlot := piece]));
      CheckTidy(c, b, r + [piece]);
    }
  }

  lemma DueIsLong(t: Tracker)
    requires CheckDue(Counted(t))
    ensures t.pieces >= 2
  {
  }

  lemma {:induction false} RunTidy(t: Tracker, b: nat, alerts: seq<Alert>)
    requires Tidy(t, b, []) && FileComplete !in alerts
    requires ByWindows(t, b, Reported(t, alerts))
    ensures Tidy(Run(t, alerts), b, Reported(t, alerts)) && SameFile(t, Run(t, alerts))
  {
    hide Tidy, InWindows, Report, ByWindows;
    TidyInv(t, b, []);
    if alerts != [] {
      var prior := alerts[..|alerts| - 1];
      var u := Run(t, prior);
      assert alerts[|alerts| - 1].PieceFinished?;
      var piece := alerts[|alerts| - 1].piece;
      if t.InRange(piece) {
        ByWindowsPrefix(t, b, Reported(t, prior), piece);
      }
      RunTidy(t, b, prior);
      TidyInv(u, b, Reported(t, prior));
      ReportKeepsFile(u, piece);
      if t.InRange(piece) {
        ByWindowsSame(t, u, b, Reported(t, prior) + [piece]);
        ReportTidy(u, b, Reported(t, prior), piece);
      } else {
        ReportOutside(u, piece);
      }
    }
  }

  lemma ByWindowsSame(t: Tracker, u: Tracker, b: nat, r: seq<int>)
    requires ByWindows(t, b, r) && SameFile(t, u)
    ensures ByWindows(u, b, r)
  {
  }

  lemma ReportOutside(t: Tracker, piece: int)
    requires Shape(t) && !t.InRange(piece)
    ensures Report(t, piece).next == t
  {
  }

  lemma ByWindowsPrefix(t: Tracker, b: nat, r: seq<int>, piece: int)
    requires ByWindows(t, b, r + [piece])
    ensures ByWindows(t, b, r)
  {
    hide InWindows;
    if t.pieces >= 2 {
      InWindowsPrefix(t.chocked, b, r, piece);
    }
  }

  lemma TidyInv(t: Tracker, b: nat, r: seq<int>)
    requires Tidy(t, b, r)
    ensures Inv(t)
  {
  }

  lemma FreshTidy(offset: nat, size: nat, pieceLength: nat, maxPartial: nat, b: nat)
    requires size > 0 && pieceLength > 0 && PieceOf(offset + size - 1, pieceLength) < INT_MAX - 1
    ensures Tidy(Fresh(offset, size, pieceLength, maxPartial), b, [])
  {
    FreshInv(offset, size, pieceLength, maxPartial);
  }

  /** The bytes of so many whole pieces, from anywhere in a piece on, reach at most so many pieces further. */
  lemma PieceWithin(offset: nat, pieceLength: nat, blocks: nat, i: nat)
    requires pieceLength > 0 && i < blocks * pieceLength
    ensures PieceOf(offset, pieceLength) <= PieceOf(offset + i, pieceLength) <= PieceOf(offset, pieceLength) + blocks
  {
    PieceOfMonotone(offset, offset + i, pieceLength);
    var first, p := PieceOf(offset, pieceLength), PieceOf(offset + i, pieceLength);
    hide PieceOf;
    assert (first + blocks + 1) * pieceLength == first * pieceLength + blocks * pieceLength + pieceLength;
    ProductGap(first + blocks + 1, p, pieceLength);
  }

  lemma ProductGap(x: nat, y: nat, d: nat)
    ensures x <= y ==> x * d <= y * d
  {
    if x <= y {
      ProductMonotone(x, y, d);
    }
  }

  /** Byte i behind `offset` lies in a piece that was reported, or before piece b. */
  predicate ByteReported(offset: nat, pieceLength: nat, b: nat, r: seq<int>, i: nat)
    requires pieceLength > 0
  {
    var p := PieceOf(offset + i, pieceLength);
    p < b || p in r
  }

  /**
   Of a file over more than two pieces, every announced byte lies in a piece that was reported, or before them all.
   */
  lemma TidyBytes(t: Tracker, b: nat, r: seq<int>, offset: nat, i: nat)
    requires Tidy(t, b, r) && PieceOf(offset, t.blockSize) <= b && i < t.Announced()
    ensures PieceOf(offset, t.blockSize) <= PieceOf(offset + i, t.blockSize)
    ensures ByteReported(offset, t.blockSize, b, r, i)
  {
    PieceWithin(offset, t.blockSize, t.lastAv, i);
    hide PieceOf, Slots, Remembers, Aligned;
  }

  /**
   When the pieces of a file arrive window by window, in any order inside each window, every byte that is announced
   lies in a piece that was reported, or before the piece that the windows start with.
   */
  lemma WindowsSound(offset: nat, size: nat, pieceLength: nat, maxPartial: nat, b: nat, alerts: seq<Alert>)
    requires size > 0 && pieceLength > 0 && PieceOf(offset + size - 1, pieceLength) < INT_MAX - 1
    requires FileComplete !in alerts && PieceOf(offset, pieceLength) <= b
    requires var t := Fresh(offset, size, pieceLength, maxPartial); ByWindows(t, b, Reported(t, alerts))
    ensures var t := Fresh(offset, size, pieceLength, maxPartial);
            forall i: nat :: i < Run(t, alerts).Announced() ==>
              ByteReported(offset, pieceLength, b, Reported(t, alerts), i)
  {
    var t := Fresh(offset, size, pieceLength, maxPartial);
    hide ByWindows, Tidy, Run, Reported, PieceOf, ByteReported;
    FreshTidy(offset, size, pieceLength, maxPartial, b);
    TidyInv(t, b, []);
    var u := Run(t, alerts);
    RunTidy(t, b, alerts);
    SameSizes(t, u);
    if t.pieces >= 2 {
      LongFileBlocks(offset, size, pieceLength);
    }
    assert t.pieces >= 2 ==> t.blockSize == pieceLength;
    hide *;
    forall i: nat | i < u.Announced()
      ensures ByteReported(offset, pieceLength, b, Reported(t, alerts), i)
    {
      TidyLong(u, b, Reported(t, alerts), i);
      TidyBytes(u, b, Reported(t, alerts), offset, i);
    }
  }

  lemma SameSizes(t: Tracker, u: Tracker)
    requires SameFile(t, u)
    ensures u.pieces == t.pieces && u.blockSize == t.blockSize
  {
  }

  lemma TidyLong(t: Tracker, b: nat, r: seq<int>, i: nat)
    requires Tidy(t, b, r) && i < t.Announced()
    ensures t.pieces >= 2 && r != []
  {
    assert t.lastAv > 0;
    assert b in r;
  }
}
