/**
 The files of one torrent: a finished piece is looked up in the list of trackers.
 */
module TorrentFiles {
  import opened SequentialTracker

  ghost predicate AllShaped(files: seq<Tracker>) {
    forall i :: 0 <= i < |files| ==> Shape(files[i])
  }

  /** The first file of the list that the piece overlaps, or the length of the list. */
  function FirstInRange(files: seq<Tracker>, piece: int): (k: nat)
    ensures k <= |files| && (k < |files| ==> files[k].InRange(piece))
    ensures forall j :: 0 <= j < k ==> !files[j].InRange(piece)
  {
    if files == [] || files[0].InRange(piece) then 0 else 1 + FirstInRange(files[1..], piece)
  }

  lemma {:induction false} FirstInRangeAt(files: seq<Tracker>, piece: int, k: nat)
    requires k <= |files| && (k < |files| ==> files[k].InRange(piece))
    requires forall j :: 0 <= j < k ==> !files[j].InRange(piece)
    ensures FirstInRange(files, piece) == k
  {
    if k > 0 {
      FirstInRangeAt(files[1..], piece, k - 1);
    }
  }

  /** A piece is credited to one file only, even when it overlaps several. */
  function Update(files: seq<Tracker>, piece: int): (r: seq<Tracker>)
    requires AllShaped(files)
    ensures |r| == |files| && AllShaped(r)
  {
    var k := FirstInRange(files, piece);
    if k < |files| then files[k := Report(files[k], piece).next] else files
  }

  /** Whether the update announces more bytes, and for which file. */
  function Announces(files: seq<Tracker>, piece: int): (r: int)
    requires AllShaped(files)
    ensures -1 <= r < |files|
  {
    var k := FirstInRange(files, piece);
    if k < |files| && Report(files[k], piece).Updated? && Report(files[k], piece).announce then k else -1
  }

  predicate Throws(files: seq<Tracker>, piece: int)
    requires AllShaped(files)
  {
    var k := FirstInRange(files, piece);
    k < |files| && Report(files[k], piece).Threw?
  }
}
