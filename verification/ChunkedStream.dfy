/**
 The streaming loop: wait until the next chunk is announced, read it, write it to the client.

 The environment is a parameter of every run: `incoming` holds the callbacks that will reach the stream, each
 timed wait may also end by its deadline, and every open, read and write may fail or fall short.
 */
module ChunkedStream {
  type byte = bv8

  datatype Callback = BytesAvaliable(bytes: int) | Break

  function Slice(file: seq<byte>, from: nat, to: nat): seq<byte> {
    if from <= to <= |file| then file[from..to] else []
  }

  function Min(a: int, b: int): int { if a < b then a else b }

  // ----- One round of the loop -----

  /** The chunk at seekPos reaches the end of the range. */
  predicate LastChunk(seekPos: int, chunk: int, readEnd: int) {
    seekPos + chunk >= readEnd
  }

  /** How many bytes have to be announced before the chunk is read. */
  function BytesWait(seekPos: int, chunk: int, readEnd: int): int {
    if LastChunk(seekPos, chunk, readEnd) then readEnd else seekPos + chunk
  }

  /** After a chunk of which `writed` bytes were written: either the next position or the end. */
  datatype Round = Continue(seekPos: int) | Finish(ok: bool)

  function AfterChunk(seekPos: int, chunk: int, readEnd: int, writed: int, complete: bool): Round {
    if !complete then Finish(false)
    else if LastChunk(seekPos, chunk, readEnd) then Finish(true)
    else Continue(seekPos + writed)
  }

  /** The chunk is waited for, or what is left of the range if that is less. */
  lemma WaitsForNextChunk(seekPos: int, chunk: int, readEnd: int, told: int)
    ensures BytesWait(seekPos, chunk, readEnd) <= told <==> seekPos + chunk <= told || readEnd <= told
  {
  }

  /** The stream goes on behind what was written, unless that was all, or not all of the chunk. */
  lemma GoesOn(seekPos: int, chunk: int, readEnd: int, writed: int, complete: bool)
    ensures var round := AfterChunk(seekPos, chunk, readEnd, writed, complete);
            && (round.Continue? <==> complete && seekPos + chunk < readEnd)
            && (round.Continue? ==> round.seekPos == seekPos + writed)
            && (round.Finish? ==> (round.ok <==> complete))
  {
  }

  /** What the file and the client did. */
  datatype Io = Opened(ok: bool) | Readed(bytes: int) | Written(asked: int, bytes: int)

  predicate Failed(io: Io) {
    match io
    case Opened(ok) => !ok
    case Readed(bytes) => bytes <= 0
    case Written(asked, bytes) => bytes < asked
  }

  class HsChunkedOstream {
    const maxChunkSize: nat
    var avaliableBytes: int
    var breaked: bool
    var incoming: seq<Callback>
    var sent: seq<byte>
    ghost var highest: int   // the largest number of bytes this stream has ever been told, at first 0
    ghost var io: seq<Io>    // history

    ghost predicate Valid()
      reads this
    {
      maxChunkSize > 0 && avaliableBytes <= highest
    }

    constructor (maxChunkSize: nat, incoming: seq<Callback>)
      requires maxChunkSize > 0
      ensures Valid() && sent == [] && this.maxChunkSize == maxChunkSize && this.incoming == incoming
      ensures avaliableBytes == highest == 0 && !breaked && io == []
    {
      this.maxChunkSize, this.incoming := maxChunkSize, incoming;
      avaliableBytes, breaked, sent, highest, io := 0, false, [], 0, [];
    }

    method OnBytesAvaliableChange(bytes: int)
      requires Valid()
      modifies `avaliableBytes, `highest
      ensures Valid() && avaliableBytes == bytes && highest == if bytes > old(highest) then bytes else old(highest)
    {
      avaliableBytes := bytes;
      highest := if bytes > highest then bytes else highest;
    }

    method OnBreak()
      modifies `breaked
      ensures breaked
    {
      breaked := true;
    }

    /** The next callback arrives. */
    method Arrive()
      requires Valid() && incoming != []
      modifies `avaliableBytes, `highest, `breaked, `incoming
      ensures Valid() && old(highest) <= highest && incoming == old(incoming)[1..] && (old(breaked) ==> breaked)
      ensures match old(incoming)[0]
              case BytesAvaliable(bytes) => avaliableBytes == bytes && breaked == old(breaked)
              case Break => breaked && avaliableBytes == old(avaliableBytes)
    {
      var callback := incoming[0];
      incoming := incoming[1..];
      match callback
      case BytesAvaliable(bytes) => OnBytesAvaliableChange(bytes);
      case Break => OnBreak();
    }

    /** Any number of callbacks arrive while the stream does not hold its lock. */
    method Interfere()
      requires Valid()
      modifies `avaliableBytes, `highest, `breaked, `incoming
      ensures Valid() && old(highest) <= highest && (old(breaked) ==> breaked)
    {
      var more: bool := *;
      while more && incoming != []
        invariant Valid() && old(highest) <= highest && (old(breaked) ==> breaked)
        decreases |incoming|
      {
        Arrive();
        more := *;
      }
    }

    /** It fails only when the stream is broken or too few bytes are announced. */
    method WaitForBytes(bytes: int) returns (ok: bool)
      requires Valid()
      modifies `avaliableBytes, `highest, `breaked, `incoming
      ensures Valid() && old(highest) <= highest && (old(breaked) ==> breaked)
      ensures ok <==> !breaked && bytes <= avaliableBytes
      ensures old(!breaked && bytes <= avaliableBytes) ==> ok && incoming == old(incoming)
    {
      while true
        invariant Valid() && old(highest) <= highest && (old(breaked) ==> breaked)
        invariant old(!breaked && bytes <= avaliableBytes) ==>
          !breaked && bytes <= avaliableBytes && incoming == old(incoming)
        decreases |incoming|
      {
        if breaked {
          return false;
        }
        if bytes <= avaliableBytes {
          return true;
        }
        var deadline: bool := *;
        if deadline || incoming == [] {
          return false;
        }
        Arrive();
      }
    }

    method Open() returns (ok: bool)
      modifies `io
      ensures io == old(io) + [Opened(ok)]
    {
      ok := *;
      io := io + [Opened(ok)];
    }

    /**
     A read returns at most what was asked for and never more than the file holds; failing and end of file are not
     positive.
     */
    method Read(file: seq<byte>, seekPos: nat) returns (readed: int)
      modifies `io
      ensures readed <= maxChunkSize && (readed > 0 ==> seekPos + readed <= |file|)
      ensures io == old(io) + [Readed(readed)]
    {
      readed := *;
      if readed > maxChunkSize || seekPos + readed > |file| {
        readed := -1;
      }
      io := io + [Readed(readed)];
    }

    /** A write accepts a prefix of the chunk. */
    method Write(chunk: seq<byte>) returns (writed: nat)
      modifies `sent, `io
      ensures writed <= |chunk| && sent == old(sent) + chunk[..writed]
      ensures io == old(io) + [Written(|chunk|, writed)]
    {
      var accepted: int := *;
      writed := if 0 <= accepted <= |chunk| then accepted else 0;
      sent := sent + chunk[..writed];
      io := io + [Written(|chunk|, writed)];
    }

    /** Something that the file or the client did since then has failed. */
    ghost predicate FailedSince(before: nat)
      reads this
    {
      exists i :: before <= i < |io| && Failed(io[i])
    }

    /** Read one chunk at seekPos and write it; `full` says that the read returned all it could. */
    method SendChunk(file: seq<byte>, seekPos: nat) returns (ok: bool, writed: nat, ghost full: bool)
      requires Valid()
      modifies `sent, `io
      ensures old(io) <= io && (ok <==> !FailedSince(|old(io)|))
      ensures writed <= maxChunkSize && (writed > 0 ==> seekPos + writed <= |file|)
      ensures sent == old(sent) + Slice(file, seekPos, seekPos + writed)
      ensures ok ==> writed > 0 && (full <==> seekPos + writed == Min(seekPos + maxChunkSize, |file|))
    {
      writed, full := 0, false;
      var isOpen := Open();
      if !isOpen {
        assert Failed(io[|io| - 1]);
        return false, 0, full;
      }
      var readed := Read(file, seekPos);
      if readed <= 0 {
        assert Failed(io[|io| - 1]);
        return false, 0, full;
      }
      full := seekPos + readed == Min(seekPos + maxChunkSize, |file|);
      var chunk := file[seekPos..seekPos + readed];
      writed := Write(chunk);
      assert Slice(file, seekPos, seekPos + writed) == chunk[..writed];
      assert Failed(io[|io| - 1]) <==> writed != readed;
      return writed == readed, writed, full;
    }

    /**
     Whatever the environment does, the client gets one contiguous slice of the file from readStart on. If the
     range is open towards the end of the file, every byte of it was announced before it was sent. Success with
     full reads ends where the lengths below are computed for. It only fails when the stream is broken, something that
     the file or the client did has failed, or neither the next chunk nor the rest of the range is announced.
     */
    method WriteContent(file: seq<byte>, readStart: nat, readEnd: int)
      returns (ok: bool, ghost end: nat, ghost allFull: bool)
      requires Valid()
      modifies this
      ensures Valid() && old(highest) <= highest && (old(breaked) ==> breaked && !ok)
      ensures readStart <= end && sent == old(sent) + Slice(file, readStart, end)
      ensures readStart < end ==> end <= |file| && Min(end, readEnd) <= highest
      ensures ok ==> readStart < end && readEnd <= highest
      ensures ok && allFull ==> end == StreamEnd(readStart, readEnd, maxChunkSize, |file|)
      ensures !ok ==>
                breaked || FailedSince(|old(io)|)
                || (avaliableBytes < end + maxChunkSize && avaliableBytes < readEnd)
    {
      hide Slice;
      var seekPos := readStart;
      end, allFull := readStart, true;
      SliceOfNothing(file, readStart);
      while !breaked
        invariant Valid() && old(highest) <= highest && (old(breaked) ==> breaked) && old(io) <= io
        invariant readStart <= seekPos == end && sent == old(sent) + Slice(file, readStart, end)
        invariant readStart < end ==> end <= |file| && end <= highest
        invariant allFull && seekPos < |file| ==>
          StreamEnd(readStart, readEnd, maxChunkSize, |file|) == StreamEnd(seekPos, readEnd, maxChunkSize, |file|)
        decreases readEnd - seekPos
      {
        ok := WaitForBytes(BytesWait(seekPos, maxChunkSize, readEnd));
        if !ok {
          WaitsForNextChunk(seekPos, maxChunkSize, readEnd, avaliableBytes);
          return;
        }
        Interfere();
        var writed;
        ghost var full;
        ok, writed, full := SendChunk(file, seekPos);
        end, allFull := seekPos + writed, allFull && full;
        SliceGrows(file, readStart, seekPos, end);
        match AfterChunk(seekPos, maxChunkSize, readEnd, writed, ok)
        case Finish(success) => return success, end, allFull;
        case Continue(next) => seekPos := next;
      }
      ok := false;
    }
  }

  lemma SliceOfNothing(file: seq<byte>, a: nat)
    ensures Slice(file, a, a) == []
  {
  }

  lemma SliceGrows(file: seq<byte>, a: nat, b: nat, c: nat)
    requires a <= b <= c && (a < b ==> b <= |file|) && (b < c ==> c <= |file|)
    ensures Slice(file, a, c) == Slice(file, a, b) + Slice(file, b, c)
  {
  }

  // ----- Lengths -----

  /** Where the loop ends when every read is full. */
  function StreamEnd(seekPos: int, readEnd: int, chunk: int, fileSize: int): int
    requires chunk > 0
    decreases readEnd - seekPos
  {
    if LastChunk(seekPos, chunk, readEnd) then Min(seekPos + chunk, fileSize)
    else StreamEnd(seekPos + chunk, readEnd, chunk, fileSize)
  }

  lemma {:induction false} OpenRangeEnd(seekPos: int, chunk: int, fileSize: int)
    requires chunk > 0 && seekPos <= fileSize
    ensures StreamEnd(seekPos, fileSize, chunk, fileSize) == fileSize
    decreases fileSize - seekPos
  {
    if seekPos + chunk < fileSize {
      OpenRangeEnd(seekPos + chunk, chunk, fileSize);
    }
  }

  /** n is a multiple of d. */
  predicate Multiple(n: int, d: int)
    requires d > 0
    decreases n
  {
    n == 0 || (n >= d && Multiple(n - d, d))
  }

  /**
   A closed range of a..b is advertised as b - a + 1 bytes. With full reads, exactly that many are sent if and only
   if the last chunk does not end one byte short (b is not some whole chunks behind a) and ends either with the
   file or with the range.
   */
  lemma {:induction false} ClosedRangeLength(a: int, b: int, chunk: int, fileSize: int)
    requires chunk > 0 && a <= b < fileSize
    ensures StreamEnd(a, b, chunk, fileSize) - a == b - a + 1 <==>
            && (a == b || !Multiple(b - a, chunk))
            && (b + 1 == fileSize || Multiple(b - a + 1, chunk))
    decreases b - a
  {
    if a + chunk < b {
      ClosedRangeLength(a + chunk, b, chunk, fileSize);
    }
  }

  /** A range of five bytes that is sent as four, and one of two that is sent as four. */
  lemma RangesMissed()
    ensures StreamEnd(0, 4, 4, 10) - 0 == 4 && StreamEnd(0, 1, 4, 10) - 0 == 4
  {
  }
}
