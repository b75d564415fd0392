/** The retention window: the first `limit` redacted bytes are kept, the rest only counted. */
module BoundedOutput {
  import opened Bytes

  datatype Offset = NoOffset | At(offset: nat)

  datatype TruncationMeta = TruncationMeta(
    inputBytesSeen: nat,
    redactedBytesProduced: nat,
    bytesRetained: nat,
    bytesDropped: nat,
    firstDropped: Offset,
    truncated: bool)

  /** The metadata of a stream of which `produced` redacted bytes came from `seen` input bytes. */
  ghost predicate Describes(meta: TruncationMeta, limit: nat, seen: nat, produced: nat) {
    && meta.inputBytesSeen == seen
    && meta.redactedBytesProduced == produced == meta.bytesRetained + meta.bytesDropped
    && (meta.truncated <==> produced > limit)
    && (meta.truncated <==> meta.bytesRetained < produced)
    && meta.firstDropped == (if meta.truncated then At(limit) else NoOffset)
    && (meta.truncated ==> meta.bytesRetained == limit)
  }

  lemma TakeAppend(s: seq<Byte>, t: seq<Byte>, n: nat)
    ensures |s| >= n ==> Take(s + t, n) == Take(s, n)
    ensures |s| < n ==> Take(s + t, n) == s + Take(t, n - |s|)
  {
  }

  class BoundedCollector {
    const limit: nat
    var retained: seq<seq<Byte>>
    var retainedBytes: nat
    var inputBytesSeen: nat
    var redactedBytesProduced: nat
    var firstDroppedOffset: Offset
    ghost var produced: seq<Byte> // every redacted byte pushed so far

    ghost predicate Valid()
      reads this
    {
      && Flatten(retained) == Take(produced, limit)
      && retainedBytes == |Take(produced, limit)|
      && redactedBytesProduced == |produced|
      && firstDroppedOffset == (if |produced| > limit then At(limit) else NoOffset)
    }

    constructor (limit: nat)
      ensures Valid() && produced == [] && inputBytesSeen == 0
      ensures this.limit == limit
    {
      this.limit := limit;
      retained, retainedBytes, inputBytesSeen, redactedBytesProduced := [], 0, 0, 0;
      firstDroppedOffset := NoOffset;
      produced := [];
    }

    method Push(inputBytes: nat, redactedChunk: seq<Byte>)
      requires Valid()
      modifies this
      ensures Valid()
      ensures produced == old(produced) + redactedChunk
      ensures inputBytesSeen == old(inputBytesSeen) + inputBytes
    {
      TakeAppend(produced, redactedChunk, limit);
      inputBytesSeen := inputBytesSeen + inputBytes;
      redactedBytesProduced := redactedBytesProduced + |redactedChunk|;
      produced := produced + redactedChunk;
      if |redactedChunk| == 0 {
        assert produced == old(produced);
        return;
      }
      var remaining := limit - retainedBytes;
      if remaining <= 0 {
        if firstDroppedOffset == NoOffset {
          firstDroppedOffset := At(retainedBytes);
        }
        return;
      }
      if |redactedChunk| <= remaining {
        FlattenAppend(retained, redactedChunk);
        retained := retained + [redactedChunk];
        retainedBytes := retainedBytes + |redactedChunk|;
      } else {
        FlattenAppend(retained, redactedChunk[..remaining]);
        retained := retained + [redactedChunk[..remaining]];
        retainedBytes := retainedBytes + remaining;
        if firstDroppedOffset == NoOffset {
          firstDroppedOffset := At(limit);
        }
      }
    }

    method Combined() returns (bytes: seq<Byte>)
      requires Valid()
      ensures bytes == Take(produced, limit)
    {
      bytes := Flatten(retained);
    }

    method Meta() returns (meta: TruncationMeta)
      requires Valid()
      ensures Describes(meta, limit, inputBytesSeen, |produced|)
      ensures meta.bytesRetained == |Take(produced, limit)|
    {
      var bytesDropped := redactedBytesProduced - retainedBytes;
      meta := TruncationMeta(
        inputBytesSeen, redactedBytesProduced, retainedBytes,
        if bytesDropped < 0 then 0 else bytesDropped,
        firstDroppedOffset, bytesDropped > 0);
    }
  }
}
