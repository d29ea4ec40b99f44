/**
 Files as the relay stores them: bytes cut into chunks of one fixed size, checked chunk by chunk
 when a candidate is appended and again when a file is read.
 */
module CandidateFiles {
  import opened Basics
  import opened Bytes
  import opened RelayStore

  const CHUNK_BYTES: nat := 0x10_0000

  // ----- Chunks -----

  function Chunks(bytes: seq<byte>): seq<seq<byte>> {
    if bytes == [] then []
    else
      var n := Min(CHUNK_BYTES, |bytes|);
      [bytes[..n]] + Chunks(bytes[n..])
  }

  function Join(chunks: seq<seq<byte>>): seq<byte> {
    if chunks == [] then [] else chunks[0] + Join(chunks[1..])
  }

  /** How many chunks a manifest of this file length names. */
  function ChunkCount(length: nat): nat {
    (length + CHUNK_BYTES - 1) / CHUNK_BYTES
  }

  /** What a stepwise check of chunk sizes leaves of a length; None where a chunk has the wrong size. */
  function Rest(length: nat, sizes: seq<nat>): Option<nat> {
    if sizes == [] then Some(length)
    else if sizes[0] != Min(CHUNK_BYTES, length) then None
    else Rest(length - sizes[0], sizes[1..])
  }

  function Sizes(chunks: seq<seq<byte>>): seq<nat> {
    seq(|chunks|, i requires 0 <= i < |chunks| => |chunks[i]|)
  }

  lemma {:induction false} ChunksJoin(bytes: seq<byte>)
    ensures Join(Chunks(bytes)) == bytes
    ensures |Chunks(bytes)| == ChunkCount(|bytes|)
  {
    if bytes != [] {
      var n := Min(CHUNK_BYTES, |bytes|);
      ChunksJoin(bytes[n..]);
      assert Chunks(bytes)[1..] == Chunks(bytes[n..]);
      assert bytes[..n] + bytes[n..] == bytes;
    }
  }

  /** A file passes the check exactly when its chunks are the only way to cut that many bytes. */
  lemma {:induction false} CheckedFilesAreChunked(length: nat, chunks: seq<seq<byte>>)
    requires |chunks| == ChunkCount(length)
    ensures Rest(length, Sizes(chunks)).Some? <==> |Join(chunks)| == length && chunks == Chunks(Join(chunks))
    ensures Rest(length, Sizes(chunks)).Some? ==> Rest(length, Sizes(chunks)) == Some(0)
  {
    if chunks != [] {
      var bytes, n := Join(chunks), Min(CHUNK_BYTES, length);
      assert Sizes(chunks)[1..] == Sizes(chunks[1..]);
      if |chunks[0]| == n {
        CheckedFilesAreChunked(length - n, chunks[1..]);
        assert bytes[..n] == chunks[0] && bytes[n..] == Join(chunks[1..]);
        if length < CHUNK_BYTES {
          assert chunks[1..] == [];
        }
        if |bytes| == length {
          assert Chunks(bytes)[0] == chunks[0] && Chunks(bytes)[1..] == Chunks(bytes[n..]);
        }
      } else if |bytes| == length {
        assert |Chunks(bytes)[0]| == n;
      }
    }
  }

  lemma {:induction false} RestIsWhatRemains(length: nat, chunks: seq<seq<byte>>)
    requires Rest(length, Sizes(chunks)).Some?
    ensures |Join(chunks)| + Rest(length, Sizes(chunks)).value == length
  {
    if chunks != [] {
      assert Sizes(chunks)[1..] == Sizes(chunks[1..]);
      RestIsWhatRemains(length - |chunks[0]|, chunks[1..]);
    }
  }

  /**
   Of the chunks that pass the stepwise check to the end, the manifest's count singles out the one way
   to cut the bytes.
   */
  lemma CountIsNeeded(length: nat, chunks: seq<seq<byte>>)
    requires Rest(length, Sizes(chunks)) == Some(0)
    ensures chunks == Chunks(Join(chunks)) <==> |chunks| == ChunkCount(length)
  {
    RestIsWhatRemains(length, chunks);
    ChunksJoin(Join(chunks));
    if |chunks| == ChunkCount(length) {
      CheckedFilesAreChunked(length, chunks);
    }
  }

  /** Without the count a file may pass with an empty chunk too many. */
  lemma EmptyChunksPass(length: nat, chunks: seq<seq<byte>>)
    requires Rest(length, Sizes(chunks)) == Some(0)
    ensures Rest(length, Sizes(chunks + [[]])) == Some(0) && Join(chunks + [[]]) == Join(chunks)
  {
    if chunks == [] {
      assert Sizes([[]])[1..] == [];
      assert chunks + [[]] == [[]];
    } else {
      assert (chunks + [[]])[1..] == chunks[1..] + [[]];
      assert Sizes(chunks)[1..] == Sizes(chunks[1..]);
      assert Sizes(chunks + [[]])[1..] == Sizes(chunks[1..] + [[]]);
      EmptyChunksPass(length - |chunks[0]|, chunks[1..]);
    }
  }

  // ----- Sizes and places, chunk by chunk -----

  /** The size of the chunk at a place in a file of this length: one MiB, what is left, and then nothing. */
  function SizeAt(length: nat, i: nat): nat {
    if length >= (i + 1) * 0x10_0000 then 0x10_0000
    else if length > i * 0x10_0000 then length - i * 0x10_0000
    else 0
  }

  /** A stepwise check passes exactly if every chunk has the size of its place, and leaves what they do not cover. */
  lemma {:induction false} RestByPlace(length: nat, sizes: seq<nat>)
    ensures Rest(length, sizes).Some? <==> forall i | 0 <= i < |sizes| :: sizes[i] == SizeAt(length, i)
    ensures Rest(length, sizes).Some? ==>
              Rest(length, sizes).value == if length > |sizes| * 0x10_0000 then length - |sizes| * 0x10_0000 else 0
  {
    if sizes != [] && sizes[0] == Min(CHUNK_BYTES, length) {
      var rest := sizes[1..];
      RestByPlace(length - sizes[0], rest);
      if forall i | 0 <= i < |rest| :: rest[i] == SizeAt(length - sizes[0], i) {
        forall i | 0 <= i < |sizes| ensures sizes[i] == SizeAt(length, i) {
          if i > 0 {
            assert rest[i - 1] == SizeAt(length - sizes[0], i - 1) == SizeAt(length, i);
          }
        }
      }
      if forall i | 0 <= i < |sizes| :: sizes[i] == SizeAt(length, i) {
        forall i | 0 <= i < |rest| ensures rest[i] == SizeAt(length - sizes[0], i) {
          assert sizes[i + 1] == SizeAt(length, i + 1) == SizeAt(length - sizes[0], i);
        }
      }
    } else if sizes != [] {
      assert sizes[0] != SizeAt(length, 0);
    }
  }

  /** The chunks are the file's stretches of one MiB, the last as long as it takes, and none of them empty. */
  lemma {:induction false} ChunkByPlace(bytes: seq<byte>, i: nat)
    requires i < |Chunks(bytes)|
    ensures i * 0x10_0000 < |bytes|
    ensures Chunks(bytes)[i] ==
            bytes[i * 0x10_0000..if |bytes| < (i + 1) * 0x10_0000 then |bytes| else (i + 1) * 0x10_0000]
    ensures |bytes| <= |Chunks(bytes)| * 0x10_0000
  {
    var n := Min(CHUNK_BYTES, |bytes|);
    ChunksJoin(bytes);
    if i > 0 {
      ChunkByPlace(bytes[n..], i - 1);
    }
  }

  lemma FirstChunk(bytes: seq<byte>, offset: nat)
    requires offset < |bytes|
    ensures var end := Min(offset + CHUNK_BYTES, |bytes|);
            Chunks(bytes[offset..]) == [bytes[offset..end]] + Chunks(bytes[end..])
  {
    var rest, n := bytes[offset..], Min(CHUNK_BYTES, |bytes| - offset);
    assert rest[..n] == bytes[offset..offset + n] && rest[n..] == bytes[offset + n..];
  }

  /** What is cut so far, with one chunk more. */
  lemma CutsOneMore(bytes: seq<byte>, offset: nat, done: seq<seq<byte>>)
    requires offset < |bytes| && done + Chunks(bytes[offset..]) == Chunks(bytes)
    ensures var end := Min(offset + CHUNK_BYTES, |bytes|);
            done + [bytes[offset..end]] + Chunks(bytes[end..]) == Chunks(bytes)
  {
    var end := Min(offset + CHUNK_BYTES, |bytes|);
    FirstChunk(bytes, offset);
    assert done + ([bytes[offset..end]] + Chunks(bytes[end..])) == done + [bytes[offset..end]] + Chunks(bytes[end..]);
  }

  // ----- The store of chunks -----

  function Bodies(chunks: map<Locator, seq<byte>>, locators: seq<Locator>): seq<seq<byte>>
    requires forall i | 0 <= i < |locators| :: locators[i] in chunks
  {
    seq(|locators|, i requires 0 <= i < |locators| => chunks[locators[i]])
  }

  lemma BodyAdded(chunks: map<Locator, seq<byte>>, locators: seq<Locator>, locator: Locator, body: seq<byte>)
    requires locator !in chunks && forall i | 0 <= i < |locators| :: locators[i] in chunks
    ensures forall i | 0 <= i < |locators| + 1 :: (locators + [locator])[i] in chunks[locator := body]
    ensures Bodies(chunks[locator := body], locators + [locator]) == Bodies(chunks, locators) + [body]
  {
  }

  /** The chunks stored before are as they were, and none of the new locators names one. */
  ghost predicate Kept(before: map<Locator, seq<byte>>, chunks: map<Locator, seq<byte>>, locators: seq<Locator>) {
    && (forall locator | locator in before ::
          locator in chunks && locator !in locators && chunks[locator] == before[locator])
    && forall i | 0 <= i < |locators| :: locators[i] in chunks
  }

  lemma KeptBesideOneMore(
      before: map<Locator, seq<byte>>, chunks: map<Locator, seq<byte>>, locators: seq<Locator>,
      locator: Locator, body: seq<byte>)
    requires Kept(before, chunks, locators) && locator !in chunks
    ensures Kept(before, chunks[locator := body], locators + [locator])
  {
  }

  /** A locator longer than all of these is none of them. */
  lemma {:induction false} UnusedLocator(used: set<Locator>) returns (locator: Locator)
    ensures forall other | other in used :: |other| < |locator|
  {
    if used == {} {
      locator := "0";
    } else {
      var one :| one in used;
      var rest := UnusedLocator(used - {one});
      locator := rest + one + "0";
    }
  }

  lemma RestSteps(sizes: seq<nat>, i: nat, length: nat)
    requires i < |sizes|
    ensures Rest(length, sizes[i..]) ==
            if sizes[i] != Min(CHUNK_BYTES, length) then None else Rest(length - sizes[i], sizes[i + 1..])
  {
    assert sizes[i..][1..] == sizes[i + 1..];
  }

  lemma JoinSteps(bodies: seq<seq<byte>>, i: nat, joined: seq<byte>)
    requires i < |bodies|
    ensures joined + Join(bodies[i..]) == joined + bodies[i] + Join(bodies[i + 1..])
  {
    assert bodies[i..][1..] == bodies[i + 1..];
  }

  class ChunkStore {
    var chunks: map<Locator, seq<byte>>

    constructor ()
      ensures chunks == map[]
    {
      chunks := map[];
    }

    /** Draws locators until one is unused, and stores the chunk there. */
    method PutChunk(bytes: seq<byte>) returns (locator: Option<Locator>)
      modifies this
      ensures locator.Some? <==> |bytes| <= 0x10_0000
      ensures locator.None? ==> chunks == old(chunks)
      ensures locator.Some? ==> locator.value !in old(chunks) && chunks == old(chunks)[locator.value := bytes]
    {
      if |bytes| > CHUNK_BYTES {
        return None;
      }
      ghost var unused := UnusedLocator(chunks.Keys);
      assert unused !in chunks;
      var drawn: Locator :| drawn !in chunks;
      chunks := chunks[drawn := bytes];
      locator := Some(drawn);
    }

    /** Stores other bytes for a file under new locators: none that names a chunk already is touched. */
    method Rechunk(bytes: seq<byte>) returns (locators: seq<Locator>)
      modifies this
      ensures forall locator | locator in old(chunks) ::
                locator in chunks && locator !in locators && chunks[locator] == old(chunks)[locator]
      ensures forall i | 0 <= i < |locators| :: locators[i] in chunks
      ensures Bodies(chunks, locators) == Chunks(bytes)
    {
      locators := [];
      var offset := 0;
      while offset < |bytes|
        invariant 0 <= offset && Kept(old(chunks), chunks, locators)
        invariant Bodies(chunks, locators) + Chunks(bytes[Min(offset, |bytes|)..]) == Chunks(bytes)
      {
        var end := Min(offset + CHUNK_BYTES, |bytes|);
        CutsOneMore(bytes, offset, Bodies(chunks, locators));
        label before:
        var locator := PutChunk(bytes[offset..end]);
        BodyAdded(old@before(chunks), locators, locator.value, bytes[offset..end]);
        KeptBesideOneMore(old(chunks), old@before(chunks), locators, locator.value, bytes[offset..end]);
        locators := locators + [locator.value];
        offset := offset + CHUNK_BYTES;
      }
    }

    /** The check an appended candidate's file must pass. */
    method CheckSizes(length: nat, locators: seq<Locator>) returns (ok: bool)
      ensures ok <==>
                && (forall i | 0 <= i < |locators| :: locators[i] in chunks)
                && Rest(length, Sizes(Bodies(chunks, locators))).Some?
      ensures ok <==>
                forall i: nat | i < |locators| ::
                  locators[i] in chunks && |chunks[locators[i]]| == SizeAt(length, i)
    {
      if forall i | 0 <= i < |locators| :: locators[i] in chunks {
        RestByPlace(length, Sizes(Bodies(chunks, locators)));
      }
      var remaining := length;
      for i := 0 to |locators|
        invariant forall k | 0 <= k < i :: locators[k] in chunks
        invariant 0 <= remaining <= length
        invariant (forall k | 0 <= k < |locators| :: locators[k] in chunks) ==>
                    Rest(length, Sizes(Bodies(chunks, locators))) ==
                    Rest(remaining, Sizes(Bodies(chunks, locators))[i..])
      {
        if locators[i] !in chunks {
          return false;
        }
        var size := |chunks[locators[i]]|;
        ghost var all := forall k | 0 <= k < |locators| :: locators[k] in chunks;
        if all {
          RestSteps(Sizes(Bodies(chunks, locators)), i, remaining);
        }
        if size != Min(CHUNK_BYTES, remaining) {
          return false;
        }
        remaining := remaining - size;
      }
      ok := true;
    }

    /** Reads a whole file, chunk by chunk; None where a chunk is missing or has the wrong length. */
    method ReadFile(length: nat, locators: seq<Locator>) returns (bytes: Option<seq<byte>>)
      ensures bytes.Some? <==>
                && (forall i | 0 <= i < |locators| :: locators[i] in chunks)
                && Rest(length, Sizes(Bodies(chunks, locators))) == Some(0)
      ensures bytes.Some? ==> bytes.value == Join(Bodies(chunks, locators))
    {
      var remaining, yielded := length, [];
      for i := 0 to |locators|
        invariant forall k | 0 <= k < i :: locators[k] in chunks
        invariant 0 <= remaining <= length
        invariant (forall k | 0 <= k < |locators| :: locators[k] in chunks) ==>
                    && Rest(length, Sizes(Bodies(chunks, locators))) ==
                       Rest(remaining, Sizes(Bodies(chunks, locators))[i..])
                    && yielded + Join(Bodies(chunks, locators)[i..]) == Join(Bodies(chunks, locators))
      {
        if locators[i] !in chunks {
          return None;
        }
        var body := chunks[locators[i]];
        ghost var all := forall k | 0 <= k < |locators| :: locators[k] in chunks;
        if all {
          RestSteps(Sizes(Bodies(chunks, locators)), i, remaining);
          JoinSteps(Bodies(chunks, locators), i, yielded);
        }
        if |body| != Min(CHUNK_BYTES, remaining) {
          return None;
        }
        remaining := remaining - |body|;
        yielded := yielded + body;
      }
      bytes := if remaining == 0 then Some(yielded) else None;
    }
  }

  /** What a reader is shown instead of a file reads back as exactly those bytes. */
  lemma RechunkedReadsBack(bytes: seq<byte>)
    ensures Rest(|bytes|, Sizes(Chunks(bytes))) == Some(0) && Join(Chunks(bytes)) == bytes
    ensures |Chunks(bytes)| == ChunkCount(|bytes|)
  {
    ChunksJoin(bytes);
    CheckedFilesAreChunked(|bytes|, Chunks(bytes));
  }
}
