/** db/SSTable.h: the table builder, and what the finished file answers. */
module SSTables {
  import opened Bytes
  import opened Coding
  import opened Digits
  import opened Blocks
  import opened BlockTrailers
  import opened FilterBlocks

  /** BlockHandle, declared in both db/block.h:233-258 and db/SSTable.h:7-32. */
  datatype BlockHandle = BlockHandle(offset: nat, size: nat)

  function EncodeTo(h: BlockHandle): (r: Str)
    ensures |r| == 16
  {
    Fixed64(h.offset) + Fixed64(h.size)
  }

  function DecodeFrom(s: Str): BlockHandle
    requires |s| >= 16
  {
    BlockHandle(DecodeFixed64(s, 0), DecodeFixed64(s, 8))
  }

  lemma HandleRoundTrip(h: BlockHandle)
    requires h.offset < DWORD_SIZE && h.size < DWORD_SIZE
    ensures DecodeFrom(EncodeTo(h)) == h
  {
    hide Fixed64, DecodeFixed64;
    var s := EncodeTo(h);
    assert s[0..8] == Fixed64(h.offset) && s[8..16] == Fixed64(h.size);
    Fixed64RoundTrip(s, 0, h.offset);
    Fixed64RoundTrip(s, 8, h.size);
  }

  /** Offset, then size, both little-endian. */
  lemma HandleLayout(h: BlockHandle, j: nat)
    requires j < 8
    ensures EncodeTo(h)[j] as nat == DigitOf(h.offset, 256, j)
    ensures EncodeTo(h)[8 + j] as nat == DigitOf(h.size, 256, j)
  {
    hide Fixed64, DigitOf;
    Fixed64Bytes(h.offset, j);
    Fixed64Bytes(h.size, j);
  }

  // ----- the layout of the file

  type Table = seq<seq<Entry>>    // the data blocks flushed so far

  /** A finished block as it reaches the file: as many bytes as size() says. */
  function Stored(es: seq<Entry>): Str { Cut(Block(es)) }

  lemma StoredSize(es: seq<Entry>)
    requires HasSize(Block(es))
    ensures Stored(es) == Cut(Block(es)) && |Stored(es)| == SliceSize(|Block(es)|)
  {}

  /** The whole block gets there exactly when it is shorter than 2^31 bytes. */
  lemma StoredWhole(es: seq<Entry>)
    ensures Stored(es) == Block(es) <==> |Block(es)| < INT_LIMIT
    ensures HasSize(Block(es)) ==> |Stored(es)| == |Block(es)| % WORD_SIZE && Stored(es) == Block(es)[..|Stored(es)|]
  {}

  /** One entry is enough for a block of which the file gets 20 bytes. */
  lemma BlockCut()
    ensures var es := [Entry([1], HugeValue())];
            HasSize(Block(es)) && |Block(es)| == WORD_SIZE + 20 && |Stored(es)| == 20
  {
    hide FixedSeq, Fixed32, HugeValue;
    var es := [Entry([1], HugeValue())];
    BlockLayout(es);
    RestartAt(es);
    OneEntry(es[0]);
  }

  lemma OneEntry(e: Entry)
    ensures |Body([e])| == 12 + |e.key| + |e.value|
  {
    assert [e][..0] == [];
  }

  /** The data blocks, each followed by its trailer. */
  function Stream(blocks: Table, trailers: seq<Str>): Str
    requires |blocks| == |trailers|
  {
    if blocks == [] then [] else
      var n := |blocks| - 1;
      Stream(blocks[..n], trailers[..n]) + Stored(blocks[n]) + trailers[n]
  }

  /** Where the next block goes. */
  function StreamLength(blocks: Table): nat
  {
    if blocks == [] then 0 else
      var n := |blocks| - 1;
      StreamLength(blocks[..n]) + |Stored(blocks[n])| + TRAILER_SIZE
  }

  /** Handles tile the file: each starts where the one before it and its trailer end. */
  function HandleOf(blocks: Table, i: nat): BlockHandle
    requires i < |blocks|
  {
    BlockHandle(StreamLength(blocks[..i]), |Stored(blocks[i])|)
  }

  predicate NonEmpty(blocks: Table)
  {
    forall i :: 0 <= i < |blocks| ==> blocks[i] != []
  }

  /** SSTable.h:72 */
  function LastKey(b: seq<Entry>): Str
    requires b != []
  {
    Cut(b[|b| - 1].key)
  }

  /** The index entries of the first `n` data blocks. */
  function Index(blocks: Table, n: nat): (r: seq<Entry>)
    requires n <= |blocks| && NonEmpty(blocks)
    ensures |r| == n
  {
    if n == 0 then [] else Index(blocks, n - 1) + [Entry(LastKey(blocks[n - 1]), EncodeTo(HandleOf(blocks, n - 1)))]
  }

  lemma {:induction false} IndexAt(blocks: Table, n: nat, i: nat)
    requires NonEmpty(blocks) && i < n <= |blocks|
    ensures Index(blocks, n)[i] == Entry(LastKey(blocks[i]), EncodeTo(HandleOf(blocks, i)))
  {
    hide EncodeTo, HandleOf;
    if i < n - 1 {
      IndexAt(blocks, n - 1, i);
    }
  }

  function Flat(blocks: Table): seq<Entry>
  {
    if blocks == [] then [] else Flat(blocks[..|blocks| - 1]) + blocks[|blocks| - 1]
  }

  function Keys(es: seq<Entry>): (r: seq<Str>)
    ensures |r| == |es|
    ensures forall i :: 0 <= i < |es| ==> r[i] == es[i].key
  {
    if es == [] then [] else Keys(es[..|es| - 1]) + [es[|es| - 1].key]
  }

  /** What the filter builder has been told: one StartBlock per data block, at the block's offset. */
  function FilterRun(blocks: Table): (r: seq<BlockKeys>)
    ensures |r| == |blocks|
  {
    if blocks == [] then [] else
      var n := |blocks| - 1;
      FilterRun(blocks[..n]) + [BlockKeys(StreamLength(blocks[..n]), Keys(blocks[n]))]
  }

  /** ... and one more for the block being filled. */
  function FilterCalls(blocks: Table, data: seq<Entry>): seq<BlockKeys>
  {
    FilterRun(blocks) + [BlockKeys(StreamLength(blocks), Keys(data))]
  }

  lemma {:induction false} FilterRunAt(blocks: Table, i: nat)
    requires i < |blocks|
    ensures FilterRun(blocks)[i] == BlockKeys(HandleOf(blocks, i).offset, Keys(blocks[i]))
  {
    hide Stored, Keys;
    var n := |blocks| - 1;
    if i < n {
      FilterRunAt(blocks[..n], i);
      assert blocks[..n][..i] == blocks[..i];
    }
  }

  lemma {:induction false} StreamLengthMonotone(blocks: Table, i: nat, j: nat)
    requires i <= j <= |blocks|
    ensures StreamLength(blocks[..i]) <= StreamLength(blocks[..j])
  {
    hide Stored;
    if i < j {
      StreamLengthMonotone(blocks, i, j - 1);
      assert blocks[..j][..j - 1] == blocks[..j - 1];
    }
  }

  /** The builder's calls obey the filter protocol. */
  lemma FilterCallsLegal(blocks: Table, data: seq<Entry>)
    ensures LegalCalls(FilterCalls(blocks, data)) && LegalCalls(FilterRun(blocks))
  {
    hide Stored, Keys, FilterRun;
    var run := FilterCalls(blocks, data);
    forall i, j | 0 <= i < j < |run| ensures run[i].offset <= run[j].offset {
      FilterRunAt(blocks, i);
      if j < |blocks| {
        FilterRunAt(blocks, j);
        StreamLengthMonotone(blocks, i, j);
      } else {
        StreamLengthMonotone(blocks, i, |blocks|);
        assert blocks[..|blocks|] == blocks;
      }
    }
    assert forall i :: 0 <= i < |blocks| ==> run[i] == FilterRun(blocks)[i];
  }

  ghost predicate Sized(trailers: seq<Str>)
  {
    forall i :: 0 <= i < |trailers| ==> |trailers[i]| == TRAILER_SIZE
  }

  /** Each trailer is the checksum of what was stored before it. */
  ghost predicate Sealed(blocks: Table, trailers: seq<Str>)
  {
    |blocks| == |trailers| && forall i :: 0 <= i < |blocks| ==> Checksummed(Stored(blocks[i]), trailers[i])
  }

  lemma SealedSized(blocks: Table, trailers: seq<Str>)
    requires Sealed(blocks, trailers)
    ensures Sized(trailers)
  {
    hide Checksummed, Stored;
    forall i | 0 <= i < |trailers| ensures |trailers[i]| == TRAILER_SIZE {
      ChecksummedSize(Stored(blocks[i]), trailers[i]);
    }
  }

  /** The logical stream at each handle is exactly what was stored of that block. */
  lemma {:induction false} StreamAt(blocks: Table, trailers: seq<Str>, i: nat)
    requires |blocks| == |trailers| && Sized(trailers) && i < |blocks|
    ensures |Stream(blocks, trailers)| == StreamLength(blocks)
    ensures var h, s := HandleOf(blocks, i), Stream(blocks, trailers);
            h.offset + h.size + TRAILER_SIZE <= |s| && s[h.offset..h.offset + h.size] == Stored(blocks[i])
    ensures i + 1 < |blocks| ==>
              HandleOf(blocks, i + 1).offset == HandleOf(blocks, i).offset + HandleOf(blocks, i).size + TRAILER_SIZE
  {
    hide Stored;
    var n := |blocks| - 1;
    StreamSize(blocks, trailers);
    if i < n {
      StreamAt(blocks[..n], trailers[..n], i);
      assert blocks[..n][..i] == blocks[..i];
      assert blocks[..i + 1][..i] == blocks[..i];
      var s, s0 := Stream(blocks, trailers), Stream(blocks[..n], trailers[..n]);
      assert s[..|s0|] == s0;
      var h := HandleOf(blocks, i);
      assert s[h.offset..h.offset + h.size] == s0[h.offset..h.offset + h.size];
    } else {
      StreamSize(blocks[..n], trailers[..n]);
    }
  }

  /** The four bytes after them are their checksum. */
  lemma {:induction false} TrailerAt(blocks: Table, trailers: seq<Str>, i: nat)
    requires Sealed(blocks, trailers) && i < |blocks|
    ensures var h, s := HandleOf(blocks, i), Stream(blocks, trailers);
            var end := h.offset + h.size;
            end + TRAILER_SIZE <= |s| && Checksummed(Stored(blocks[i]), s[end..end + TRAILER_SIZE])
  {
    hide Stored, Checksummed;
    var n := |blocks| - 1;
    SealedSized(blocks, trailers);
    StreamSize(blocks[..n], trailers[..n]);
    var s, s0 := Stream(blocks, trailers), Stream(blocks[..n], trailers[..n]);
    var end := HandleOf(blocks, i).offset + HandleOf(blocks, i).size;
    if i < n {
      TrailerAt(blocks[..n], trailers[..n], i);
      assert blocks[..n][..i] == blocks[..i];
      assert s[end..end + TRAILER_SIZE] == s0[end..end + TRAILER_SIZE];
    } else {
      assert s[end..end + TRAILER_SIZE] == trailers[n];
    }
  }

  lemma {:induction false} StreamSize(blocks: Table, trailers: seq<Str>)
    requires |blocks| == |trailers| && Sized(trailers)
    ensures |Stream(blocks, trailers)| == StreamLength(blocks)
  {
    hide Stored;
    if blocks != [] {
      StreamSize(blocks[..|blocks| - 1], trailers[..|blocks| - 1]);
    }
  }
}
