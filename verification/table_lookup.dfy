/** What a finished table answers: db/SSTable.h:61-131 read back with db/block.h:145-202. */
module TableLookups {
  import opened Bytes
  import opened Coding
  import opened Blocks
  import opened BlockTrailers
  import opened Blooms
  import opened FilterBlocks
  import opened Options
  import opened SSTables
  import opened TableBuilders

  predicate Increasing(es: seq<Entry>)
  {
    forall i, j :: 0 <= i < j < |es| ==> Less(es[i].key, es[j].key)
  }

  // ----- entries of the whole table, and of its blocks

  lemma {:induction false} FlatAt(blocks: Table, b: nat, k: nat)
    requires b < |blocks| && k < |blocks[b]|
    ensures var p := |Flat(blocks[..b])| + k;
            p < |Flat(blocks[..b + 1])| <= |Flat(blocks)| && Flat(blocks)[p] == blocks[b][k]
  {
    var n := |blocks| - 1;
    if b < n {
      FlatAt(blocks[..n], b, k);
      assert blocks[..n][..b] == blocks[..b] && blocks[..n][..b + 1] == blocks[..b + 1];
    } else {
      assert blocks[..b + 1] == blocks;
    }
  }

  lemma {:induction false} FlatFrom(blocks: Table, p: nat) returns (b: nat, k: nat)
    requires p < |Flat(blocks)|
    ensures b < |blocks| && k < |blocks[b]| && Flat(blocks)[p] == blocks[b][k]
  {
    var n := |blocks| - 1;
    if p < |Flat(blocks[..n])| {
      b, k := FlatFrom(blocks[..n], p);
    } else {
      b, k := n, p - |Flat(blocks[..n])|;
    }
  }

  lemma KeysOrdered(blocks: Table, a: nat, i: nat, b: nat, j: nat)
    requires Increasing(Flat(blocks))
    requires a < |blocks| && i < |blocks[a]| && b < |blocks| && j < |blocks[b]|
    requires a < b || (a == b && i < j)
    ensures Less(blocks[a][i].key, blocks[b][j].key)
  {
    hide Less, Flat;
    FlatAt(blocks, a, i);
    FlatAt(blocks, b, j);
    if a < b {
      FlatAt(blocks[..b], a, i);
      assert blocks[..b][..a] == blocks[..a] && blocks[..b][..a + 1] == blocks[..a + 1];
    }
  }

  // ----- sizes

  /** The block is stored whole: it takes less than 2GB. */
  predicate Whole(es: seq<Entry>) { |Block(es)| < INT_LIMIT }

  ghost predicate AllWhole(blocks: Table)
  {
    forall i :: 0 <= i < |blocks| ==> Whole(blocks[i])
  }

  /** The table builder keeps the last key of each block whole. */
  ghost predicate LastKeysWhole(blocks: Table)
    requires NonEmpty(blocks)
  {
    forall i :: 0 <= i < |blocks| ==> LastKey(blocks[i]) == blocks[i][|blocks[i]| - 1].key
  }

  lemma WholeFits(es: seq<Entry>)
    requires Whole(es)
    ensures Fits(es) && Stored(es) == Block(es)
  {
    hide Body, Restarts;
    StoredWhole(es);
  }

  /** A block takes more room than any of its keys. */
  lemma WholeKeys(blocks: Table)
    requires NonEmpty(blocks) && AllWhole(blocks)
    ensures LastKeysWhole(blocks)
  {
    hide Body, Trailer;
    forall i | 0 <= i < |blocks| ensures LastKey(blocks[i]) == blocks[i][|blocks[i]| - 1].key {
      var es := blocks[i];
      assert Whole(es);
      KeyLength(es, |es| - 1);
      EntryAt(es, |es| - 1);
    }
  }

  lemma LessNotLess(a: Str, b: Str)
    requires Less(a, b)
    ensures !Less(b, a)
  {
    LessTotal(a, b);
  }

  lemma NotLessSelf(a: Str)
    ensures !Less(a, a)
  {
    LessTotal(a, a);
  }

  /** Index and blocks are sorted, so BlockIter.Seek agrees with the linear search in each. */
  lemma PartsSorted(blocks: Table, b: nat)
    requires NonEmpty(blocks) && LastKeysWhole(blocks) && Increasing(Flat(blocks)) && b < |blocks|
    ensures Sorted(Index(blocks, |blocks|)) && Sorted(blocks[b])
  {
    hide Less, Flat, Index, HandleOf, EncodeTo;
    var index := Index(blocks, |blocks|);
    forall i, j | 0 <= i < j < |index| ensures !Less(index[j].key, index[i].key) {
      IndexAt(blocks, |blocks|, i);
      IndexAt(blocks, |blocks|, j);
      KeysOrdered(blocks, i, |blocks[i]| - 1, j, |blocks[j]| - 1);
      LessNotLess(index[i].key, index[j].key);
    }
    var es := blocks[b];
    forall i, j | 0 <= i < j < |es| ensures !Less(es[j].key, es[i].key) {
      KeysOrdered(blocks, b, i, b, j);
      LessNotLess(es[i].key, es[j].key);
    }
  }

  /** The first index entry with key >= target names the only data block that can hold the target,
      and the first key >= target in there is the only place it can be. */
  lemma OnlyBlock(blocks: Table, target: Str, b: nat, k: nat)
    requires NonEmpty(blocks) && LastKeysWhole(blocks) && Increasing(Flat(blocks))
    requires b < |blocks| && k < |blocks[b]| && blocks[b][k].key == target
    ensures FirstAtLeast(Index(blocks, |blocks|), target) == b
    ensures FirstAtLeast(blocks[b], target) == k
  {
    hide Less, Flat, Index, HandleOf, EncodeTo, FirstAtLeast, Increasing;
    var index := Index(blocks, |blocks|);
    forall c | 0 <= c < b ensures Less(index[c].key, target) {
      IndexAt(blocks, |blocks|, c);
      KeysOrdered(blocks, c, |blocks[c]| - 1, b, k);
    }
    IndexAt(blocks, |blocks|, b);
    NotLessSelf(target);
    var last := |blocks[b]| - 1;
    if k < last {
      KeysOrdered(blocks, b, k, b, last);
      LessNotLess(target, blocks[b][last].key);
    }
    FirstIs(index, target, b);
    forall i | 0 <= i < k ensures Less(blocks[b][i].key, target) {
      KeysOrdered(blocks, b, i, b, k);
    }
    FirstIs(blocks[b], target, k);
  }

  // ----- looking a key up

  /** Seek in one block, and compare. */
  function FindIn(es: seq<Entry>, target: Str): Option<Str>
  {
    var j := FirstAtLeast(es, target);
    if j < |es| && es[j].key == target then Some(es[j].value) else None
  }

  /** Seek in the index, then in the block it names. */
  function LookUp(blocks: Table, target: Str): Option<Str>
    requires NonEmpty(blocks)
  {
    var i := FirstAtLeast(Index(blocks, |blocks|), target);
    if i < |blocks| then FindIn(blocks[i], target) else None
  }

  lemma TableLookup(blocks: Table, target: Str, value: Str)
    requires NonEmpty(blocks) && LastKeysWhole(blocks) && Increasing(Flat(blocks))
    ensures LookUp(blocks, target) == Some(value) <==> Entry(target, value) in Flat(blocks)
  {
    hide Less, Flat, Index, FirstAtLeast, Increasing;
    if Entry(target, value) in Flat(blocks) {
      var p :| 0 <= p < |Flat(blocks)| && Flat(blocks)[p] == Entry(target, value);
      var b, k := FlatFrom(blocks, p);
      OnlyBlock(blocks, target, b, k);
    }
    if LookUp(blocks, target) == Some(value) {
      var i := FirstAtLeast(Index(blocks, |blocks|), target);
      FlatAt(blocks, i, FirstAtLeast(blocks[i], target));
    }
  }

  // ----- the same, from the bytes of the file

  function Entries(visits: seq<Visit>): seq<Entry>
  {
    if visits == [] then [] else [visits[0].entry] + Entries(visits[1..])
  }

  lemma {:induction false} VisitedEntries(es: seq<Entry>, i: nat)
    requires i <= |es|
    ensures Entries(VisitsFrom(es, i)) == es[i..]
    decreases |es| - i
  {
    hide Body;
    if i < |es| {
      VisitedEntries(es, i + 1);
      assert VisitsFrom(es, i)[1..] == VisitsFrom(es, i + 1) && es[i..] == [es[i]] + es[i + 1..];
    }
  }

  /** What a forward scan of a block's bytes yields. */
  function EntriesOf(data: Str): seq<Entry>
  {
    if |data| < 4 then [] else
      var end := |data| - 4 - 4 * (DecodeFixed32(data, |data| - 4) as int);
      if end < 0 then [] else Entries(Scan(data, |data| + 1, 0, end % WORD_SIZE, []))
  }

  function ReadBlock(file: Str, handle: Str): seq<Entry>
  {
    if |handle| < 16 then [] else
      var h := DecodeFrom(handle);
      if h.offset + h.size <= |file| then EntriesOf(file[h.offset..h.offset + h.size]) else []
  }

  /** Footer, index block, data block, each block read from end to end. */
  function ScanFor(file: Str, target: Str): Option<Str>
  {
    if |file| < 16 then None else
      var index := ReadBlock(file, file[|file| - 16..]);
      var i := FirstAtLeast(index, target);
      if i < |index| then FindIn(ReadBlock(file, index[i].value), target) else None
  }

  lemma EntriesBack(es: seq<Entry>)
    requires Fits(es)
    ensures EntriesOf(Block(es)) == es
  {
    hide Body, Restarts, DecodeFixed32, Scan, Entries, VisitsFrom;
    RestartsFit(es);
    BlockLayout(es);
    BlockRoundTrip(es, |Block(es)| + 1);
    VisitedEntries(es, 0);
    assert es[0..] == es;
  }

  lemma ReadBack(file: Str, h: BlockHandle, es: seq<Entry>)
    requires Fits(es) && |file| < DWORD_SIZE
    requires h.offset + h.size <= |file| && file[h.offset..h.offset + h.size] == Block(es)
    ensures ReadBlock(file, EncodeTo(h)) == es
  {
    hide Block, EntriesOf, EncodeTo, DecodeFrom;
    HandleRoundTrip(h);
    EntriesBack(es);
  }

  /** Where the blocks of a finished file are. */
  lemma FileLayout(blocks: Table, trailers: seq<Str>, indexTrailer: Str)
    requires Layout(blocks, trailers) && |indexTrailer| == TRAILER_SIZE
    ensures var file := TableFile(blocks, trailers, indexTrailer);
            var h := BlockHandle(StreamLength(blocks), |Stored(Index(blocks, |blocks|))|);
            && |file| == h.offset + h.size + TRAILER_SIZE + 16
            && file[|file| - 16..] == EncodeTo(h) &&
                file[h.offset..h.offset + h.size] == Stored(Index(blocks, |blocks|))
    ensures var file := TableFile(blocks, trailers, indexTrailer);
            forall i :: 0 <= i < |blocks| ==>
              var h := HandleOf(blocks, i);
              h.offset + h.size <= |file| && file[h.offset..h.offset + h.size] == Stored(blocks[i])
  {
    hide Stored, EncodeTo, Index, HandleOf, Stream, StreamLength;
    StreamSize(blocks, trailers);
    var file, s := TableFile(blocks, trailers, indexTrailer), Stream(blocks, trailers);
    assert file[..|s|] == s;
    forall i | 0 <= i < |blocks|
      ensures var h := HandleOf(blocks, i);
              h.offset + h.size <= |file| && file[h.offset..h.offset + h.size] == Stored(blocks[i])
    {
      StreamAt(blocks, trailers, i);
      var h := HandleOf(blocks, i);
      assert file[h.offset..h.offset + h.size] == s[h.offset..h.offset + h.size];
    }
  }

  /** A finished file of strictly increasing keys answers exactly what was added, as long as no
      block reaches 2GB and the file's own size fits its handles. */
  lemma FileAnswers(blocks: Table, trailers: seq<Str>, indexTrailer: Str, target: Str, value: Str)
    requires Layout(blocks, trailers) && |indexTrailer| == TRAILER_SIZE && Increasing(Flat(blocks))
    requires Whole(Index(blocks, |blocks|)) && AllWhole(blocks)
    requires |TableFile(blocks, trailers, indexTrailer)| < DWORD_SIZE
    ensures ScanFor(TableFile(blocks, trailers, indexTrailer), target) == Some(value) <==>
            Entry(target, value) in Flat(blocks)
  {
    hide Stored, EncodeTo, Index, HandleOf, StreamLength, TableFile, ReadBlock, FirstAtLeast, Flat, Increasing, Fits,
         Whole;
    var file, index := TableFile(blocks, trailers, indexTrailer), Index(blocks, |blocks|);
    FileLayout(blocks, trailers, indexTrailer);
    WholeFits(index);
    WholeKeys(blocks);
    ReadBack(file, BlockHandle(StreamLength(blocks), |Stored(index)|), index);
    var i := FirstAtLeast(index, target);
    if i < |blocks| {
      WholeFits(blocks[i]);
      IndexAt(blocks, |blocks|, i);
      ReadBack(file, HandleOf(blocks, i), blocks[i]);
    }
    TableLookup(blocks, target, value);
  }

  // ----- with the block iterator

  lemma BlockCount(es: seq<Entry>)
    requires Fits(es)
    ensures |Block(es)| >= 4 && DecodeFixed32(Block(es), |Block(es)| - 4) == |Restarts(es)|
    ensures |Restarts(es)| == 0 <==> es == []
  {
    hide Body, Restarts, Block, DecodeFixed32;
    RestartsFit(es);
    BlockLayout(es);
    RestartCount(es);
  }

  /** Seek in the block at `handle`: whether there is a key >= target, and the first. */
  method SeekBlock(file: Str, handle: Str, target: Str, ghost h: BlockHandle, ghost es: seq<Entry>)
    returns (found: bool, key: Str, value: Str)
    requires handle == EncodeTo(h) && Fits(es) && Sorted(es) && |file| < DWORD_SIZE
    requires h.offset + h.size <= |file| && file[h.offset..h.offset + h.size] == Block(es)
    ensures found <==> FirstAtLeast(es, target) < |es|
    ensures found ==> Entry(key, value) == es[FirstAtLeast(es, target)]
  {
    hide Block, Body, Restarts, DecodeFixed32, EncodeTo, DecodeFrom, Sorted, Less, FirstAtLeast, BlockIter.Valid;
    HandleRoundTrip(h);
    BlockCount(es);
    var at := DecodeFrom(handle);
    var data := file[at.offset..at.offset + at.size];
    var restarts_num := DecodeFixed32(data, |data| - 4);
    var it := new BlockIter(data, restarts_num, es);
    it.Seek(target);
    found := restarts_num > 0 && !Less(it.key_, target);
    key, value := it.key_, it.value_;
  }

  /** Footer, index block, data block, with BlockIter.Seek in each of the two: exactly what was added. */
  method Get(file: Str, target: Str, ghost blocks: Table, ghost trailers: seq<Str>, ghost indexTrailer: Str)
    returns (r: Option<Str>)
    requires Layout(blocks, trailers) && |indexTrailer| == TRAILER_SIZE && Increasing(Flat(blocks))
    requires Whole(Index(blocks, |blocks|)) && AllWhole(blocks)
    requires file == TableFile(blocks, trailers, indexTrailer) && |file| < DWORD_SIZE
    ensures forall value :: r == Some(value) <==> Entry(target, value) in Flat(blocks)
  {
    hide Stored, EncodeTo, Index, HandleOf, StreamLength, TableFile, FirstAtLeast, Flat, Increasing, Fits, Whole,
         Sorted, Less;
    ghost var index, i := Index(blocks, |blocks|), FirstAtLeast(Index(blocks, |blocks|), target);
    FileLayout(blocks, trailers, indexTrailer);
    WholeFits(index);
    WholeKeys(blocks);
    IndexSorted(blocks);
    var found, key, value := SeekBlock(file, file[|file| - 16..], target,
                                       BlockHandle(StreamLength(blocks), |Stored(index)|), index);
    r := None;
    if found {
      IndexAt(blocks, |blocks|, i);
      PartsSorted(blocks, i);
      WholeFits(blocks[i]);
      found, key, value := SeekBlock(file, value, target, HandleOf(blocks, i), blocks[i]);
      if found && key == target {
        r := Some(value);
      }
    }
    forall v ensures r == Some(v) <==> Entry(target, v) in Flat(blocks) {
      TableLookup(blocks, target, v);
    }
  }

  lemma IndexSorted(blocks: Table)
    requires NonEmpty(blocks) && LastKeysWhole(blocks) && Increasing(Flat(blocks))
    ensures Sorted(Index(blocks, |blocks|))
  {
    if blocks != [] {
      PartsSorted(blocks, 0);
    }
  }

  /** Every key of data block `b` is accepted at that block's offset by a reader on the block the
      filter builder would finish. */
  lemma TableKeysAccepted(policy: BloomFilterPolicy, blocks: Table, data: seq<Entry>, groups: seq<seq<Str>>,
                          keys: seq<Str>, b: nat, k: nat)
    requires Filtered(blocks, data, groups, keys) && b < |blocks| && k < |blocks[b]|
    ensures Accepts(policy, if keys == [] then groups else groups + [keys], HandleOf(blocks, b).offset,
                    blocks[b][k].key)
  {
    hide Accepts, FilterRun, After, StreamLength, Block;
    var run := FilterCalls(blocks, data);
    FilterCallsLegal(blocks, data);
    FilterRunAt(blocks, b);
    assert Keys(blocks[b])[k] == blocks[b][k].key;
    AddedKeysAccepted(policy, run, b, blocks[b][k].key);
  }
}
