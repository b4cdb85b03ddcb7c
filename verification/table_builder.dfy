/** db/SSTable.h:33-132: TableBuilder. */
module TableBuilders {
  import opened Bytes
  import opened Coding
  import opened Blocks
  import opened BlockTrailers
  import opened Blooms
  import opened FilterBlocks
  import opened Octets
  import opened WritableFiles
  import opened SSTables
  import Crc32c

  const BLOCK_LIMIT: nat := 1000

  /** The finished file. */
  function TableFile(blocks: Table, trailers: seq<Str>, indexTrailer: Str): Str
    requires |blocks| == |trailers| && NonEmpty(blocks)
  {
    var index := Stored(Index(blocks, |blocks|));
    Stream(blocks, trailers) + index + indexTrailer + EncodeTo(BlockHandle(StreamLength(blocks), |index|))
  }

  // ----- what the filter builder holds

  lemma FilterAfterKey(blocks: Table, data: seq<Entry>, e: Entry)
    ensures var p := After(FilterCalls(blocks, data));
            After(FilterCalls(blocks, data + [e])) == Progress(p.groups, p.pending + [Cut(e.key)])
  {
    hide FilterRun, StreamLength;
    assert (data + [e])[..|data|] == data;
    assert Cuts(Keys(data + [e])) == Cuts(Keys(data)) + [Cut(e.key)];
    assert FilterCalls(blocks, data)[..|FilterRun(blocks)|] == FilterRun(blocks);
    assert FilterCalls(blocks, data + [e])[..|FilterRun(blocks)|] == FilterRun(blocks);
  }

  lemma FilterAfterBlock(blocks: Table, data: seq<Entry>)
    ensures var p, n := After(FilterCalls(blocks, data)), StreamLength(blocks + [data]) / BASE;
            && n >= |p.groups|
            && After(FilterCalls(blocks + [data], [])) ==
               Progress(FillTo(p.groups, p.pending, n), if n > |p.groups| then [] else p.pending)
  {
    hide StreamLength, FillTo;
    var all := blocks + [data];
    assert all[..|blocks|] == blocks;
    assert FilterRun(all) == FilterCalls(blocks, data);
    var run := FilterCalls(all, []);
    assert run[..|run| - 1] == FilterRun(all);
    FilterCallsLegal(all, []);
    ProtocolHolds(FilterCalls(blocks, data), BlockKeys(StreamLength(all), []));
  }

  lemma {:induction false} IndexPrefix(blocks: Table, more: Table, n: nat)
    requires NonEmpty(blocks) && NonEmpty(blocks + more) && n <= |blocks|
    ensures Index(blocks + more, n) == Index(blocks, n)
  {
    hide Stored, EncodeTo, StreamLength;
    if n > 0 {
      IndexPrefix(blocks, more, n - 1);
      assert (blocks + more)[..n - 1] == blocks[..n - 1];
    }
  }

  // ----- what the builder keeps true, over values

  ghost predicate Layout(blocks: Table, trailers: seq<Str>)
  {
    |blocks| == |trailers| && Sized(trailers) && Sealed(blocks, trailers) && NonEmpty(blocks)
  }

  /** The data blocks written so far are the whole file, logically. */
  ghost predicate Laid(blocks: Table, trailers: seq<Str>, logical: Str, offset: nat)
  {
    Layout(blocks, trailers) && logical == Stream(blocks, trailers) && offset == StreamLength(blocks)
  }

  /** Nothing added is lost, duplicated or moved. */
  ghost predicate Recorded(blocks: Table, data: seq<Entry>, added: seq<Entry>, num_entries: nat, last_key: Str)
  {
    && added == Flat(blocks) + data && num_entries == |added|
    && (added != [] ==> last_key == LastKey(added))
  }

  /** The pending flag is set only while the data block is empty, and exactly the last block is then
      missing from the index. */
  ghost predicate IndexKept(blocks: Table, data: seq<Entry>, index: seq<Entry>, pending: bool, handle: BlockHandle)
  {
    && NonEmpty(blocks)
    && (pending ==> data == [] && blocks != [] && handle == HandleOf(blocks, |blocks| - 1))
    && index == Index(blocks, if pending then |blocks| - 1 else |blocks|)
  }

  /** The filter builder stands where the legal run of calls for these blocks leaves it. */
  ghost predicate Filtered(blocks: Table, data: seq<Entry>, groups: seq<seq<Str>>, keys: seq<Str>)
  {
    Progress(groups, keys) == After(FilterCalls(blocks, data))
  }

  lemma RecordKey(blocks: Table, data: seq<Entry>, added: seq<Entry>, n: nat, last: Str, e: Entry)
    requires Recorded(blocks, data, added, n, last)
    ensures Recorded(blocks, data + [e], added + [e], n + 1, Cut(e.key))
  {
    assert added + [e] == Flat(blocks) + (data + [e]);
  }

  lemma RecordBlock(blocks: Table, data: seq<Entry>, added: seq<Entry>, n: nat, last: Str)
    requires Recorded(blocks, data, added, n, last)
    ensures Recorded(blocks + [data], [], added, n, last)
  {
    assert (blocks + [data])[..|blocks|] == blocks;
  }

  lemma LastOfFlat(blocks: Table)
    requires NonEmpty(blocks) && blocks != []
    ensures Flat(blocks) != [] && LastKey(Flat(blocks)) == LastKey(blocks[|blocks| - 1])
  {}

  lemma IndexNext(blocks: Table, n: nat)
    requires NonEmpty(blocks) && n < |blocks|
    ensures Index(blocks, n + 1) == Index(blocks, n) + [Entry(LastKey(blocks[n]), EncodeTo(HandleOf(blocks, n)))]
  {
    hide EncodeTo, HandleOf, LastKey;
  }

  /** The index entry that closes a block: its last key and its handle. */
  lemma CloseIndex(blocks: Table, index: seq<Entry>, handle: BlockHandle, added: seq<Entry>, n: nat, last: Str)
    requires IndexKept(blocks, [], index, true, handle) && Recorded(blocks, [], added, n, last)
    ensures IndexKept(blocks, [], index + [Entry(last, EncodeTo(handle))], false, handle)
  {
    hide HandleOf, EncodeTo, Index, Flat, LastKey;
    assert added == Flat(blocks);
    LastOfFlat(blocks);
    IndexNext(blocks, |blocks| - 1);
  }

  lemma IndexKey(blocks: Table, data: seq<Entry>, index: seq<Entry>, handle: BlockHandle, e: Entry)
    requires IndexKept(blocks, data, index, false, handle)
    ensures IndexKept(blocks, data + [e], index, false, handle)
  {
    hide Index;
  }

  lemma IndexBlock(blocks: Table, data: seq<Entry>, index: seq<Entry>, handle: BlockHandle)
    requires IndexKept(blocks, data, index, false, handle) && data != []
    ensures IndexKept(blocks + [data], [], index, true, BlockHandle(StreamLength(blocks), |Stored(data)|))
  {
    hide Stored, StreamLength, EncodeTo;
    var all := blocks + [data];
    IndexPrefix(blocks, [data], |blocks|);
    assert all[..|blocks|] == blocks;
  }

  lemma LayBlock(blocks: Table, trailers: seq<Str>, logical: Str, offset: nat, data: seq<Entry>, trailer: Str)
    requires Laid(blocks, trailers, logical, offset) && data != [] && Checksummed(Stored(data), trailer)
    ensures Laid(blocks + [data], trailers + [trailer], logical + Stored(data) + trailer,
                 offset + |Stored(data)| + TRAILER_SIZE)
    ensures offset == StreamLength(blocks) && StreamLength(blocks + [data]) == offset + |Stored(data)| + TRAILER_SIZE
  {
    hide Stored;
    ChecksummedSize(Stored(data), trailer);
    assert (blocks + [data])[..|blocks|] == blocks && (trailers + [trailer])[..|trailers|] == trailers;
  }

  lemma FilterKey(blocks: Table, data: seq<Entry>, groups: seq<seq<Str>>, keys: seq<Str>, e: Entry)
    requires Filtered(blocks, data, groups, keys)
    ensures Filtered(blocks, data + [e], groups, keys + [Cut(e.key)])
  {
    hide After, FilterCalls;
    FilterAfterKey(blocks, data, e);
  }

  lemma FilterBlock(blocks: Table, data: seq<Entry>, groups: seq<seq<Str>>, keys: seq<Str>)
    requires Filtered(blocks, data, groups, keys)
    ensures var n := StreamLength(blocks + [data]) / BASE;
            && n >= |groups|
            && Filtered(blocks + [data], [], FillTo(groups, keys, n), if n > |groups| then [] else keys)
  {
    hide After, FilterCalls, StreamLength, FillTo;
    FilterAfterBlock(blocks, data);
  }

  lemma EmptyBlock()
    ensures |Block([])| == 4
  {}

  // ----- how much is pending

  /** Twelve bytes of lengths an entry, so a block that was under the limit before its last entry has no more. */
  const MAX_ENTRIES: nat := 83

  lemma {:induction false} TwelveBytesEach(es: seq<Entry>)
    ensures |Body(es)| >= 12 * |es|
  {
    if es != [] {
      TwelveBytesEach(es[..|es| - 1]);
    }
  }

  lemma UnderLimit(es: seq<Entry>)
    requires |Block(es)| < BLOCK_LIMIT
    ensures |es| < MAX_ENTRIES && HasSize(Block(es))
  {
    TwelveBytesEach(es);
  }

  ghost predicate FewEntries(blocks: Table)
  {
    forall i :: 0 <= i < |blocks| ==> |blocks[i]| <= MAX_ENTRIES
  }

  lemma FewMore(blocks: Table, data: seq<Entry>)
    requires FewEntries(blocks) && |data| <= MAX_ENTRIES
    ensures FewEntries(blocks + [data])
  {}

  lemma StreamGrows(blocks: Table)
    requires blocks != []
    ensures StreamLength(blocks) > StreamLength(blocks[..|blocks| - 1])
  {
    hide Stored;
  }

  lemma RangesFilled(blocks: Table, data: seq<Entry>)
    ensures |After(FilterCalls(blocks, data)).groups| == StreamLength(blocks) / BASE
  {
    hide StreamLength, FilterRun, After;
    FilterCallsLegal(blocks, data);
    AfterGroups(FilterCalls(blocks, data));
  }

  /** Between two filters no more keys come together than the blocks that start in 2KB can hold, so their
      number fits in an int. */
  lemma {:induction false} FewPendingKeys(blocks: Table, data: seq<Entry>)
    requires FewEntries(blocks)
    ensures |After(FilterCalls(blocks, data)).pending| <= MAX_ENTRIES * (StreamLength(blocks) % BASE) + |data|
  {
    hide StreamLength, FillTo, After, FilterCalls;
    AfterData(blocks, data);
    if blocks != [] {
      var n := |blocks| - 1;
      assert blocks[..n] + [blocks[n]] == blocks;
      FewPendingKeys(blocks[..n], blocks[n]);
      RangesFilled(blocks[..n], blocks[n]);
      FilterAfterBlock(blocks[..n], blocks[n]);
      StreamGrows(blocks);
      if StreamLength(blocks[..n]) / BASE == StreamLength(blocks) / BASE {
        SameRange(StreamLength(blocks[..n]), StreamLength(blocks));
      }
    } else {
      NothingPending();
    }
  }

  lemma NothingPending()
    ensures After(FilterCalls([], [])).pending == []
  {
    var run := FilterCalls([], []);
    assert run == [BlockKeys(0, [])] && run[..0] == [];
  }

  lemma SameRange(a: nat, b: nat)
    requires a < b && a / BASE == b / BASE
    ensures MAX_ENTRIES * (a % BASE) + MAX_ENTRIES <= MAX_ENTRIES * (b % BASE)
  {}

  lemma AfterData(blocks: Table, data: seq<Entry>)
    ensures |After(FilterCalls(blocks, data)).pending| == |After(FilterCalls(blocks, [])).pending| + |data|
  {
    hide StreamLength, FilterRun, FillTo;
    var some, none := FilterCalls(blocks, data), FilterCalls(blocks, []);
    assert some[..|some| - 1] == FilterRun(blocks) == none[..|none| - 1];
  }

  lemma EmptyTable(handle: BlockHandle)
    ensures Laid([], [], [], 0) && Recorded([], [], [], 0, []) && IndexKept([], [], [], false, handle) &&
            Filtered([], [], [], [])
  {
    var run := FilterCalls([], []);
    assert run == [BlockKeys(0, [])] && run[..0] == [];
  }

  lemma PendingFits(blocks: Table, data: seq<Entry>, groups: seq<seq<Str>>, keys: seq<Str>)
    requires Filtered(blocks, data, groups, keys) && FewEntries(blocks) && |data| <= MAX_ENTRIES
    ensures |keys| < INT_LIMIT
  {
    hide After, FilterCalls, StreamLength;
    FewPendingKeys(blocks, data);
  }

  class TableBuilder {
    const file: WritableFile
    const data_block: BlockBuilder
    const index_block: BlockBuilder
    const filter_block: FilterBlockBuilder
    var offset: nat
    var last_key: Str
    var num_entries: nat
    var pending_index_entry: bool
    var pending_handle: BlockHandle
    ghost var blocks: Table            // the data blocks written
    ghost var trailers: seq<Str>
    ghost var added: seq<Entry>        // every entry added

    /** What the file will hold. */
    ghost function Contents(): Str
      requires file.Valid()
      reads this, file, file.buffer
    {
      Logical(file.State())
    }

    ghost predicate Parts()
      reads this, file, file.buffer, data_block, index_block, filter_block
    {
      && data_block != index_block
      && file.Valid() && Healthy(file.State()) && data_block.Valid() && index_block.Valid() && filter_block.Valid()
      && !data_block.finished && !index_block.finished
    }

    /** Everything but the filter. */
    ghost predicate Kept()
      reads this, file, file.buffer, data_block, index_block, filter_block
    {
      && Parts()
      && Laid(blocks, trailers, Contents(), offset)
      && Recorded(blocks, data_block.entries, added, num_entries, last_key)
      && IndexKept(blocks, data_block.entries, index_block.entries, pending_index_entry, pending_handle)
      && FewEntries(blocks)
    }

    ghost predicate Sound()
      reads this, file, file.buffer, data_block, index_block, filter_block
    {
      Kept() && Filtered(blocks, data_block.entries, filter_block.groups, filter_block.pending)
    }

    /** Between calls: entries are being collected, or the last block awaits its index entry, or
        nothing has been added. */
    ghost predicate Steady()
      reads this, file, file.buffer, data_block, index_block, filter_block
    {
      Sound() && file.has_buffer_size == 0 && (data_block.entries != [] || pending_index_entry || blocks == [])
    }

    ghost predicate Valid()
      reads this, file, file.buffer, data_block, index_block, filter_block
    {
      Steady() && |Block(data_block.entries)| < BLOCK_LIMIT
    }

    /** pending_index_entry starts false; SSTable.h:36-40 leaves it unset. */
    constructor (file: WritableFile, filterPolicy: BloomFilterPolicy)
      requires file.Valid() && Healthy(file.State()) && Logical(file.State()) == [] && filterPolicy.Usable()
      ensures Valid() && added == [] && blocks == [] && this.file == file && filter_block.policy_ == filterPolicy
      ensures fresh(data_block) && fresh(index_block) && fresh(filter_block)
    {
      hide Laid, Recorded, IndexKept, Filtered, Stored, Block, Index, BlockBuilder.Valid, FilterBlockBuilder.Valid;
      this.file := file;
      data_block := new BlockBuilder();
      index_block := new BlockBuilder();
      filter_block := new FilterBlockBuilder(filterPolicy);
      offset, last_key, num_entries, pending_index_entry, pending_handle := 0, [], 0, false, BlockHandle(0, 0);
      blocks, trailers, added := [], [], [];
      new;
      filter_block.StartBlock(0);
      EmptyTable(pending_handle);
      EmptyBlock();
    }

    /** In every reachable state: a pending index entry means an empty data block; the handles tile the
        file from 0 up to `offset`; the bytes at each handle, written or still buffered, are what
        was stored of that block, all of it exactly when it is shorter than 2^31 bytes; the index holds
        last keys and handles. */
    lemma BlocksInPlace(i: nat)
      requires Valid() && i < |blocks|
      ensures pending_index_entry ==> data_block.entries == []
      ensures offset == |Contents()| && HandleOf(blocks, 0).offset == 0
      ensures var h := HandleOf(blocks, i);
              && h.offset + h.size + TRAILER_SIZE ==
                  (if i + 1 < |blocks| then HandleOf(blocks, i + 1).offset else offset)
              && h.offset + h.size <= |Contents()| && Contents()[h.offset..h.offset + h.size] == Stored(blocks[i])
      ensures Stored(blocks[i]) == Block(blocks[i]) <==> |Block(blocks[i])| < INT_LIMIT
      ensures |index_block.entries| == |blocks| - (if pending_index_entry then 1 else 0)
      ensures i < |index_block.entries| ==>
                index_block.entries[i] == Entry(LastKey(blocks[i]), EncodeTo(HandleOf(blocks, i)))
    {
      hide Stored, Block, EncodeTo, BlockBuilder.Valid, FilterBlockBuilder.Valid, Recorded, Filtered,
           WritableFile.State,
           Checksummed, FewEntries, Healthy, Logical;
      StreamSize(blocks, trailers);
      StreamAt(blocks, trailers, i);
      StoredWhole(blocks[i]);
      assert blocks[..0] == [];
      if i < |index_block.entries| {
        IndexAt(blocks, |index_block.entries|, i);
      }
    }

    /** What SSTable.h:64-69 and 121-124 share. */
    method AddIndexEntry()
      requires Sound() && pending_index_entry
      modifies this`pending_index_entry, index_block
      ensures Sound() && !pending_index_entry
      ensures index_block.entries == Index(blocks, |blocks|)
    {
      hide Laid, Recorded, Filtered, Block, Index, BlockBuilder.Valid, FilterBlockBuilder.Valid;
      CloseIndex(blocks, index_block.entries, pending_handle, added, num_entries, last_key);
      index_block.Add(last_key, EncodeTo(pending_handle));
      pending_index_entry := false;
    }

    /** Defined as long as neither the key nor the block has a negative size. */
    method Add(key: Str, value: Str)
      requires Valid() && HasSize(key) && HasSize(Block(data_block.entries + [Entry(key, value)]))
      modifies this, file, file.buffer, data_block, index_block, filter_block
      ensures Valid() && added == old(added) + [Entry(key, value)]
      ensures var data := old(data_block.entries) + [Entry(key, value)];
              blocks == if |Block(data)| >= 1000 then old(blocks) + [data] else old(blocks)
    {
      hide Laid, Recorded, IndexKept, Filtered, Stored, Block, Index, BlockBuilder.Valid, FilterBlockBuilder.Valid;
      UnderLimit(data_block.entries);
      if pending_index_entry {
        AddIndexEntry();
      }
      PutEntry(key, value);
      var estimate := data_block.CurrentSizeEstimate();
      if estimate >= BLOCK_LIMIT {
        Flush();
      }
    }

    /** The middle of Add, SSTable.h:70-74. */
    method PutEntry(key: Str, value: Str)
      requires Sound() && !pending_index_entry && file.has_buffer_size == 0 && HasSize(key)
      modifies this`last_key, this`num_entries, this`added, data_block, filter_block
      ensures Steady() && added == old(added) + [Entry(key, value)]
      ensures data_block.entries == old(data_block.entries) + [Entry(key, value)]
    {
      hide Laid, Recorded, IndexKept, Filtered, Stored, Block, Index, BlockBuilder.Valid, FilterBlockBuilder.Valid;
      ghost var e, data := Entry(key, value), data_block.entries;
      RecordKey(blocks, data, added, num_entries, last_key, e);
      IndexKey(blocks, data, index_block.entries, pending_handle, e);
      FilterKey(blocks, data, filter_block.groups, filter_block.pending, e);
      filter_block.AddKey(key);
      last_key := key[..SliceSize(|key|)];
      num_entries := num_entries + 1;
      data_block.Add(key, value);
      added := added + [e];
    }

    method Flush()
      requires Steady() && |data_block.entries| <= MAX_ENTRIES && HasSize(Block(data_block.entries))
      modifies this, file, file.buffer, data_block, filter_block
      ensures Valid() && added == old(added) && data_block.entries == []
      ensures blocks == if old(data_block.entries) == [] then old(blocks) else old(blocks) + [old(data_block.entries)]
      ensures pending_index_entry <==> blocks != []
    {
      hide Laid, Recorded, IndexKept, Filtered, Stored, Block, Index, BlockBuilder.Valid, FilterBlockBuilder.Valid;
      EmptyBlock();
      var empty := data_block.Empty();
      if empty {
        EmptyFlush(blocks, data_block.entries, index_block.entries, pending_index_entry, pending_handle);
        return;
      }
      FilterBlock(blocks, data_block.entries, filter_block.groups, filter_block.pending);
      PendingFits(blocks, data_block.entries, filter_block.groups, filter_block.pending);
      WriteData();
      var s := file.FlushBuffer();
      filter_block.StartBlock(offset);
    }

    /** SSTable.h:86-87. */
    method WriteData()
      requires Kept() && data_block.entries != [] && |data_block.entries| <= MAX_ENTRIES
      requires file.has_buffer_size == 0 && HasSize(Block(data_block.entries))
      modifies this, file, file.buffer, data_block
      ensures Kept() && data_block.entries == [] && pending_index_entry
      ensures blocks == old(blocks) + [old(data_block.entries)] && offset == StreamLength(blocks) && added == old(added)
    {
      hide Laid, Recorded, IndexKept, Filtered, Stored, Block, Index, BlockBuilder.Valid, FilterBlockBuilder.Valid,
           FewEntries, Checksummed, WritableFile.State, HasSize;
      ghost var data := data_block.entries;
      EmptyFlush(blocks, data, index_block.entries, pending_index_entry, pending_handle);
      RecordBlock(blocks, data, added, num_entries, last_key);
      FewMore(blocks, data);
      IndexBlock(blocks, data, index_block.entries, pending_handle);
      ghost var trailer;
      pending_handle, trailer := WriteBlock(data_block);
      LayBlock(blocks, trailers, old(Contents()), old(offset), data, trailer);
      blocks, trailers := blocks + [data], trailers + [trailer];
      pending_index_entry := true;
    }

    /** SSTable.h:103-106. */
    static method Seal(contents: Str) returns (trailer: Str)
      ensures Checksummed(contents, trailer)
    {
      hide Fixed32, ToWord, ToOctet, Crc32c.Mask, Crc32c.Crc;
      var unset: byte, address: nat, elsewhere: nat :| true;
      var crc := Crc32c.Extend(0, ToOctets(contents), address);
      crc := Crc32c.Extend(crc, [ToOctet(unset as nat)], elsewhere);
      trailer := Fixed32(ToWord(Crc32c.Mask(crc)));
      assert trailer == BlockTrailer(contents, unset);
    }

    /** Block, then trailer. SSTable.h:105 feeds the checksum the first byte of the trailer, which nothing has set
        yet. */
    method WriteBlock(block: BlockBuilder) returns (handle: BlockHandle, ghost trailer: Str)
      requires block in {data_block, index_block} && Parts() && file.has_buffer_size == 0 &&
               HasSize(Block(block.entries))
      modifies this`offset, file, file.buffer, data_block, block
      ensures file.Valid() && Healthy(file.State()) && data_block.Valid() && data_block.entries == [] &&
              !data_block.finished
      ensures Checksummed(Stored(old(block.entries)), trailer)
      ensures Contents() == old(Contents()) + Stored(old(block.entries)) + trailer
      ensures handle == BlockHandle(old(offset), |Stored(old(block.entries))|)
      ensures offset == old(offset) + handle.size + TRAILER_SIZE
    {
      hide Laid, Recorded, IndexKept, Filtered, Stored, Block, Index, BlockBuilder.Valid, FilterBlockBuilder.Valid,
           Appended, WritableFile.State;
      StoredSize(block.entries);
      var block_contents := block.Finish();
      var s := file.Append(block_contents);
      handle := BlockHandle(offset, SliceSize(|block_contents|));
      var bytes := Seal(block_contents[..SliceSize(|block_contents|)]);
      ChecksummedSize(block_contents[..SliceSize(|block_contents|)], bytes);
      s := file.Append(bytes);
      trailer := bytes;
      offset := offset + SliceSize(|block_contents|) + TRAILER_SIZE;
      data_block.Reset();
    }

    /** The data blocks there will be. */
    ghost function Closing(): Table
      reads this, data_block
    {
      if data_block.entries == [] then blocks else blocks + [data_block.entries]
    }

    lemma ClosingBlocks()
      requires Valid()
      ensures NonEmpty(Closing())
    {
      hide Laid, Recorded, Filtered, Block, Index, FewEntries, BlockBuilder.Valid, FilterBlockBuilder.Valid;
    }

    /** SSTable.h:121-126. */
    method WriteIndex() returns (indexHandle: BlockHandle, ghost indexTrailer: Str)
      requires Sound() && pending_index_entry && file.has_buffer_size == 0 && HasSize(Block(Index(blocks, |blocks|)))
      modifies this`pending_index_entry, this`offset, file, file.buffer, data_block, index_block
      ensures file.Valid() && Healthy(file.State())
      ensures Checksummed(Stored(Index(blocks, |blocks|)), indexTrailer)
      ensures indexHandle == BlockHandle(old(offset), |Stored(Index(blocks, |blocks|))|)
      ensures Contents() == old(Contents()) + Stored(Index(blocks, |blocks|)) + indexTrailer
    {
      hide Laid, Recorded, IndexKept, Filtered, Stored, Block, Index, BlockBuilder.Valid, FilterBlockBuilder.Valid,
           FewEntries, Checksummed, HasSize;
      AddIndexEntry();
      indexHandle, indexTrailer := WriteBlock(index_block);
    }

    /** Index block and footer. For an empty table no index block is written, and the footer is 16
        bytes of a handle that was never set (SSTable.h:120,129). */
    method Finish() returns (ghost indexTrailer: Str)
      requires Valid() && (ClosingBlocks(); HasSize(Block(Index(Closing(), |Closing()|))))
      modifies this, file, file.buffer, data_block, index_block, filter_block
      ensures added == old(added) == Flat(blocks) && Layout(blocks, trailers) && blocks == old(Closing())
      ensures Filtered(blocks, [], filter_block.groups, filter_block.pending)
      ensures |indexTrailer| == TRAILER_SIZE && file.Valid()
      ensures added != [] ==> Checksummed(Stored(Index(blocks, |blocks|)), indexTrailer)
      ensures if added == [] then |Contents()| == 16 else Contents() == TableFile(blocks, trailers, indexTrailer)
    {
      hide Laid, Layout, Recorded, IndexKept, Filtered, Stored, Block, Index, BlockBuilder.Valid,
           FilterBlockBuilder.Valid, FewEntries, Checksummed, HasSize, Appended, Logical, WritableFile.State, Flat;
      UnderLimit(data_block.entries);
      Flush();
      FinishedTable(blocks, trailers, Contents(), offset, added, num_entries, last_key);
      var indexHandle: BlockHandle :| true;
      indexTrailer := [0, 0, 0, 0];
      if pending_index_entry {
        indexHandle, indexTrailer := WriteIndex();
        ChecksummedSize(Stored(Index(blocks, |blocks|)), indexTrailer);
      }
      WriteFooter(indexHandle);
    }

    method WriteFooter(indexHandle: BlockHandle)
      requires file.Valid() && Healthy(file.State())
      modifies file, file.buffer
      ensures file.Valid() && Contents() == old(Contents()) + EncodeTo(indexHandle)
    {
      hide Appended, WritableFile.State, EncodeTo;
      var s := file.Append(EncodeTo(indexHandle));
    }
  }

  lemma FinishedTable(blocks: Table, trailers: seq<Str>, logical: Str, offset: nat, added: seq<Entry>, n: nat,
                      last: Str)
    requires Laid(blocks, trailers, logical, offset) && Recorded(blocks, [], added, n, last)
    ensures Layout(blocks, trailers) && NonEmpty(blocks) && |blocks| == |trailers|
    ensures logical == Stream(blocks, trailers) && offset == StreamLength(blocks)
    ensures added == Flat(blocks) && (blocks == [] ==> logical == []) && (blocks == [] <==> added == [])
  {
    hide Block;
  }

  lemma EmptyFlush(blocks: Table, data: seq<Entry>, index: seq<Entry>, pending: bool, handle: BlockHandle)
    requires IndexKept(blocks, data, index, pending, handle)
    ensures pending ==> data == [] && blocks != []
  {
    hide Index;
  }
}
