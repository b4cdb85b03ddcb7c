/** db/filter_block.h and db/filter_block.cpp: one Bloom filter for every 2KB of file offsets. */
module FilterBlocks {
  import opened Bytes
  import opened Coding
  import opened Digits
  import opened Blooms

  const BASE_LG: nat := 11
  const BASE: nat := 2048

  // ----- the flattened keys

  function Flatten(keys: seq<Str>): Str
  {
    if keys == [] then [] else Flatten(keys[..|keys| - 1]) + keys[|keys| - 1]
  }

  function Starts(keys: seq<Str>): (r: seq<nat>)
    ensures |r| == |keys|
  {
    if keys == [] then [] else Starts(keys[..|keys| - 1]) + [|Flatten(keys[..|keys| - 1])|]
  }

  /** `start_` with the end of the last key added cuts `keys_` back into the keys. */
  lemma {:induction false} Unflatten(keys: seq<Str>, i: nat)
    requires i < |keys|
    ensures var cuts := Starts(keys) + [|Flatten(keys)|];
            cuts[i] <= cuts[i + 1] <= |Flatten(keys)| && Flatten(keys)[cuts[i]..cuts[i + 1]] == keys[i]
  {
    var front := keys[..|keys| - 1];
    var cuts := Starts(keys) + [|Flatten(keys)|];
    if i < |keys| - 1 {
      Unflatten(front, i);
      assert cuts[i] == (Starts(front) + [|Flatten(front)|])[i] &&
             cuts[i + 1] == (Starts(front) + [|Flatten(front)|])[i + 1];
      assert Flatten(keys)[cuts[i]..cuts[i + 1]] == Flatten(front)[cuts[i]..cuts[i + 1]];
    }
  }

  // ----- the finished block

  /** What has been written for the groups of keys so far: filters back to back, and where each
      one starts. An empty group has an empty filter. */
  ghost predicate Written(policy: BloomFilterPolicy, groups: seq<seq<Str>>, result: Str, offsets: seq<nat>)
  {
    && |offsets| == |groups|
    && forall i :: 0 <= i < |groups| ==> WrittenOne(policy, groups, result, offsets, i)
  }

  /** Where filter `i` ends. */
  function Limit(result: Str, offsets: seq<nat>, i: nat): nat
    requires i < |offsets|
  {
    if i + 1 < |offsets| then offsets[i + 1] else |result|
  }

  ghost predicate WrittenOne(policy: BloomFilterPolicy, groups: seq<seq<Str>>, result: Str, offsets: seq<nat>, i: nat)
    requires i < |groups| == |offsets|
  {
    var s, l := offsets[i], Limit(result, offsets, i);
    && s <= l <= |result|
    && if groups[i] == [] then s == l
       else IsFilter(policy.hash, policy.k_, groups[i], result[s..l]) && l - s == policy.FilterSize(|groups[i]|)
  }

  lemma WrittenNext(policy: BloomFilterPolicy, groups: seq<seq<Str>>, result: Str, offsets: seq<nat>, keys: seq<Str>,
                    f: Str)
    requires Written(policy, groups, result, offsets)
    requires if keys == [] then f == []
             else IsFilter(policy.hash, policy.k_, keys, f) && |f| == policy.FilterSize(|keys|)
    ensures Written(policy, groups + [keys], result + f, offsets + [|result|])
  {
    hide IsFilter;
    var groups', result', offsets' := groups + [keys], result + f, offsets + [|result|];
    forall i | 0 <= i < |groups'| ensures WrittenOne(policy, groups', result', offsets', i) {
      if i < |groups| {
        assert WrittenOne(policy, groups, result, offsets, i);
        assert Limit(result', offsets', i) == Limit(result, offsets, i);
        var s, l := offsets[i], Limit(result, offsets, i);
        assert result'[s..l] == result[s..l];
      } else {
        assert result'[|result|..|result'|] == f;
      }
    }
  }

  /** result_ ++ offsets ++ array_offset ++ base */
  function Finished(result: Str, offsets: seq<nat>): Str
  {
    result + FixedSeq(offsets) + Fixed32(|result|) + [BASE_LG as byte]
  }

  /** `block` is what Finish writes for these groups of keys. */
  ghost predicate IsFilterBlock(policy: BloomFilterPolicy, groups: seq<seq<Str>>, block: Str)
  {
    exists result, offsets :: Written(policy, groups, result, offsets) && block == Finished(result, offsets)
  }

  lemma BlockFrom(policy: BloomFilterPolicy, groups: seq<seq<Str>>, result: Str, offsets: seq<nat>)
    requires Written(policy, groups, result, offsets)
    ensures IsFilterBlock(policy, groups, Finished(result, offsets))
  {}

  class FilterBlockBuilder {
    const policy_: BloomFilterPolicy
    var keys_: Str
    var start_: seq<nat>
    var result_: Str
    var filter_offsets_: seq<nat>
    ghost var groups: seq<seq<Str>>    // the keys behind each filter generated so far
    ghost var pending: seq<Str>        // the keys added since

    ghost predicate Valid()
      reads this
    {
      && policy_.Usable()
      && keys_ == Flatten(pending) && start_ == Starts(pending)
      && Written(policy_, groups, result_, filter_offsets_)
    }

    constructor (policy: BloomFilterPolicy)
      requires policy.Usable()
      ensures Valid() && policy_ == policy && groups == [] && pending == []
    {
      policy_ := policy;
      keys_, start_, result_, filter_offsets_, groups, pending := [], [], [], [], [], [];
    }

    /** The calls obey the protocol when offsets do not decrease: the source's assertion. */
    method StartBlock(block_offset: nat)
      requires Valid() && block_offset / BASE >= |groups|
      requires block_offset / BASE > |groups| ==> |pending| < INT_LIMIT
      modifies this
      ensures Valid() && groups == FillTo(old(groups), old(pending), block_offset / BASE)
      ensures pending == if block_offset / BASE > |old(groups)| then [] else old(pending)
    {
      var filter_index := block_offset / BASE;
      assert filter_index >= |filter_offsets_|;
      while filter_index > |filter_offsets_|
        invariant Valid() && |groups| <= filter_index
        invariant FillTo(groups, pending, filter_index) == FillTo(old(groups), old(pending), filter_index)
        invariant pending == if |groups| > |old(groups)| then [] else old(pending)
        invariant |groups| >= |old(groups)| && |pending| <= |old(pending)|
        decreases filter_index - |groups|
      {
        GenerateFilter();
      }
    }

    /** `k.size()` bytes of the key. */
    method AddKey(key: Str)
      requires Valid() && HasSize(key)
      modifies this
      ensures Valid() && groups == old(groups) && pending == old(pending) + [Cut(key)]
    {
      start_ := start_ + [|keys_|];
      keys_ := keys_ + key[..SliceSize(|key|)];
      pending := pending + [Cut(key)];
      assert pending[..|pending| - 1] == old(pending);
    }

    /** filter_block.cpp:70 converts the number of keys to int. */
    method GenerateFilter()
      requires Valid() && |pending| < INT_LIMIT
      modifies this
      ensures Valid() && groups == old(groups) + [old(pending)] && pending == []
    {
      var num_keys := |start_|;
      assert num_keys == |pending|;
      if num_keys == 0 {
        WrittenNext(policy_, groups, result_, filter_offsets_, [], []);
        filter_offsets_ := filter_offsets_ + [|result_|];
        groups, pending := groups + [[]], [];
        assert result_ + [] == result_;
        return;
      }
      start_ := start_ + [|keys_|];
      var tmp_keys_: seq<Str> := [];
      for i := 0 to num_keys
        invariant tmp_keys_ == pending[..i]
        modifies {}
      {
        Unflatten(pending, i);
        tmp_keys_ := tmp_keys_ + [keys_[start_[i]..start_[i + 1]]];
      }
      assert pending[..num_keys] == pending;
      filter_offsets_ := filter_offsets_ + [|result_|];
      ghost var before := result_;
      result_ := policy_.CreateFilter(tmp_keys_, result_);
      assert result_ == before + result_[|before|..];
      WrittenNext(policy_, groups, before, old(filter_offsets_), pending, result_[|before|..]);
      keys_, start_ := [], [];
      groups, pending := groups + [pending], [];
    }

    method Finish() returns (r: Str)
      requires Valid() && |pending| < INT_LIMIT
      modifies this
      ensures IsFilterBlock(policy_, if old(pending) == [] then old(groups) else old(groups) + [old(pending)], r)
    {
      hide Written;
      if |start_| != 0 {
        GenerateFilter();
      }
      ghost var result, g, offsets := result_, groups, filter_offsets_;
      var array_offset := |result_|;
      for i := 0 to |filter_offsets_|
        invariant filter_offsets_ == offsets
        invariant result_ == result + FixedSeq(filter_offsets_[..i])
      {
        result_ := result_ + Fixed32(filter_offsets_[i]);
        assert filter_offsets_[..i + 1][..i] == filter_offsets_[..i];
      }
      assert filter_offsets_[..|filter_offsets_|] == filter_offsets_;
      result_ := result_ + Fixed32(array_offset);
      result_ := result_ + [BASE_LG as byte];
      r := result_;
      BlockFrom(policy_, g, result, offsets);
    }
  }

  /** The groups once filters have been generated up to number `n`: the pending keys go into the
      first, the rest are empty. */
  function FillTo(groups: seq<seq<Str>>, pending: seq<Str>, n: nat): (r: seq<seq<Str>>)
    ensures |r| == if n > |groups| then n else |groups|
    decreases n - |groups|
  {
    if n > |groups| then FillTo(groups + [pending], [], n) else groups
  }

  lemma {:induction false} FillToAt(groups: seq<seq<Str>>, pending: seq<Str>, n: nat, i: nat)
    requires i < |FillTo(groups, pending, n)|
    ensures FillTo(groups, pending, n)[i] == if i < |groups| then groups[i] else if i == |groups| then pending else []
    decreases n - |groups|
  {
    if n > |groups| {
      FillToAt(groups + [pending], [], n, i);
    }
  }

  // ----- the reader

  /** `block_offset >> lg` */
  function Range(block_offset: nat, lg: nat): nat
  {
    if lg == 0 then block_offset else Range(block_offset / 2, lg - 1)
  }

  /** What a reader should answer about a block whose filters cover `groups`. */
  ghost predicate Accepts(policy: BloomFilterPolicy, groups: seq<seq<Str>>, block_offset: nat, key: Str)
  {
    var i := block_offset / BASE;
    i < |groups| ==> groups[i] != [] && CoveredKey(policy, groups[i], key)
  }

  /** Every probe for `key` falls on a bit set by some key of the group. */
  ghost predicate CoveredKey(policy: BloomFilterPolicy, keys: seq<Str>, key: Str)
  {
    var bits := (policy.FilterSize(|keys|) - 1) * 8;
    forall j :: 0 <= j < policy.k_ ==> Covered(policy.hash, keys, policy.k_, bits, BloomHash(policy.hash, key), j)
  }

  /** The words a reader finds in a finished block that is short enough for 32-bit offsets. */
  lemma FinishedWords(result: Str, offsets: seq<nat>, i: nat)
    requires |Finished(result, offsets)| < WORD_SIZE && i <= |offsets|
    requires forall j :: 0 <= j < |offsets| ==> offsets[j] <= |result|
    ensures var b := Finished(result, offsets);
            && |b| == |result| + 4 * |offsets| + 5 && b[|b| - 1] == 11 && b[..|result|] == result
            && DecodeFixed32(b, |b| - 5) == |result|
            && DecodeFixed32(b, |result| + i * 4) == if i < |offsets| then offsets[i] else |result|
  {
    hide Fixed32, DecodeFixed32;
    var b, p := Finished(result, offsets), |result|;
    assert b[|b| - 5..|b| - 1] == Fixed32(|result|);
    Fixed32RoundTrip(b, |b| - 5, |result|);
    if i < |offsets| {
      FixedSeqAt(offsets, i);
      assert b[p + 4 * i..p + 4 * i + 4] == FixedSeq(offsets)[4 * i..4 * i + 4];
      Fixed32RoundTrip(b, p + 4 * i, offsets[i]);
    } else {
      assert p + i * 4 == |b| - 5;
    }
  }

  class FilterBlockReader {
    const policy_: BloomFilterPolicy
    const data_: Str
    const offset_: nat     // start of the offset array
    const num_: nat        // entries in it
    const base_lg_: nat
    ghost const contents: Str

    /** Everything KeyMayMatch reads is there. */
    ghost predicate Bounded()
    {
      num_ > 0 ==> data_ == contents && offset_ + 4 * num_ + 5 <= SliceSize(|data_|)
    }

    ghost predicate Valid()
    {
      && Bounded()
      && forall groups :: IsFilterBlock(policy_, groups, contents) && |contents| < INT_LIMIT ==>
           exists result, offsets :: ReadsAs(groups, result, offsets)
    }

    ghost predicate ReadsAs(groups: seq<seq<Str>>, result: Str, offsets: seq<nat>)
    {
      && Written(policy_, groups, result, offsets) && contents == Finished(result, offsets)
      && base_lg_ == BASE_LG && num_ == |groups| && (num_ > 0 ==> offset_ == |result|)
    }

    constructor (policy: BloomFilterPolicy, contents: Str)
      requires HasSize(contents)
      ensures Valid() && policy_ == policy && this.contents == contents
      ensures var n := SliceSize(|contents|);
              && (n < 5 || DecodeFixed32(contents, n - 5) > n - 5 ==> num_ == 0)
              && (n >= 5 ==> base_lg_ == contents[n - 1] as int)
              && (n >= 5 && DecodeFixed32(contents, n - 5) <= n - 5 ==>
                    offset_ == DecodeFixed32(contents, n - 5) && num_ == (n - 5 - offset_) / 4)
    {
      hide DecodeFixed32, Written;
      policy_ := policy;
      this.contents := contents;
      var n := SliceSize(|contents|);
      var base_lg, data, offset, num := 0, [], 0, 0;
      if n >= 5 {
        base_lg := contents[n - 1] as int;
        var last_word := DecodeFixed32(contents, n - 5);
        if last_word <= n - 5 {
          data := contents;
          offset := last_word;
          num := (n - 5 - last_word) / 4;
        }
      }
      base_lg_, data_, offset_, num_ := base_lg, data, offset, num;
      new;
      forall groups | IsFilterBlock(policy_, groups, contents) && |contents| < INT_LIMIT
        ensures exists result, offsets :: ReadsAs(groups, result, offsets)
      {
        var result, offsets :| Written(policy_, groups, result, offsets) && contents == Finished(result, offsets);
        OffsetsInside(policy_, groups, result, offsets);
        FinishedWords(result, offsets, 0);
        assert ReadsAs(groups, result, offsets);
      }
    }

    /** The reader's own decision, on any bytes. */
    ghost predicate Decides(index: nat, key: Str)
      requires Bounded()
    {
      index < num_ ==>
        var start := DecodeFixed32(data_, offset_ + index * 4);
        var limit := DecodeFixed32(data_, offset_ + index * 4 + 4);
        if start <= limit <= offset_ then Matches(policy_.hash, key, data_[start..limit]) else start != limit
    }

    /** Nothing can match a filter that ends where it starts, wherever that is; past the last filter, and where
        the two words around a filter cannot be right, everything does. */
    lemma DecidesOutside(index: nat, key: Str)
      requires Bounded()
      ensures index >= num_ ==> Decides(index, key)
      ensures index < num_ ==>
                var start := DecodeFixed32(data_, offset_ + index * 4);
                var limit := DecodeFixed32(data_, offset_ + index * 4 + 4);
                && (start == limit ==> !Decides(index, key))
                && (start > limit || (start < limit && limit > offset_) ==> Decides(index, key))
    {
      hide DecodeFixed32;
    }

    lemma DecidesRight(groups: seq<seq<Str>>, block_offset: nat, key: Str)
      requires Valid() && IsFilterBlock(policy_, groups, contents) && |contents| < INT_LIMIT
      ensures Decides(block_offset / BASE, key) <==> Accepts(policy_, groups, block_offset, key)
    {
      hide DecodeFixed32, Written, CoveredKey, IsFilterBlock, Finished, Matches;
      var result, offsets :| ReadsAs(groups, result, offsets);
      var index := block_offset / BASE;
      if index < |groups| {
        FilterFound(policy_, groups, result, offsets, index, key);
      }
    }

    lemma BaseRead(groups: seq<seq<Str>>)
      requires Valid() && IsFilterBlock(policy_, groups, contents) && |contents| < INT_LIMIT
      ensures base_lg_ == BASE_LG
    {
      hide Written, Finished;
      var result, offsets :| ReadsAs(groups, result, offsets);
    }

    /** For a finished filter block below 2GB, exactly what `Accepts` says; for any bytes at all, what
        the words found there lead to, and true where they lead nowhere. */
    method KeyMayMatch(block_offset: nat, key: Str) returns (r: bool)
      requires Valid() && HasSize(key)
      ensures r <==> Decides(Range(block_offset, base_lg_), key)
      ensures forall groups :: IsFilterBlock(policy_, groups, contents) && |contents| < INT_LIMIT ==>
                (r <==> Accepts(policy_, groups, block_offset, key))
    {
      hide DecodeFixed32, IsFilterBlock, ReadsAs, Matches, Range, Accepts;
      var index := Range(block_offset, base_lg_);
      r := true;
      if index < num_ {
        var start := DecodeFixed32(data_, offset_ + index * 4);
        var limit := DecodeFixed32(data_, offset_ + index * 4 + 4);
        if start <= limit && limit <= offset_ {
          r := policy_.KeyMayMatch(key, data_[start..limit]);
        } else if start == limit {
          r := false;
        }
      }
      assert r <==> Decides(index, key);
      forall groups | IsFilterBlock(policy_, groups, contents) && |contents| < INT_LIMIT
        ensures r <==> Accepts(policy_, groups, block_offset, key)
      {
        DecidesRight(groups, block_offset, key);
        BaseRead(groups);
        RangeBase(block_offset);
      }
    }
  }

  /** For any base: shifting divides by a power of two. */
  lemma {:induction false} RangeIs(o: nat, lg: nat)
    ensures Pow(2, lg) > 0 && Range(o, lg) == o / Pow(2, lg)
  {
    PowPositive(2, lg);
    if lg > 0 {
      RangeIs(o / 2, lg - 1);
      DivideTwice(o, 2, Pow(2, lg - 1));
    }
  }

  lemma RangeByTwo(o: nat, lg: nat)
    requires lg >= 2
    ensures Range(o, lg) == Range(o / 4, lg - 2)
  {
    assert o / 2 / 2 == o / 4;
  }

  lemma RangeByOne(o: nat)
    ensures Range(o, 1) == o / 2
  {}

  /** Shifted by 11, an offset is the number of its 2KB range. */
  lemma RangeBase(o: nat)
    ensures Range(o, 11) == o / 2048
  {
    hide Range;
    RangeByTwo(o, 11);
    RangeByTwo(o / 4, 9);
    RangeByTwo(o / 4 / 4, 7);
    RangeByTwo(o / 4 / 4 / 4, 5);
    RangeByTwo(o / 4 / 4 / 4 / 4, 3);
    RangeByOne(o / 4 / 4 / 4 / 4 / 4);
  }

  /** The two words around slot `i` cut out the filter of group `i`, and what that filter says is
      what `Accepts` says. */
  lemma FilterFound(policy: BloomFilterPolicy, groups: seq<seq<Str>>, result: Str, offsets: seq<nat>, i: nat, key: Str)
    requires Written(policy, groups, result, offsets) && |Finished(result, offsets)| < WORD_SIZE && i < |groups|
    ensures var b := Finished(result, offsets);
            && |result| + i * 4 + 8 <= |b|
            && var s, l := DecodeFixed32(b, |result| + i * 4), DecodeFixed32(b, |result| + i * 4 + 4);
            && s <= l <= |result| <= |b|
            && (Matches(policy.hash, key, b[s..l]) <==> groups[i] != [] && CoveredKey(policy, groups[i], key))
  {
    hide DecodeFixed32, IsFilter, Finished, Matches;
    OffsetsInside(policy, groups, result, offsets);
    FinishedWords(result, offsets, i);
    FinishedWords(result, offsets, i + 1);
    assert |result| + i * 4 + 4 == |result| + (i + 1) * 4;
    assert WrittenOne(policy, groups, result, offsets, i);
    var b := Finished(result, offsets);
    var s, l := offsets[i], Limit(result, offsets, i);
    assert b[s..l] == result[s..l] by { assert b[..|result|][s..l] == b[s..l]; }
    if groups[i] != [] {
      FilterSays(policy, groups[i], b[s..l], key);
    } else {
      EmptyMatchesNothing(policy.hash, key);
      assert b[s..l] == [];
    }
  }

  lemma FilterSays(policy: BloomFilterPolicy, keys: seq<Str>, f: Str, key: Str)
    requires IsFilter(policy.hash, policy.k_, keys, f) && |f| == policy.FilterSize(|keys|)
    ensures Matches(policy.hash, key, f) <==> CoveredKey(policy, keys, key)
  {
    hide Matches, IsFilter;
    FilterMatches(policy.hash, policy.k_, keys, f, key);
  }

  lemma EmptyMatchesNothing(hash: Str -> Word, key: Str)
    ensures !Matches(hash, key, [])
  {}

  lemma OffsetsInside(policy: BloomFilterPolicy, groups: seq<seq<Str>>, result: Str, offsets: seq<nat>)
    requires Written(policy, groups, result, offsets)
    ensures |offsets| == |groups| && forall j :: 0 <= j < |offsets| ==> offsets[j] <= |result|
  {
    forall j | 0 <= j < |offsets| ensures offsets[j] <= |result| {
      assert WrittenOne(policy, groups, result, offsets, j);
    }
  }

  // ----- whole runs of the call protocol

  /** One StartBlock and the AddKey calls up to the next one. */
  datatype BlockKeys = BlockKeys(offset: nat, keys: seq<Str>)

  datatype Progress = Progress(groups: seq<seq<Str>>, pending: seq<Str>)

  /** (StartBlock AddKey*)* with offsets that never decrease. */
  predicate LegalCalls(run: seq<BlockKeys>)
  {
    forall i, j :: 0 <= i < j < |run| ==> run[i].offset <= run[j].offset
  }

  function Cuts(keys: seq<Str>): (r: seq<Str>)
    ensures |r| == |keys|
  {
    seq(|keys|, i requires 0 <= i < |keys| => Cut(keys[i]))
  }

  /** The builder's groups and pending keys after the run, by the contracts of StartBlock and AddKey. */
  function After(run: seq<BlockKeys>): Progress
  {
    if run == [] then Progress([], []) else
      var p, b := After(run[..|run| - 1]), run[|run| - 1];
      var n := b.offset / BASE;
      Progress(FillTo(p.groups, p.pending, n), (if n > |p.groups| then [] else p.pending) + Cuts(b.keys))
  }

  /** The groups the finished block covers. */
  function FinalGroups(run: seq<BlockKeys>): seq<seq<Str>>
  {
    var p := After(run);
    if p.pending == [] then p.groups else p.groups + [p.pending]
  }

  /** The keys added for offsets in the `i`-th 2KB of the file, in order. */
  function KeysFor(run: seq<BlockKeys>, i: nat): seq<Str>
  {
    if run == [] then [] else
      KeysFor(run[..|run| - 1], i) + if run[|run| - 1].offset / BASE == i then Cuts(run[|run| - 1].keys) else []
  }

  lemma {:induction false} NoKeysBeyond(run: seq<BlockKeys>, i: nat)
    requires forall j :: 0 <= j < |run| ==> run[j].offset / BASE < i
    ensures KeysFor(run, i) == []
  {
    if run != [] {
      NoKeysBeyond(run[..|run| - 1], i);
    }
  }

  lemma OffsetsDivide(a: nat, b: nat)
    requires a <= b
    ensures a / BASE <= b / BASE
  {}

  lemma {:induction false} AfterGroups(run: seq<BlockKeys>)
    requires LegalCalls(run)
    ensures var p := After(run);
            && |p.groups| == (if run == [] then 0 else run[|run| - 1].offset / BASE)
            && (forall i :: 0 <= i < |p.groups| ==> p.groups[i] == KeysFor(run, i))
            && p.pending == KeysFor(run, |p.groups|)
  {
    if run != [] {
      var front, b := run[..|run| - 1], run[|run| - 1];
      AfterGroups(front);
      var p := After(front);
      var n := b.offset / BASE;
      if front != [] {
        OffsetsDivide(front[|front| - 1].offset, b.offset);
      }
      forall i | |p.groups| < i <= n
        ensures KeysFor(front, i) == []
      {
        forall j | 0 <= j < |front| ensures front[j].offset / BASE < i {
          OffsetsDivide(front[j].offset, front[|front| - 1].offset);
        }
        NoKeysBeyond(front, i);
      }
      var groups := FillTo(p.groups, p.pending, n);
      forall i | 0 <= i < |groups| ensures groups[i] == KeysFor(run, i) {
        FillToAt(p.groups, p.pending, n, i);
      }
    }
  }

  /** The builder may be called at every step of a legal run. */
  lemma ProtocolHolds(run: seq<BlockKeys>, next: BlockKeys)
    requires LegalCalls(run + [next])
    ensures next.offset / BASE >= |After(run).groups|
  {
    var all := run + [next];
    assert forall i :: 0 <= i < |run| ==> all[i] == run[i];
    AfterGroups(run);
    if run != [] {
      assert all[|run| - 1].offset <= all[|run|].offset;
      OffsetsDivide(run[|run| - 1].offset, next.offset);
    }
  }

  lemma {:induction false} KeysForIn(run: seq<BlockKeys>, b: nat, key: Str)
    requires b < |run| && key in run[b].keys
    ensures Cut(key) in KeysFor(run, run[b].offset / BASE)
  {
    if b < |run| - 1 {
      KeysForIn(run[..|run| - 1], b, key);
    } else {
      var m :| 0 <= m < |run[b].keys| && run[b].keys[m] == key;
      assert Cuts(run[b].keys)[m] == Cut(key);
    }
  }

  lemma LastIsLargest(run: seq<BlockKeys>, j: nat)
    requires LegalCalls(run) && j < |run|
    ensures run[j].offset <= run[|run| - 1].offset
  {}

  /** The finished block covers, range by range, exactly the keys added for that range. */
  lemma FinalGroupsAt(run: seq<BlockKeys>, i: nat)
    requires LegalCalls(run)
    ensures i < |FinalGroups(run)| ==> FinalGroups(run)[i] == KeysFor(run, i)
    ensures KeysFor(run, i) != [] ==> i < |FinalGroups(run)|
  {
    hide KeysFor, After, LegalCalls;
    AfterGroups(run);
    var p := After(run);
    if i > |p.groups| {
      if run != [] {
        forall j | 0 <= j < |run| ensures run[j].offset / BASE < i {
          LastIsLargest(run, j);
          OffsetsDivide(run[j].offset, run[|run| - 1].offset);
        }
      }
      NoKeysBeyond(run, i);
    }
  }

  /** No false negatives: every key added after StartBlock(offset) and before the next StartBlock
      is accepted at that offset. */
  lemma AddedKeysAccepted(policy: BloomFilterPolicy, run: seq<BlockKeys>, b: nat, key: Str)
    requires LegalCalls(run) && b < |run| && key in run[b].keys
    ensures Accepts(policy, FinalGroups(run), run[b].offset, key)
  {
    var i := run[b].offset / BASE;
    KeysForIn(run, b, key);
    FinalGroupsAt(run, i);
    var keys := FinalGroups(run)[i];
    var m :| 0 <= m < |keys| && keys[m] == Cut(key);
    CutTwice(key);
    var bits := (policy.FilterSize(|keys|) - 1) * 8;
    forall j | 0 <= j < policy.k_ ensures Covered(policy.hash, keys, policy.k_, bits, BloomHash(policy.hash, key), j) {
      assert KeyProbes(BloomHash(policy.hash, keys[m]), policy.k_, bits, Probe(BloomHash(policy.hash, key), j, bits));
    }
  }

  /** What has been added for a range: the keys of the calls at offsets in it. */
  lemma {:induction false} KeysForExactly(run: seq<BlockKeys>, i: nat, key: Str)
    ensures key in KeysFor(run, i) <==>
            exists b :: 0 <= b < |run| && run[b].offset / 2048 == i && key in Cuts(run[b].keys)
  {
    if run != [] {
      var n := |run| - 1;
      KeysForExactly(run[..n], i, key);
    }
  }

  /** Where the range got no keys: everything matches if and only if no block was started beyond it. */
  lemma EmptyRangeExactly(policy: BloomFilterPolicy, run: seq<BlockKeys>, offset: nat, key: Str)
    requires LegalCalls(run) && KeysFor(run, offset / BASE) == []
    ensures Accepts(policy, FinalGroups(run), offset, key)
            <==> run == [] || run[|run| - 1].offset / BASE <= offset / BASE
  {
    hide KeysFor, After, LegalCalls;
    AfterGroups(run);
    FinalGroupsAt(run, offset / BASE);
  }

  /** An offset whose range got no keys, while a later range did, matches nothing. */
  lemma EmptyRangeRejected(policy: BloomFilterPolicy, run: seq<BlockKeys>, offset: nat, later: nat, key: Str)
    requires LegalCalls(run) && KeysFor(run, offset / BASE) == []
    requires offset / BASE < later && KeysFor(run, later) != []
    ensures !Accepts(policy, FinalGroups(run), offset, key)
  {
    FinalGroupsAt(run, later);
    FinalGroupsAt(run, offset / BASE);
  }

  // ----- builder and reader together

  lemma LegalPrefix(run: seq<BlockKeys>, k: nat)
    requires LegalCalls(run) && k <= |run|
    ensures LegalCalls(run[..k])
    ensures k < |run| ==> run[k].offset / BASE >= |After(run[..k]).groups|
  {
    hide After;
    if k < |run| {
      assert run[..k] + [run[k]] == run[..k + 1];
      ProtocolHolds(run[..k], run[k]);
    }
  }

  lemma AfterNext(run: seq<BlockKeys>, k: nat)
    requires k < |run|
    ensures After(run[..k + 1]) ==
            var p, n := After(run[..k]), run[k].offset / BASE;
            Progress(FillTo(p.groups, p.pending, n), (if n > |p.groups| then [] else p.pending) + Cuts(run[k].keys))
  {
    hide FillTo;
    assert run[..k + 1][..k] == run[..k];
  }

  /** Every key's size is not negative, and no range gets 2^31 keys. */
  ghost predicate WithinInts(run: seq<BlockKeys>)
  {
    && (forall b, key :: 0 <= b < |run| && key in run[b].keys ==> HasSize(key))
    && forall i: nat :: |KeysFor(run, i)| < INT_LIMIT
  }

  lemma {:induction false} KeysForPrefix(run: seq<BlockKeys>, k: nat, i: nat)
    requires k <= |run|
    ensures KeysFor(run[..k], i) <= KeysFor(run, i)
  {
    if k < |run| {
      KeysForPrefix(run[..|run| - 1], k, i);
      assert run[..|run| - 1][..k] == run[..k];
    } else {
      assert run[..k] == run;
    }
  }

  lemma FewPending(run: seq<BlockKeys>, k: nat)
    requires LegalCalls(run) && WithinInts(run) && k <= |run|
    ensures |After(run[..k]).pending| < INT_LIMIT
  {
    hide After, KeysFor;
    LegalPrefix(run, k);
    AfterGroups(run[..k]);
    KeysForPrefix(run, k, |After(run[..k]).groups|);
  }

  lemma KeySized(run: seq<BlockKeys>, b: nat, j: nat)
    requires WithinInts(run) && b < |run| && j < |run[b].keys|
    ensures HasSize(run[b].keys[j])
  {
    assert run[b].keys[j] in run[b].keys;
  }

  /** Plays a legal run of calls on a builder, and finishes it. */
  method Play(policy: BloomFilterPolicy, run: seq<BlockKeys>) returns (block: Str)
    requires policy.Usable() && LegalCalls(run) && WithinInts(run)
    ensures IsFilterBlock(policy, FinalGroups(run), block)
  {
    hide After, FillTo, LegalCalls, IsFilterBlock, FilterBlockBuilder.Valid, WithinInts;
    var builder := new FilterBlockBuilder(policy);
    NothingYet(run);
    for i := 0 to |run|
      invariant builder.Valid() && builder.policy_ == policy && fresh(builder)
      invariant Progress(builder.groups, builder.pending) == After(run[..i])
    {
      LegalPrefix(run, i);
      FewPending(run, i);
      builder.StartBlock(run[i].offset);
      ghost var started := builder.pending;
      for j := 0 to |run[i].keys|
        invariant builder.Valid() && builder.policy_ == policy && fresh(builder)
        invariant builder.groups == FillTo(After(run[..i]).groups, After(run[..i]).pending, run[i].offset / BASE)
        invariant builder.pending == started + Cuts(run[i].keys[..j])
      {
        KeySized(run, i, j);
        builder.AddKey(run[i].keys[j]);
        assert Cuts(run[i].keys[..j + 1]) == Cuts(run[i].keys[..j]) + [Cut(run[i].keys[j])];
      }
      assert run[i].keys[..|run[i].keys|] == run[i].keys;
      AfterNext(run, i);
    }
    FewPending(run, |run|);
    assert run[..|run|] == run;
    block := builder.Finish();
  }

  lemma NothingYet(run: seq<BlockKeys>)
    ensures After(run[..0]) == Progress([], [])
  {}

  /** A builder that is put through a legal run and a reader on what it writes: every key added after
      StartBlock(offset) and before the next StartBlock is found at that offset, and nothing is found
      at an offset whose range got no keys while a later one did. From 2^31 bytes on the reader takes the
      block to be shorter than it is, or of negative size. */
  method PlayAndRead(policy: BloomFilterPolicy, run: seq<BlockKeys>, offset: nat, key: Str)
    returns (block: Str, r: bool)
    requires policy.Usable() && LegalCalls(run) && WithinInts(run) && HasSize(key)
    ensures IsFilterBlock(policy, FinalGroups(run), block)
    ensures |block| < INT_LIMIT ==> (r <==> Accepts(policy, FinalGroups(run), offset, key))
    ensures |block| < INT_LIMIT ==> forall b :: 0 <= b < |run| && run[b].offset == offset && key in run[b].keys ==> r
    ensures |block| < INT_LIMIT ==>
              forall later ::
                offset / BASE < later && KeysFor(run, offset / BASE) == [] && KeysFor(run, later) != [] ==> !r
  {
    hide After, LegalCalls, IsFilterBlock, Accepts, KeysFor, FilterBlockReader.Valid, WithinInts;
    block := Play(policy, run);
    r := true;
    if |block| < INT_LIMIT {
      var reader := new FilterBlockReader(policy, block);
      r := reader.KeyMayMatch(offset, key);
    }
    forall b | 0 <= b < |run| && run[b].offset == offset && key in run[b].keys
      ensures Accepts(policy, FinalGroups(run), offset, key)
    {
      AddedKeysAccepted(policy, run, b, key);
    }
    forall later | offset / BASE < later && KeysFor(run, offset / BASE) == [] && KeysFor(run, later) != []
      ensures !Accepts(policy, FinalGroups(run), offset, key)
    {
      EmptyRangeRejected(policy, run, offset, later, key);
    }
  }
}
