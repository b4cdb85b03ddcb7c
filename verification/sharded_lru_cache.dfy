/** db/tableCache.h:303-359: sixteen LRUCache objects with nothing in common. */
module ShardedLRUCaches {
  import opened Bytes
  import LruModel
  import opened HandleTables
  import opened LruCaches
  import opened Options
  import opened ShardedCaches

  type Shards = seq<LruModel.State<LRUHandle>>

  ghost function States(shards: seq<LRUCache>): (r: Shards)
    reads shards
    ensures |r| == |shards| && forall i :: 0 <= i < |shards| ==> r[i] == shards[i].s
  {
    seq(|shards|, i requires 0 <= i < |shards| reads shards => shards[i].s)
  }

  /** Neither cache writes what the other reads. */
  ghost predicate Apart(a: LRUCache, b: LRUCache)
    reads a, b, a.table_, b.table_
  {
    a != b && a.table_ != b.table_ && a.Listed() !! b.Listed() && a.table_.nodes !! b.table_.nodes
  }

  ghost predicate AllApart(shards: seq<LRUCache>)
    reads shards, set c | c in shards :: c.table_
  {
    forall i, j :: 0 <= i < |shards| && 0 <= j < |shards| && i != j ==> Apart(shards[i], shards[j])
  }

  ghost predicate AllValid(shards: seq<LRUCache>)
    reads shards, set c | c in shards :: c.table_, set c | c in shards :: c.table_.list_
    reads set c, h | c in shards && h in c.Listed() :: h
    reads set c, h | c in shards && h in c.table_.nodes :: h
  {
    forall c :: c in shards ==> c.Valid()
  }

  /** A cache none of whose parts has been written is as valid as it was. */
  twostate lemma Untouched(d: LRUCache)
    requires unchanged(d) && unchanged(d.table_) && unchanged(d.table_.list_)
    requires forall h :: h in d.Listed() ==>
             unchanged(h`next) && unchanged(h`prev) && unchanged(h`refs) && unchanged(h`in_cache)
    requires forall h :: h in d.table_.nodes ==> unchanged(h`next_hash)
    requires old(d.Valid())
    ensures d.Valid()
  {
    hide ListsAgree, TableAgrees, InfoAgrees, CountsAgree, LruModel.Inv;
    assert d.Listed() == old(d.Listed()) && d.table_.nodes == old(d.table_.nodes) &&
           d.table_.list_ == old(d.table_.list_);
    assert CountsAgree(d.s.refs, d.s.cached, d.s.info);
    assert ListsAgree(d.Listed(), d.lru_, d.s.lru, d.in_use_, d.s.inUse);
    assert TableAgrees(d.table_, d.s.table, d.s.info);
  }

  // ----- an operation on one shard, with the others looking on

  method LookupIn(c: LRUCache, key: Str, hash: Word, ghost shards: seq<LRUCache>, ghost i: nat) returns (e: LRUHandle?)
    requires i < |shards| && c == shards[i] && c.Valid() && AllValid(shards) && AllApart(shards)
    modifies c`s, c.Listed()`next, c.Listed()`prev, c.Listed()`refs
    ensures c.s == LruModel.Lookup(old(c.s), LruModel.Name(key, hash))
    ensures var n, t := LruModel.Name(key, hash), old(c.s).table; e == if n in t then t[n] else null
    ensures AllValid(shards) && AllApart(shards) && States(shards) == old(States(shards))[i := c.s]
    ensures forall j :: 0 <= j < |shards| && j != i ==>
              shards[j].Listed() == old(shards[j].Listed()) && shards[j].table_.nodes == old(shards[j].table_.nodes)
  {
    hide ListsAgree, TableAgrees, InfoAgrees, CountsAgree, LruModel.Inv, LruModel.Lookup;
    e := c.Lookup(key, hash);
    forall j | 0 <= j < |shards| && j != i
      ensures shards[j].Valid() && Apart(c, shards[j]) && shards[j].s == old(shards[j].s)
      ensures shards[j].table_.nodes == old(shards[j].table_.nodes)
    {
      assert old(Apart(c, shards[j]));
      Untouched(shards[j]);
    }
  }

  method ReleaseIn(c: LRUCache, handle: LRUHandle, ghost shards: seq<LRUCache>, ghost i: nat)
    requires i < |shards| && c == shards[i] && c.Valid() && AllValid(shards) && AllApart(shards) &&
             handle in c.s.clients
    modifies c`s, c.Listed()`next, c.Listed()`prev, c.Listed()`refs
    ensures c.s == LruModel.Release(old(c.s), handle)
    ensures AllValid(shards) && AllApart(shards) && States(shards) == old(States(shards))[i := c.s]
    ensures forall j :: 0 <= j < |shards| && j != i ==>
              shards[j].Listed() == old(shards[j].Listed()) && shards[j].table_.nodes == old(shards[j].table_.nodes)
  {
    hide ListsAgree, TableAgrees, InfoAgrees, CountsAgree, LruModel.Inv, LruModel.Release;
    c.Release(handle);
    forall j | 0 <= j < |shards| && j != i
      ensures shards[j].Valid() && Apart(c, shards[j]) && shards[j].s == old(shards[j].s)
      ensures shards[j].table_.nodes == old(shards[j].table_.nodes)
    {
      assert old(Apart(c, shards[j]));
      Untouched(shards[j]);
    }
  }

  method EraseIn(c: LRUCache, key: Str, hash: Word, ghost shards: seq<LRUCache>, ghost i: nat)
    requires i < |shards| && c == shards[i] && c.Valid() && AllValid(shards) && AllApart(shards)
    modifies c`s, c`usage_, c.Listed()`next, c.Listed()`prev, c.Listed()`refs
    modifies c.Listed()`in_cache, c.table_, c.table_.nodes`next_hash
    ensures c.s == LruModel.Erase(old(c.s), LruModel.Name(key, hash))
    ensures AllValid(shards) && AllApart(shards) && States(shards) == old(States(shards))[i := c.s]
    ensures forall j :: 0 <= j < |shards| && j != i ==>
              shards[j].Listed() == old(shards[j].Listed()) && shards[j].table_.nodes == old(shards[j].table_.nodes)
  {
    hide ListsAgree, TableAgrees, InfoAgrees, CountsAgree, LruModel.Inv, LruModel.Erase;
    c.Erase(key, hash);
    forall j | 0 <= j < |shards| && j != i
      ensures shards[j].Valid() && Apart(c, shards[j]) && shards[j].s == old(shards[j].s)
      ensures shards[j].table_.nodes == old(shards[j].table_.nodes)
    {
      assert old(Apart(c, shards[j]));
      Untouched(shards[j]);
    }
  }

  method InsertIn(c: LRUCache, key: Str, hash: Word, charge: nat, ghost shards: seq<LRUCache>,
                  ghost i: nat) returns (e: LRUHandle)
    requires i < |shards| && c == shards[i] && c.Valid() && AllValid(shards) && AllApart(shards) && HasSize(key)
    modifies c`s, c`usage_, c.Listed()`next, c.Listed()`prev, c.Listed()`refs
    modifies c.Listed()`in_cache, c.table_, c.table_.nodes`next_hash
    ensures fresh(e) && e.key == Cut(key) && e.hash == hash && e.charge == charge
    ensures LegalKeyOp(old(States(shards)), KeyInsert(e, key, charge)) && e !in old(c.s).info
    ensures c.s == LruModel.Insert(old(c.s), e, LruModel.Info(LruModel.Name(Cut(key), hash), charge))
    ensures AllValid(shards) && AllApart(shards) && States(shards) == old(States(shards))[i := c.s]
    ensures forall j :: 0 <= j < |shards| && j != i ==>
              shards[j].Listed() == old(shards[j].Listed()) && shards[j].table_.nodes == old(shards[j].table_.nodes)
  {
    hide ListsAgree, TableAgrees, InfoAgrees, CountsAgree, LruModel.Inv, LruModel.Insert;
    e := c.Insert(key, hash, charge);
    forall j | 0 <= j < |shards| && j != i
      ensures shards[j].Valid() && Apart(c, shards[j]) && shards[j].s == old(shards[j].s)
      ensures shards[j].table_.nodes == old(shards[j].table_.nodes)
    {
      assert old(Apart(c, shards[j]));
      Untouched(shards[j]);
    }
  }

  method PruneIn(c: LRUCache, ghost shards: seq<LRUCache>, ghost i: nat)
    requires i < |shards| && c == shards[i] && c.Valid() && AllValid(shards) && AllApart(shards)
    modifies c`s, c`usage_, c.Listed()`next, c.Listed()`prev, c.Listed()`refs
    modifies c.Listed()`in_cache, c.table_, c.table_.nodes`next_hash
    ensures c.s == LruModel.Prune(old(c.s))
    ensures AllValid(shards) && AllApart(shards) && States(shards) == old(States(shards))[i := c.s]
    ensures forall j :: 0 <= j < |shards| && j != i ==>
              shards[j].Listed() == old(shards[j].Listed()) && shards[j].table_.nodes == old(shards[j].table_.nodes)
  {
    hide ListsAgree, TableAgrees, InfoAgrees, CountsAgree, LruModel.Inv, LruModel.Prune;
    c.Prune();
    forall j | 0 <= j < |shards| && j != i
      ensures shards[j].Valid() && Apart(c, shards[j]) && shards[j].s == old(shards[j].s)
      ensures shards[j].table_.nodes == old(shards[j].table_.nodes)
    {
      assert old(Apart(c, shards[j]));
      Untouched(shards[j]);
    }
  }

  // ----- the sixteen of them

  /** The one shard an operation goes to, and what it does there. */
  lemma Routes(before: Shards, op: KeyOp<LRUHandle>, hash: Str -> Word)
    requires Good(before, hash) && LegalKeyOp(before, op)
    ensures var i := Target(op, hash);
            && i < |before| == NUM_SHARDS && LruModel.Inv(before[i]) && Good(KeyStep(before, op, hash), hash)
            && (op.KeyInsert? ==> op.handle !in before[i].info) && (op.KeyRelease? ==> op.handle in before[i].clients)
            && KeyStep(before, op, hash) == before[i := match op
                case KeyInsert(h, key, charge) =>
                  LruModel.Insert(before[i], h, LruModel.Info(LruModel.Name(Cut(key), HashSlice(hash, key)), charge))
                case KeyLookup(key) => LruModel.Lookup(before[i], LruModel.Name(key, HashSlice(hash, key)))
                case KeyRelease(h, _) => LruModel.Release(before[i], h)
                case KeyErase(key) => LruModel.Erase(before[i], LruModel.Name(key, HashSlice(hash, key)))
                case PruneShard(_) => LruModel.Prune(before[i])]
  {
    hide LruModel.Insert, LruModel.Lookup, LruModel.Release, LruModel.Erase, LruModel.Prune, LruModel.Inv;
    TargetLegal(before, op, hash);
    KeyStepGood(before, op, hash);
  }

  lemma MayPrune(before: Shards, i: nat)
    requires i < NUM_SHARDS
    ensures LegalKeyOp(before, PruneShard(i))
  {}

  ghost function FreshShard(capacity: nat): LruModel.State<LRUHandle>
  {
    LruModel.Init<LRUHandle>().(capacity := PerShard(capacity))
  }

  lemma AllFresh(shards: Shards, capacity: nat, hash: Str -> Word)
    requires |shards| == NUM_SHARDS && forall i :: 0 <= i < |shards| ==> shards[i] == FreshShard(capacity)
    ensures Good(shards, hash)
  {
    LruModel.InitInv<LRUHandle>();
  }

  method NewShard(capacity: nat) returns (c: LRUCache)
    ensures c.Valid() && c.s == FreshShard(capacity)
    ensures fresh(c) && fresh(c.Listed()) && fresh(c.table_) && fresh(c.table_.nodes)
  {
    hide LRUCache.Valid;
    c := new LRUCache();
    c.SetCapacity(PerShard(capacity));
  }

  method NewShards(capacity: nat) returns (shards: seq<LRUCache>)
    ensures |shards| == NUM_SHARDS && fresh(shards) && AllValid(shards) && AllApart(shards)
    ensures forall c :: c in shards ==> fresh(c.Listed()) && fresh(c.table_) && fresh(c.table_.nodes)
    ensures forall i :: 0 <= i < |shards| ==> shards[i].s == FreshShard(capacity)
  {
    hide LRUCache.Valid, FreshShard;
    shards := [];
    for k := 0 to NUM_SHARDS
      invariant |shards| == k && fresh(shards) && AllValid(shards) && AllApart(shards)
      invariant forall c :: c in shards ==> fresh(c.Listed()) && fresh(c.table_) && fresh(c.table_.nodes)
      invariant forall i :: 0 <= i < |shards| ==> shards[i].s == FreshShard(capacity)
      modifies {}
    {
      var c := NewShard(capacity);
      forall j | 0 <= j < k ensures Apart(shards[j], c) && Apart(c, shards[j]) {}
      shards := shards + [c];
    }
  }

  lemma TotalNext(shards: Shards, i: nat)
    requires |shards| == NUM_SHARDS && i < NUM_SHARDS && LruModel.Inv(shards[i])
    ensures ShardedCaches.TotalCharge(shards[..0]) == 0
    ensures ShardedCaches.TotalCharge(shards[..i + 1]) ==
            ShardedCaches.TotalCharge(shards[..i])
            + LruModel.Charges(shards[i].info, shards[i].lru) + LruModel.Charges(shards[i].info, shards[i].inUse)
    ensures shards[..NUM_SHARDS] == shards
  {
    UsageIsCharges(shards[i]);
    assert shards[..i + 1][..i] == shards[..i];
  }

  class ShardedLRUCache {
    const shard_: seq<LRUCache>
    const hash: Str -> Word    // Hash with the seed 0

    ghost function Listed(): set<LRUHandle>
      reads shard_
    {
      set c, h | c in shard_ && h in c.Listed() :: h
    }

    ghost function Nodes(): set<LRUHandle>
      reads shard_, Tables()
    {
      set c, h | c in shard_ && h in c.table_.nodes :: h
    }

    ghost function Tables(): set<HandleTable>
    {
      set c | c in shard_ :: c.table_
    }

    ghost predicate Valid()
      reads shard_, Tables(), set c | c in shard_ :: c.table_.list_, Listed(), Nodes()
    {
      |shard_| == NUM_SHARDS && AllValid(shard_) && AllApart(shard_) && Good(States(shard_), hash)
    }

    /** Each shard gets its share of the capacity, rounded up. */
    constructor (capacity: nat, hash: Str -> Word)
      ensures Valid() && this.hash == hash && fresh(shard_) && fresh(Listed()) && fresh(Tables()) && fresh(Nodes())
      ensures forall i :: 0 <= i < |shard_| ==> shard_[i].s == FreshShard(capacity)
    {
      hide LRUCache.Valid, AllApart, AllValid, Good;
      var shards := NewShards(capacity);
      this.hash := hash;
      shard_ := shards;
      new;
      AllFresh(States(shard_), capacity, hash);
    }

    lemma Picked(i: nat)
      requires Valid() && i < NUM_SHARDS
      ensures |shard_| == NUM_SHARDS && shard_[i] in shard_ && shard_[i].Valid() && LruModel.Inv(shard_[i].s)
      ensures shard_[i].table_ in Tables()
      ensures shard_[i].Listed() <= Listed() && shard_[i].table_.nodes <= Nodes()
    {
      hide LruModel.Inv, LRUCache.Mirrors;
    }

    method Lookup(key: Str) returns (e: LRUHandle?)
      requires Valid() && HasSize(key)
      modifies shard_, Listed()
      ensures Valid() && States(shard_) == KeyStep(old(States(shard_)), KeyLookup(key), hash)
      ensures e == match Find(old(States(shard_)), hash, key) case Some(h) => h case None => null
    {
      hide LRUCache.Valid, Good, KeyStep, LruModel.Lookup, AllApart, AllValid;
      ghost var before, op := States(shard_), KeyLookup(key);
      var i := Shard(HashSlice(hash, key));
      Routes(before, op, hash);
      Picked(i);
      e := LookupIn(shard_[i], key, HashSlice(hash, key), shard_, i);
    }

    method Release(handle: LRUHandle)
      requires Valid() && LegalKeyOp(States(shard_), KeyRelease(handle, handle.hash))
      modifies shard_, Listed()
      ensures Valid() && States(shard_) == KeyStep(old(States(shard_)), KeyRelease(handle, handle.hash), hash)
    {
      hide LRUCache.Valid, Good, KeyStep, LruModel.Release, AllApart, AllValid;
      ghost var before, op := States(shard_), KeyRelease(handle, handle.hash);
      var i := Shard(handle.hash);
      Routes(before, op, hash);
      Picked(i);
      ReleaseIn(shard_[i], handle, shard_, i);
    }

    method Erase(key: Str)
      requires Valid() && HasSize(key)
      modifies shard_, Listed(), Tables(), Nodes()
      ensures Valid() && States(shard_) == KeyStep(old(States(shard_)), KeyErase(key), hash)
    {
      hide LRUCache.Valid, Good, KeyStep, LruModel.Erase, AllApart, AllValid;
      ghost var before, op := States(shard_), KeyErase(key);
      var i := Shard(HashSlice(hash, key));
      Routes(before, op, hash);
      Picked(i);
      EraseIn(shard_[i], key, HashSlice(hash, key), shard_, i);
    }

    method Insert(key: Str, charge: nat) returns (e: LRUHandle)
      requires Valid() && HasSize(key)
      modifies shard_, Listed(), Tables(), Nodes()
      ensures fresh(e) && e.key == Cut(key) && e.hash == HashSlice(hash, key) && e.charge == charge
      ensures LegalKeyOp(old(States(shard_)), KeyInsert(e, key, charge))
      ensures Valid() && States(shard_) == KeyStep(old(States(shard_)), KeyInsert(e, key, charge), hash)
    {
      hide LRUCache.Valid, Good, KeyStep, LegalKeyOp, LruModel.Insert, AllApart, AllValid;
      ghost var before := States(shard_);
      var i := Shard(HashSlice(hash, key));
      Picked(i);
      e := InsertIn(shard_[i], key, HashSlice(hash, key), charge, shard_, i);
      ghost var op := KeyInsert(e, key, charge);
      Routes(before, op, hash);
    }

    /** One shard after the other. */
    method Prune()
      requires Valid()
      modifies shard_, Listed(), Tables(), Nodes()
      ensures Valid()
      ensures forall i :: 0 <= i < |shard_| ==>
              LruModel.Inv(old(shard_[i].s)) && shard_[i].s == LruModel.Prune(old(shard_[i].s))
    {
      hide Valid, LRUCache.Valid, LRUCache.Listed, Listed, Nodes, Tables, LruModel.Prune, LruModel.Inv;
      ghost var before, listed, nodes := States(shard_), Listed(), Nodes();
      AllPicked();
      for i := 0 to NUM_SHARDS
        invariant Valid() && |before| == NUM_SHARDS
        invariant forall j :: 0 <= j < i ==> LruModel.Inv(before[j]) && States(shard_)[j] == LruModel.Prune(before[j])
        invariant forall j :: i <= j < |shard_| ==> States(shard_)[j] == before[j]
        invariant forall j :: i <= j < |shard_| ==> shard_[j].Listed() <= listed && shard_[j].table_.nodes <= nodes
      {
        PruneOne(shard_[i], i);
      }
    }

    lemma AllPicked()
      requires Valid()
      ensures |shard_| == NUM_SHARDS
      ensures forall i :: 0 <= i < |shard_| ==> shard_[i] in shard_ && shard_[i].table_ in Tables()
      ensures forall i :: 0 <= i < |shard_| ==> shard_[i].Listed() <= Listed() && shard_[i].table_.nodes <= Nodes()
    {
      hide LRUCache.Valid, LruModel.Inv;
    }

    method PruneOne(c: LRUCache, ghost i: nat)
      requires Valid() && i < |shard_| && c == shard_[i]
      modifies c`s, c`usage_, c.Listed()`next, c.Listed()`prev, c.Listed()`refs
      modifies c.Listed()`in_cache, c.table_, c.table_.nodes`next_hash
      ensures Valid() && LruModel.Inv(old(c.s)) && c.s == LruModel.Prune(old(c.s))
      ensures States(shard_) == old(States(shard_))[i := c.s]
      ensures forall j :: 0 <= j < |shard_| && j != i ==>
                shard_[j].Listed() == old(shard_[j].Listed()) && shard_[j].table_.nodes == old(shard_[j].table_.nodes)
    {
      hide LRUCache.Valid, LRUCache.Listed, Good, KeyStep, LegalKeyOp, LruModel.Prune, LruModel.Inv, AllApart, AllValid;
      ghost var before := States(shard_);
      Picked(i);
      MayPrune(before, i);
      Routes(before, PruneShard(i), hash);
      PruneIn(c, shard_, i);
    }

    lemma AllKept()
      requires Valid()
      ensures |shard_| == NUM_SHARDS && AllInv(States(shard_))
    {
      hide LruModel.Inv, LRUCache.Mirrors;
    }

    method TotalCharge() returns (total: int)
      requires Valid()
      ensures AllInv(States(shard_)) &&
              total == ShardedCaches.TotalCharge(States(shard_)) == AllCachedCharges(States(shard_))
    {
      hide Valid, LRUCache.Valid, LruModel.Inv, ShardedCaches.TotalCharge, AllCachedCharges, CachedCharges,
           LruModel.Charges;
      total := 0;
      ghost var states := States(shard_);
      Picked(0);
      TotalNext(states, 0);
      for i := 0 to NUM_SHARDS
        invariant Valid() && States(shard_) == states && total == ShardedCaches.TotalCharge(states[..i])
      {
        Picked(i);
        total := total + shard_[i].TotalCharge();
        TotalNext(states, i);
      }
      AllKept();
      TotalChargeIsSum(states);
    }
  }
}
