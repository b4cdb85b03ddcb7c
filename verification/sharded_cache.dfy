/** db/tableCache.h:300-362: sixteen caches behind one interface, chosen by the top bits of the
    key's hash. Each shard is the state machine that LRUCache refines. */
module ShardedCaches {
  import opened Bytes
  import opened LruModel
  import LruOrder
  import opened Options

  const NUM_SHARDS: nat := 16

  /** `hash >> (32 - kNumShardBits)`; for what that is see ShardMeaning. */
  function Shard(hash: Word): (i: nat)
    ensures i < NUM_SHARDS
  {
    hash / 0x1000_0000
  }

  /** The shard is what the top four bits of the hash say: each takes an interval of 2^28 hashes. */
  lemma ShardMeaning(hash: Word, i: nat)
    ensures Shard(hash) == i <==> i * 0x1000_0000 <= hash < (i + 1) * 0x1000_0000
  {}

  /** tableCache.h:309-311, over an arbitrary `Hash`. */
  function HashSlice(hash: Str -> Word, key: Str): Word { hash(Cut(key)) }

  /** A key is hashed by its first size() bytes, which are all of it below 2^31. */
  lemma HashesKey(hash: Str -> Word, key: Str)
    ensures |key| < INT_LIMIT ==> HashSlice(hash, key) == hash(key)
    ensures HasSize(key) ==> HashSlice(hash, key) == hash(key[..|key| % WORD_SIZE])
  {}

  /** `per_shard` in the constructor; the sum is a size_t. */
  function PerShard(capacity: nat): nat { (capacity + (NUM_SHARDS - 1)) % DWORD_SIZE / NUM_SHARDS }

  /** Sixteen shares are enough for the capacity, and less than sixteen more than it, unless the sum at
      tableCache.h:317 overflows; then every share is 0, as for capacity 0. */
  lemma PerShardExactly(capacity: nat)
    requires capacity < DWORD_SIZE
    ensures capacity <= 16 * PerShard(capacity) < capacity + 16 <==> capacity + 15 < DWORD_SIZE
    ensures PerShard(capacity) > 0 <==> 0 < capacity && capacity + 15 < DWORD_SIZE
  {}

  datatype KeyOp<!H> =
    | KeyInsert(handle: H, key: Str, charge: nat)
    | KeyLookup(key: Str)
    | KeyRelease(handle: H, hash: Word)    // the hash is read off the handle
    | KeyErase(key: Str)
    | PruneShard(shard: nat)    // Prune() visits the shards one after the other

  /** Every entry of shard `i` carries the hash of its key, and that hash leads to `i`. */
  ghost predicate Routed<H>(shards: seq<State<H>>, hash: Str -> Word)
  {
    forall i, h :: 0 <= i < |shards| && h in shards[i].info ==>
      var n := shards[i].info[h].name; n.hash == HashSlice(hash, n.key) && Shard(n.hash) == i
  }

  ghost predicate AllInv<H>(shards: seq<State<H>>)
  {
    forall i :: 0 <= i < |shards| ==> Inv(shards[i])
  }

  /** No handle is known to two shards. */
  ghost predicate Separate<H>(shards: seq<State<H>>)
  {
    forall i, j, h :: 0 <= i < |shards| && 0 <= j < |shards| && h in shards[i].info && h in shards[j].info ==> i == j
  }

  ghost predicate Good<H>(shards: seq<State<H>>, hash: Str -> Word)
  {
    |shards| == NUM_SHARDS && AllInv(shards) && Routed(shards, hash) && Separate(shards)
  }

  // ----- one operation goes to one shard

  ghost function Target<H>(op: KeyOp<H>, hash: Str -> Word): nat
  {
    match op
    case KeyInsert(_, key, _) => Shard(HashSlice(hash, key))
    case KeyLookup(key) => Shard(HashSlice(hash, key))
    case KeyRelease(_, h) => Shard(h)
    case KeyErase(key) => Shard(HashSlice(hash, key))
    case PruneShard(i) => i
  }

  ghost function Local<H>(op: KeyOp<H>, hash: Str -> Word): Op<H>
  {
    match op
    case KeyInsert(h, key, charge) => OpInsert(h, Info(Name(Cut(key), HashSlice(hash, key)), charge))
    case KeyLookup(key) => OpLookup(Name(key, HashSlice(hash, key)))
    case KeyRelease(h, _) => OpRelease(h)
    case KeyErase(key) => OpErase(Name(key, HashSlice(hash, key)))
    case PruneShard(_) => OpPrune
  }

  ghost predicate HeldIn<H>(s: State<H>, h: H, hash: Word)
  {
    h in s.clients && h in s.info && s.info[h].name.hash == hash
  }

  /** malloc returns handles no shard knows; a client releases what some shard gave it; no key has a
      negative size. */
  ghost predicate LegalKeyOp<H>(shards: seq<State<H>>, op: KeyOp<H>)
  {
    match op
    case KeyInsert(h, key, _) => HasSize(key) && forall i :: 0 <= i < |shards| ==> h !in shards[i].info
    case KeyLookup(key) => HasSize(key)
    case KeyErase(key) => HasSize(key)
    case KeyRelease(h, hash) => exists i :: 0 <= i < |shards| && HeldIn(shards[i], h, hash)
    case PruneShard(i) => i < NUM_SHARDS
  }

  /** Release reaches the shard that handed the entry out. */
  lemma TargetLegal<H>(shards: seq<State<H>>, op: KeyOp<H>, hash: Str -> Word)
    requires Good(shards, hash) && LegalKeyOp(shards, op)
    ensures Target(op, hash) < NUM_SHARDS && Legal(shards[Target(op, hash)], Local(op, hash))
  {
    hide Inv;
    if op.KeyRelease? {
      var i :| 0 <= i < |shards| && HeldIn(shards[i], op.handle, op.hash);
      assert op.handle in shards[i].info;
    }
  }

  ghost function KeyStep<H>(shards: seq<State<H>>, op: KeyOp<H>, hash: Str -> Word): seq<State<H>>
    requires Good(shards, hash) && LegalKeyOp(shards, op)
  {
    TargetLegal(shards, op, hash);
    var t := Target(op, hash);
    shards[t := Step(shards[t], Local(op, hash))]
  }

  lemma StepInfo<H>(s: State<H>, op: Op<H>)
    requires Inv(s) && Legal(s, op)
    ensures Step(s, op).info == match op case OpInsert(h, i) => s.info[h := i] case _ => s.info
  {
    hide Inv, Insert, Prune, Lookup, Release, Erase;
    match op
    case OpSetCapacity(c) =>
    case OpInsert(h, i) => InsertEffect(s, h, i);
    case OpLookup(n) => LookupEffect(s, n);
    case OpRelease(h) => ReleaseEffect(s, h);
    case OpErase(n) => EraseEffect(s, n);
    case OpPrune => PruneEffect(s);
  }

  /** Every operation keeps entries in the shard their hash names. */
  lemma KeyStepGood<H>(shards: seq<State<H>>, op: KeyOp<H>, hash: Str -> Word)
    requires Good(shards, hash) && LegalKeyOp(shards, op)
    ensures Good(KeyStep(shards, op, hash), hash)
  {
    hide Inv, Step;
    TargetLegal(shards, op, hash);
    var t, l := Target(op, hash), Local(op, hash);
    StepInv(shards[t], l);
    StepInfo(shards[t], l);
    var after := KeyStep(shards, op, hash);
    forall i, h | 0 <= i < |after| && h in after[i].info
      ensures h in shards[i].info || (op.KeyInsert? && h == op.handle && i == t)
      ensures var n := after[i].info[h].name; n.hash == HashSlice(hash, n.key) && Shard(n.hash) == i
    {
      if i == t && op.KeyInsert? && h == op.handle {
        assert after[i].info[h].name == Name(Cut(op.key), HashSlice(hash, op.key));
        CutTwice(op.key);
      } else {
        assert h in shards[i].info && after[i].info[h] == shards[i].info[h];
      }
    }
  }

  ghost predicate LegalKeyRun<H>(shards: seq<State<H>>, ops: seq<KeyOp<H>>, hash: Str -> Word)
    requires Good(shards, hash)
    decreases |ops|
  {
    ops == [] ||
    (LegalKeyOp(shards, ops[0]) &&
     (KeyStepGood(shards, ops[0], hash); LegalKeyRun(KeyStep(shards, ops[0], hash), ops[1..], hash)))
  }

  ghost function KeyRun<H>(shards: seq<State<H>>, ops: seq<KeyOp<H>>, hash: Str -> Word): seq<State<H>>
    requires Good(shards, hash) && LegalKeyRun(shards, ops, hash)
    decreases |ops|
  {
    if ops == [] then shards
    else (KeyStepGood(shards, ops[0], hash); KeyRun(KeyStep(shards, ops[0], hash), ops[1..], hash))
  }

  /** For any run, a key is only ever in one shard, and only under its own hash. */
  lemma {:induction false} OneHome<H>(shards: seq<State<H>>, ops: seq<KeyOp<H>>, hash: Str -> Word)
    requires Good(shards, hash) && LegalKeyRun(shards, ops, hash)
    ensures var r := KeyRun(shards, ops, hash);
            Good(r, hash) &&
            forall i, n :: 0 <= i < |r| && n in r[i].table ==>
                n.hash == HashSlice(hash, n.key) && i == Shard(HashSlice(hash, n.key))
    decreases |ops|
  {
    hide KeyStep, Separate;
    if ops == [] {
      forall i, n | 0 <= i < |shards| && n in shards[i].table
        ensures n.hash == HashSlice(hash, n.key) && i == Shard(HashSlice(hash, n.key))
      {
        var s := shards[i];
        assert Inv(s);
        assert s.table[n] in s.cached && s.table[n] in s.info;
      }
    } else {
      KeyStepGood(shards, ops[0], hash);
      OneHome(KeyStep(shards, ops[0], hash), ops[1..], hash);
    }
  }

  // ----- the shards as one map

  ghost function Find<H>(shards: seq<State<H>>, hash: Str -> Word, key: Str): Option<H>
    requires |shards| == NUM_SHARDS
  {
    var n := Name(key, HashSlice(hash, key));
    var s := shards[Shard(HashSlice(hash, key))];
    if n in s.table then Some(s.table[n]) else None
  }

  /** The shard's own view: `op` takes away what `key` stands for there. */
  ghost predicate Loses<H>(shards: seq<State<H>>, op: KeyOp<H>, hash: Str -> Word, key: Str)
    requires Good(shards, hash) && LegalKeyOp(shards, op)
  {
    TargetLegal(shards, op, hash);
    var t := Target(op, hash);
    Shard(HashSlice(hash, key)) == t && Unbinds(shards[t], Local(op, hash), Name(key, HashSlice(hash, key)))
  }

  /** What an operation does to the binding of any key at all. An insert binds the first size() bytes of its
      key, which are all of it below 2^31, exactly when its shard has some capacity; every other binding stays
      unless it is erased, replaced, or idle and reached by an eviction or a Prune of its shard. */
  lemma KeyStepFind<H>(shards: seq<State<H>>, op: KeyOp<H>, hash: Str -> Word, key: Str, h: H)
    requires Good(shards, hash) && LegalKeyOp(shards, op)
    ensures Find(KeyStep(shards, op, hash), hash, key) == Some(h)
            <==> ((op.KeyInsert? && Cut(op.key) == key && op.handle == h &&
                   shards[Shard(HashSlice(hash, key))].capacity > 0)
                  || (Find(shards, hash, key) == Some(h) && !Loses(shards, op, hash, key)))
    ensures Shard(HashSlice(hash, key)) != Target(op, hash) ==> !Loses(shards, op, hash, key)
    ensures op.KeyLookup? || op.KeyRelease? || (op.KeyErase? && op.key != key) ==> !Loses(shards, op, hash, key)
    ensures op == KeyErase(key) ==> Find(KeyStep(shards, op, hash), hash, key) == None
  {
    hide Inv, Step, Unbinds;
    TargetLegal(shards, op, hash);
    var t, l := Target(op, hash), Local(op, hash);
    StepBindings(shards[t], l, Name(key, HashSlice(hash, key)), h);
    UnbindsWhat(shards[t], l, Name(key, HashSlice(hash, key)));
    if op.KeyInsert? {
      CutTwice(op.key);
    }
    if op == KeyErase(key) {
      ErasedThere(shards[t], Name(key, HashSlice(hash, key)));
    }
  }

  lemma UnbindsWhat<H>(s: State<H>, op: Op<H>, n: Name)
    requires Inv(s) && Legal(s, op)
    ensures op.OpLookup? || op.OpRelease? || op.OpSetCapacity? || (op.OpErase? && op.name != n) ==> !Unbinds(s, op, n)
  {
    hide Inv;
  }

  lemma ErasedThere<H>(s: State<H>, n: Name)
    requires Inv(s)
    ensures n !in Step(s, OpErase(n)).table
  {
    hide Inv, Erase;
    EraseEffect(s, n);
  }

  // ----- a cache of some capacity

  /** Nothing changes the capacity of a shard. */
  lemma {:induction false} KeyRunCapacity<H>(shards: seq<State<H>>, ops: seq<KeyOp<H>>, hash: Str -> Word, c: nat)
    requires Good(shards, hash) && LegalKeyRun(shards, ops, hash)
    requires forall i :: 0 <= i < |shards| ==> shards[i].capacity == c
    ensures var r := KeyRun(shards, ops, hash); Good(r, hash) && forall i :: 0 <= i < |r| ==> r[i].capacity == c
    decreases |ops|
  {
    hide Inv, Step, Separate, Routed;
    if ops != [] {
      KeyStepGood(shards, ops[0], hash);
      TargetLegal(shards, ops[0], hash);
      LruOrder.StepCapacity(shards[Target(ops[0], hash)], Local(ops[0], hash));
      KeyRunCapacity(KeyStep(shards, ops[0], hash), ops[1..], hash, c);
    }
  }

  /** After any run on a cache built with `capacity`, an insert of a key below 2^31 is found right after it, if and
      only if the capacity is positive and less than 2^64 - 15. */
  lemma InsertFound<H>(shards: seq<State<H>>, ops: seq<KeyOp<H>>, hash: Str -> Word, capacity: nat, op: KeyOp<H>)
    requires capacity < DWORD_SIZE && Good(shards, hash) && LegalKeyRun(shards, ops, hash)
    requires forall i :: 0 <= i < |shards| ==> shards[i].capacity == PerShard(capacity)
    requires var r := KeyRun(shards, ops, hash); LegalKeyOp(r, op)
    requires op.KeyInsert? && |op.key| < INT_LIMIT
    ensures var r := KeyRun(shards, ops, hash);
            && Good(r, hash)
            && (Find(KeyStep(r, op, hash), hash, op.key) == Some(op.handle) <==>
                0 < capacity && capacity + 15 < DWORD_SIZE)
  {
    hide Inv, KeyStep, Routed, Separate, LegalKeyRun, KeyRun, PerShard;
    var r := KeyRun(shards, ops, hash);
    KeyRunCapacity(shards, ops, hash, PerShard(capacity));
    PerShardExactly(capacity);
    KeyStepFind(r, op, hash, op.key, op.handle);
    var s, n := r[Shard(HashSlice(hash, op.key))], Name(op.key, HashSlice(hash, op.key));
    if n in s.table {
      TableEntry(s, n);
    }
  }

  // ----- charges

  /** db/tableCache.h:352-358 */
  ghost function TotalCharge<H>(shards: seq<State<H>>): int
  {
    if shards == [] then 0 else TotalCharge(shards[..|shards| - 1]) + shards[|shards| - 1].usage
  }

  ghost function CachedCharges<H>(s: State<H>): nat
    requires Inv(s)
  {
    Charges(s.info, s.lru) + Charges(s.info, s.inUse)
  }

  ghost function AllCachedCharges<H>(shards: seq<State<H>>): nat
    requires AllInv(shards)
  {
    if shards == [] then 0
    else AllCachedCharges(shards[..|shards| - 1]) + CachedCharges(shards[|shards| - 1])
  }

  lemma UsageIsCharges<H>(s: State<H>)
    requires Inv(s)
    ensures s.usage == CachedCharges(s)
  {}

  /** TotalCharge is the sum over all cached entries. */
  lemma {:induction false} TotalChargeIsSum<H>(shards: seq<State<H>>)
    requires AllInv(shards)
    ensures TotalCharge(shards) == AllCachedCharges(shards)
  {
    hide Inv, CachedCharges;
    if shards != [] {
      UsageIsCharges(shards[|shards| - 1]);
      TotalChargeIsSum(shards[..|shards| - 1]);
    }
  }

  lemma {:induction false} TotalChargeWithin<H>(shards: seq<State<H>>, share: nat)
    requires forall i :: 0 <= i < |shards| ==> shards[i].usage <= share
    ensures TotalCharge(shards) <= |shards| * share
  {
    if shards != [] {
      var front := shards[..|shards| - 1];
      TotalChargeWithin(front, share);
      assert |shards| * share == |front| * share + share;
    }
  }

  /** As long as each shard keeps within its share, the whole stays below capacity + 16. */
  lemma TotalChargeBound<H>(shards: seq<State<H>>, capacity: nat)
    requires |shards| == NUM_SHARDS && forall i :: 0 <= i < |shards| ==> shards[i].usage <= PerShard(capacity)
    ensures TotalCharge(shards) < capacity + NUM_SHARDS
  {
    TotalChargeWithin(shards, PerShard(capacity));
  }
}
