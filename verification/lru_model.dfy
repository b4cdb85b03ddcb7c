/** What db/tableCache.h's LRUCache does, as a state machine over handles `H`. The class in
    lru_cache.dfy refines it; the facts about whole runs are proved here. */
module LruModel {
  import opened Bytes

  /** The table tells entries apart by hash and key together. */
  datatype Name = Name(key: Str, hash: Word)

  datatype Info = Info(name: Name, charge: nat)

  datatype State<!H(==)> = State(
    capacity: nat,
    usage: int,
    info: map<H, Info>,        // every entry ever allocated
    refs: map<H, nat>,         // reference counts of the entries not yet freed
    cached: set<H>,            // entries with in_cache set
    table: map<Name, H>,
    lru: seq<H>,               // oldest first
    inUse: seq<H>,
    clients: multiset<H>,      // handles returned and not yet released
    deleted: seq<H>,           // deleter calls, in order
    idleSince: map<H, nat>,    // number of the Release that last left an entry without clients
    clock: nat)                // number of releases so far

  // ----- the invariant

  ghost predicate NoDuplicates<H>(q: seq<H>)
  {
    forall i, j :: 0 <= i < j < |q| ==> q[i] != q[j]
  }

  ghost predicate Known<H>(info: map<H, Info>, q: seq<H>)
  {
    forall h :: h in q ==> h in info
  }

  ghost function Charges<H>(info: map<H, Info>, q: seq<H>): nat
    requires Known(info, q)
  {
    if q == [] then 0 else info[q[0]].charge + Charges(info, q[1..])
  }

  function CacheRef(b: bool): nat { if b then 1 else 0 }

  /** Which of the two lists each cached entry is on. */
  ghost predicate OnLists<H>(refs: map<H, nat>, cached: set<H>, lru: seq<H>, inUse: seq<H>)
  {
    && NoDuplicates(lru) && NoDuplicates(inUse)
    && cached <= refs.Keys
    && (forall h :: h in lru ==> h in cached && refs[h] == 1)
    && (forall h :: h in inUse ==> h in cached && refs[h] >= 2)
    && (forall h :: h in cached ==> h in lru || h in inUse)
  }

  ghost predicate Charged<H>(info: map<H, Info>, lru: seq<H>, inUse: seq<H>, usage: int)
  {
    Known(info, lru) && Known(info, inUse) && usage == Charges(info, lru) + Charges(info, inUse)
  }

  /** Reference counts, and when entries are freed. */
  ghost predicate Counted<H>(info: map<H, Info>, refs: map<H, nat>, cached: set<H>, clients: multiset<H>,
                             deleted: seq<H>)
  {
    && refs.Keys <= info.Keys
    && (forall h :: h in clients ==> h in refs)
    && (forall h :: h in refs ==> refs[h] == clients[h] + CacheRef(h in cached) && refs[h] > 0)
    && NoDuplicates(deleted)
    && (forall h :: h in deleted ==> h in info && h !in refs)
    && (forall h :: h in info ==> h in refs || h in deleted)
  }

  /** The table holds exactly the entries `cached`, each under its name. */
  ghost predicate Indexed<H>(info: map<H, Info>, cached: set<H>, table: map<Name, H>)
  {
    && cached <= info.Keys
    && (forall n :: n in table ==> table[n] in cached && info[table[n]].name == n)
    && (forall h :: h in cached ==> info[h].name in table && table[info[h].name] == h)
  }

  /** lru is sorted by the time of last release. */
  ghost predicate Aged<H>(lru: seq<H>, idleSince: map<H, nat>, clock: nat)
  {
    && (forall h :: h in lru ==> h in idleSince && idleSince[h] < clock)
    && (forall i, j :: 0 <= i < j < |lru| ==> idleSince[lru[i]] < idleSince[lru[j]])
  }

  /** Everything but the table. */
  ghost predicate Core<H>(s: State<H>)
  {
    && OnLists(s.refs, s.cached, s.lru, s.inUse)
    && Charged(s.info, s.lru, s.inUse, s.usage)
    && Counted(s.info, s.refs, s.cached, s.clients, s.deleted)
    && Aged(s.lru, s.idleSince, s.clock)
  }

  ghost predicate Inv<H>(s: State<H>) { Core(s) && Indexed(s.info, s.cached, s.table) }

  // ----- the operations

  function Init<H(==)>(): State<H>
  {
    State(0, 0, map[], map[], {}, map[], [], [], multiset{}, [], map[], 0)
  }

  lemma InitInv<H>()
    ensures Inv(Init<H>())
    ensures var s := Init<H>();
            && s.capacity == 0 && s.usage == 0 && s.info == map[] && s.refs == map[] && s.cached == {} &&
                s.table == map[]
            && s.lru == [] && s.inUse == [] && s.clients == multiset{} && s.deleted == []
  {}

  function Without<H(==)>(q: seq<H>, h: H): seq<H>
  {
    if q == [] then [] else if q[0] == h then q[1..] else [q[0]] + Without(q[1..], h)
  }

  /** tableCache.h:182-188 */
  function Ref<H(==)>(s: State<H>, h: H): State<H>
    requires h in s.refs
  {
    if s.refs[h] == 1 && h in s.cached then
      s.(lru := Without(s.lru, h), inUse := s.inUse + [h], refs := s.refs[h := 2])
    else
      s.(refs := s.refs[h := s.refs[h] + 1])
  }

  lemma RefParts<H>(s: State<H>, h: H)
    requires h in s.refs
    ensures var t := Ref(s, h);
            var idle := s.refs[h] == 1 && h in s.cached;
            && t.refs == s.refs[h := s.refs[h] + 1]
            && t.lru == (if idle then Without(s.lru, h) else s.lru)
            && t.inUse == (if idle then s.inUse + [h] else s.inUse)
            && (t.capacity, t.usage, t.info, t.cached, t.table) == (s.capacity, s.usage, s.info, s.cached, s.table)
  {}

  /** tableCache.h:190-202 */
  function Unref<H(==)>(s: State<H>, h: H): State<H>
    requires h in s.refs && s.refs[h] > 0
  {
    if s.refs[h] == 1 then
      s.(refs := s.refs - {h}, deleted := s.deleted + [h])
    else if h in s.cached && s.refs[h] == 2 then
      s.(refs := s.refs[h := 1], inUse := Without(s.inUse, h), lru := s.lru + [h],
         idleSince := s.idleSince[h := s.clock])
    else
      s.(refs := s.refs[h := s.refs[h] - 1])
  }

  lemma UnrefParts<H>(s: State<H>, h: H)
    requires h in s.refs && s.refs[h] > 0
    ensures var t := Unref(s, h);
            var idle := s.refs[h] == 2 && h in s.cached;
            && t.refs == (if s.refs[h] == 1 then s.refs - {h} else s.refs[h := s.refs[h] - 1])
            && t.lru == (if idle then s.lru + [h] else s.lru)
            && t.inUse == (if idle then Without(s.inUse, h) else s.inUse)
            && (t.capacity, t.usage, t.info, t.cached, t.table) == (s.capacity, s.usage, s.info, s.cached, s.table)
  {}

  /** The first half of tableCache.h:272-281: off its list, no longer cached. */
  function Detach<H(==)>(s: State<H>, h: H): State<H>
    requires h in s.info
  {
    s.(lru := Without(s.lru, h), inUse := Without(s.inUse, h), cached := s.cached - {h},
       usage := s.usage - s.info[h].charge)
  }

  function FinishErase<H(==)>(s: State<H>, h: H): State<H>
    requires h in s.info && h in s.refs && s.refs[h] > 0
  {
    Unref(Detach(s, h), h)
  }

  lemma FinishEraseRefs<H>(s: State<H>, h: H)
    requires h in s.info && h in s.refs && s.refs[h] > 0
    ensures FinishErase(s, h).refs.Keys <= s.refs.Keys
  {}

  function Lookup<H(==)>(s: State<H>, n: Name): State<H>
    requires Inv(s)
  {
    if n in s.table then
      Ref(s, s.table[n]).(clients := s.clients + multiset{s.table[n]})
    else s
  }

  function Release<H(==)>(s: State<H>, h: H): State<H>
    requires Inv(s) && h in s.clients
  {
    Unref(s, h).(clients := s.clients - multiset{h}, clock := s.clock + 1)
  }

  function Erase<H(==)>(s: State<H>, n: Name): State<H>
    requires Inv(s)
  {
    if n in s.table then FinishErase(s.(table := s.table - {n}), s.table[n]) else s
  }

  /** tableCache.h:237-257: the new entry `h`, not yet followed by eviction. */
  function Admit<H(==)>(s: State<H>, h: H, i: Info): State<H>
    requires Inv(s) && h !in s.info
  {
    if s.capacity > 0 then
      if i.name in s.table then FinishErase(Admitted(s, h, i), s.table[i.name]) else Admitted(s, h, i)
    else
      s.(info := s.info[h := i], clients := s.clients + multiset{h}, refs := s.refs[h := 1])
  }

  function Admitted<H(==)>(s: State<H>, h: H, i: Info): State<H>
  {
    s.(info := s.info[h := i], clients := s.clients + multiset{h}, refs := s.refs[h := 2], cached := s.cached + {h},
       inUse := s.inUse + [h], usage := s.usage + i.charge, table := s.table[i.name := h])
  }

  function EvictOldest<H(==)>(s: State<H>): State<H>
    requires Inv(s) && s.lru != []
  {
    Erase(s, s.info[s.lru[0]].name)
  }

  // ----- taking an entry off a list

  lemma {:induction false} WithoutCut<H>(q: seq<H>, k: nat)
    requires k < |q| && NoDuplicates(q)
    ensures Without(q, q[k]) == q[..k] + q[k + 1..]
  {
    if k > 0 {
      assert q[0] != q[k];
      WithoutCut(q[1..], k - 1);
      assert q[1..][k - 1] == q[k];
    }
  }

  lemma {:induction false} WithoutAbsent<H>(q: seq<H>, h: H)
    requires h !in q
    ensures Without(q, h) == q
  {
    if q != [] {
      assert h !in q[1..];
      WithoutAbsent(q[1..], h);
    }
  }

  lemma WithoutMembers<H>(q: seq<H>, h: H)
    requires NoDuplicates(q)
    ensures var w := Without(q, h);
            NoDuplicates(w) && h !in w && (forall x :: x in w ==> x in q) && (forall x :: x in q && x != h ==> x in w)
  {
    hide Without;
    if h in q {
      var k :| 0 <= k < |q| && q[k] == h;
      WithoutCut(q, k);
      var w := q[..k] + q[k + 1..];
      assert forall i {:trigger w[i]} :: 0 <= i < |w| ==> w[i] == q[if i < k then i else i + 1];
    } else {
      WithoutAbsent(q, h);
    }
  }

  lemma {:induction false} ChargesWithout<H>(info: map<H, Info>, q: seq<H>, h: H)
    requires Known(info, q) && NoDuplicates(q) && h in q
    ensures Known(info, Without(q, h))
    ensures Charges(info, q) == Charges(info, Without(q, h)) + info[h].charge
  {
    if q[0] != h {
      ChargesWithout(info, q[1..], h);
    }
  }

  lemma {:induction false} ChargesAppend<H>(info: map<H, Info>, q: seq<H>, h: H)
    requires Known(info, q) && h in info
    ensures Charges(info, q + [h]) == Charges(info, q) + info[h].charge
  {
    if q == [] {
      assert [h][1..] == [];
    } else {
      assert (q + [h])[1..] == q[1..] + [h];
      ChargesAppend(info, q[1..], h);
    }
  }

  lemma {:induction false} ChargesExtend<H>(info: map<H, Info>, info': map<H, Info>, q: seq<H>)
    requires Known(info, q) && forall h :: h in info ==> h in info' && info'[h] == info[h]
    ensures Known(info', q) && Charges(info', q) == Charges(info, q)
  {
    if q != [] {
      ChargesExtend(info, info', q[1..]);
    }
  }

  lemma AgedWithout<H>(lru: seq<H>, idleSince: map<H, nat>, clock: nat, h: H)
    requires Aged(lru, idleSince, clock) && NoDuplicates(lru)
    ensures Aged(Without(lru, h), idleSince, clock)
  {
    hide Without, NoDuplicates;
    if h in lru {
      var k :| 0 <= k < |lru| && lru[k] == h;
      WithoutCut(lru, k);
      var w := lru[..k] + lru[k + 1..];
      assert forall i {:trigger w[i]} :: 0 <= i < |w| ==> w[i] == lru[if i < k then i else i + 1];
    } else {
      WithoutAbsent(lru, h);
    }
  }

  // ----- the two lists under Ref, Unref and Detach

  ghost predicate Lists<H>(s: State<H>)
  {
    && OnLists(s.refs, s.cached, s.lru, s.inUse)
    && Charged(s.info, s.lru, s.inUse, s.usage)
  }

  lemma WhichList<H>(s: State<H>, h: H)
    requires Lists(s)
    ensures h in s.cached ==>
            h in s.refs && (if s.refs[h] == 1 then h in s.lru && h !in s.inUse else h in s.inUse && h !in s.lru)
  {}

  lemma CoreLists<H>(s: State<H>)
    requires Inv(s)
    ensures Lists(s)
  {}

  lemma ListedCached<H>(s: State<H>, h: H)
    requires Lists(s)
    ensures h in s.lru || h in s.inUse ==> h in s.cached
  {}

  lemma RefLists<H>(s: State<H>, h: H)
    requires Lists(s) && h in s.refs && s.refs[h] > 0
    ensures Lists(Ref(s, h))
  {
    WithoutMembers(s.lru, h);
    if s.refs[h] == 1 && h in s.cached {
      ChargesWithout(s.info, s.lru, h);
      ChargesAppend(s.info, s.inUse, h);
    }
  }

  lemma UnrefLists<H>(s: State<H>, h: H)
    requires Lists(s) && h in s.refs && s.refs[h] > 0
    requires s.refs[h] == 1 ==> h !in s.cached
    ensures Lists(Unref(s, h))
  {
    WithoutMembers(s.inUse, h);
    if h in s.cached && s.refs[h] == 2 {
      ChargesWithout(s.info, s.inUse, h);
      ChargesAppend(s.info, s.lru, h);
    }
  }

  lemma DetachLists<H>(s: State<H>, h: H)
    requires Lists(s) && h in s.cached && h in s.info
    ensures Lists(Detach(s, h))
  {
    WithoutMembers(s.lru, h);
    WithoutMembers(s.inUse, h);
    if h in s.lru {
      ChargesWithout(s.info, s.lru, h);
      WithoutAbsent(s.inUse, h);
    } else {
      ChargesWithout(s.info, s.inUse, h);
      WithoutAbsent(s.lru, h);
    }
  }

  // ----- every operation keeps the invariant

  lemma LookupInv<H>(s: State<H>, n: Name)
    requires Inv(s)
    ensures Inv(Lookup(s, n))
  {
    if n in s.table {
      var h := s.table[n];
      RefLists(s, h);
      AgedWithout(s.lru, s.idleSince, s.clock, h);
    }
  }

  lemma ReleaseAged<H>(lru: seq<H>, idleSince: map<H, nat>, clock: nat, h: H)
    requires Aged(lru, idleSince, clock) && h !in lru
    ensures Aged(lru + [h], idleSince[h := clock], clock + 1)
  {
    forall x | x in lru + [h]
      ensures x in idleSince[h := clock] && idleSince[h := clock][x] < clock + 1
    {
      assert x == h || x in lru;
    }
  }

  lemma DropLastClient<H>(info: map<H, Info>, refs: map<H, nat>, cached: set<H>, clients: multiset<H>,
                          deleted: seq<H>, h: H)
    requires Counted(info, refs, cached, clients, deleted) && h in clients && refs[h] == 1
    ensures Counted(info, refs - {h}, cached, clients - multiset{h}, deleted + [h])
  {
    forall x | x in clients - multiset{h} ensures x in refs - {h} {}
  }

  lemma DropClient<H>(info: map<H, Info>, refs: map<H, nat>, cached: set<H>, clients: multiset<H>,
                      deleted: seq<H>, h: H)
    requires Counted(info, refs, cached, clients, deleted) && h in clients && refs[h] > 1
    ensures Counted(info, refs[h := refs[h] - 1], cached, clients - multiset{h}, deleted)
  {
    var refs', clients' := refs[h := refs[h] - 1], clients - multiset{h};
    forall x | x in refs'
      ensures refs'[x] == clients'[x] + CacheRef(x in cached) && refs'[x] > 0
    {
      assert x in refs;
    }
  }

  lemma AddClient<H>(info: map<H, Info>, refs: map<H, nat>, cached: set<H>, clients: multiset<H>,
                     deleted: seq<H>, h: H, i: Info, inCache: bool)
    requires Counted(info, refs, cached, clients, deleted) && h !in info && cached <= info.Keys
    ensures Counted(info[h := i], refs[h := 1 + CacheRef(inCache)], if inCache then cached + {h} else cached,
                    clients + multiset{h}, deleted)
  {
    assert h !in clients;
    var refs', clients' := refs[h := 1 + CacheRef(inCache)], clients + multiset{h};
    forall x | x in refs'
      ensures refs'[x] == clients'[x] + CacheRef(x in if inCache then cached + {h} else cached) && refs'[x] > 0
    {
      assert x == h || x in refs;
    }
  }

  lemma HeldHandle<H>(s: State<H>, h: H)
    requires Inv(s) && h in s.clients
    ensures h in s.refs && s.refs[h] > 0
    ensures s.refs[h] == 1 ==> h !in s.cached
    ensures h in s.cached ==> h !in s.lru
  {}

  lemma ReleaseInv<H>(s: State<H>, h: H)
    requires Inv(s) && h in s.clients
    ensures Inv(Release(s, h))
  {
    hide OnLists, Charged, Counted, Indexed, Aged;
    HeldHandle(s, h);
    UnrefLists(s, h);
    if s.refs[h] == 1 {
      DropLastClient(s.info, s.refs, s.cached, s.clients, s.deleted, h);
      LaterClock(s.lru, s.idleSince, s.clock);
    } else {
      DropClient(s.info, s.refs, s.cached, s.clients, s.deleted, h);
      if h in s.cached && s.refs[h] == 2 {
        ReleaseAged(s.lru, s.idleSince, s.clock, h);
      } else {
        LaterClock(s.lru, s.idleSince, s.clock);
      }
    }
  }

  lemma LaterClock<H>(lru: seq<H>, idleSince: map<H, nat>, clock: nat)
    requires Aged(lru, idleSince, clock)
    ensures Aged(lru, idleSince, clock + 1)
  {}

  lemma EraseCounted<H>(s: State<H>, h: H)
    requires Counted(s.info, s.refs, s.cached, s.clients, s.deleted) && h in s.cached && h in s.refs
    requires s.refs[h] > 0 && h in s.info
    ensures var t := FinishErase(s, h); Counted(t.info, t.refs, t.cached, t.clients, t.deleted)
  {
    hide Counted;
    UncacheCounted(s.info, s.refs, s.cached, s.clients, s.deleted, h);
  }

  lemma UncacheCounted<H>(info: map<H, Info>, refs: map<H, nat>, cached: set<H>, clients: multiset<H>,
                          deleted: seq<H>, h: H)
    requires Counted(info, refs, cached, clients, deleted) && h in cached && h in refs
    ensures if refs[h] == 1 then Counted(info, refs - {h}, cached - {h}, clients, deleted + [h])
            else Counted(info, refs[h := refs[h] - 1], cached - {h}, clients, deleted)
  {}

  /** FinishErase restores the invariant once the entry has left the table. */
  lemma FinishEraseInv<H>(s: State<H>, h: H)
    requires Core(s) && h in s.cached && Indexed(s.info, s.cached - {h}, s.table)
    ensures Inv(FinishErase(s, h))
  {
    DetachLists(s, h);
    UnrefLists(Detach(s, h), h);
    EraseCounted(s, h);
    AgedWithout(s.lru, s.idleSince, s.clock, h);
  }

  lemma EraseInv<H>(s: State<H>, n: Name)
    requires Inv(s)
    ensures Inv(Erase(s, n))
  {
    if n in s.table {
      FinishEraseInv(s.(table := s.table - {n}), s.table[n]);
    }
  }

  lemma AdmittedLists<H>(s: State<H>, h: H, i: Info)
    requires Lists(s) && h !in s.refs && h !in s.info && s.refs.Keys <= s.info.Keys
    ensures Lists(Admitted(s, h, i))
  {
    ChargesExtend(s.info, s.info[h := i], s.lru);
    ChargesExtend(s.info, s.info[h := i], s.inUse);
    ChargesAppend(s.info[h := i], s.inUse, h);
    assert forall x :: x in s.cached ==> x != h;
  }

  lemma AdmittedCore<H>(s: State<H>, h: H, i: Info)
    requires Core(s) && h !in s.info
    ensures Core(Admitted(s, h, i))
  {
    AdmittedLists(s, h, i);
    AddClient(s.info, s.refs, s.cached, s.clients, s.deleted, h, i, true);
  }

  lemma AdmittedIndexed<H>(info: map<H, Info>, cached: set<H>, table: map<Name, H>, h: H, i: Info)
    requires Indexed(info, cached, table) && h !in info
    ensures var out := if i.name in table then {table[i.name]} else {};
            Indexed(info[h := i], cached + {h} - out, table[i.name := h])
  {}

  lemma UncachedEntry<H>(s: State<H>, h: H, i: Info)
    requires Inv(s) && h !in s.info
    ensures OnLists(s.refs[h := 1], s.cached, s.lru, s.inUse)
    ensures Charged(s.info[h := i], s.lru, s.inUse, s.usage)
    ensures Indexed(s.info[h := i], s.cached, s.table)
  {
    ChargesExtend(s.info, s.info[h := i], s.lru);
    ChargesExtend(s.info, s.info[h := i], s.inUse);
    assert h !in s.cached;
  }

  lemma CachedKnown<H>(s: State<H>)
    requires Inv(s)
    ensures s.cached <= s.info.Keys && s.refs.Keys <= s.info.Keys && s.cached <= s.refs.Keys
    ensures Known(s.info, s.lru) && Known(s.info, s.inUse)
    ensures forall n :: n in s.table ==> s.table[n] in s.cached
  {}

  lemma AdmitInv<H>(s: State<H>, h: H, i: Info)
    requires Inv(s) && h !in s.info
    ensures Inv(Admit(s, h, i))
  {
    hide OnLists, Charged, Counted, Indexed, Aged;
    CachedKnown(s);
    if s.capacity > 0 {
      AdmittedCore(s, h, i);
      AdmittedIndexed(s.info, s.cached, s.table, h, i);
      var t := Admitted(s, h, i);
      if i.name in s.table {
        FinishEraseInv(t, s.table[i.name]);
      } else {
        assert t.cached == s.cached + {h} - {};
      }
    } else {
      UncachedEntry(s, h, i);
      AddClient(s.info, s.refs, s.cached, s.clients, s.deleted, h, i, false);
    }
  }

  // ----- eviction

  /** `t` is `s` with the `k` oldest idle entries gone, freed in that order. */
  ghost predicate Evicted<H>(s: State<H>, t: State<H>, k: nat)
  {
    && k <= |s.lru| && Known(s.info, s.lru[..k])
    && t.lru == s.lru[k..]
    && t.deleted == s.deleted + s.lru[..k]
    && t.usage == s.usage - Charges(s.info, s.lru[..k])
    && (forall h :: h in s.cached ==> h in t.cached || h in s.lru[..k])
    && (forall h :: h in t.cached ==> h in s.cached && h !in s.lru[..k])
    && (t.info, t.inUse, t.clients, t.capacity, t.idleSince, t.clock) ==
       (s.info, s.inUse, s.clients, s.capacity, s.idleSince, s.clock)
    && (forall n :: n in t.table ==> n in s.table && t.table[n] == s.table[n])
  }

  lemma EvictOldestOne<H>(s: State<H>)
    requires Inv(s) && s.lru != []
    ensures Inv(EvictOldest(s)) && Evicted(s, EvictOldest(s), 1)
  {
    hide Inv, Core, Indexed;
    var h := s.lru[0];
    OldestIdle(s);
    EraseInv(s, s.info[h].name);
    OldestIndexed(s);
    WithoutAbsent(s.inUse, h);
    assert s.lru[..1] == [h];
    ChargesOne(s.info, h);
  }

  lemma OldestIdle<H>(s: State<H>)
    requires Inv(s) && s.lru != []
    ensures var h := s.lru[0];
            h in s.refs && s.refs[h] == 1 && h in s.cached && h in s.info && h !in s.inUse
  {
    assert s.lru[0] in s.lru;
  }

  lemma ChargesOne<H>(info: map<H, Info>, h: H)
    requires h in info
    ensures Known(info, [h]) && Charges(info, [h]) == info[h].charge
  {
    assert [h][1..] == [];
  }

  lemma OldestIndexed<H>(s: State<H>)
    requires Inv(s) && s.lru != []
    ensures s.info[s.lru[0]].name in s.table && s.table[s.info[s.lru[0]].name] == s.lru[0]
  {
    assert s.lru[0] in s.lru;
  }

  lemma EvictedFewer<H>(s: State<H>, t: State<H>)
    requires Evicted(s, t, 1)
    ensures |t.lru| < |s.lru|
  {}

  lemma EvictedThen<H>(s: State<H>, m: State<H>, t: State<H>, k: nat)
    requires s.lru != [] && Evicted(s, m, 1) && Evicted(m, t, k)
    ensures Evicted(s, t, k + 1)
  {
    var h := s.lru[0];
    assert s.lru[..k + 1] == [h] + m.lru[..k] && s.lru[..1] == [h];
    assert s.lru[..k + 1][1..] == m.lru[..k];
    assert [h][1..] == [];
    assert Charges(s.info, [h]) == s.info[h].charge;
    forall x | x in s.lru[..k + 1] ensures x in s.info {
      assert x == h || x in m.lru[..k];
    }
  }

  lemma EvictedNone<H>(s: State<H>)
    ensures Evicted(s, s, 0)
  {
    assert s.lru[..0] == [] && s.lru[0..] == s.lru;
  }

  /** tableCache.h:258-265 */
  function Evict<H(==)>(s: State<H>): State<H>
    requires Inv(s)
    decreases |s.lru|
  {
    if s.usage > s.capacity && s.lru != [] then
      EvictOldestOne(s);
      Evict(EvictOldest(s))
    else s
  }

  /** Each of the first `k` entries of lru goes while the cache is still over capacity. */
  ghost predicate NeededRoom<H>(s: State<H>, k: nat)
  {
    k <= |s.lru| && forall j :: 0 <= j < k ==>
        Known(s.info, s.lru[..j]) && s.usage - Charges(s.info, s.lru[..j]) > s.capacity
  }

  lemma NeededRoomThen<H>(s: State<H>, m: State<H>, k: nat)
    requires s.lru != [] && s.usage > s.capacity && Evicted(s, m, 1) && NeededRoom(m, k)
    ensures NeededRoom(s, k + 1)
  {
    var h := s.lru[0];
    assert s.lru[..1] == [h] && [h][1..] == [];
    assert Charges(s.info, [h]) == s.info[h].charge;
    forall j | 0 <= j < k + 1
      ensures Known(s.info, s.lru[..j]) && s.usage - Charges(s.info, s.lru[..j]) > s.capacity
    {
      if j > 0 {
        assert s.lru[..j] == [h] + m.lru[..j - 1];
        assert s.lru[..j][1..] == m.lru[..j - 1];
      }
    }
  }

  /** Eviction frees idle entries only, least recently released first, each one only while the
      cache is over its capacity, and stops when it is not or nothing idle is left. */
  lemma {:induction false} EvictPrefix<H>(s: State<H>)
    requires Inv(s)
    ensures Inv(Evict(s))
    ensures var t := Evict(s);
            var k := |s.lru| - |t.lru|;
            && k >= 0 && Evicted(s, t, k) && NeededRoom(s, k)
            && (t.usage <= t.capacity || t.lru == [])
    decreases |s.lru|
  {
    hide Inv, Core, Indexed, Charges, NeededRoom, EvictOldest;
    if s.usage > s.capacity && s.lru != [] {
      EvictOldestOne(s);
      var m := EvictOldest(s);
      EvictPrefix(m);
      var k := |m.lru| - |Evict(m).lru|;
      EvictedThen(s, m, Evict(m), k);
      NeededRoomThen(s, m, k);
    } else {
      EvictedNone(s);
      NoRoomNeeded(s);
    }
  }

  lemma NoRoomNeeded<H>(s: State<H>)
    ensures NeededRoom(s, 0)
  {}

  /** tableCache.h:288-298 */
  function Prune<H(==)>(s: State<H>): State<H>
    requires Inv(s)
    decreases |s.lru|
  {
    if s.lru != [] then
      EvictOldestOne(s);
      Prune(EvictOldest(s))
    else s
  }

  /** Prune frees every idle entry and nothing else. */
  lemma {:induction false} PruneAll<H>(s: State<H>)
    requires Inv(s)
    ensures Inv(Prune(s)) && Evicted(s, Prune(s), |s.lru|)
    decreases |s.lru|
  {
    hide Inv;
    if s.lru != [] {
      EvictOldestOne(s);
      var m := EvictOldest(s);
      PruneAll(m);
      EvictedThen(s, m, Prune(m), |m.lru|);
    } else {
      EvictedNone(s);
    }
  }

  /** tableCache.h:231-268 */
  function Insert<H(==)>(s: State<H>, h: H, i: Info): State<H>
    requires Inv(s) && h !in s.info
  {
    AdmitInv(s, h, i);
    Evict(Admit(s, h, i))
  }

  lemma InsertInv<H>(s: State<H>, h: H, i: Info)
    requires Inv(s) && h !in s.info
    ensures Inv(Insert(s, h, i))
  {
    AdmitInv(s, h, i);
    EvictPrefix(Admit(s, h, i));
  }

  // ----- whole runs

  datatype Op<!H(==)> =
    | OpSetCapacity(capacity: nat)
    | OpInsert(handle: H, i: Info)
    | OpLookup(name: Name)
    | OpRelease(handle: H)
    | OpErase(name: Name)
    | OpPrune

  /** malloc returns fresh handles; clients release only what they hold. */
  ghost predicate Legal<H>(s: State<H>, op: Op<H>)
  {
    match op
    case OpInsert(h, _) => h !in s.info
    case OpRelease(h) => h in s.clients
    case _ => true
  }

  ghost function Step<H>(s: State<H>, op: Op<H>): State<H>
    requires Inv(s) && Legal(s, op)
  {
    match op
    case OpSetCapacity(c) => s.(capacity := c)
    case OpInsert(h, i) => Insert(s, h, i)
    case OpLookup(n) => Lookup(s, n)
    case OpRelease(h) => Release(s, h)
    case OpErase(n) => Erase(s, n)
    case OpPrune => Prune(s)
  }

  lemma StepInv<H>(s: State<H>, op: Op<H>)
    requires Inv(s) && Legal(s, op)
    ensures Inv(Step(s, op))
  {
    match op
    case OpSetCapacity(c) =>
    case OpInsert(h, i) => InsertInv(s, h, i);
    case OpLookup(n) => LookupInv(s, n);
    case OpRelease(h) => ReleaseInv(s, h);
    case OpErase(n) => EraseInv(s, n);
    case OpPrune => PruneAll(s);
  }

  ghost predicate LegalRun<H>(s: State<H>, ops: seq<Op<H>>)
    requires Inv(s)
    decreases |ops|
  {
    if ops == [] then true
    else Legal(s, ops[0]) && (StepInv(s, ops[0]); LegalRun(Step(s, ops[0]), ops[1..]))
  }

  ghost function Run<H>(s: State<H>, ops: seq<Op<H>>): State<H>
    requires Inv(s) && LegalRun(s, ops)
    decreases |ops|
  {
    if ops == [] then s else (StepInv(s, ops[0]); Run(Step(s, ops[0]), ops[1..]))
  }

  /** Every reachable state satisfies the invariant. */
  lemma {:induction false} RunInv<H>(s: State<H>, ops: seq<Op<H>>)
    requires Inv(s) && LegalRun(s, ops)
    ensures Inv(Run(s, ops))
    decreases |ops|
  {
    hide Inv, Step;
    if ops != [] {
      StepInv(s, ops[0]);
      RunInv(Step(s, ops[0]), ops[1..]);
    }
  }

  /** An entry is freed exactly when no client holds it and the cache does not keep it. */
  lemma FreedExactly<H>(s: State<H>, h: H)
    requires Inv(s) && h in s.info
    ensures h in s.deleted <==> h !in s.clients && h !in s.cached
  {}

  /** What a step may do to clients, allocation history, deleter log and table; the capacity stays. */
  ghost predicate Effect<H>(s: State<H>, t: State<H>, clients: multiset<H>, info: map<H, Info>, table: map<Name, H>)
  {
    && t.capacity == s.capacity
    && t.clients == clients && t.info == info && s.deleted <= t.deleted && Follows(t.table, table)
  }

  /** Every binding of `table` is also one of `m`. */
  ghost predicate Follows<H>(table: map<Name, H>, m: map<Name, H>)
  {
    forall n :: n in table ==> n in m && m[n] == table[n]
  }

  function Named<H(==)>(table: map<Name, H>, n: Name): set<H>
  {
    if n in table then {table[n]} else {}
  }

  /** A new entry takes its name from whatever had it, which leaves the cache, and nothing else
      changes; with no capacity nothing in the cache changes. */
  lemma AdmitEffect<H>(s: State<H>, h: H, i: Info)
    requires Inv(s) && h !in s.info
    ensures Effect(s, Admit(s, h, i), s.clients + multiset{h}, s.info[h := i],
                   if s.capacity > 0 then s.table[i.name := h] else s.table)
    ensures Admit(s, h, i).table == if s.capacity > 0 then s.table[i.name := h] else s.table
    ensures Admit(s, h, i).cached ==
            if s.capacity > 0 then s.cached + {h} - Named(s.table, i.name) else s.cached
  {
    hide OnLists, Charged, Counted, Indexed, Aged;
    CachedKnown(s);
  }

  lemma EvictedEffect<H>(s: State<H>, m: State<H>, t: State<H>, k: nat, clients: multiset<H>, info: map<H, Info>,
                         table: map<Name, H>)
    requires Effect(s, m, clients, info, table) && Evicted(m, t, k)
    ensures Effect(s, t, clients, info, table)
  {}

  lemma InsertEffect<H>(s: State<H>, h: H, i: Info)
    requires Inv(s) && h !in s.info
    ensures Effect(s, Insert(s, h, i), s.clients + multiset{h}, s.info[h := i],
                   if s.capacity > 0 then s.table[i.name := h] else s.table)
  {
    hide Inv, Evicted, NeededRoom, Effect, Admit;
    AdmitInv(s, h, i);
    AdmitEffect(s, h, i);
    var m := Admit(s, h, i);
    EvictPrefix(m);
    EvictedEffect(s, m, Evict(m), |m.lru| - |Evict(m).lru|, s.clients + multiset{h}, s.info[h := i],
                  if s.capacity > 0 then s.table[i.name := h] else s.table);
  }

  lemma PruneEffect<H>(s: State<H>)
    requires Inv(s)
    ensures Effect(s, Prune(s), s.clients, s.info, s.table)
  {
    hide Inv;
    PruneAll(s);
  }

  /** Erase takes out what the name stands for, and nothing else. */
  lemma EraseEffect<H>(s: State<H>, n: Name)
    requires Inv(s)
    ensures Effect(s, Erase(s, n), s.clients, s.info, s.table - {n})
    ensures Erase(s, n).table == s.table - {n} && Erase(s, n).cached == s.cached - Named(s.table, n)
  {
    hide OnLists, Charged, Counted, Indexed, Aged;
    CachedKnown(s);
  }

  /** Lookup gives the client one more handle on what the name stands for, and takes nothing out. */
  lemma LookupEffect<H>(s: State<H>, n: Name)
    requires Inv(s)
    ensures Lookup(s, n).table == s.table && Lookup(s, n).cached == s.cached
    ensures Effect(s, Lookup(s, n), s.clients + if n in s.table then multiset{s.table[n]} else multiset{}, s.info,
                   s.table)
  {
    hide OnLists, Charged, Counted, Indexed, Aged;
    CachedKnown(s);
  }

  /** Release takes one handle from the client, and nothing out of the cache. */
  lemma ReleaseEffect<H>(s: State<H>, h: H)
    requires Inv(s) && h in s.clients
    ensures Release(s, h).table == s.table && Release(s, h).cached == s.cached
    ensures Effect(s, Release(s, h), s.clients - multiset{h}, s.info, s.table)
  {
    hide OnLists, Charged, Counted, Indexed, Aged;
    HeldHandle(s, h);
  }

  /** The deleter log only grows, and no entry is forgotten. */
  lemma StepHistory<H>(s: State<H>, op: Op<H>)
    requires Inv(s) && Legal(s, op)
    ensures s.deleted <= Step(s, op).deleted && s.info.Keys <= Step(s, op).info.Keys
  {
    hide Inv, Insert, Prune, Lookup, Release, Erase;
    match op
    case OpSetCapacity(c) =>
    case OpInsert(h, i) => InsertEffect(s, h, i);
    case OpLookup(n) => LookupEffect(s, n);
    case OpRelease(h) => ReleaseEffect(s, h);
    case OpErase(n) => EraseEffect(s, n);
    case OpPrune => PruneEffect(s);
  }

  /** Over any run the deleter is called at most once for an entry, and never taken back. */
  lemma {:induction false} DeleterAtMostOnce<H>(s: State<H>, ops: seq<Op<H>>)
    requires Inv(s) && LegalRun(s, ops)
    ensures var t := Run(s, ops);
            && s.deleted <= t.deleted && NoDuplicates(t.deleted)
            && (forall h :: h in t.info ==> (h in t.deleted <==> h !in t.clients && h !in t.cached))
    decreases |ops|
  {
    RunInv(s, ops);
    var t := Run(s, ops);
    forall h | h in t.info
      ensures h in t.deleted <==> h !in t.clients && h !in t.cached
    {
      FreedExactly(t, h);
    }
    assert NoDuplicates(t.deleted);
    hide Inv, Step;
    if ops != [] {
      StepInv(s, ops[0]);
      StepHistory(s, ops[0]);
      DeleterAtMostOnce(Step(s, ops[0]), ops[1..]);
    }
  }

  lemma StepHolds<H>(s: State<H>, op: Op<H>, h: H)
    requires Inv(s) && Legal(s, op) && h in s.clients && op != OpRelease(h)
    ensures h in Step(s, op).clients
  {
    hide Inv, Insert, Prune, Lookup, Release, Erase;
    match op
    case OpSetCapacity(c) =>
    case OpInsert(g, i) => InsertEffect(s, g, i);
    case OpLookup(n) => LookupEffect(s, n);
    case OpRelease(g) => ReleaseEffect(s, g);
    case OpErase(n) => EraseEffect(s, n);
    case OpPrune => PruneEffect(s);
  }

  /** Whatever else happens, erasure and eviction included, a held entry stays alive. */
  lemma {:induction false} HeldUntilReleased<H>(s: State<H>, ops: seq<Op<H>>, h: H)
    requires Inv(s) && LegalRun(s, ops) && h in s.clients && OpRelease(h) !in ops
    ensures h in Run(s, ops).clients && h in Run(s, ops).refs && h !in Run(s, ops).deleted
    decreases |ops|
  {
    if ops != [] {
      hide Inv, Step;
      StepInv(s, ops[0]);
      StepHolds(s, ops[0], h);
      HeldUntilReleased(Step(s, ops[0]), ops[1..], h);
    }
  }

  // ----- what Lookup finds

  /** Bookkeeping beside the cache: the last insert under each name that was made with caching on
      and not erased since. */
  ghost function LatestStep<H>(s: State<H>, op: Op<H>, m: map<Name, H>): map<Name, H>
  {
    match op
    case OpInsert(h, i) => if s.capacity > 0 then m[i.name := h] else m
    case OpErase(n) => m - {n}
    case _ => m
  }

  ghost function Latest<H>(s: State<H>, ops: seq<Op<H>>, m: map<Name, H>): map<Name, H>
    requires Inv(s) && LegalRun(s, ops)
    decreases |ops|
  {
    if ops == [] then m
    else (StepInv(s, ops[0]); Latest(Step(s, ops[0]), ops[1..], LatestStep(s, ops[0], m)))
  }

  lemma StepFollows<H>(s: State<H>, op: Op<H>, m: map<Name, H>)
    requires Inv(s) && Legal(s, op) && Follows(s.table, m)
    ensures Follows(Step(s, op).table, LatestStep(s, op, m))
  {
    hide Inv, Insert, Prune, Lookup, Release, Erase;
    match op
    case OpSetCapacity(c) =>
    case OpInsert(h, i) => InsertEffect(s, h, i);
    case OpLookup(n) => LookupEffect(s, n);
    case OpRelease(g) => ReleaseEffect(s, g);
    case OpErase(n) => EraseEffect(s, n);
    case OpPrune => PruneEffect(s);
  }

  /** A lookup that succeeds returns the latest insert made with caching on: never an entry replaced
      or erased. */
  lemma {:induction false} LookupIsLatestCached<H>(s: State<H>, ops: seq<Op<H>>, m: map<Name, H>)
    requires Inv(s) && LegalRun(s, ops) && Follows(s.table, m)
    ensures Follows(Run(s, ops).table, Latest(s, ops, m))
    decreases |ops|
  {
    hide Inv, Step;
    if ops != [] {
      StepInv(s, ops[0]);
      StepFollows(s, ops[0], m);
      LookupIsLatestCached(Step(s, ops[0]), ops[1..], LatestStep(s, ops[0], m));
    }
  }

  /** A cache of capacity `c` whose only entry `a` is still held by the client that inserted it. */
  function OneHeld<H(==)>(c: nat, a: H, i: Info): State<H>
  {
    State(c, i.charge, map[a := i], map[a := 2], {a}, map[i.name := a], [], [a], multiset{a}, [], map[], 0)
  }

  lemma FirstInsert<H>(a: H, i: Info)
    ensures var s := Init<H>().(capacity := 1); Inv(s) && Insert(s, a, i) == OneHeld(1, a, i)
  {
    var s := Init<H>().(capacity := 1);
    assert Inv(s);
    AdmitInv(s, a, i);
    assert Admit(s, a, i) == OneHeld(1, a, i);
  }

  /** SetCapacity(1), Insert, SetCapacity(0). */
  lemma HeldAcrossZero<H>(a: H, i: Info)
    ensures var ops := [OpSetCapacity(1), OpInsert(a, i), OpSetCapacity(0)];
            && Inv(Init<H>()) && LegalRun(Init(), ops)
            && Run(Init(), ops) == OneHeld(0, a, i) && Inv(OneHeld(0, a, i))
  {
    var ops := [OpSetCapacity(1), OpInsert(a, i), OpSetCapacity(0)];
    FirstInsert(a, i);
    assert Inv(Init<H>());
    var s1, s2, s3 := Init<H>().(capacity := 1), OneHeld(1, a, i), OneHeld(0, a, i);
    InsertInv(s1, a, i);
    assert Inv(s3) by { StepInv(s2, OpSetCapacity(0)); }
    hide Inv, Insert;
    assert ops[1..] == [ops[1], ops[2]] && ops[1..][1..] == [ops[2]] && ops[1..][1..][1..] == [];
    assert LegalRun(s2, [ops[2]]) && Run(s2, [ops[2]]) == s3;
    assert LegalRun(s1, [ops[1], ops[2]]) && Run(s1, [ops[1], ops[2]]) == s3;
  }

  /** Inserting with capacity 0 does not replace what the table already holds: a client that
      keeps `a` across SetCapacity(0) still finds it under the name `b` was inserted with later. */
  lemma InsertWithoutCapacityKeepsOld<H>(a: H, b: H, i: Info)
    requires a != b
    ensures var ops := [OpSetCapacity(1), OpInsert(a, i), OpSetCapacity(0)];
            && Inv(Init<H>()) && LegalRun(Init(), ops) && Legal(Run(Init(), ops), OpInsert(b, i))
            && Inv(Run(Init(), ops))
            && var t := Step(Run(Init(), ops), OpInsert(b, i)); i.name in t.table && t.table[i.name] == a
  {
    hide Inv, Insert, Run, LegalRun;
    HeldAcrossZero(a, i);
    var s := OneHeld(0, a, i);
    AdmitInv(s, b, i);
    assert Insert(s, b, i) == Admit(s, b, i) by { NothingIdle(s, b, i); }
  }

  // ----- exactly when an insert hides what the name stood for

  /** Eviction from here gets as far as `e`: it is idle, and without the entries released before it
      the cache is still over capacity. */
  ghost predicate Reached<H>(s: State<H>, e: H)
  {
    exists p :: 0 <= p < |s.lru| && s.lru[p] == e && OverWithout(s, p)
  }

  ghost predicate OverWithout<H>(s: State<H>, p: nat)
  {
    p <= |s.lru| && Known(s.info, s.lru[..p]) && s.usage - Charges(s.info, s.lru[..p]) > s.capacity
  }

  lemma {:induction false} ChargesPrefix<H>(info: map<H, Info>, q: seq<H>, j: nat, p: nat)
    requires j <= p <= |q| && Known(info, q[..p])
    ensures Known(info, q[..j]) && Charges(info, q[..j]) <= Charges(info, q[..p])
  {
    assert forall h :: h in q[..j] ==> h in q[..p];
    if j > 0 {
      assert q[..j][1..] == q[1..][..j - 1] && q[..p][1..] == q[1..][..p - 1];
      ChargesPrefix(info, q[1..], j - 1, p - 1);
    }
  }

  lemma EvictReaches<H>(s: State<H>, p: nat)
    requires Inv(s) && p < |s.lru| && Known(s.info, s.lru[..p])
    ensures s.lru[p] in Evict(s).cached <==> !OverWithout(s, p)
  {
    hide Inv, Evict;
    EvictPrefix(s);
    DistinctIdle(s, p);
    var t := Evict(s);
    var k := |s.lru| - |t.lru|;
    assert k <= |s.lru| && NeededRoom(s, k);
    if k <= p {
      ChargesPrefix(s.info, s.lru, k, p);
      assert s.lru[p] !in s.lru[..k];
    } else {
      assert s.lru[..k][p] == s.lru[p];
    }
  }

  lemma DistinctIdle<H>(s: State<H>, p: nat)
    requires Inv(s) && p < |s.lru|
    ensures s.lru[p] in s.cached && forall k :: 0 <= k <= p ==> s.lru[p] !in s.lru[..k]
  {
    assert s.lru[p] in s.lru;
  }

  lemma HeldStays<H>(s: State<H>, e: H)
    requires Inv(s) && e in s.cached && e !in s.lru
    ensures e in Evict(s).cached
  {
    hide Inv, Evict;
    EvictPrefix(s);
  }

  lemma NamedCached<H>(s: State<H>, e: H)
    requires Inv(s) && e in s.info
    ensures e in s.cached ==> s.info[e].name in s.table && s.table[s.info[e].name] == e
    ensures s.info[e].name in s.table && s.table[s.info[e].name] == e ==> e in s.cached
  {}

  lemma TableEntry<H>(s: State<H>, n: Name)
    requires Inv(s) && n in s.table
    ensures s.table[n] in s.cached && s.table[n] in s.info && s.info[s.table[n]].name == n && Known(s.info, s.lru)
  {}

  /** Eviction leaves what a name stands for in place if and only if it does not get as far. */
  lemma EvictSpares<H>(s: State<H>, n: Name)
    requires Inv(s) && n in s.table
    ensures n in Evict(s).table && Evict(s).table[n] == s.table[n] <==> !Reached(s, s.table[n])
    ensures n in Evict(s).table <==> !Reached(s, s.table[n])
  {
    hide Inv, Evict, OverWithout;
    var e, t := s.table[n], Evict(s);
    TableEntry(s, n);
    EvictPrefix(s);
    NamedCached(t, e);
    if e in s.lru {
      var p :| 0 <= p < |s.lru| && s.lru[p] == e;
      PrefixKnown(s, p);
      EvictReaches(s, p);
      forall p' | 0 <= p' < |s.lru| && s.lru[p'] == e ensures p' == p {
        OncePerList(s, p, p');
      }
    } else {
      HeldStays(s, e);
    }
  }

  lemma PrefixKnown<H>(s: State<H>, p: nat)
    requires Known(s.info, s.lru) && p <= |s.lru|
    ensures Known(s.info, s.lru[..p])
  {}

  /** With no capacity, what the name stood for goes if and only if eviction gets as far. */
  lemma UncachedInsert<H>(s: State<H>, h: H, i: Info)
    requires Inv(s) && h !in s.info && s.capacity == 0 && i.name in s.table
    ensures i.name in Insert(s, h, i).table <==> !Reached(s, s.table[i.name])
  {
    hide Inv, Evict, Reached;
    var e, m := s.table[i.name], Admit(s, h, i);
    AdmitInv(s, h, i);
    EvictSpares(m, i.name);
    SameReached(s, m, h, i, e);
  }

  lemma SameReached<H>(s: State<H>, m: State<H>, h: H, i: Info, e: H)
    requires Inv(s) && h !in s.info && m.info == s.info[h := i]
    requires m.lru == s.lru && m.usage == s.usage && m.capacity == s.capacity
    ensures Reached(m, e) <==> Reached(s, e)
  {
    hide OverWithout, OnLists, Counted, Aged, Indexed;
    forall p | 0 <= p < |s.lru| ensures OverWithout(m, p) <==> OverWithout(s, p) {
      SameOver(s, m, h, i, p);
    }
  }

  lemma OncePerList<H>(s: State<H>, p: nat, p': nat)
    requires Inv(s) && p < |s.lru| && p' < |s.lru| && s.lru[p] == s.lru[p']
    ensures p == p'
  {}

  lemma SameOver<H>(s: State<H>, m: State<H>, h: H, i: Info, p: nat)
    requires Known(s.info, s.lru) && h !in s.info && m.info == s.info[h := i] && p <= |s.lru|
    requires m.lru == s.lru && m.usage == s.usage && m.capacity == s.capacity
    ensures Known(m.info, m.lru[..p]) && (OverWithout(m, p) <==> OverWithout(s, p))
  {
    ChargesPrefix(s.info, s.lru, p, |s.lru|);
    assert s.lru[..|s.lru|] == s.lru;
    ChargesExtend(s.info, m.info, s.lru[..p]);
  }

  /** After an insert the name stands for the new entry or for nothing, if and only if caching was
      on, or the name stood for nothing before, or what it stood for was idle and in the way; and for the
      new entry, if and only if caching was on. */
  lemma InsertReplacesExactly<H>(s: State<H>, h: H, i: Info)
    requires Inv(s) && h !in s.info
    ensures (i.name in Insert(s, h, i).table ==> Insert(s, h, i).table[i.name] == h)
            <==> (s.capacity > 0 || i.name !in s.table || Reached(s, s.table[i.name]))
    ensures i.name in Insert(s, h, i).table && Insert(s, h, i).table[i.name] == h <==> s.capacity > 0
  {
    hide Inv, Insert, Reached;
    InsertEffect(s, h, i);
    if s.capacity > 0 {
      InsertBinds(s, h, i);
    } else {
      FreshUnnamed(s, h);
    }
    if s.capacity == 0 && i.name in s.table {
      UncachedInsert(s, h, i);
      TableEntry(s, i.name);
    }
  }

  lemma FreshUnnamed<H>(s: State<H>, h: H)
    requires Inv(s) && h !in s.info
    ensures forall n :: n in s.table ==> s.table[n] != h
  {}

  lemma NothingIdle<H>(s: State<H>, h: H, i: Info)
    requires Inv(s) && h !in s.info && Inv(Admit(s, h, i)) && Admit(s, h, i).lru == []
    ensures Insert(s, h, i) == Admit(s, h, i)
  {
    hide Inv;
  }

  // ----- over whole runs, with every insert counted

  /** The latest insert under each name, unless erased since. */
  ghost function LastStep<H>(op: Op<H>, m: map<Name, H>): map<Name, H>
  {
    match op
    case OpInsert(h, i) => m[i.name := h]
    case OpErase(n) => m - {n}
    case _ => m
  }

  ghost function Last<H>(ops: seq<Op<H>>, m: map<Name, H>): map<Name, H>
  {
    if ops == [] then m else LastStep(ops[|ops| - 1], Last(ops[..|ops| - 1], m))
  }

  /** What InsertReplacesExactly asks of the state in which an insert is made. */
  ghost predicate Replaces<H>(s: State<H>, op: Op<H>)
  {
    op.OpInsert? ==> s.capacity > 0 || op.i.name !in s.table || Reached(s, s.table[op.i.name])
  }

  lemma StepFollowsExactly<H>(s: State<H>, op: Op<H>, m: map<Name, H>)
    requires Inv(s) && Legal(s, op) && Follows(s.table, m)
    ensures Follows(Step(s, op).table, LastStep(op, m)) <==> Replaces(s, op)
  {
    hide Inv, Insert, Prune, Lookup, Release, Erase, Reached;
    match op
    case OpInsert(h, i) =>
      InsertEffect(s, h, i);
      InsertReplacesExactly(s, h, i);
    case _ => StepFollows(s, op, m);
  }

  lemma {:induction false} PrefixRun<H>(s: State<H>, ops: seq<Op<H>>, k: nat)
    requires Inv(s) && LegalRun(s, ops) && k <= |ops|
    ensures LegalRun(s, ops[..k]) && Inv(Run(s, ops[..k]))
    ensures k < |ops| ==>
              && Legal(Run(s, ops[..k]), ops[k]) && LegalRun(s, ops[..k + 1])
              && Run(s, ops[..k + 1]) == Step(Run(s, ops[..k]), ops[k])
    decreases k
  {
    hide Inv, Step, Legal;
    if k > 0 {
      StepInv(s, ops[0]);
      assert ops[..k][1..] == ops[1..][..k - 1];
      PrefixRun(Step(s, ops[0]), ops[1..], k - 1);
      if k < |ops| {
        assert ops[..k + 1][1..] == ops[1..][..k];
      }
    } else if ops != [] {
      StepInv(s, ops[0]);
      assert ops[..1][1..] == [] && ops[..0] == [];
    }
  }

  /** At every point of the run, every name in the table stands for its latest insert. */
  ghost predicate AlwaysLatest<H>(s: State<H>, ops: seq<Op<H>>, m: map<Name, H>)
    requires Inv(s) && LegalRun(s, ops)
  {
    forall k :: 0 <= k <= |ops| ==> LatestAt(s, ops, m, k)
  }

  ghost predicate LatestAt<H>(s: State<H>, ops: seq<Op<H>>, m: map<Name, H>, k: nat)
    requires Inv(s) && LegalRun(s, ops) && k <= |ops|
  {
    PrefixRun(s, ops, k);
    Follows(Run(s, ops[..k]).table, Last(ops[..k], m))
  }

  /** Every insert of the run is made in a state in which it replaces what its name stood for. */
  ghost predicate AlwaysReplaces<H>(s: State<H>, ops: seq<Op<H>>)
    requires Inv(s) && LegalRun(s, ops)
  {
    forall k :: 0 <= k < |ops| ==> ReplacesAt(s, ops, k)
  }

  ghost predicate ReplacesAt<H>(s: State<H>, ops: seq<Op<H>>, k: nat)
    requires Inv(s) && LegalRun(s, ops) && k < |ops|
  {
    PrefixRun(s, ops, k);
    Replaces(Run(s, ops[..k]), ops[k])
  }

  lemma NextLatest<H>(s: State<H>, ops: seq<Op<H>>, m: map<Name, H>, k: nat)
    requires Inv(s) && LegalRun(s, ops) && k < |ops| && LatestAt(s, ops, m, k)
    ensures LatestAt(s, ops, m, k + 1) <==> ReplacesAt(s, ops, k)
  {
    hide Inv, Step, Legal, Replaces, Follows, LegalRun, Run;
    PrefixRun(s, ops, k);
    PrefixRun(s, ops, k + 1);
    StepFollowsExactly(Run(s, ops[..k]), ops[k], Last(ops[..k], m));
    assert ops[..k + 1][..k] == ops[..k];
  }

  /** Over any run, counting every insert: Lookup returns nothing or the real latest insert, at every
      point, if and only if each insert found the capacity positive, its name unused, or the entry of
      that name idle and within reach of the eviction. */
  lemma LookupIsLatest<H>(s: State<H>, ops: seq<Op<H>>, m: map<Name, H>)
    requires Inv(s) && LegalRun(s, ops) && Follows(s.table, m)
    ensures AlwaysLatest(s, ops, m) <==> AlwaysReplaces(s, ops)
  {
    hide Inv, LatestAt, ReplacesAt, LegalRun, Follows;
    StartLatest(s, ops, m);
    if AlwaysReplaces(s, ops) {
      for k := 0 to |ops|
        invariant forall j :: 0 <= j <= k ==> LatestAt(s, ops, m, j)
      {
        NextLatest(s, ops, m, k);
      }
    }
    if AlwaysLatest(s, ops, m) {
      forall k | 0 <= k < |ops| ensures ReplacesAt(s, ops, k) {
        assert LatestAt(s, ops, m, k + 1);
        NextLatest(s, ops, m, k);
      }
    }
  }

  lemma StartLatest<H>(s: State<H>, ops: seq<Op<H>>, m: map<Name, H>)
    requires Inv(s) && LegalRun(s, ops) && Follows(s.table, m)
    ensures LatestAt(s, ops, m, 0)
  {
    hide Inv;
    assert ops[..0] == [];
  }

  // ----- what an insert binds, and until when

  /** An insert made with caching on can be found under its name: its own eviction never takes it. */
  lemma InsertBinds<H>(s: State<H>, h: H, i: Info)
    requires Inv(s) && h !in s.info && s.capacity > 0
    ensures i.name in Insert(s, h, i).table && Insert(s, h, i).table[i.name] == h
  {
    hide Inv, Evict, Reached;
    var m := Admit(s, h, i);
    AdmitInv(s, h, i);
    AdmitEffect(s, h, i);
    AdmittedInUse(s, h, i);
    EvictSpares(m, i.name);
    NotReached(m, h);
  }

  lemma AdmittedInUse<H>(s: State<H>, h: H, i: Info)
    requires Inv(s) && h !in s.info && s.capacity > 0
    ensures h !in Admit(s, h, i).lru
  {
    AdmitInv(s, h, i);
    var m := Admit(s, h, i);
    hide Charged, Indexed, Aged;
    CachedKnown(s);
    AdmitEffect(s, h, i);
    assert h in m.clients;
  }

  lemma NotReached<H>(s: State<H>, e: H)
    requires e !in s.lru
    ensures !Reached(s, e)
  {}

  predicate Bound<H(==)>(s: State<H>, n: Name, h: H)
  {
    n in s.table && s.table[n] == h
  }

  /** An insert of `h` under `n` with caching on. */
  ghost predicate Binds<H>(s: State<H>, op: Op<H>, n: Name, h: H)
  {
    op.OpInsert? && s.capacity > 0 && op.i.name == n && op.handle == h
  }

  /** What takes away what `n` stands for: its erasure, an insert with caching on that replaces it, or an
      eviction or a Prune that finds it idle and gets as far. */
  ghost predicate Unbinds<H>(s: State<H>, op: Op<H>, n: Name)
    requires Inv(s) && Legal(s, op)
  {
    && n in s.table
    && match op
       case OpErase(m) => m == n
       case OpInsert(h, i) => (s.capacity > 0 && i.name == n) || Reached(Admit(s, h, i), s.table[n])
       case OpPrune => s.table[n] in s.lru
       case _ => false
  }

  lemma InsertSpares<H>(s: State<H>, h: H, i: Info, n: Name)
    requires Inv(s) && h !in s.info && n in s.table && (s.capacity > 0 ==> i.name != n)
    ensures Bound(Insert(s, h, i), n, s.table[n]) <==> !Reached(Admit(s, h, i), s.table[n])
    ensures n in Insert(s, h, i).table <==> !Reached(Admit(s, h, i), s.table[n])
  {
    hide Inv, Evict, Reached, Admit;
    AdmitInv(s, h, i);
    AdmitEffect(s, h, i);
    EvictSpares(Admit(s, h, i), n);
  }

  lemma PruneSpares<H>(s: State<H>, n: Name)
    requires Inv(s) && n in s.table
    ensures n in Prune(s).table <==> s.table[n] !in s.lru
    ensures n in Prune(s).table ==> Prune(s).table[n] == s.table[n]
  {
    hide Inv;
    PruneAll(s);
    TableEntry(s, n);
    NamedCached(Prune(s), s.table[n]);
    assert s.lru[..|s.lru|] == s.lru;
  }

  /** The table after a step, binding by binding. */
  lemma StepBindings<H>(s: State<H>, op: Op<H>, n: Name, h: H)
    requires Inv(s) && Legal(s, op)
    ensures Bound(Step(s, op), n, h) <==> Binds(s, op, n, h) || (Bound(s, n, h) && !Unbinds(s, op, n))
  {
    hide Inv, Insert, Prune, Lookup, Release, Erase, Reached, Admit;
    match op
    case OpSetCapacity(c) =>
    case OpInsert(g, i) =>
      InsertEffect(s, g, i);
      if s.capacity > 0 && i.name == n {
        InsertBinds(s, g, i);
      } else if n in s.table {
        InsertSpares(s, g, i, n);
      }
    case OpLookup(m) => LookupEffect(s, m);
    case OpRelease(g) => ReleaseEffect(s, g);
    case OpErase(m) => EraseEffect(s, m);
    case OpPrune =>
      PruneEffect(s);
      if n in s.table {
        PruneSpares(s, n);
      }
  }

  // ----- the same over whole runs

  ghost predicate BoundAt<H>(s: State<H>, ops: seq<Op<H>>, k: nat, n: Name, h: H)
    requires Inv(s) && LegalRun(s, ops) && k <= |ops|
  {
    PrefixRun(s, ops, k);
    Bound(Run(s, ops[..k]), n, h)
  }

  ghost predicate BindsAt<H>(s: State<H>, ops: seq<Op<H>>, k: nat, n: Name, h: H)
    requires Inv(s) && LegalRun(s, ops) && k < |ops|
  {
    PrefixRun(s, ops, k);
    Binds(Run(s, ops[..k]), ops[k], n, h)
  }

  ghost predicate UnbindsAt<H>(s: State<H>, ops: seq<Op<H>>, k: nat, n: Name)
    requires Inv(s) && LegalRun(s, ops) && k < |ops|
  {
    PrefixRun(s, ops, k);
    Unbinds(Run(s, ops[..k]), ops[k], n)
  }

  /** None of the operations from `k` to `m` takes away what `n` stands for. */
  ghost predicate KeptFrom<H>(s: State<H>, ops: seq<Op<H>>, k: nat, m: nat, n: Name)
    requires Inv(s) && LegalRun(s, ops) && m <= |ops|
  {
    forall j :: k <= j < m ==> !UnbindsAt(s, ops, j, n)
  }

  /** Operation `k` binds `n` to `h`, and nothing takes it away up to operation `m`. */
  ghost predicate BoundSince<H>(s: State<H>, ops: seq<Op<H>>, k: nat, m: nat, n: Name, h: H)
    requires Inv(s) && LegalRun(s, ops) && m <= |ops|
  {
    k < m && BindsAt(s, ops, k, n, h) && KeptFrom(s, ops, k + 1, m, n)
  }

  lemma NextBindings<H>(s: State<H>, ops: seq<Op<H>>, k: nat, n: Name, h: H)
    requires Inv(s) && LegalRun(s, ops) && k < |ops|
    ensures BoundAt(s, ops, k + 1, n, h)
            <==> BindsAt(s, ops, k, n, h) || (BoundAt(s, ops, k, n, h) && !UnbindsAt(s, ops, k, n))
  {
    hide Inv, Step, Legal, Binds, Unbinds, Bound, LegalRun, Run;
    PrefixRun(s, ops, k);
    PrefixRun(s, ops, k + 1);
    StepBindings(Run(s, ops[..k]), ops[k], n, h);
  }

  /** Over any run: Lookup finds `h` under `n` after `m` operations if and only if some insert among them, made
      with caching on, bound `h` to `n`, or it was bound at the start, and since then nothing has erased it,
      replaced it, or reached it while it was idle. */
  lemma {:induction false} LookupFindsExactly<H>(s: State<H>, ops: seq<Op<H>>, m: nat, n: Name, h: H)
    requires Inv(s) && LegalRun(s, ops) && m <= |ops|
    ensures BoundAt(s, ops, m, n, h)
            <==> ((Bound(s, n, h) && KeptFrom(s, ops, 0, m, n))
                  || exists k :: 0 <= k < m && BoundSince(s, ops, k, m, n, h))
    decreases m
  {
    hide Inv, LegalRun, Bound, BoundAt, BindsAt, UnbindsAt;
    if m == 0 {
      StartBound(s, ops, n, h);
    } else {
      var l := m - 1;
      LookupFindsExactly(s, ops, l, n, h);
      NextBindings(s, ops, l, n, h);
      if BindsAt(s, ops, l, n, h) {
        assert BoundSince(s, ops, l, m, n, h);
      }
      forall k | 0 <= k < l
        ensures BoundSince(s, ops, k, m, n, h) <==> BoundSince(s, ops, k, l, n, h) && !UnbindsAt(s, ops, l, n)
      {}
    }
  }

  lemma StartBound<H>(s: State<H>, ops: seq<Op<H>>, n: Name, h: H)
    requires Inv(s) && LegalRun(s, ops)
    ensures BoundAt(s, ops, 0, n, h) <==> Bound(s, n, h)
  {
    hide Inv, LegalRun;
    assert ops[..0] == [];
  }
}
