/** db/tableCache.h:109-298: the reference-counted LRU cache, its two circular lists threaded
    through the entries, refined to the state machine of LruModel. */
module LruCaches {
  import opened Bytes
  import opened HandleTables
  import LruModel

  type Links = map<LRUHandle, LRUHandle?>

  ghost function Nexts(d: set<LRUHandle>): Links
    reads d`next
  {
    map h | h in d :: h.next
  }

  ghost function Prevs(d: set<LRUHandle>): Links
    reads d`prev
  {
    map h | h in d :: h.prev
  }

  /** From `head` through `q` and back to `head`. */
  ghost function Tour(head: LRUHandle, q: seq<LRUHandle>): seq<LRUHandle> { [head] + q + [head] }

  ghost predicate Joined(nx: Links, pv: Links, t: seq<LRUHandle>, i: nat)
    requires i + 1 < |t|
  {
    t[i] in nx && t[i + 1] in pv && nx[t[i]] == t[i + 1] && pv[t[i + 1]] == t[i]
  }

  /** A circular doubly linked list with dummy head. */
  ghost predicate Ring(nx: Links, pv: Links, head: LRUHandle, q: seq<LRUHandle>)
  {
    forall i :: 0 <= i <= |q| ==> Joined(nx, pv, Tour(head, q), i)
  }

  ghost predicate Members(head: LRUHandle, q: seq<LRUHandle>)
  {
    head.isHead && LruModel.NoDuplicates(q) && forall h :: h in q ==> !h.isHead
  }

  /** Two such lists with nothing in common. */
  ghost predicate TwoRings(nx: Links, pv: Links, a: LRUHandle, qa: seq<LRUHandle>, b: LRUHandle, qb: seq<LRUHandle>)
  {
    && a != b && Members(a, qa) && Members(b, qb) && (forall h :: h in qa ==> h !in qb)
    && Ring(nx, pv, a, qa) && Ring(nx, pv, b, qb)
  }

  // ----- list surgery

  lemma RingSame(nx: Links, pv: Links, nx': Links, pv': Links, head: LRUHandle, q: seq<LRUHandle>)
    requires Ring(nx, pv, head, q)
    requires forall h :: h == head || h in q ==>
        (h in nx ==> h in nx' && nx'[h] == nx[h]) && (h in pv ==> h in pv' && pv'[h] == pv[h])
    ensures Ring(nx', pv', head, q)
  {
    var t := Tour(head, q);
    forall i | 0 <= i <= |q| ensures Joined(nx', pv', t, i)
    {
      assert Joined(nx, pv, t, i);
      assert t[i] == head || t[i] in q;
      assert t[i + 1] == head || t[i + 1] in q;
    }
  }

  /** LRU_Remove on the entry at `k`. */
  lemma RingRemove(nx: Links, pv: Links, head: LRUHandle, q: seq<LRUHandle>, k: nat)
    requires Ring(nx, pv, head, q) && Members(head, q) && k < |q|
    ensures q[k] in nx && q[k] in pv && nx[q[k]] != null && pv[q[k]] != null
    ensures nx[q[k]] == head || nx[q[k]] in q
    ensures pv[q[k]] == head || pv[q[k]] in q
    ensures Ring(nx[pv[q[k]] := nx[q[k]]], pv[nx[q[k]] := pv[q[k]]], head, q[..k] + q[k + 1..])
  {
    var t := Tour(head, q);
    assert t[k + 1] == q[k] && t[k + 2] == (if k + 1 < |q| then q[k + 1] else head) &&
           t[k] == if k > 0 then q[k - 1] else head;
    assert Joined(nx, pv, t, k) && Joined(nx, pv, t, k + 1);
    var nx', pv' := nx[t[k] := t[k + 2]], pv[t[k + 2] := t[k]];
    var q' := q[..k] + q[k + 1..];
    var t' := Tour(head, q');
    forall i | 0 <= i < |t'| - 1 ensures Joined(nx', pv', t', i)
    {
      assert t'[i] == if i <= k then t[i] else t[i + 1];
      assert t'[i + 1] == if i < k then t[i + 1] else t[i + 2];
      if i < k {
        assert Joined(nx, pv, t, i);
      } else if i > k {
        assert Joined(nx, pv, t, i + 1);
      }
    }
  }

  /** LRU_Append of an entry that is on no list. */
  lemma RingAppend(nx: Links, pv: Links, head: LRUHandle, q: seq<LRUHandle>, e: LRUHandle)
    requires Ring(nx, pv, head, q) && Members(head, q) && !e.isHead && e !in q
    ensures head in pv && pv[head] != null && (pv[head] == head || pv[head] in q)
    ensures Ring(nx[e := head][pv[head] := e], pv[e := pv[head]][head := e], head, q + [e])
  {
    var t := Tour(head, q);
    var n := |q|;
    assert Joined(nx, pv, t, n) && t[n + 1] == head;
    assert t[n] == if n > 0 then q[n - 1] else head;
    var nx', pv' := nx[e := head][t[n] := e], pv[e := t[n]][head := e];
    var t' := Tour(head, q + [e]);
    forall i | 0 <= i < |t'| - 1 ensures Joined(nx', pv', t', i)
    {
      if i < n {
        assert t'[i] == t[i] && t'[i + 1] == t[i + 1] && t'[i + 1] == q[i];
        assert Joined(nx, pv, t, i);
      }
    }
  }

  /** Taking the entry at `k` off the first list. */
  lemma TwoRingsRemove(nx: Links, pv: Links, a: LRUHandle, qa: seq<LRUHandle>, b: LRUHandle, qb: seq<LRUHandle>, k: nat)
    requires TwoRings(nx, pv, a, qa, b, qb) && k < |qa|
    ensures var e := qa[k];
            && e in nx && e in pv && nx[e] != null && pv[e] != null && nx[e] in pv && pv[e] in nx
            && nx[e] != e && pv[e] != e
            && TwoRings(nx[pv[e] := nx[e]], pv[nx[e] := pv[e]], a, LruModel.Without(qa, e), b, qb)
            && e !in LruModel.Without(qa, e)
  {
    var e := qa[k];
    LruModel.WithoutCut(qa, k);
    LruModel.WithoutMembers(qa, e);
    RingRemove(nx, pv, a, qa, k);
    RingSame(nx, pv, nx[pv[e] := nx[e]], pv[nx[e] := pv[e]], b, qb);
    var t := Tour(a, qa);
    assert t[k + 1] == e && Joined(nx, pv, t, k) && Joined(nx, pv, t, k + 1);
    assert t[k] == (if k > 0 then qa[k - 1] else a) && t[k + 2] == if k + 1 < |qa| then qa[k + 1] else a;
  }

  /** Appending to the second list an entry that is on neither. */
  lemma TwoRingsAppend(nx: Links, pv: Links, a: LRUHandle, qa: seq<LRUHandle>, b: LRUHandle, qb: seq<LRUHandle>,
                       e: LRUHandle)
    requires TwoRings(nx, pv, a, qa, b, qb) && !e.isHead && e !in qa && e !in qb
    ensures b in pv && pv[b] != null && pv[b] in nx && pv[b] != e
    ensures TwoRings(nx[e := b][pv[b] := e], pv[e := pv[b]][b := e], a, qa, b, qb + [e])
  {
    RingAppend(nx, pv, b, qb, e);
    RingSame(nx, pv, nx[e := b][pv[b] := e], pv[e := pv[b]][b := e], a, qa);
    var t := Tour(b, qb);
    assert t[|qb| + 1] == b && Joined(nx, pv, t, |qb|);
  }

  lemma TwoRingsSwap(nx: Links, pv: Links, a: LRUHandle, qa: seq<LRUHandle>, b: LRUHandle, qb: seq<LRUHandle>)
    requires TwoRings(nx, pv, a, qa, b, qb)
    ensures TwoRings(nx, pv, b, qb, a, qa)
  {}

  lemma TwoRingsSame(nx: Links, pv: Links, nx': Links, pv': Links, a: LRUHandle, qa: seq<LRUHandle>,
                     b: LRUHandle, qb: seq<LRUHandle>)
    requires TwoRings(nx, pv, a, qa, b, qb)
    requires forall h :: h == a || h == b || h in qa || h in qb ==>
        (h in nx ==> h in nx' && nx'[h] == nx[h]) && (h in pv ==> h in pv' && pv'[h] == pv[h])
    ensures TwoRings(nx', pv', a, qa, b, qb)
  {
    RingSame(nx, pv, nx', pv', a, qa);
    RingSame(nx, pv, nx', pv', b, qb);
  }

  ghost predicate InfoAgrees(info: map<LRUHandle, LruModel.Info>)
  {
    forall h :: h in info ==> !h.isHead && info[h] == LruModel.Info(h.Id(), h.charge)
  }

  ghost predicate CountsAgree(refs: map<LRUHandle, nat>, cached: set<LRUHandle>, info: map<LRUHandle, LruModel.Info>)
    reads refs.Keys`refs, refs.Keys`in_cache
  {
    forall h :: h in refs ==> h in info && h.refs == refs[h] && h.in_cache == (h in cached)
  }

  ghost predicate ListsAgree(d: set<LRUHandle>, a: LRUHandle, qa: seq<LRUHandle>, b: LRUHandle, qb: seq<LRUHandle>)
    reads d`next, d`prev
  {
    TwoRings(Nexts(d), Prevs(d), a, qa, b, qb)
  }

  /** The hash table holds `table`, and reaches only its own heads and entries allocated here. */
  ghost predicate TableAgrees(t: HandleTable, table: map<Name, LRUHandle>, info: map<LRUHandle, LruModel.Info>)
    reads t, t.list_, t.nodes`next_hash
  {
    t.Valid() && t.contents == table && forall h :: h in t.nodes ==> h.isHead || h in info
  }

  lemma EmptyTable(t: HandleTable)
    requires t.Valid() && t.contents == map[] && forall h :: h in t.nodes ==> h.isHead
    ensures TableAgrees(t, map[], map[])
  {}

  lemma EmptyRings(nx: Links, pv: Links, a: LRUHandle, b: LRUHandle)
    requires a != b && a.isHead && b.isHead && a in nx && b in nx && a in pv && b in pv
    requires nx[a] == a == pv[a] && nx[b] == b == pv[b]
    ensures TwoRings(nx, pv, a, [], b, [])
  {}

  class LRUCache {
    var capacity_: nat
    var usage_: int
    const lru_: LRUHandle      // lru_.next is the entry released longest ago
    const in_use_: LRUHandle
    const table_: HandleTable
    ghost var s: LruModel.State<LRUHandle>

    constructor ()
      ensures Valid() && s == LruModel.Init()
      ensures fresh(lru_) && fresh(in_use_) && fresh(table_) && fresh(table_.nodes)
    {
      hide TwoRings, TableAgrees, LruModel.Core, LruModel.Indexed, HandleTable.Valid;
      capacity_, usage_ := 0, 0;
      lru_ := new LRUHandle.Head();
      in_use_ := new LRUHandle.Head();
      table_ := new HandleTable();
      s := LruModel.Init();
      new;
      lru_.next, lru_.prev := lru_, lru_;
      in_use_.next, in_use_.prev := in_use_, in_use_;
      LruModel.InitInv<LRUHandle>();
      EmptyRings(Nexts(Listed()), Prevs(Listed()), lru_, in_use_);
      EmptyTable(table_);
    }

    /** The handles whose list fields mean something. */
    ghost function Listed(): set<LRUHandle>
      reads this
    {
      s.refs.Keys + {lru_, in_use_}
    }

    /** The heap is what `s` says. */
    ghost predicate Mirrors()
      reads this, Listed()`next, Listed()`prev, Listed()`refs, Listed()`in_cache
      reads table_, table_.list_, table_.nodes`next_hash
    {
      && capacity_ == s.capacity && usage_ == s.usage
      && InfoAgrees(s.info) && CountsAgree(s.refs, s.cached, s.info)
      && ListsAgree(Listed(), lru_, s.lru, in_use_, s.inUse) && TableAgrees(table_, s.table, s.info)
    }

    ghost predicate Valid()
      reads this, Listed()`next, Listed()`prev, Listed()`refs, Listed()`in_cache
      reads table_, table_.list_, table_.nodes`next_hash
    {
      Mirrors() && LruModel.Inv(s)
    }

    method LRU_Remove(e: LRUHandle, ghost d: set<LRUHandle>)
      requires e in d && e.next != null && e.prev != null && e.next in d && e.prev in d && e.next != e && e.prev != e
      modifies d`next, d`prev
      ensures Nexts(d) == old(Nexts(d)[e.prev := e.next]) && Prevs(d) == old(Prevs(d)[e.next := e.prev])
    {
      e.next.prev := e.prev;
      e.prev.next := e.next;
    }

    method LRU_Append(list: LRUHandle, e: LRUHandle, ghost d: set<LRUHandle>)
      requires e in d && list in d && e != list && list.prev != null && list.prev in d && list.prev != e
      modifies d`next, d`prev
      ensures Nexts(d) == old(Nexts(d)[e := list][list.prev := e])
      ensures Prevs(d) == old(Prevs(d)[e := list.prev][list := e])
    {
      e.next := list;
      e.prev := list.prev;
      e.prev.next := e;
      e.next.prev := e;
    }

    /** LRU_Remove then LRU_Append, as Ref and Unref use them: from one list to the end of the other. */
    method MoveToBack(e: LRUHandle, ghost from: LRUHandle, ghost qf: seq<LRUHandle>, list: LRUHandle,
                      ghost qt: seq<LRUHandle>, ghost d: set<LRUHandle>)
      requires ListsAgree(d, from, qf, list, qt) && e in qf
      modifies d`next, d`prev
      ensures ListsAgree(d, from, LruModel.Without(qf, e), list, qt + [e])
    {
      ghost var k :| 0 <= k < |qf| && qf[k] == e;
      TwoRingsRemove(Nexts(d), Prevs(d), from, qf, list, qt, k);
      assert !e.isHead && e !in qt;
      hide TwoRings, Ring, Members;
      LRU_Remove(e, d);
      TwoRingsAppend(Nexts(d), Prevs(d), from, LruModel.Without(qf, e), list, qt, e);
      LRU_Append(list, e, d);
    }

    method CountTo(e: LRUHandle, n: nat, ghost refs: map<LRUHandle, nat>, ghost cached: set<LRUHandle>,
                   ghost info: map<LRUHandle, LruModel.Info>)
      requires CountsAgree(refs, cached, info) && e in refs
      modifies e`refs
      ensures e.refs == n && CountsAgree(refs[e := n], cached, info)
    {
      e.refs := n;
    }

    lemma CountsOf(e: LRUHandle, refs: map<LRUHandle, nat>, cached: set<LRUHandle>, info: map<LRUHandle, LruModel.Info>)
      requires CountsAgree(refs, cached, info) && e in refs
      ensures e in info && e.refs == refs[e] && e.in_cache == (e in cached)
    {}

    method Ref(e: LRUHandle)
      requires Mirrors() && LruModel.Lists(s) && e in s.refs && s.refs[e] > 0
      modifies this`s, Listed()`next, Listed()`prev, Listed()`refs
      ensures Mirrors() && s == LruModel.Ref(old(s), e)
    {
      hide ListsAgree, TableAgrees, InfoAgrees, CountsAgree, LruModel.Lists, LruModel.Without, LruModel.Ref;
      ghost var d, t := Listed(), LruModel.Ref(s, e);
      LruModel.WhichList(s, e);
      LruModel.RefParts(s, e);
      CountsOf(e, s.refs, s.cached, s.info);
      if e.refs == 1 && e.in_cache {
        MoveToBack(e, lru_, s.lru, in_use_, s.inUse, d);
      }
      CountTo(e, e.refs + 1, s.refs, s.cached, s.info);
      s := t;
      assert Listed() == d;
    }

    lemma ListsForget(d: set<LRUHandle>, e: LRUHandle, qa: seq<LRUHandle>, qb: seq<LRUHandle>)
      requires ListsAgree(d, lru_, qa, in_use_, qb) && e !in qa && e !in qb && e != lru_ && e != in_use_
      ensures ListsAgree(d - {e}, lru_, qa, in_use_, qb)
    {
      TwoRingsSame(Nexts(d), Prevs(d), Nexts(d - {e}), Prevs(d - {e}), lru_, qa, in_use_, qb);
    }

    lemma CountsForget(e: LRUHandle, refs: map<LRUHandle, nat>, cached: set<LRUHandle>,
                       info: map<LRUHandle, LruModel.Info>)
      requires CountsAgree(refs, cached, info)
      ensures CountsAgree(refs - {e}, cached, info)
    {}

    lemma ListsSwap(d: set<LRUHandle>, a: LRUHandle, qa: seq<LRUHandle>, b: LRUHandle, qb: seq<LRUHandle>)
      requires ListsAgree(d, a, qa, b, qb)
      ensures ListsAgree(d, b, qb, a, qa)
    {}

    lemma NotListed(d: set<LRUHandle>, e: LRUHandle, info: map<LRUHandle, LruModel.Info>, qa: seq<LRUHandle>,
                    qb: seq<LRUHandle>)
      requires ListsAgree(d, lru_, qa, in_use_, qb) && InfoAgrees(info) && e in info
      ensures e != lru_ && e != in_use_ && lru_ != in_use_ && !e.isHead
    {}

    method Unref(e: LRUHandle)
      requires Mirrors() && LruModel.Lists(s) && e in s.refs && s.refs[e] > 0
      requires s.refs[e] == 1 ==> e !in s.cached
      modifies this`s, Listed()`next, Listed()`prev, Listed()`refs
      ensures Mirrors() && s == LruModel.Unref(old(s), e)
    {
      hide ListsAgree, TableAgrees, InfoAgrees, CountsAgree, LruModel.Lists, LruModel.Without, LruModel.Unref,
           HandleTable.Valid;
      ghost var d, t := Listed(), LruModel.Unref(s, e);
      LruModel.WhichList(s, e);
      LruModel.UnrefParts(s, e);
      CountsOf(e, s.refs, s.cached, s.info);
      CountTo(e, e.refs - 1, s.refs, s.cached, s.info);
      if e.refs == 0 {
        assert !e.in_cache;
        LruModel.ListedCached(s, e);
        Free(e);
      } else {
        if e.in_cache && e.refs == 1 {
          ListsSwap(d, lru_, s.lru, in_use_, s.inUse);
          MoveToBack(e, in_use_, s.inUse, lru_, s.lru, d);
          ListsSwap(d, in_use_, t.inUse, lru_, t.lru);
        }
        s := t;
        assert Listed() == d;
      }
    }

    /** tableCache.h:192-196: the deleter runs and the entry is freed. The state logs the call and
        forgets the count. */
    ghost method Free(e: LRUHandle)
      requires capacity_ == s.capacity && usage_ == s.usage && InfoAgrees(s.info) &&
               TableAgrees(table_, s.table, s.info)
      requires e in s.refs && s.refs[e] == 1 && CountsAgree(s.refs[e := 0], s.cached, s.info) && e in s.info
      requires ListsAgree(Listed(), lru_, s.lru, in_use_, s.inUse) && e !in s.lru && e !in s.inUse
      modifies this`s
      ensures Mirrors() && s == LruModel.Unref(old(s), e)
    {
      hide ListsAgree, TableAgrees, InfoAgrees, CountsAgree, LruModel.Lists, LruModel.Without, HandleTable.Valid;
      ghost var d, refs := Listed(), s.refs[e := 0];
      NotListed(d, e, s.info, s.lru, s.inUse);
      ListsForget(d, e, s.lru, s.inUse);
      CountsForget(e, refs, s.cached, s.info);
      s := LruModel.Unref(s, e);
      assert Listed() == d - {e};
      assert s.refs == refs - {e};
    }

    /** LRU_Remove, whichever list the entry is on. */
    method LeaveList(e: LRUHandle, ghost qa: seq<LRUHandle>, ghost qb: seq<LRUHandle>, ghost d: set<LRUHandle>)
      requires ListsAgree(d, lru_, qa, in_use_, qb) && (e in qa || e in qb)
      modifies d`next, d`prev
      ensures ListsAgree(d, lru_, LruModel.Without(qa, e), in_use_, LruModel.Without(qb, e))
    {
      hide Ring, LruModel.Without;
      ghost var nx, pv := Nexts(d), Prevs(d);
      if e in qa {
        ghost var k :| 0 <= k < |qa| && qa[k] == e;
        TwoRingsRemove(nx, pv, lru_, qa, in_use_, qb, k);
        LruModel.WithoutAbsent(qb, e);
      } else {
        ghost var k :| 0 <= k < |qb| && qb[k] == e;
        TwoRingsSwap(nx, pv, lru_, qa, in_use_, qb);
        TwoRingsRemove(nx, pv, in_use_, qb, lru_, qa, k);
        LruModel.WithoutAbsent(qa, e);
      }
      LRU_Remove(e, d);
    }

    method Uncache(e: LRUHandle, ghost refs: map<LRUHandle, nat>, ghost cached: set<LRUHandle>,
                   ghost info: map<LRUHandle, LruModel.Info>)
      requires CountsAgree(refs, cached, info) && e in refs
      modifies e`in_cache
      ensures CountsAgree(refs, cached - {e}, info)
    {
      e.in_cache := false;
    }

    lemma ChargeOf(e: LRUHandle, info: map<LRUHandle, LruModel.Info>)
      requires InfoAgrees(info) && e in info
      ensures info[e] == LruModel.Info(e.Id(), e.charge) && !e.isHead
    {}

    /** Completes taking out of the cache an entry already taken out of the table, if any. */
    method FinishErase(e: LRUHandle?) returns (erased: bool)
      requires Mirrors() && LruModel.Lists(s)
      requires e != null ==> e in s.cached && e in s.refs && s.refs[e] > 0 && e in s.info
      modifies this`s, this`usage_, Listed()`next, Listed()`prev, Listed()`refs, Listed()`in_cache
      ensures Mirrors() && erased == (e != null)
      ensures s == if e == null then old(s) else LruModel.FinishErase(old(s), e)
    {
      hide ListsAgree, TableAgrees, InfoAgrees, CountsAgree, LruModel.Lists, LruModel.Without, LruModel.Unref;
      if e != null {
        ghost var d, t := Listed(), LruModel.Detach(s, e);
        LruModel.WhichList(s, e);
        LruModel.DetachLists(s, e);
        CountsOf(e, s.refs, s.cached, s.info);
        ChargeOf(e, s.info);
        assert e.in_cache;
        LeaveList(e, s.lru, s.inUse, d);
        Uncache(e, s.refs, s.cached, s.info);
        usage_ := usage_ - e.charge;
        s := t;
        assert Listed() == d;
        Unref(e);
      }
      erased := e != null;
    }

    lemma Found(n: Name)
      requires Valid() && n in s.table
      ensures var e := s.table[n]; e in s.cached && e in s.refs && s.refs[e] > 0 && e in s.info
    {}

    method Lookup(key: Str, hash: Word) returns (e: LRUHandle?)
      requires Valid()
      modifies this`s, Listed()`next, Listed()`prev, Listed()`refs
      ensures Valid() && s == LruModel.Lookup(old(s), LruModel.Name(key, hash))
      ensures var n := LruModel.Name(key, hash); e == if n in old(s).table then old(s).table[n] else null
      ensures Listed() <= old(Listed())
    {
      hide ListsAgree, TableAgrees, InfoAgrees, CountsAgree, LruModel.Lists, LruModel.Core, LruModel.Indexed,
           LruModel.Ref, HandleTable.Valid;
      ghost var n := LruModel.Name(key, hash);
      ghost var s0 := s;
      LruModel.LookupInv(s, n);
      LruModel.CoreLists(s);
      TableOf();
      e := table_.Lookup(key, hash);
      if e != null {
        Found(n);
        LruModel.RefParts(s, e);
        Ref(e);
        s := LruModel.Lookup(s0, n);
      }
    }

    lemma TableOf()
      requires TableAgrees(table_, s.table, s.info)
      ensures table_.Valid() && table_.contents == s.table
    {}

    method Release(handle: LRUHandle)
      requires Valid() && handle in s.clients
      modifies this`s, Listed()`next, Listed()`prev, Listed()`refs
      ensures Valid() && s == LruModel.Release(old(s), handle) && Listed() <= old(Listed())
    {
      hide ListsAgree, TableAgrees, InfoAgrees, CountsAgree, LruModel.Lists, LruModel.Core, LruModel.Indexed,
           LruModel.Unref;
      ghost var s0 := s;
      LruModel.ReleaseInv(s, handle);
      LruModel.CoreLists(s);
      LruModel.HeldHandle(s, handle);
      LruModel.UnrefParts(s, handle);
      Unref(handle);
      s := LruModel.Release(s0, handle);
    }

    method SetCapacity(capacity: nat)
      requires Valid()
      modifies this`capacity_, this`s
      ensures Valid() && s == old(s).(capacity := capacity)
    {
      hide ListsAgree, TableAgrees, InfoAgrees, CountsAgree, LruModel.Indexed;
      capacity_ := capacity;
      s := s.(capacity := capacity);
    }

    lemma AfterRemove(n: Name, t: map<Name, LRUHandle>)
      requires LruModel.Inv(s) && t == s.table
      ensures LruModel.Lists(s.(table := s.table - {n}))
      ensures n !in s.table ==> s.(table := s.table - {n}) == s
    {
      assert n !in s.table ==> s.table - {n} == s.table;
    }

    /** `FinishErase(table_.Remove(key, hash))`, which Erase, Insert and Prune all use. */
    method EraseEntry(key: Str, hash: Word) returns (erased: bool)
      requires Valid()
      modifies this`s, this`usage_, Listed()`next, Listed()`prev, Listed()`refs, Listed()`in_cache
      modifies table_, table_.nodes`next_hash
      ensures Valid() && s == LruModel.Erase(old(s), LruModel.Name(key, hash))
      ensures erased == (LruModel.Name(key, hash) in old(s).table)
      ensures table_.nodes == old(table_.nodes) && Listed() <= old(Listed())
    {
      hide ListsAgree, InfoAgrees, CountsAgree, LruModel.Lists, LruModel.Core, LruModel.Indexed, HandleTable.Valid;
      hide LruModel.FinishErase;
      ghost var n := LruModel.Name(key, hash);
      ghost var s0, d0 := s, Listed();
      AfterRemove(n, s.table);
      LruModel.EraseInv(s, n);
      if n in s.table {
        Found(n);
        LruModel.FinishEraseRefs(s.(table := s.table - {n}), s.table[n]);
      }
      var e := table_.Remove(key, hash);
      s := s.(table := s.table - {n});
      erased := FinishErase(e);
    }

    method Erase(key: Str, hash: Word)
      requires Valid()
      modifies this`s, this`usage_, Listed()`next, Listed()`prev, Listed()`refs, Listed()`in_cache
      modifies table_, table_.nodes`next_hash
      ensures Valid() && s == LruModel.Erase(old(s), LruModel.Name(key, hash))
      ensures table_.nodes == old(table_.nodes) && Listed() <= old(Listed())
    {
      var erased := EraseEntry(key, hash);
    }

    // ----- inserting

    lemma ListsExtend(d: set<LRUHandle>, e: LRUHandle, qa: seq<LRUHandle>, qb: seq<LRUHandle>)
      requires ListsAgree(d, lru_, qa, in_use_, qb) && e !in d
      ensures ListsAgree(d + {e}, lru_, qa, in_use_, qb) && e !in qa && e !in qb && lru_ in d && in_use_ in d
    {
      TwoRingsSame(Nexts(d), Prevs(d), Nexts(d + {e}), Prevs(d + {e}), lru_, qa, in_use_, qb);
      forall i | 0 <= i <= |qa| ensures Tour(lru_, qa)[i] in d {
        assert Joined(Nexts(d), Prevs(d), Tour(lru_, qa), i);
      }
      forall i | 0 <= i <= |qb| ensures Tour(in_use_, qb)[i] in d {
        assert Joined(Nexts(d), Prevs(d), Tour(in_use_, qb), i);
      }
      assert forall i :: 0 <= i < |qa| ==> Tour(lru_, qa)[i + 1] == qa[i];
      assert forall i :: 0 <= i < |qb| ==> Tour(in_use_, qb)[i + 1] == qb[i];
      assert Tour(lru_, qa)[0] == lru_ && Tour(in_use_, qb)[0] == in_use_;
    }

    method Enlist(e: LRUHandle, ghost qa: seq<LRUHandle>, ghost qb: seq<LRUHandle>, ghost d: set<LRUHandle>)
      requires ListsAgree(d, lru_, qa, in_use_, qb) && e !in d && !e.isHead
      modifies d`next, d`prev, e`next, e`prev
      ensures ListsAgree(d + {e}, lru_, qa, in_use_, qb + [e])
    {
      hide Ring, Members;
      ListsExtend(d, e, qa, qb);
      TwoRingsAppend(Nexts(d + {e}), Prevs(d + {e}), lru_, qa, in_use_, qb, e);
      LRU_Append(in_use_, e, d + {e});
    }

    lemma NewEntry(e: LRUHandle, k: nat, refs: map<LRUHandle, nat>, cached: set<LRUHandle>,
                   info: map<LRUHandle, LruModel.Info>)
      requires InfoAgrees(info) && CountsAgree(refs, cached, info) && e !in info && !e.isHead
      requires e.refs == k && cached <= info.Keys
      ensures InfoAgrees(info[e := LruModel.Info(e.Id(), e.charge)])
      ensures CountsAgree(refs[e := k], if e.in_cache then cached + {e} else cached,
                          info[e := LruModel.Info(e.Id(), e.charge)])
    {}

    lemma TableLarger(e: LRUHandle, i: LruModel.Info, table: map<Name, LRUHandle>, info: map<LRUHandle, LruModel.Info>)
      requires TableAgrees(table_, table, info)
      ensures TableAgrees(table_, table, info[e := i])
    {}

    /** `table_.Insert(e)`. */
    method Index(e: LRUHandle, ghost table: map<Name, LRUHandle>, ghost info: map<LRUHandle, LruModel.Info>)
      returns (r: LRUHandle?)
      requires TableAgrees(table_, table, info) && !e.isHead && e !in table.Values
      modifies table_, table_.nodes`next_hash, e`next_hash
      ensures TableAgrees(table_, table[e.Id() := e], info[e := LruModel.Info(e.Id(), e.charge)])
      ensures r == if e.Id() in table then table[e.Id()] else null
      ensures fresh(table_.nodes - old(table_.nodes) - {e})
    {
      hide HandleTable.Valid;
      r := table_.Insert(e);
    }

    lemma Displaced(e: LRUHandle, i: LruModel.Info)
      requires Valid() && e !in s.info
      ensures e !in s.table.Values
      ensures i.name in s.table ==>
                var h := s.table[i.name];
                var t := LruModel.Admitted(s, e, i);
                && h in t.cached && h in t.refs && t.refs[h] > 0 && h in t.info
                && LruModel.FinishErase(t, h).refs.Keys <= t.refs.Keys
    {
      if i.name in s.table {
        Found(i.name);
        LruModel.FinishEraseRefs(LruModel.Admitted(s, e, i), s.table[i.name]);
      }
    }

    /** tableCache.h:249-252: counted for the cache, at the end of in_use_, charged. */
    method EnterCache(e: LRUHandle, ghost d: set<LRUHandle>)
      requires Mirrors() && d == Listed() && e !in s.info && e !in d && !e.isHead && e.refs == 1
      requires s.cached <= s.info.Keys
      modifies this`usage_, d`next, d`prev, e`next, e`prev, e`refs, e`in_cache
      ensures var t := LruModel.Admitted(s, e, LruModel.Info(e.Id(), e.charge));
              && usage_ == t.usage && InfoAgrees(t.info) && CountsAgree(t.refs, t.cached, t.info)
              && ListsAgree(d + {e}, lru_, t.lru, in_use_, t.inUse)
              && TableAgrees(table_, s.table, s.info)
    {
      hide ListsAgree, InfoAgrees, CountsAgree, TableAgrees;
      e.refs := e.refs + 1;
      e.in_cache := true;
      NewEntry(e, 2, s.refs, s.cached, s.info);
      Enlist(e, s.lru, s.inUse, d);
      usage_ := usage_ + e.charge;
    }

    /** tableCache.h:253, and the state after it. */
    method IndexEntry(e: LRUHandle, ghost t: LruModel.State<LRUHandle>, ghost d: set<LRUHandle>) returns (r: LRUHandle?)
      requires t == LruModel.Admitted(s, e, LruModel.Info(e.Id(), e.charge))
      requires d == Listed() && capacity_ == s.capacity && usage_ == t.usage
      requires InfoAgrees(t.info) && CountsAgree(t.refs, t.cached, t.info)
      requires ListsAgree(d + {e}, lru_, t.lru, in_use_, t.inUse)
      requires TableAgrees(table_, s.table, s.info) && !e.isHead && e !in s.table.Values
      modifies this`s, table_, table_.nodes`next_hash, e`next_hash
      ensures Mirrors() && s == t && Listed() == d + {e}
      ensures r == if e.Id() in old(s).table then old(s).table[e.Id()] else null
      ensures fresh(table_.nodes - old(table_.nodes) - {e})
    {
      hide ListsAgree, InfoAgrees, CountsAgree, TableAgrees;
      r := Index(e, s.table, s.info);
      s := t;
      assert Listed() == d + {e};
    }

    /** The branch of Insert that caches the new entry, tableCache.h:249-253. */
    method AdmitCached(e: LRUHandle, ghost i: LruModel.Info)
      requires Valid() && e !in s.info && e !in Listed() && !e.isHead && capacity_ > 0 && e !in table_.nodes
      requires i == LruModel.Info(e.Id(), e.charge) && e.refs == 1
      modifies this`s, this`usage_, Listed()`next, Listed()`prev, Listed()`refs, Listed()`in_cache
      modifies table_, table_.nodes`next_hash, e
      ensures Valid() && s == LruModel.Admit(old(s), e, i)
      ensures fresh(table_.nodes - old(table_.nodes) - {e}) && Listed() <= old(Listed()) + {e}
    {
      hide ListsAgree, InfoAgrees, CountsAgree, TableAgrees, LruModel.Lists, LruModel.Core, LruModel.Indexed,
           HandleTable.Valid;
      hide LruModel.FinishErase;
      ghost var s0, d, t := s, Listed(), LruModel.Admitted(s, e, i);
      LruModel.AdmitInv(s0, e, i);
      LruModel.CachedKnown(s0);
      LruModel.CoreLists(s0);
      LruModel.AdmittedLists(s0, e, i);
      Displaced(e, i);
      EnterCache(e, d);
      var r := IndexEntry(e, t, d);
      var erased := FinishErase(r);
    }

    /** Insert before the eviction loop; the entry gets `key.size()` bytes of the key. */
    method Admit(key: Str, hash: Word, charge: nat) returns (e: LRUHandle)
      requires Valid() && HasSize(key)
      modifies this`s, this`usage_, Listed()`next, Listed()`prev, Listed()`refs, Listed()`in_cache
      modifies table_, table_.nodes`next_hash
      ensures fresh(e) && e.key == Cut(key) && e.hash == hash && e.charge == charge
      ensures Valid() && e !in old(s).info
      ensures s == LruModel.Admit(old(s), e, LruModel.Info(LruModel.Name(Cut(key), hash), charge))
      ensures fresh(table_.nodes - old(table_.nodes)) && fresh(Listed() - old(Listed()))
    {
      hide ListsAgree, InfoAgrees, CountsAgree, TableAgrees, LruModel.Lists, LruModel.Core, LruModel.Indexed,
           HandleTable.Valid;
      hide LruModel.FinishErase;
      ghost var i := LruModel.Info(LruModel.Name(Cut(key), hash), charge);
      e := new LRUHandle.Entry(key[..SliceSize(|key|)], hash, charge, false, 1);
      if capacity_ > 0 {
        AdmitCached(e, i);
      } else {
        AdmitUncached(e, i);
      }
    }

    /** With no capacity the entry goes to its client alone: neither list, no place in the table. */
    method AdmitUncached(e: LRUHandle, ghost i: LruModel.Info)
      requires Valid() && e !in s.info && e !in Listed() && !e.isHead && capacity_ == 0 && e !in table_.nodes
      requires i == LruModel.Info(e.Id(), e.charge) && e.refs == 1 && !e.in_cache
      modifies this`s, e`next
      ensures Valid() && s == LruModel.Admit(old(s), e, i) && Listed() == old(Listed()) + {e}
    {
      hide ListsAgree, InfoAgrees, CountsAgree, TableAgrees, LruModel.Lists, LruModel.Core, LruModel.Indexed,
           HandleTable.Valid;
      hide LruModel.FinishErase;
      ghost var s0, d := s, Listed();
      LruModel.AdmitInv(s0, e, i);
      LruModel.CachedKnown(s0);
      e.next := null;
      NewEntry(e, 1, s0.refs, s0.cached, s0.info);
      ListsExtend(d, e, s0.lru, s0.inUse);
      TableLarger(e, i, s0.table, s0.info);
      s := LruModel.Admit(s0, e, i);
      assert Listed() == d + {e};
    }

    /** The first idle entry, read off the list as the loops of Insert and Prune do. */
    lemma Oldest()
      requires Valid()
      ensures lru_.next != null && (lru_.next == lru_ <==> s.lru == [])
      ensures s.lru != [] ==> lru_.next == s.lru[0] && s.lru[0] in s.info && s.info[s.lru[0]].name == s.lru[0].Id()
      ensures s.lru != [] ==> s.lru[0].refs == 1
    {
      var t := Tour(lru_, s.lru);
      assert Joined(Nexts(Listed()), Prevs(Listed()), t, 0);
      assert s.lru != [] ==> s.lru[0] in s.lru;
    }

    method EvictOldest() returns (erased: bool)
      requires Valid() && s.lru != []
      modifies this`s, this`usage_, Listed()`next, Listed()`prev, Listed()`refs, Listed()`in_cache
      modifies table_, table_.nodes`next_hash
      ensures Valid() && s == LruModel.EvictOldest(old(s)) && erased
      ensures table_.nodes == old(table_.nodes) && Listed() <= old(Listed())
    {
      hide LruModel.Erase, ListsAgree, InfoAgrees, CountsAgree, TableAgrees;
      Oldest();
      LruModel.OldestIndexed(s);
      var oldest := lru_.next;
      assert oldest.refs == 1;
      erased := EraseEntry(oldest.key, oldest.hash);
    }

    method Insert(key: Str, hash: Word, charge: nat) returns (e: LRUHandle)
      requires Valid() && HasSize(key)
      modifies this`s, this`usage_, Listed()`next, Listed()`prev, Listed()`refs, Listed()`in_cache
      modifies table_, table_.nodes`next_hash
      ensures fresh(e) && e.key == Cut(key) && e.hash == hash && e.charge == charge
      ensures Valid() && e !in old(s).info
      ensures s == LruModel.Insert(old(s), e, LruModel.Info(LruModel.Name(Cut(key), hash), charge))
      ensures fresh(table_.nodes - old(table_.nodes)) && fresh(Listed() - old(Listed()))
    {
      hide ListsAgree, InfoAgrees, CountsAgree, TableAgrees, LruModel.Inv, LruModel.Admit, LruModel.EvictOldest;
      hide LruModel.Evicted;
      e := Admit(key, hash, charge);
      ghost var t := s;
      UsageAgrees();
      Oldest();
      while usage_ > capacity_ && lru_.next != lru_
        invariant Valid() && LruModel.Inv(t) && LruModel.Evict(s) == LruModel.Evict(t)
        invariant usage_ == s.usage && capacity_ == s.capacity && (lru_.next == lru_ <==> s.lru == [])
        invariant fresh(table_.nodes - old(table_.nodes)) && fresh(Listed() - old(Listed()))
        decreases |s.lru|
      {
        LruModel.EvictOldestOne(s);
        LruModel.EvictedFewer(s, LruModel.EvictOldest(s));
        var erased := EvictOldest();
        assert erased;
        UsageAgrees();
        Oldest();
      }
    }

    lemma UsageAgrees()
      requires Valid()
      ensures usage_ == s.usage && capacity_ == s.capacity && LruModel.Inv(s)
    {}

    method Prune()
      requires Valid()
      modifies this`s, this`usage_, Listed()`next, Listed()`prev, Listed()`refs, Listed()`in_cache
      modifies table_, table_.nodes`next_hash
      ensures Valid() && s == LruModel.Prune(old(s))
      ensures fresh(table_.nodes - old(table_.nodes)) && fresh(Listed() - old(Listed()))
    {
      hide ListsAgree, InfoAgrees, CountsAgree, TableAgrees, LruModel.Inv, LruModel.EvictOldest, LruModel.Evicted;
      ghost var t := s;
      UsageAgrees();
      Oldest();
      while lru_.next != lru_
        invariant Valid() && LruModel.Inv(t) && LruModel.Prune(s) == LruModel.Prune(t)
        invariant lru_.next == lru_ <==> s.lru == []
        invariant table_.nodes <= old(table_.nodes) && Listed() <= old(Listed())
        decreases |s.lru|
      {
        LruModel.EvictOldestOne(s);
        LruModel.EvictedFewer(s, LruModel.EvictOldest(s));
        var erased := EvictOldest();
        assert erased;
        UsageAgrees();
        Oldest();
      }
    }

    /** The sum of the charges of the cached entries. */
    function TotalCharge(): (r: int)
      requires Valid()
      reads this, Listed()`next, Listed()`prev, Listed()`refs, Listed()`in_cache
      reads table_, table_.list_, table_.nodes`next_hash
      ensures r == LruModel.Charges(s.info, s.lru) + LruModel.Charges(s.info, s.inUse)
    {
      usage_
    }
  }
}
