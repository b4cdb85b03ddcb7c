/** The order in which db/tableCache.h evicts, told from the operations alone: by when each idle entry was
    last released. */
module LruOrder {
  import opened LruModel

  /** `x` stands before `y`, nearer to being evicted. */
  ghost predicate Before<H>(q: seq<H>, x: H, y: H)
  {
    exists i, j :: 0 <= i < j < |q| && q[i] == x && q[j] == y
  }

  /** `r` is `q` with some entries left out. */
  ghost predicate Thinned<H>(q: seq<H>, r: seq<H>)
  {
    && NoDuplicates(q) && NoDuplicates(r)
    && (forall x :: x in r ==> x in q)
    && (forall x, y :: x in r && y in r && Before(r, x, y) ==> Before(q, x, y))
  }

  lemma ThinnedThen<H>(a: seq<H>, b: seq<H>, c: seq<H>)
    requires Thinned(a, b) && Thinned(b, c)
    ensures Thinned(a, c)
  {
    hide Before, NoDuplicates;
  }

  lemma ThinnedWithout<H>(q: seq<H>, h: H)
    requires NoDuplicates(q)
    ensures Thinned(q, Without(q, h))
  {
    hide Without;
    var w := Without(q, h);
    WithoutMembers(q, h);
    if h in q {
      var k :| 0 <= k < |q| && q[k] == h;
      WithoutCut(q, k);
      forall x, y | x in w && y in w && Before(w, x, y) ensures Before(q, x, y) {
        var i, j :| 0 <= i < j < |w| && w[i] == x && w[j] == y;
        var i', j' := if i < k then i else i + 1, if j < k then j else j + 1;
        assert q[i'] == x && q[j'] == y;
      }
    } else {
      WithoutAbsent(q, h);
    }
  }

  lemma ThinnedDrop<H>(q: seq<H>, k: nat)
    requires NoDuplicates(q) && k <= |q|
    ensures Thinned(q, q[k..])
  {
    var r := q[k..];
    forall x, y | x in r && y in r && Before(r, x, y) ensures Before(q, x, y) {
      var i, j :| 0 <= i < j < |r| && r[i] == x && r[j] == y;
      assert q[k + i] == x && q[k + j] == y;
    }
  }

  lemma EitherBefore<H>(q: seq<H>, x: H, y: H)
    requires NoDuplicates(q) && x in q && y in q && x != y
    ensures Before(q, x, y) <==> !Before(q, y, x)
  {
    var i :| 0 <= i < |q| && q[i] == x;
    var j :| 0 <= j < |q| && q[j] == y;
  }

  // ----- what one operation does to the list

  lemma IdleList<H>(s: State<H>)
    requires Inv(s)
    ensures NoDuplicates(s.lru) && forall h :: h in s.lru ==> h !in s.clients
  {
    assert forall h :: h in s.lru ==> h in s.refs && h in s.cached;
  }

  lemma EraseThins<H>(s: State<H>, n: Name)
    requires Inv(s)
    ensures Thinned(s.lru, Erase(s, n).lru)
  {
    IdleList(s);
    hide Thinned, NoDuplicates, Counted, Charged, Aged;
    ThinnedDrop(s.lru, 0);
    assert s.lru[0..] == s.lru;
    if n in s.table {
      ThinnedWithout(s.lru, s.table[n]);
    }
  }

  lemma AdmitThins<H>(s: State<H>, h: H, i: Info)
    requires Inv(s) && h !in s.info
    ensures Thinned(s.lru, Admit(s, h, i).lru)
  {
    IdleList(s);
    hide Thinned, NoDuplicates, Charged, Aged;
    ThinnedDrop(s.lru, 0);
    assert s.lru[0..] == s.lru;
    if s.capacity > 0 && i.name in s.table {
      ThinnedWithout(s.lru, s.table[i.name]);
    }
  }

  lemma InsertThins<H>(s: State<H>, h: H, i: Info)
    requires Inv(s) && h !in s.info
    ensures Thinned(s.lru, Insert(s, h, i).lru)
  {
    hide Inv, Thinned, Admit, Evict, NeededRoom, NoDuplicates;
    AdmitInv(s, h, i);
    AdmitThins(s, h, i);
    var m := Admit(s, h, i);
    EvictPrefix(m);
    IdleList(m);
    ThinnedDrop(m.lru, |m.lru| - |Evict(m).lru|);
    ThinnedThen(s.lru, m.lru, Evict(m).lru);
  }

  lemma LookupThins<H>(s: State<H>, n: Name)
    requires Inv(s)
    ensures Thinned(s.lru, Lookup(s, n).lru)
  {
    IdleList(s);
    hide Thinned, NoDuplicates, Charged, Aged;
    ThinnedDrop(s.lru, 0);
    assert s.lru[0..] == s.lru;
    if n in s.table {
      ThinnedWithout(s.lru, s.table[n]);
    }
  }

  lemma PruneThins<H>(s: State<H>)
    requires Inv(s)
    ensures Thinned(s.lru, Prune(s).lru)
  {
    hide Inv, Thinned, Prune, NoDuplicates;
    PruneAll(s);
    IdleList(s);
    ThinnedDrop(s.lru, |s.lru|);
  }

  lemma ReleaseAppends<H>(s: State<H>, h: H)
    requires Inv(s) && h in s.clients
    ensures Release(s, h).lru == s.lru || Release(s, h).lru == s.lru + [h]
  {}

  /** No operation but Release puts an entry among the idle ones, and Release puts it last; entries that are idle
      before and after any operation keep their order. */
  lemma StepOrder<H>(s: State<H>, op: Op<H>)
    requires Inv(s) && Legal(s, op)
    ensures var q, r := s.lru, Step(s, op).lru;
            && (forall h :: h in r && h !in q ==> op == OpRelease(h) && r[|r| - 1] == h)
            && (forall x, y :: x in q && y in q && x in r && y in r ==> (Before(r, x, y) <==> Before(q, x, y)))
  {
    hide Inv, Before, Insert, Prune, Lookup, Release, Erase, NoDuplicates;
    IdleList(s);
    StepInv(s, op);
    IdleList(Step(s, op));
    match op {
      case OpSetCapacity(c) =>
      case OpInsert(h, i) => InsertThins(s, h, i);
      case OpLookup(n) => LookupThins(s, n);
      case OpRelease(h) => ReleaseAppends(s, h);
      case OpErase(n) => EraseThins(s, n);
      case OpPrune => PruneThins(s);
    }
    var q, r := s.lru, Step(s, op).lru;
    forall x, y | x in q && y in q && x in r && y in r ensures Before(r, x, y) <==> Before(q, x, y) {
      if op.OpRelease? {
        AppendedBefore(q, r, op.handle, x, y);
      } else if x != y {
        EitherBefore(q, x, y);
        EitherBefore(r, x, y);
      } else {
        NeverBeforeItself(q, x);
        NeverBeforeItself(r, x);
      }
    }
  }

  lemma NeverBeforeItself<H>(q: seq<H>, x: H)
    requires NoDuplicates(q)
    ensures !Before(q, x, x)
  {}

  lemma AppendedBefore<H>(q: seq<H>, r: seq<H>, h: H, x: H, y: H)
    requires NoDuplicates(r) && (r == q || r == q + [h]) && x in q && y in q
    ensures Before(r, x, y) <==> Before(q, x, y)
  {
    if Before(q, x, y) {
      var i, j :| 0 <= i < j < |q| && q[i] == x && q[j] == y;
      assert r[i] == x && r[j] == y;
    }
    if Before(r, x, y) {
      var i, j :| 0 <= i < j < |r| && r[i] == x && r[j] == y;
      var k :| 0 <= k < |q| && q[k] == y;
      assert r[k] == y && k == j;
      assert q[i] == x && q[j] == y;
    }
  }

  /** SetCapacity alone changes the capacity. */
  lemma StepCapacity<H>(s: State<H>, op: Op<H>)
    requires Inv(s) && Legal(s, op)
    ensures Step(s, op).capacity == if op.OpSetCapacity? then op.capacity else s.capacity
  {
    hide Inv, Insert, Prune, Lookup, Release, Erase;
    match op
    case OpSetCapacity(c) =>
    case OpInsert(h, i) => InsertEffect(s, h, i);
    case OpLookup(n) => LookupEffect(s, n);
    case OpRelease(h) => ReleaseEffect(s, h);
    case OpErase(n) => EraseEffect(s, n);
    case OpPrune => PruneEffect(s);
  }

  // ----- over whole runs

  ghost predicate IdleAt<H>(s: State<H>, ops: seq<Op<H>>, k: nat, h: H)
    requires Inv(s) && LegalRun(s, ops) && k <= |ops|
  {
    PrefixRun(s, ops, k);
    h in Run(s, ops[..k]).lru
  }

  /** Operation `k` is the Release that leaves `h` idle. */
  ghost predicate Idles<H>(s: State<H>, ops: seq<Op<H>>, k: nat, h: H)
    requires Inv(s) && LegalRun(s, ops) && k < |ops|
  {
    ops[k] == OpRelease(h) && IdleAt(s, ops, k + 1, h)
  }

  /** ... and the last before `m` to do so. */
  ghost predicate LastIdles<H>(s: State<H>, ops: seq<Op<H>>, k: nat, m: nat, h: H)
    requires Inv(s) && LegalRun(s, ops) && m <= |ops|
  {
    k < m && Idles(s, ops, k, h) && forall j :: k < j < m ==> !Idles(s, ops, j, h)
  }

  /** The list after `m` operations. */
  ghost function ListAt<H>(s: State<H>, ops: seq<Op<H>>, m: nat): seq<H>
    requires Inv(s) && LegalRun(s, ops) && m <= |ops|
  {
    PrefixRun(s, ops, m);
    Run(s, ops[..m]).lru
  }

  lemma NextList<H>(s: State<H>, ops: seq<Op<H>>, m: nat)
    requires Inv(s) && LegalRun(s, ops) && m < |ops|
    ensures var q, r := ListAt(s, ops, m), ListAt(s, ops, m + 1);
            && NoDuplicates(q) && NoDuplicates(r)
            && (forall h :: h in r && h !in q ==> ops[m] == OpRelease(h) && r[|r| - 1] == h)
            && (forall x, y :: x in q && y in q && x in r && y in r ==> (Before(r, x, y) <==> Before(q, x, y)))
            && (ops[m].OpRelease? ==> ops[m].handle !in q)
  {
    hide Inv, Step, Before, NoDuplicates, Run, LegalRun;
    PrefixRun(s, ops, m);
    PrefixRun(s, ops, m + 1);
    StepOrder(Run(s, ops[..m]), ops[m]);
    IdleList(Run(s, ops[..m]));
    IdleList(Run(s, ops[..m + 1]));
  }

  /** From an empty list: what is idle was left so by some Release. */
  lemma {:induction false} SomeRelease<H>(s: State<H>, ops: seq<Op<H>>, m: nat, h: H) returns (k: nat)
    requires Inv(s) && LegalRun(s, ops) && m <= |ops| && s.lru == [] && h in ListAt(s, ops, m)
    ensures LastIdles(s, ops, k, m, h)
    ensures forall j :: k < j <= m ==> h in ListAt(s, ops, j)
    decreases m
  {
    hide Inv, LegalRun, Run, Before, NoDuplicates;
    if m == 0 {
      assert ops[..0] == [];
      StartsEmpty(s, ops);
    }
    var l := m - 1;
    NextList(s, ops, l);
    if h in ListAt(s, ops, l) {
      k := SomeRelease(s, ops, l, h);
    } else {
      k := l;
    }
  }

  lemma StartsEmpty<H>(s: State<H>, ops: seq<Op<H>>)
    requires Inv(s) && LegalRun(s, ops)
    ensures ListAt(s, ops, 0) == s.lru
  {
    hide Inv, LegalRun;
    assert ops[..0] == [];
  }

  /** Idle entries stand in the order in which they were left idle, the oldest first. */
  lemma {:induction false} EarlierStandsBefore<H>(s: State<H>, ops: seq<Op<H>>, m: nat, x: H, y: H, k: nat, l: nat)
    requires Inv(s) && LegalRun(s, ops) && k < l < m <= |ops|
    requires Idles(s, ops, k, x) && Idles(s, ops, l, y)
    requires forall j :: k < j <= m ==> x in ListAt(s, ops, j)
    requires forall j :: l < j <= m ==> y in ListAt(s, ops, j)
    ensures Before(ListAt(s, ops, m), x, y)
    decreases m
  {
    hide Inv, LegalRun, Run, ListAt, Before, NoDuplicates, Idles;
    NextList(s, ops, m - 1);
    if l < m - 1 {
      EarlierStandsBefore(s, ops, m - 1, x, y, k, l);
    } else {
      Released(s, ops, l, y);
      LastAfter(ListAt(s, ops, m), x, y);
    }
  }

  lemma Released<H>(s: State<H>, ops: seq<Op<H>>, l: nat, y: H)
    requires Inv(s) && LegalRun(s, ops) && l < |ops| && Idles(s, ops, l, y)
    ensures y !in ListAt(s, ops, l) && y in ListAt(s, ops, l + 1) && ops[l] == OpRelease(y)
  {
    hide Inv, LegalRun, Run, Before, NoDuplicates;
    NextList(s, ops, l);
  }

  lemma LastAfter<H>(r: seq<H>, x: H, y: H)
    requires r != [] && r[|r| - 1] == y && x in r && x != y
    ensures Before(r, x, y)
  {}

  /** Over any run from an empty list: of two idle entries, `x` stands before `y` if and only if the Release that
      last left `x` idle came before the one that last left `y` idle. */
  lemma OrderOfRelease<H>(s: State<H>, ops: seq<Op<H>>, m: nat, x: H, y: H, k: nat, l: nat)
    requires Inv(s) && LegalRun(s, ops) && m <= |ops| && s.lru == []
    requires x in ListAt(s, ops, m) && y in ListAt(s, ops, m) && x != y
    requires LastIdles(s, ops, k, m, x) && LastIdles(s, ops, l, m, y)
    ensures Before(ListAt(s, ops, m), x, y) <==> k < l
  {
    hide Inv, LegalRun, Run, ListAt, Before, NoDuplicates, Idles;
    var k' := SomeRelease(s, ops, m, x);
    var l' := SomeRelease(s, ops, m, y);
    NextList(s, ops, m - 1);
    Released(s, ops, k, x);
    Released(s, ops, l, y);
    assert k' == k && l' == l;
    EitherBefore(ListAt(s, ops, m), x, y);
    if k < l {
      EarlierStandsBefore(s, ops, m, x, y, k, l);
    } else {
      EarlierStandsBefore(s, ops, m, y, x, l, k);
    }
  }
}
