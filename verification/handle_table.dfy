/** db/tableCache.h:8-107: the entries of the cache and the chained hash table over them. */
module HandleTables {
  import opened Bytes
  import opened Digits
  import LruModel

  type Name = LruModel.Name

  class LRUHandle {
    const key: Str
    const hash: Word
    const charge: nat
    ghost const isHead: bool   // the dummy head of a list or of a bucket
    var next_hash: LRUHandle?
    var next: LRUHandle?
    var prev: LRUHandle?
    var in_cache: bool
    var refs: nat

    constructor Entry(key: Str, hash: Word, charge: nat, inCache: bool, refs: nat)
      ensures this.key == key && this.hash == hash && this.charge == charge && !isHead
      ensures this.in_cache == inCache && this.refs == refs && next_hash == null
    {
      this.key, this.hash, this.charge, this.isHead := key, hash, charge, false;
      this.in_cache, this.refs, this.next_hash := inCache, refs, null;
      this.next, this.prev := null, null;
    }

    constructor Head()
      ensures isHead && next_hash == null
    {
      key, hash, charge, isHead := [], 0, 0, true;
      in_cache, refs, next_hash, next, prev := false, 0, null, null, null;
    }

    function Id(): Name { LruModel.Name(key, hash) }
  }

  /** The bucket of a hash. */
  function Slot(hash: Word, length: nat): (i: nat)
    requires length > 0
    ensures i < length
  {
    hash % length
  }

  ghost predicate PowerOfTwo(n: nat)
  {
    n == 1 || (n > 1 && n % 2 == 0 && PowerOfTwo(n / 2))
  }

  /** `a & b`, bit by bit. */
  function And(a: nat, b: nat): nat
  {
    if a == 0 || b == 0 then 0 else a % 2 * (b % 2) + 2 * And(a / 2, b / 2)
  }

  /** `hash & (length_ - 1)` is the remainder, length_ being a power of two. */
  lemma {:induction false} MaskIsSlot(hash: Word, length: nat)
    requires PowerOfTwo(length)
    ensures And(hash, length - 1) == Slot(hash, length)
    decreases length
  {
    if length > 1 {
      MaskIsSlot(hash / 2, length / 2);
      assert (length - 1) % 2 == 1 && (length - 1) / 2 == length / 2 - 1;
      HalfSlot(hash, length / 2);
    }
  }

  lemma HalfSlot(hash: Word, half: nat)
    requires half > 0
    ensures hash % (2 * half) == hash % 2 + 2 * (hash / 2 % half)
  {
    var q, r := hash / 2 / half, hash / 2 % half;
    assert hash == 2 * (half * q + r) + hash % 2;
    assert hash == (2 * half) * q + (2 * r + hash % 2);
    QuotientIs(hash, 2 * half, q, 2 * r + hash % 2);
  }

  /** The next_hash fields of `nodes`, as a value. */
  ghost function NextHash(nodes: set<LRUHandle>): map<LRUHandle, LRUHandle?>
    reads nodes`next_hash
  {
    map h | h in nodes :: h.next_hash
  }

  /** Following the links `m` from `head` visits `q` and stops. */
  ghost predicate Linked(m: map<LRUHandle, LRUHandle?>, head: LRUHandle, q: seq<LRUHandle>)
  {
    && head in m && m[head] == (if q == [] then null else q[0])
    && (forall j {:trigger q[j]} :: 0 <= j < |q| ==>
          q[j] in m && m[q[j]] == if j + 1 < |q| then q[j + 1] else null)
  }

  /** The buckets `chains` hold exactly the entries of `contents`, each where its hash says. */
  ghost predicate Buckets(chains: seq<seq<LRUHandle>>, contents: map<Name, LRUHandle>)
  {
    && (forall i :: 0 <= i < |chains| ==> LruModel.NoDuplicates(chains[i]))
    && (forall i, j :: 0 <= i < |chains| && 0 <= j < |chains[i]| ==>
          var h := chains[i][j];
          !h.isHead && Slot(h.hash, |chains|) == i && h.Id() in contents && contents[h.Id()] == h)
    && (forall n :: n in contents ==>
          contents[n].Id() == n && |chains| > 0 && contents[n] in chains[Slot(n.hash, |chains|)])
  }

  ghost predicate Heads(heads: seq<LRUHandle>)
  {
    && (forall i :: 0 <= i < |heads| ==> heads[i].isHead)
    && LruModel.NoDuplicates(heads)
  }

  ghost predicate AllLinked(m: map<LRUHandle, LRUHandle?>, heads: seq<LRUHandle>, chains: seq<seq<LRUHandle>>)
  {
    |heads| == |chains| && forall i :: 0 <= i < |heads| ==> Linked(m, heads[i], chains[i])
  }

  lemma MapWithout<K, V>(m: map<K, V>, k: K)
    requires k in m
    ensures |m - {k}| == |m| - 1
  {
    assert m.Keys == (m - {k}).Keys + {k};
  }

  // ----- bucket algebra

  /** The entry called `n` is the one at `k` in its bucket, or there is none. */
  lemma BucketSearch(chains: seq<seq<LRUHandle>>, contents: map<Name, LRUHandle>, n: Name, k: nat)
    requires Buckets(chains, contents) && |chains| > 0
    requires k <= |chains[Slot(n.hash, |chains|)]|
    requires var q := chains[Slot(n.hash, |chains|)];
             && (forall j :: 0 <= j < k ==> q[j].Id() != n)
             && (k < |q| ==> q[k].Id() == n)
    ensures var q := chains[Slot(n.hash, |chains|)];
            if k < |q| then n in contents && contents[n] == q[k] else n !in contents
  {}

  lemma BucketRemove(chains: seq<seq<LRUHandle>>, contents: map<Name, LRUHandle>, i: nat, k: nat)
    requires Buckets(chains, contents) && i < |chains| && k < |chains[i]|
    ensures var q := chains[i]; Buckets(chains[i := q[..k] + q[k + 1..]], contents - {q[k].Id()})
  {
    var q := chains[i];
    var q' := q[..k] + q[k + 1..];
    var chains', contents' := chains[i := q'], contents - {q[k].Id()};
    forall m: nat, j: nat | m < |chains'| && j < |chains'[m]|
      ensures var h: LRUHandle := chains'[m][j];
              !h.isHead && Slot(h.hash, |chains'|) == m && h.Id() in contents' && contents'[h.Id()] == h
    {
      if m == i {
        assert q'[j] == if j < k then q[j] else q[j + 1];
      }
    }
    forall n | n in contents'
      ensures contents'[n].Id() == n && contents'[n] in chains'[Slot(n.hash, |chains'|)]
    {
      var m := Slot(n.hash, |chains|);
      var j :| 0 <= j < |chains[m]| && chains[m][j] == contents[n];
      if m == i {
        assert j != k;
        assert q'[if j < k then j else j - 1] == contents[n];
      }
    }
  }

  lemma BucketReplace(chains: seq<seq<LRUHandle>>, contents: map<Name, LRUHandle>, i: nat, k: nat, h: LRUHandle)
    requires Buckets(chains, contents) && i < |chains| && k < |chains[i]|
    requires !h.isHead && h.Id() == chains[i][k].Id() && h !in contents.Values
    ensures Buckets(chains[i := chains[i][k := h]], contents[h.Id() := h])
  {
    var q := chains[i];
    var chains', contents' := chains[i := q[k := h]], contents[h.Id() := h];
    assert forall m, j :: 0 <= m < |chains| && 0 <= j < |chains[m]| ==> chains[m][j] in contents.Values;
    forall n | n in contents'
      ensures contents'[n].Id() == n && contents'[n] in chains'[Slot(n.hash, |chains'|)]
    {
      if n == h.Id() {
        assert chains'[i][k] == h;
      } else {
        var m := Slot(n.hash, |chains|);
        var j :| 0 <= j < |chains[m]| && chains[m][j] == contents[n];
        assert chains'[m][j] == contents[n];
      }
    }
  }

  lemma BucketAppend(chains: seq<seq<LRUHandle>>, contents: map<Name, LRUHandle>, h: LRUHandle)
    requires Buckets(chains, contents) && |chains| > 0
    requires !h.isHead && h.Id() !in contents && h !in contents.Values
    ensures var i := Slot(h.hash, |chains|);
            Buckets(chains[i := chains[i] + [h]], contents[h.Id() := h])
  {
    var i := Slot(h.hash, |chains|);
    var chains', contents' := chains[i := chains[i] + [h]], contents[h.Id() := h];
    assert forall m, j :: 0 <= m < |chains| && 0 <= j < |chains[m]| ==> chains[m][j] in contents.Values;
    forall n | n in contents'
      ensures contents'[n].Id() == n && contents'[n] in chains'[Slot(n.hash, |chains'|)]
    {
      if n == h.Id() {
        assert chains'[i][|chains[i]|] == h;
      } else {
        var m := Slot(n.hash, |chains|);
        var j :| 0 <= j < |chains[m]| && chains[m][j] == contents[n];
        assert chains'[m][j] == contents[n];
      }
    }
  }

  /** The node before position `k` of bucket `i`. */
  function Before(heads: seq<LRUHandle>, chains: seq<seq<LRUHandle>>, i: nat, k: nat): LRUHandle
    requires i < |heads| == |chains| && k <= |chains[i]|
  {
    if k == 0 then heads[i] else chains[i][k - 1]
  }

  /** Rewriting links of one bucket's nodes, and of handles in no bucket, leaves the others be. */
  lemma OthersLinked(m: map<LRUHandle, LRUHandle?>, m': map<LRUHandle, LRUHandle?>, heads: seq<LRUHandle>,
                     chains: seq<seq<LRUHandle>>, contents: map<Name, LRUHandle>, i: nat, o: nat)
    requires Heads(heads) && Buckets(chains, contents) && AllLinked(m, heads, chains)
    requires i < |chains| && o < |chains| && o != i
    requires forall x :: x in m ==>
               x in m' && (m'[x] == m[x] || x == heads[i] || x in chains[i] || (!x.isHead && x !in contents.Values))
    ensures Linked(m', heads[o], chains[o])
  {
    assert Linked(m, heads[o], chains[o]);
    assert heads[o] != heads[i];
    assert heads[o] !in chains[i];
    forall j | 0 <= j < |chains[o]|
      ensures var x := chains[o][j]; x in m' && m'[x] == m[x]
    {
      assert Slot(chains[o][j].hash, |chains|) == o;
      assert chains[o][j] in contents.Values;
    }
  }

  lemma BucketLinked(m: map<LRUHandle, LRUHandle?>, heads: seq<LRUHandle>, chains: seq<seq<LRUHandle>>, i: nat)
    requires AllLinked(m, heads, chains) && i < |chains|
    ensures |heads| == |chains| && Linked(m, heads[i], chains[i])
  {}

  lemma Relinked(m: map<LRUHandle, LRUHandle?>, m': map<LRUHandle, LRUHandle?>, heads: seq<LRUHandle>,
                 chains: seq<seq<LRUHandle>>, contents: map<Name, LRUHandle>, i: nat, q: seq<LRUHandle>)
    requires Heads(heads) && Buckets(chains, contents) && AllLinked(m, heads, chains)
    requires i < |chains| && Linked(m', heads[i], q)
    requires forall x :: x in m ==>
               x in m' && (m'[x] == m[x] || x == heads[i] || x in chains[i] || (!x.isHead && x !in contents.Values))
    ensures AllLinked(m', heads, chains[i := q])
  {
    forall o | 0 <= o < |heads| && o != i ensures Linked(m', heads[o], chains[o]) {
      OthersLinked(m, m', heads, chains, contents, i, o);
    }
  }

  lemma LinkedCut(m: map<LRUHandle, LRUHandle?>, head: LRUHandle, q: seq<LRUHandle>, k: nat)
    requires Linked(m, head, q) && k < |q| && LruModel.NoDuplicates(q) && head !in q
    ensures var pre := if k == 0 then head else q[k - 1];
            Linked(m[pre := m[q[k]]], head, q[..k] + q[k + 1..])
  {
    var pre := if k == 0 then head else q[k - 1];
    var m' := m[pre := m[q[k]]];
    var q' := q[..k] + q[k + 1..];
    assert m[q[k]] == if k + 1 < |q| then q[k + 1] else null;
    forall j | 0 <= j < |q'|
      ensures q'[j] in m' && m'[q'[j]] == if j + 1 < |q'| then q'[j + 1] else null
    {
      if j < k {
        assert q'[j] == q[j] && q[j] in m;
      } else {
        assert q'[j] == q[j + 1] && q[j + 1] in m && q[j + 1] != pre;
      }
    }
  }

  lemma NotHead(heads: seq<LRUHandle>, chains: seq<seq<LRUHandle>>, contents: map<Name, LRUHandle>, i: nat)
    requires Heads(heads) && Buckets(chains, contents) && i < |chains| == |heads|
    ensures heads[i] !in chains[i] && heads[i].isHead && LruModel.NoDuplicates(chains[i])
    ensures forall h :: h in chains[i] ==> h in contents.Values
  {
    forall h | h in chains[i] ensures h in contents.Values && !h.isHead {
      var j :| 0 <= j < |chains[i]| && chains[i][j] == h;
    }
  }

  lemma LinkedRemove(m: map<LRUHandle, LRUHandle?>, heads: seq<LRUHandle>, chains: seq<seq<LRUHandle>>,
                     contents: map<Name, LRUHandle>, i: nat, k: nat)
    requires Heads(heads) && Buckets(chains, contents) && AllLinked(m, heads, chains)
    requires i < |chains| && k < |chains[i]|
    ensures var q := chains[i];
            q[k] in m && AllLinked(m[Before(heads, chains, i, k) := m[q[k]]], heads, chains[i := q[..k] + q[k + 1..]])
  {
    var q := chains[i];
    var m' := m[Before(heads, chains, i, k) := m[q[k]]];
    hide Heads, Buckets, AllLinked;
    BucketLinked(m, heads, chains, i);
    NotHead(heads, chains, contents, i);
    LinkedCut(m, heads[i], q, k);
    Relinked(m, m', heads, chains, contents, i, q[..k] + q[k + 1..]);
  }

  /** `h` in place of the entry at `k`, or after the last one. */
  function Put(q: seq<LRUHandle>, k: nat, h: LRUHandle): seq<LRUHandle>
    requires k <= |q|
  {
    if k < |q| then q[k := h] else q + [h]
  }

  /** What the entry at `k` points to, if there is one. */
  function NextAt(m: map<LRUHandle, LRUHandle?>, q: seq<LRUHandle>, k: nat): LRUHandle?
  {
    if k < |q| && q[k] in m then m[q[k]] else null
  }

  lemma LinkedPut(m: map<LRUHandle, LRUHandle?>, head: LRUHandle, q: seq<LRUHandle>, k: nat, h: LRUHandle)
    requires Linked(m, head, q) && k <= |q| && LruModel.NoDuplicates(q) && head !in q && h != head && h !in q
    ensures var pre := if k == 0 then head else q[k - 1];
            Linked(m[h := NextAt(m, q, k)][pre := h], head, Put(q, k, h))
  {
    var pre := if k == 0 then head else q[k - 1];
    var m' := m[h := NextAt(m, q, k)][pre := h];
    var q' := Put(q, k, h);
    forall j | 0 <= j < |q'|
      ensures q'[j] in m' && m'[q'[j]] == if j + 1 < |q'| then q'[j + 1] else null
    {
      if j != k {
        assert q'[j] == q[j] && q[j] in m && q[j] != h;
      }
    }
  }

  /** Once `h` is linked in at `k` of bucket `i`, every bucket is linked as it should be. */
  ghost predicate LinkedWith(m: map<LRUHandle, LRUHandle?>, heads: seq<LRUHandle>, chains: seq<seq<LRUHandle>>,
                             i: nat, k: nat, h: LRUHandle)
  {
    && i < |heads| == |chains| && k <= |chains[i]|
    && AllLinked(m[h := NextAt(m, chains[i], k)][Before(heads, chains, i, k) := h], heads,
                 chains[i := Put(chains[i], k, h)])
  }

  lemma LinkedInsert(m: map<LRUHandle, LRUHandle?>, heads: seq<LRUHandle>, chains: seq<seq<LRUHandle>>,
                     contents: map<Name, LRUHandle>, i: nat, k: nat, h: LRUHandle)
    requires Heads(heads) && Buckets(chains, contents) && AllLinked(m, heads, chains)
    requires i < |chains| && k <= |chains[i]| && !h.isHead && h !in contents.Values
    ensures LinkedWith(m, heads, chains, i, k, h)
  {
    hide Heads, Buckets, Linked, AllLinked;
    var q := chains[i];
    BucketLinked(m, heads, chains, i);
    NotHead(heads, chains, contents, i);
    LinkedPut(m, heads[i], q, k, h);
    hide NextAt, Put;
    Relinked(m, m[h := NextAt(m, q, k)][Before(heads, chains, i, k) := h], heads, chains, contents, i, Put(q, k, h));
  }

  // ----- moving every entry to new buckets

  ghost predicate Placed(chains: seq<seq<LRUHandle>>, contents: map<Name, LRUHandle>)
  {
    && (forall i :: 0 <= i < |chains| ==> LruModel.NoDuplicates(chains[i]))
    && (forall i, j :: 0 <= i < |chains| && 0 <= j < |chains[i]| ==>
          var h := chains[i][j];
          !h.isHead && Slot(h.hash, |chains|) == i && h.Id() in contents && contents[h.Id()] == h)
  }

  ghost predicate Names(chains: seq<seq<LRUHandle>>, moved: set<Name>, inside: bool)
  {
    forall i, j :: 0 <= i < |chains| && 0 <= j < |chains[i]| ==> (chains[i][j].Id() in moved <==> inside)
  }

  ghost predicate Home(chains: seq<seq<LRUHandle>>, h: LRUHandle)
  {
    |chains| > 0 && h in chains[Slot(h.hash, |chains|)]
  }

  /** The entries called `moved` are in the new buckets `filled`, the others still in `rest`. */
  ghost predicate Draining(rest: seq<seq<LRUHandle>>, filled: seq<seq<LRUHandle>>, contents: map<Name, LRUHandle>,
                           moved: set<Name>)
  {
    && Placed(rest, contents) && Names(rest, moved, false)
    && Placed(filled, contents) && Names(filled, moved, true)
    && moved <= contents.Keys
    && (forall n :: n in contents ==> contents[n].Id() == n && Home(if n in moved then filled else rest, contents[n]))
  }

  lemma DrainStart(chains: seq<seq<LRUHandle>>, filled: seq<seq<LRUHandle>>, contents: map<Name, LRUHandle>)
    requires Buckets(chains, contents) && forall i :: 0 <= i < |filled| ==> filled[i] == []
    ensures Draining(chains, filled, contents, {})
  {}

  lemma DrainEnd(rest: seq<seq<LRUHandle>>, filled: seq<seq<LRUHandle>>, contents: map<Name, LRUHandle>,
                 moved: set<Name>)
    requires Draining(rest, filled, contents, moved) && |filled| > 0 && forall i :: 0 <= i < |rest| ==> rest[i] == []
    ensures Buckets(filled, contents) && moved == contents.Keys
  {
    forall n | n in contents ensures n in moved {
      assert Home(if n in moved then filled else rest, contents[n]);
    }
  }

  lemma DrainRest(rest: seq<seq<LRUHandle>>, contents: map<Name, LRUHandle>, moved: set<Name>, i: nat)
    requires Placed(rest, contents) && Names(rest, moved, false) && i < |rest| && rest[i] != []
    ensures var node := rest[i][0];
            && Placed(rest[i := rest[i][1..]], contents)
            && Names(rest[i := rest[i][1..]], moved + {node.Id()}, false)
  {
    var rest' := rest[i := rest[i][1..]];
    assert forall a, j :: 0 <= a < |rest'| && 0 <= j < |rest'[a]| ==>
        rest'[a][j] == if a == i then rest[i][j + 1] else rest[a][j];
  }

  lemma DrainInto(filled: seq<seq<LRUHandle>>, contents: map<Name, LRUHandle>, moved: set<Name>, node: LRUHandle)
    requires Placed(filled, contents) && Names(filled, moved, true) && |filled| > 0
    requires !node.isHead && node.Id() in contents && contents[node.Id()] == node && node.Id() !in moved
    ensures var s := Slot(node.hash, |filled|);
            && Placed(filled[s := [node] + filled[s]], contents)
            && Names(filled[s := [node] + filled[s]], moved + {node.Id()}, true)
  {
    var s := Slot(node.hash, |filled|);
    var filled' := filled[s := [node] + filled[s]];
    assert forall a, j :: 0 <= a < |filled'| && 0 <= j < |filled'[a]| ==>
        filled'[a][j] == if a != s then filled[a][j] else if j == 0 then node else filled[s][j - 1];
  }

  lemma DrainHome(rest: seq<seq<LRUHandle>>, filled: seq<seq<LRUHandle>>, contents: map<Name, LRUHandle>,
                  moved: set<Name>, i: nat, n: Name)
    requires i < |rest| && rest[i] != [] && |filled| > 0 && n in contents && contents[n].Id() == n
    requires Home(if n in moved then filled else rest, contents[n])
    ensures var node := rest[i][0];
            var s := Slot(node.hash, |filled|);
            Home(if n in moved + {node.Id()} then filled[s := [node] + filled[s]] else rest[i := rest[i][1..]],
                 contents[n])
            || (n == node.Id() && n !in moved && contents[n] != node)
  {
    var node := rest[i][0];
    var s := Slot(node.hash, |filled|);
    var rest', filled' := rest[i := rest[i][1..]], filled[s := [node] + filled[s]];
    var h := contents[n];
    if n in moved {
      var a := Slot(h.hash, |filled|);
      var j :| 0 <= j < |filled[a]| && filled[a][j] == h;
      assert filled'[a][if a == s then j + 1 else j] == h;
    } else if n == node.Id() {
      assert filled'[s][0] == node;
    } else {
      var a := Slot(h.hash, |rest|);
      var j :| 0 <= j < |rest[a]| && rest[a][j] == h;
      if a == i {
        assert j > 0 && rest'[a][j - 1] == h;
      } else {
        assert rest'[a][j] == h;
      }
    }
  }

  lemma FirstOf(rest: seq<seq<LRUHandle>>, filled: seq<seq<LRUHandle>>, contents: map<Name, LRUHandle>,
                moved: set<Name>, i: nat)
    requires Draining(rest, filled, contents, moved) && i < |rest| && rest[i] != []
    ensures var node := rest[i][0];
            && node.Id() !in moved && !node.isHead && node.Id() in contents && contents[node.Id()] == node
  {}

  lemma DrainOne(rest: seq<seq<LRUHandle>>, filled: seq<seq<LRUHandle>>, contents: map<Name, LRUHandle>,
                 moved: set<Name>, i: nat)
    requires Draining(rest, filled, contents, moved) && i < |rest| && rest[i] != [] && |filled| > 0
    ensures var node := rest[i][0];
            var s := Slot(node.hash, |filled|);
            && node.Id() !in moved && !node.isHead
            && Draining(rest[i := rest[i][1..]], filled[s := [node] + filled[s]], contents, moved + {node.Id()})
  {
    hide Placed, Names, Home;
    FirstOf(rest, filled, contents, moved, i);
    var node := rest[i][0];
    var s := Slot(node.hash, |filled|);
    DrainRest(rest, contents, moved, i);
    DrainInto(filled, contents, moved, node);
    forall n | n in contents
      ensures Home(if n in moved + {node.Id()} then filled[s := [node] + filled[s]] else rest[i := rest[i][1..]],
                   contents[n])
    {
      DrainHome(rest, filled, contents, moved, i, n);
    }
  }

  lemma Unaffected(m: map<LRUHandle, LRUHandle?>, m': map<LRUHandle, LRUHandle?>, head: LRUHandle, q: seq<LRUHandle>)
    requires Linked(m, head, q)
    requires forall x :: x in m && (x == head || x in q) ==> x in m' && m'[x] == m[x]
    ensures Linked(m', head, q)
  {}

  lemma LinkedPop(m: map<LRUHandle, LRUHandle?>, m': map<LRUHandle, LRUHandle?>, head: LRUHandle, q: seq<LRUHandle>)
    requires Linked(m, head, q) && q != []
    requires head in m' && m'[head] == m[q[0]]
    requires forall x :: x in q[1..] ==> x in m' && x in m && m'[x] == m[x]
    ensures Linked(m', head, q[1..])
  {
    var t := q[1..];
    forall j | 0 <= j < |t|
      ensures t[j] in m' && m'[t[j]] == if j + 1 < |t| then t[j + 1] else null
    {
      assert t[j] == q[j + 1] && t[j] in t;
    }
  }

  lemma LinkedPush(m: map<LRUHandle, LRUHandle?>, m': map<LRUHandle, LRUHandle?>, head: LRUHandle, q: seq<LRUHandle>,
                   node: LRUHandle)
    requires Linked(m, head, q)
    requires head in m' && m'[head] == node && node in m' && m'[node] == m[head]
    requires forall x :: x in q ==> x in m' && x in m && m'[x] == m[x]
    ensures Linked(m', head, [node] + q)
  {
    var t := [node] + q;
    forall j | 0 <= j < |t|
      ensures t[j] in m' && m'[t[j]] == if j + 1 < |t| then t[j + 1] else null
    {
      if j > 0 {
        assert t[j] == q[j - 1] && t[j] in q;
      }
    }
  }

  /** The three assignments that move the first entry of old bucket `i` to the front of a new one. */
  ghost function Moved(m: map<LRUHandle, LRUHandle?>, h: LRUHandle, node: LRUHandle, ptr: LRUHandle)
    : map<LRUHandle, LRUHandle?>
    requires node in m && ptr in m
  {
    m[h := m[node]][node := m[ptr]][ptr := node]
  }

  lemma LinkedDomain(m: map<LRUHandle, LRUHandle?>, head: LRUHandle, q: seq<LRUHandle>)
    requires Linked(m, head, q)
    ensures head in m && forall x :: x in q ==> x in m
  {}

  lemma AllLinkedFrom(m: map<LRUHandle, LRUHandle?>, heads: seq<LRUHandle>, chains: seq<seq<LRUHandle>>)
    requires |heads| == |chains| && forall a :: 0 <= a < |chains| ==> Linked(m, heads[a], chains[a])
    ensures AllLinked(m, heads, chains)
  {}

  /** The entry about to move stands nowhere else, and no entry is a head. */
  lemma EntriesApart(rest: seq<seq<LRUHandle>>, filled: seq<seq<LRUHandle>>, contents: map<Name, LRUHandle>,
                     moved: set<Name>, i: nat)
    requires Draining(rest, filled, contents, moved) && i < |rest| && rest[i] != []
    ensures !rest[i][0].isHead
    ensures forall a, x :: 0 <= a < |rest| && x in rest[a] ==> !x.isHead && (a != i ==> x != rest[i][0])
    ensures forall x :: x in rest[i][1..] ==> !x.isHead && x != rest[i][0]
    ensures forall a, x :: 0 <= a < |filled| && x in filled[a] ==> !x.isHead && x != rest[i][0]
  {}

  lemma HeadsApart(oldHeads: seq<LRUHandle>, targetHeads: seq<LRUHandle>)
    requires Heads(oldHeads + targetHeads)
    ensures forall a :: 0 <= a < |oldHeads| ==> oldHeads[a].isHead
    ensures forall a :: 0 <= a < |targetHeads| ==> targetHeads[a].isHead
    ensures forall a, b :: 0 <= a < |oldHeads| && 0 <= b < |oldHeads| && a != b ==> oldHeads[a] != oldHeads[b]
    ensures forall a, b :: 0 <= a < |targetHeads| && 0 <= b < |targetHeads| && a != b ==>
            targetHeads[a] != targetHeads[b]
    ensures forall a, b :: 0 <= a < |oldHeads| && 0 <= b < |targetHeads| ==> oldHeads[a] != targetHeads[b]
  {
    var all := oldHeads + targetHeads;
    assert forall a :: 0 <= a < |oldHeads| ==> all[a] == oldHeads[a];
    assert forall a :: 0 <= a < |targetHeads| ==> all[|oldHeads| + a] == targetHeads[a];
  }

  lemma MoveLinks(m: map<LRUHandle, LRUHandle?>, oldHeads: seq<LRUHandle>, rest: seq<seq<LRUHandle>>,
                  targetHeads: seq<LRUHandle>, filled: seq<seq<LRUHandle>>, contents: map<Name, LRUHandle>,
                  moved: set<Name>, i: nat)
    requires AllLinked(m, oldHeads, rest) && AllLinked(m, targetHeads, filled) && Heads(oldHeads + targetHeads)
    requires Draining(rest, filled, contents, moved) && i < |rest| && rest[i] != [] && |filled| > 0
    ensures var node := rest[i][0];
            var s := Slot(node.hash, |filled|);
            && node in m && targetHeads[s] in m
            && var m' := Moved(m, oldHeads[i], node, targetHeads[s]);
            && AllLinked(m', oldHeads, rest[i := rest[i][1..]])
            && AllLinked(m', targetHeads, filled[s := [node] + filled[s]])
  {
    hide Heads, Draining, Linked, AllLinked;
    var node := rest[i][0];
    var s := Slot(node.hash, |filled|);
    BucketLinked(m, oldHeads, rest, i);
    BucketLinked(m, targetHeads, filled, s);
    LinkedDomain(m, oldHeads[i], rest[i]);
    LinkedDomain(m, targetHeads[s], filled[s]);
    var m' := Moved(m, oldHeads[i], node, targetHeads[s]);
    EntriesApart(rest, filled, contents, moved, i);
    HeadsApart(oldHeads, targetHeads);
    forall a | 0 <= a < |rest|
      ensures Linked(m', oldHeads[a], if a == i then rest[i][1..] else rest[a])
    {
      BucketLinked(m, oldHeads, rest, a);
      if a == i {
        LinkedPop(m, m', oldHeads[i], rest[i]);
      } else {
        Unaffected(m, m', oldHeads[a], rest[a]);
      }
    }
    forall a | 0 <= a < |filled|
      ensures Linked(m', targetHeads[a], if a == s then [node] + filled[s] else filled[a])
    {
      BucketLinked(m, targetHeads, filled, a);
      LinkedDomain(m, targetHeads[a], filled[a]);
      if a == s {
        LinkedPush(m, m', targetHeads[s], filled[s], node);
      } else {
        Unaffected(m, m', targetHeads[a], filled[a]);
      }
    }
    AllLinkedFrom(m', oldHeads, rest[i := rest[i][1..]]);
    AllLinkedFrom(m', targetHeads, filled[s := [node] + filled[s]]);
  }

  lemma MoreNodes(m: map<LRUHandle, LRUHandle?>, m': map<LRUHandle, LRUHandle?>, heads: seq<LRUHandle>,
                  chains: seq<seq<LRUHandle>>)
    requires AllLinked(m, heads, chains) && forall x :: x in m ==> x in m' && m'[x] == m[x]
    ensures AllLinked(m', heads, chains)
  {
    forall i | 0 <= i < |heads| ensures Linked(m', heads[i], chains[i]) {
      assert Linked(m, heads[i], chains[i]);
    }
  }

  lemma NothingLinked(m: map<LRUHandle, LRUHandle?>, heads: seq<LRUHandle>, chains: seq<seq<LRUHandle>>)
    requires |heads| == |chains| && forall i :: 0 <= i < |chains| ==> chains[i] == []
    requires forall h :: h in heads ==> h in m && m[h] == null
    ensures AllLinked(m, heads, chains)
  {}

  lemma HeadsJoin(a: seq<LRUHandle>, b: seq<LRUHandle>)
    requires Heads(a) && Heads(b) && forall h :: h in a ==> h !in b
    ensures Heads(a + b)
  {
    assert forall i, j :: 0 <= i < |a| && 0 <= j < |b| ==> a[i] in a && b[j] in b;
  }

  class HandleTable {
    var length_: nat
    var elems_: nat
    var list_: array<LRUHandle>
    ghost var chains: seq<seq<LRUHandle>>        // the entries of each bucket
    ghost var contents: map<Name, LRUHandle>     // the map the table stands for
    ghost var nodes: set<LRUHandle>              // every handle whose next_hash the table may write

    constructor ()
      ensures Valid() && contents == map[] && length_ == 4 && fresh(nodes) && forall h :: h in nodes ==> h.isHead
    {
      length_, elems_ := 0, 0;
      list_ := new LRUHandle[0];
      chains, contents, nodes := [], map[], {};
      new;
      Resize();
    }

    ghost predicate Chained()
      reads this, list_, nodes`next_hash
    {
      && list_.Length == length_ == |chains|
      && elems_ == |contents|
      && Heads(list_[..]) && Buckets(chains, contents)
      && AllLinked(NextHash(nodes), list_[..], chains)
    }

    ghost predicate Valid()
      reads this, list_, nodes`next_hash
    {
      Chained() && 4 <= length_ && elems_ <= length_ && PowerOfTwo(length_)
    }

    /** The node in its bucket after which an entry called `n` is or would be linked. */
    method FindPointer(key: Str, hash: Word) returns (start: LRUHandle, ghost k: nat)
      requires Chained() && length_ > 0 && PowerOfTwo(length_)
      ensures var i, n := Slot(hash, length_), LruModel.Name(key, hash);
              && k <= |chains[i]| && start == Before(list_[..], chains, i, k)
              && (if k < |chains[i]|
                  then n in contents && contents[n] == chains[i][k] && chains[i][k].Id() == n && contents[n] in nodes
                  else n !in contents)
      ensures start in nodes && start.next_hash == var q := chains[Slot(hash, length_)]; if k < |q| then q[k] else null
    {
      hide Buckets, Heads, PowerOfTwo, And;
      MaskIsSlot(hash, length_);
      var i := And(hash, length_ - 1);
      start := list_[i];
      k := 0;
      ghost var q := chains[i];
      assert Linked(NextHash(nodes), list_[i], q);
      while start.next_hash != null && (start.next_hash.hash != hash || key != start.next_hash.key)
        invariant k <= |q|
        invariant start == (if k == 0 then list_[i] else q[k - 1]) && start in nodes
        invariant forall j :: 0 <= j < k ==> q[j].Id() != LruModel.Name(key, hash)
        decreases |q| - k
      {
        assert q[k] in nodes;
        start := start.next_hash;
        k := k + 1;
      }
      BucketSearch(chains, contents, LruModel.Name(key, hash), k);
      assert start == Before(list_[..], chains, i, k);
      assert start.next_hash == if k < |q| then q[k] else null;
    }

    method Lookup(key: Str, hash: Word) returns (r: LRUHandle?)
      requires Valid()
      ensures var n := LruModel.Name(key, hash); r == if n in contents then contents[n] else null
    {
      var start, k := FindPointer(key, hash);
      r := start.next_hash;
    }

    method Remove(key: Str, hash: Word) returns (r: LRUHandle?)
      requires Valid()
      modifies this, nodes`next_hash
      ensures Valid() && list_ == old(list_) && nodes == old(nodes)
      ensures var n := LruModel.Name(key, hash);
              && contents == old(contents) - {n}
              && r == if n in old(contents) then old(contents)[n] else null
    {
      hide Buckets, Heads, Linked, AllLinked, PowerOfTwo;
      ghost var i := Slot(hash, length_);
      ghost var n := LruModel.Name(key, hash);
      var pre, k := FindPointer(key, hash);
      r := pre.next_hash;
      if r == null {
        assert contents == contents - {n};
        return;
      }
      ghost var heads, q := list_[..], chains[i];
      BucketRemove(chains, contents, i, k);
      LinkedRemove(NextHash(nodes), heads, chains, contents, i, k);
      MapWithout(contents, n);
      ghost var m := NextHash(nodes)[pre := r.next_hash];
      pre.next_hash := r.next_hash;
      elems_ := elems_ - 1;
      chains := chains[i := q[..k] + q[k + 1..]];
      contents := contents - {n};
      assert NextHash(nodes) == m && list_[..] == heads;
    }

    /** `h` takes the place of what `pre` points to, or the end. */
    static method Link(ghost nodes: set<LRUHandle>, pre: LRUHandle, h: LRUHandle) returns (r: LRUHandle?)
      requires pre in nodes
      modifies pre`next_hash, h`next_hash
      ensures r == old(pre.next_hash)
      ensures NextHash(nodes + {h}) ==
              old(NextHash(nodes))[h := old(if pre.next_hash == null then null else pre.next_hash.next_hash)][pre := h]
    {
      r := pre.next_hash;
      h.next_hash := if r == null then null else r.next_hash;
      pre.next_hash := h;
    }

    /** Insert up to the growth check: `h` takes the place of the entry with its name, or the end
        of its bucket. */
    method Splice(h: LRUHandle) returns (r: LRUHandle?)
      requires Chained() && length_ > 0 && PowerOfTwo(length_) && !h.isHead && h !in contents.Values
      modifies this, nodes`next_hash, h`next_hash
      ensures Chained() && length_ == old(length_) && list_ == old(list_) && nodes == old(nodes) + {h}
      ensures contents == old(contents)[h.Id() := h]
      ensures r == if h.Id() in old(contents) then old(contents)[h.Id()] else null
    {
      hide Buckets, Heads, Linked, AllLinked, PowerOfTwo;
      ghost var i := Slot(h.hash, length_);
      ghost var n := h.Id();
      var pre, k := FindPointer(h.key, h.hash);
      ghost var heads, q := list_[..], chains[i];
      LinkedInsert(NextHash(nodes), heads, chains, contents, i, k, h);
      if k < |q| {
        BucketReplace(chains, contents, i, k, h);
      } else {
        BucketAppend(chains, contents, h);
      }
      ghost var m := NextHash(nodes)[h := NextAt(NextHash(nodes), q, k)][pre := h];
      r := Link(nodes, pre, h);
      nodes := nodes + {h};
      chains := chains[i := Put(q, k, h)];
      contents := contents[n := h];
      if r == null {
        elems_ := elems_ + 1;
      }
      assert NextHash(nodes) == m && list_[..] == heads;
    }

    method Insert(h: LRUHandle) returns (r: LRUHandle?)
      requires Valid() && !h.isHead && h !in contents.Values
      modifies this, nodes`next_hash, h`next_hash
      ensures Valid() && forall x :: x in nodes ==> x in old(nodes) || x == h || (fresh(x) && x.isHead)
      ensures contents == old(contents)[h.Id() := h]
      ensures r == if h.Id() in old(contents) then old(contents)[h.Id()] else null
      ensures if |contents| <= old(length_) then length_ == old(length_) && list_ == old(list_)
              else length_ == 4 || length_ / 2 < |contents|
    {
      hide Buckets, Heads, AllLinked, PowerOfTwo;
      r := Splice(h);
      if elems_ > length_ {
        Resize();
      }
    }

    /** `new_length` buckets, each with a dummy head: db/tableCache.h:87-88 leaves null slots, which
        its own loops then follow, so the heads are allocated here. */
    static method NewBuckets(new_length: nat) returns (a: array<LRUHandle>, ghost heads: set<LRUHandle>)
      ensures fresh(a) && a.Length == new_length && fresh(heads) && Heads(a[..])
      ensures forall h :: h in heads <==> h in a[..]
      ensures forall h :: h in heads ==> h.next_hash == null && h.isHead
    {
      var dummy := new LRUHandle.Head();
      a := new LRUHandle[new_length](_ => dummy);
      heads := {};
      for i := 0 to new_length
        invariant fresh(heads) && Heads(a[..i])
        invariant forall h :: h in heads <==> h in a[..i]
        invariant forall h :: h in heads ==> h.next_hash == null && h.isHead
      {
        a[i] := new LRUHandle.Head();
        heads := heads + {a[i]};
        assert a[..i + 1] == a[..i] + [a[i]];
      }
      assert a[..new_length] == a[..];
    }

    /** Every entry is in exactly one old or one new bucket. */
    ghost predicate Resizing(all: set<LRUHandle>, oldHeads: seq<LRUHandle>, rest: seq<seq<LRUHandle>>,
                             targetHeads: seq<LRUHandle>, filled: seq<seq<LRUHandle>>, moved: set<Name>)
      reads this, all`next_hash
    {
      && Draining(rest, filled, contents, moved)
      && AllLinked(NextHash(all), oldHeads, rest) && AllLinked(NextHash(all), targetHeads, filled)
    }

    /** db/tableCache.h:93-99; line 97 reads `ptr->next`, where `ptr->next_hash` is meant. */
    method MoveFirst(h: LRUHandle, new_list: array<LRUHandle>, ghost all: set<LRUHandle>,
                     ghost oldHeads: seq<LRUHandle>, ghost rest: seq<seq<LRUHandle>>,
                     ghost filled: seq<seq<LRUHandle>>, ghost moved: set<Name>, ghost i: nat)
      requires Heads(oldHeads + new_list[..]) && Resizing(all, oldHeads, rest, new_list[..], filled, moved)
      requires i < |rest| && rest[i] != [] && i < |oldHeads| && h == oldHeads[i] && |filled| > 0 &&
               PowerOfTwo(new_list.Length)
      modifies all`next_hash
      ensures new_list[..] == old(new_list[..])
      ensures var node := rest[i][0];
              var s := Slot(node.hash, |filled|);
              && node.Id() !in moved
              && Resizing(all, oldHeads, rest[i := rest[i][1..]], new_list[..], filled[s := [node] + filled[s]],
                          moved + {node.Id()})
    {
      hide Buckets, Heads, AllLinked, Draining, PowerOfTwo, And;
      ghost var m, targetHeads := NextHash(all), new_list[..];
      MoveLinks(m, oldHeads, rest, targetHeads, filled, contents, moved, i);
      DrainOne(rest, filled, contents, moved, i);
      BucketLinked(m, oldHeads, rest, i);
      BucketLinked(m, targetHeads, filled, 0);
      HeadsApart(oldHeads, targetHeads);
      EntriesApart(rest, filled, contents, moved, i);
      var node := h.next_hash;
      assert node == rest[i][0];
      h.next_hash := node.next_hash;
      MaskIsSlot(node.hash, new_list.Length);
      var ptr := new_list[And(node.hash, new_list.Length - 1)];
      node.next_hash := ptr.next_hash;
      ptr.next_hash := node;
      assert NextHash(all) == Moved(m, h, node, ptr);
      assert new_list[..] == targetHeads;
    }

    /** The inner loop of Resize: all of old bucket `i`. */
    method MoveBucket(h: LRUHandle, new_list: array<LRUHandle>, ghost all: set<LRUHandle>,
                      ghost oldHeads: seq<LRUHandle>, ghost rest0: seq<seq<LRUHandle>>,
                      ghost filled0: seq<seq<LRUHandle>>, ghost moved0: set<Name>, ghost i: nat, count0: nat)
      returns (count: nat, ghost rest: seq<seq<LRUHandle>>, ghost filled: seq<seq<LRUHandle>>, ghost moved: set<Name>)
      requires Heads(oldHeads + new_list[..]) && Resizing(all, oldHeads, rest0, new_list[..], filled0, moved0)
      requires i < |rest0| == |oldHeads| && h == oldHeads[i] && |filled0| == new_list.Length > 0 && count0 == |moved0|
      requires PowerOfTwo(new_list.Length)
      modifies all`next_hash
      ensures new_list[..] == old(new_list[..])
      ensures Resizing(all, oldHeads, rest, new_list[..], filled, moved)
      ensures |rest| == |rest0| && rest[i] == [] && |filled| == |filled0| && count == |moved|
      ensures forall a :: 0 <= a < |rest| && a != i ==> rest[a] == rest0[a]
    {
      hide Buckets, Heads, AllLinked, Draining, PowerOfTwo;
      count, rest, filled, moved := count0, rest0, filled0, moved0;
      ghost var targetHeads := new_list[..];
      BucketLinked(NextHash(all), oldHeads, rest, i);
      while h.next_hash != null
        invariant Resizing(all, oldHeads, rest, targetHeads, filled, moved) && new_list[..] == targetHeads
        invariant |rest| == |rest0| && |filled| == |filled0| && count == |moved|
        invariant forall a :: 0 <= a < |rest| && a != i ==> rest[a] == rest0[a]
        invariant h.next_hash == if rest[i] == [] then null else rest[i][0]
        decreases |rest[i]|
      {
        ghost var node := rest[i][0];
        ghost var s := Slot(node.hash, |filled|);
        MoveFirst(h, new_list, all, oldHeads, rest, filled, moved, i);
        count := count + 1;
        rest, filled, moved := rest[i := rest[i][1..]], filled[s := [node] + filled[s]], moved + {node.Id()};
        BucketLinked(NextHash(all), oldHeads, rest, i);
      }
    }

    lemma StartResizing(targetHeads: seq<LRUHandle>, newHeads: set<LRUHandle>)
      requires Chained() && Heads(targetHeads)
      requires forall h :: h in newHeads <==> h in targetHeads
      requires forall h :: h in newHeads ==> h.next_hash == null && h !in nodes
      ensures Resizing(nodes + newHeads, list_[..], chains, targetHeads, seq(|targetHeads|, _ => []), {})
      ensures Heads(list_[..] + targetHeads)
    {
      var all := nodes + newHeads;
      var filled: seq<seq<LRUHandle>> := seq(|targetHeads|, _ => []);
      forall h | h in list_[..] ensures h in nodes {
        var i :| 0 <= i < |list_[..]| && list_[..][i] == h;
        BucketLinked(NextHash(nodes), list_[..], chains, i);
      }
      hide Buckets, Heads, AllLinked, Draining;
      DrainStart(chains, filled, contents);
      MoreNodes(NextHash(nodes), NextHash(all), list_[..], chains);
      NothingLinked(NextHash(all), targetHeads, filled);
      HeadsJoin(list_[..], targetHeads);
    }

    method Resize()
      requires Chained()
      modifies this, nodes`next_hash
      ensures Valid() && contents == old(contents) && (length_ == 4 || length_ / 2 < |contents|)
      ensures forall x :: x in nodes ==> x in old(nodes) || (fresh(x) && x.isHead)
    {
      hide Buckets, Heads, AllLinked;
      var new_length := 4;
      while new_length < elems_
        invariant 4 <= new_length && PowerOfTwo(new_length) && (new_length == 4 || new_length / 2 < elems_)
        decreases elems_ - new_length
      {
        new_length := new_length * 2;
      }
      Rehash(new_length);
    }

    lemma DoneResizing(all: set<LRUHandle>, oldHeads: seq<LRUHandle>, rest: seq<seq<LRUHandle>>,
                       targetHeads: seq<LRUHandle>, filled: seq<seq<LRUHandle>>, moved: set<Name>)
      requires Resizing(all, oldHeads, rest, targetHeads, filled, moved) && |filled| > 0
      requires forall a :: 0 <= a < |rest| ==> rest[a] == []
      ensures Buckets(filled, contents) && AllLinked(NextHash(all), targetHeads, filled) && |moved| == |contents|
    {
      DrainEnd(rest, filled, contents, moved);
      assert moved == contents.Keys;
    }

    /** The outer loop of Resize: every old bucket. */
    method MoveAll(new_list: array<LRUHandle>, ghost all: set<LRUHandle>, ghost oldHeads: seq<LRUHandle>,
                   ghost filled0: seq<seq<LRUHandle>>)
      returns (count: nat, ghost rest: seq<seq<LRUHandle>>, ghost filled: seq<seq<LRUHandle>>, ghost moved: set<Name>)
      requires list_[..] == oldHeads && Heads(oldHeads + new_list[..])
      requires list_.Length == length_ == |chains| && Resizing(all, oldHeads, chains, new_list[..], filled0, {})
      requires |filled0| == new_list.Length > 0 && PowerOfTwo(new_list.Length)
      modifies all`next_hash
      ensures new_list[..] == old(new_list[..]) && Resizing(all, oldHeads, rest, new_list[..], filled, moved)
      ensures |filled| == new_list.Length && count == |moved| && forall a :: 0 <= a < |rest| ==> rest[a] == []
    {
      hide Buckets, Heads, AllLinked, Draining, Resizing, PowerOfTwo, NextHash;
      ghost var targetHeads := new_list[..];
      count, rest, filled, moved := 0, chains, filled0, {};
      for i := 0 to length_
        invariant Resizing(all, oldHeads, rest, targetHeads, filled, moved) && |rest| == length_
        invariant list_[..] == oldHeads && new_list[..] == targetHeads
        invariant |filled| == new_list.Length && count == |moved|
        invariant forall a :: 0 <= a < i ==> rest[a] == []
      {
        count, rest, filled, moved := MoveBucket(list_[i], new_list, all, oldHeads, rest, filled, moved, i, count);
      }
    }

    /** Resize once the new length is known. */
    method Rehash(new_length: nat)
      requires Chained() && new_length > 0 && PowerOfTwo(new_length)
      modifies this, nodes`next_hash
      ensures Chained() && length_ == new_length && elems_ == old(elems_) && contents == old(contents)
      ensures forall x :: x in nodes ==> x in old(nodes) || (fresh(x) && x.isHead)
    {
      hide Buckets, Heads, AllLinked, Draining, Resizing, PowerOfTwo, NextHash;
      var new_list, newHeads := NewBuckets(new_length);
      ghost var all := nodes + newHeads;
      ghost var oldHeads, targetHeads := list_[..], new_list[..];
      StartResizing(targetHeads, newHeads);
      var count, rest, filled, moved := MoveAll(new_list, all, oldHeads, seq(new_length, _ => []));
      DoneResizing(all, oldHeads, rest, targetHeads, filled, moved);
      assert elems_ == count;
      list_ := new_list;
      length_ := new_length;
      chains := filled;
      nodes := all;
      assert list_[..] == targetHeads;
    }
  }
}
