/** db/skipList.h: a multi-level sorted linked list of encoded entries. */
module SkipLists {
  import opened Bytes
  import opened Coding
  import opened Digits

  // ----- the entries, skipList.h:155-182 and memtable.h:43-58

  /** An entry holds the lengths and the bytes that DecodeEntry reads. */
  predicate WellFormed(buf: Str)
  {
    && |buf| >= 4
    && var n := DecodeFixed32(buf, 0);
    && |buf| >= n + 16 && |buf| == n + 16 + DecodeFixed32(buf, n + 12)
  }

  type Buf = s: Str | WellFormed(s) witness seq(16, _ => 0)

  function DecodeKey(buf: Buf): Str
  {
    buf[4..4 + DecodeFixed32(buf, 0)]
  }

  function DecodeValue(buf: Buf): Str
  {
    buf[DecodeFixed32(buf, 0) + 16..]
  }

  function DecodeTag(buf: Buf): nat
  {
    DecodeFixed64(buf, DecodeFixed32(buf, 0) + 4)
  }

  /** `tag >> 8` */
  function DecodeSeq(buf: Buf): nat { DecodeTag(buf) / 256 }

  /** `tag & 0xff` */
  function DecodeType(buf: Buf): nat { DecodeTag(buf) % 256 }

  /** key_size key tag value_size value, the sizes by size() (memtable.h:40-41), the tag `(seq << 8) | type`. */
  function Encode(key: Str, sequence: nat, kind: byte, value: Str): Str
  {
    var k, v := Cut(key), Cut(value);
    Fixed32(|k|) + k + Fixed64(256 * sequence + kind as int) + Fixed32(|v|) + v
  }

  /** Where each part of an entry lies, and the bytes of its numbers by their weight. */
  lemma EncodeLayout(key: Str, sequence: nat, kind: byte, value: Str, j: nat)
    requires j < 8
    ensures var buf, n, m := Encode(key, sequence, kind, value), |Cut(key)|, |Cut(value)|;
            && |buf| == n + m + 16 && buf[4..4 + n] == Cut(key) && buf[n + 16..] == Cut(value)
            && (j < 4 ==> buf[j] as nat == DigitOf(n, 256, j) && buf[n + 12 + j] as nat == DigitOf(m, 256, j))
            && buf[n + 4 + j] as nat == DigitOf(256 * sequence + kind as int, 256, j)
  {
    hide Fixed32, Fixed64, DigitOf, Cut;
    Fixed64Bytes(256 * sequence + kind as int, j);
    if j < 4 {
      Fixed32Bytes(|Cut(key)|, j);
      Fixed32Bytes(|Cut(value)|, j);
    }
  }

  /** DecodeKey and DecodeEntry get back everything MemTable.Add puts in, which is all of the key and the value
      if and only if both are shorter than 2^31 bytes; `seq` is an int, so that its shift is defined below
      2^23 only. */
  lemma EncodeRoundTrip(key: Str, sequence: nat, kind: byte, value: Str)
    requires HasSize(key) && HasSize(value) && sequence < 0x80_0000
    ensures var buf := Encode(key, sequence, kind, value);
            && WellFormed(buf) && DecodeKey(buf) == key[..|key| % WORD_SIZE] &&
                DecodeValue(buf) == value[..|value| % WORD_SIZE]
            && (DecodeKey(buf) == key && DecodeValue(buf) == value <==> |key| < INT_LIMIT && |value| < INT_LIMIT)
            && DecodeSeq(buf) == sequence && DecodeType(buf) == kind as int
  {
    hide Fixed32, Fixed64, DecodeFixed32, DecodeFixed64;
    var tag := 256 * sequence + kind as int;
    var k, v := Cut(key), Cut(value);
    var buf, n := Encode(key, sequence, kind, value), |k|;
    assert buf[0..4] == Fixed32(n) && buf[4..4 + n] == k;
    Fixed32RoundTrip(buf, 0, n);
    assert buf[n + 4..n + 12] == Fixed64(tag);
    Fixed64RoundTrip(buf, n + 4, tag);
    assert buf[n + 12..n + 16] == Fixed32(|v|) && buf[n + 16..] == v;
    Fixed32RoundTrip(buf, n + 12, |v|);
  }

  // ----- the list

  /** `forward` has as many slots as the node has levels; skipList.h:13 declares one. */
  class Node {
    const entry: Buf
    const height: nat
    var forward: seq<Node?>

    constructor (entry: Buf, height: nat)
      ensures this.entry == entry && this.height == height && forward == seq(height, _ => null)
    {
      this.entry, this.height := entry, height;
      forward := seq(height, _ => null);
    }
  }

  type Chain = seq<Node>    // the head, then the nodes of level 0 in order

  function K(n: Node): Str { DecodeKey(n.entry) }

  /** `q` is where level `i` goes on after position `p`: the next node that tall, or the end. */
  predicate IsNext(chain: Chain, p: nat, i: nat, q: nat)
  {
    && p < q <= |chain| && (q < |chain| ==> chain[q].height > i)
    && forall r {:trigger chain[r]} :: p < r < q ==> chain[r].height <= i
  }

  function Next(chain: Chain, p: nat, i: nat): (q: nat)
    requires p < |chain|
    ensures IsNext(chain, p, i, q)
    decreases |chain| - p
  {
    if p + 1 == |chain| || chain[p + 1].height > i then p + 1 else Next(chain, p + 1, i)
  }

  function NodeAt(chain: Chain, q: nat): Node?
  {
    if q < |chain| then chain[q] else null
  }

  predicate LinkedAt(chain: Chain, forwards: map<Node, seq<Node?>>, a: nat, i: nat)
    requires a < |chain| && chain[a] in forwards && i < |forwards[chain[a]]|
  {
    forwards[chain[a]][i] == NodeAt(chain, Next(chain, a, i))
  }

  predicate Slots(chain: Chain, forwards: map<Node, seq<Node?>>)
  {
    forall a {:trigger chain[a]} :: 0 <= a < |chain| ==> chain[a] in forwards && |forwards[chain[a]]| == chain[a].height
  }

  /** On every level, every node points at the next node that tall. */
  predicate Linked(chain: Chain, forwards: map<Node, seq<Node?>>)
  {
    && Slots(chain, forwards)
    && forall a, i :: 0 <= a < |chain| && 0 <= i < chain[a].height ==> LinkedAt(chain, forwards, a, i)
  }

  predicate Distinct(chain: Chain)
  {
    forall a, b :: 0 <= a < b < |chain| ==> chain[a] != chain[b]
  }

  predicate Ordered(chain: Chain)
  {
    forall a, b :: 1 <= a < b < |chain| ==> Less(K(chain[a]), K(chain[b]))
  }

  /** `level` is the top level in use. */
  predicate Heights(chain: Chain, maxLevel: nat, level: nat)
  {
    && level < maxLevel && chain != [] && chain[0].height == maxLevel
    && (forall a :: 1 <= a < |chain| ==> 1 <= chain[a].height <= level + 1)
    && (level > 0 ==> exists a :: 1 <= a < |chain| && chain[a].height == level + 1)
  }

  /** The chain holds exactly these entries. */
  ghost predicate Holds(chain: Chain, contents: map<Str, Buf>)
  {
    && (forall a :: 1 <= a < |chain| ==> K(chain[a]) in contents && contents[K(chain[a])] == chain[a].entry)
    && (forall k :: k in contents ==> exists a :: 1 <= a < |chain| && K(chain[a]) == k)
  }

  // ----- what insertion and removal do to the links

  lemma NextIs(chain: Chain, p: nat, i: nat, q: nat)
    requires p < |chain| && IsNext(chain, p, i, q)
    ensures Next(chain, p, i) == q
  {
    assert IsNext(chain, p, i, Next(chain, p, i));
  }

  function Inserted(chain: Chain, p: nat, node: Node): Chain
    requires p < |chain|
  {
    chain[..p + 1] + [node] + chain[p + 1..]
  }

  function Removed(chain: Chain, p: nat): Chain
    requires p + 1 < |chain|
  {
    chain[..p + 1] + chain[p + 2..]
  }

  /** The height that these draws give: one level more for each before the first that fails, as far as there are
      levels. */
  predicate Tower(coins: seq<bool>, maxLevel: nat, height: nat)
  {
    && 1 <= height <= maxLevel && height - 1 <= |coins|
    && (forall i :: 0 <= i < height - 1 ==> coins[i])
    && (height < maxLevel && height - 1 < |coins| ==> !coins[height - 1])
  }

  /** Position `a` is the last one on level `i` up to `p`. */
  predicate LastUpTo(chain: Chain, p: nat, i: nat, a: nat)
  {
    a <= p < |chain| && chain[a].height > i && Next(chain, a, i) > p
  }

  lemma LastUnique(chain: Chain, p: nat, i: nat, a: nat, b: nat)
    requires LastUpTo(chain, p, i, a) && LastUpTo(chain, p, i, b)
    ensures a == b
  {
    hide Next;
    assert IsNext(chain, a, i, Next(chain, a, i)) && IsNext(chain, b, i, Next(chain, b, i));
  }

  lemma InsertedAt(chain: Chain, p: nat, node: Node)
    requires p < |chain|
    ensures var chain' := Inserted(chain, p, node);
            && |chain'| == |chain| + 1 && chain'[p + 1] == node
            && (forall r {:trigger chain'[r]} :: 0 <= r <= p ==> chain'[r] == chain[r])
            && (forall r {:trigger chain'[r]} :: p + 1 < r < |chain'| ==> chain'[r] == chain[r - 1])
  {}

  /** Past the new node nothing changes; at or before it, a level ends up at the new node if it
      passes over that place and the node is tall enough. */
  lemma NextInserted(chain: Chain, p: nat, node: Node, a: nat, i: nat)
    requires a < |chain| && p < |chain|
    ensures var chain', q := Inserted(chain, p, node), Next(chain, a, i);
            Next(chain', if a <= p then a else a + 1, i) ==
            if q <= p then q else if a <= p && node.height > i then p + 1 else q + 1
    ensures a <= p < Next(chain, a, i) ==> Next(Inserted(chain, p, node), p + 1, i) == Next(chain, a, i) + 1
  {
    hide Next, Inserted;
    var chain', q := Inserted(chain, p, node), Next(chain, a, i);
    InsertedAt(chain, p, node);
    assert IsNext(chain, a, i, q);
    if a <= p {
      var q' := if q <= p then q else if node.height > i then p + 1 else q + 1;
      assert IsNext(chain', a, i, q');
      NextIs(chain', a, i, q');
      if q > p {
        assert IsNext(chain', p + 1, i, q + 1);
        NextIs(chain', p + 1, i, q + 1);
      }
    } else {
      assert IsNext(chain', a + 1, i, q + 1);
      NextIs(chain', a + 1, i, q + 1);
    }
  }

  lemma RemovedAt(chain: Chain, p: nat)
    requires p + 1 < |chain|
    ensures var chain' := Removed(chain, p);
            && |chain'| == |chain| - 1
            && (forall r {:trigger chain'[r]} :: 0 <= r <= p ==> chain'[r] == chain[r])
            && (forall r {:trigger chain'[r]} :: p < r < |chain'| ==> chain'[r] == chain[r + 1])
  {}

  /** A level that stopped at the removed node goes on to where that node went. */
  lemma NextRemoved(chain: Chain, p: nat, a: nat, i: nat)
    requires p + 1 < |chain| && a < |chain| && a != p + 1
    ensures var chain', q := Removed(chain, p), Next(chain, a, i);
            Next(chain', if a <= p then a else a - 1, i) ==
            if q <= p then q else if q == p + 1 then Next(chain, p + 1, i) - 1 else q - 1
  {
    hide Next, Removed;
    var chain', q, after := Removed(chain, p), Next(chain, a, i), Next(chain, p + 1, i);
    RemovedAt(chain, p);
    assert IsNext(chain, a, i, q) && IsNext(chain, p + 1, i, after);
    if a <= p {
      var q' := if q <= p then q else if q == p + 1 then after - 1 else q - 1;
      assert IsNext(chain', a, i, q');
      NextIs(chain', a, i, q');
    } else {
      assert IsNext(chain', a - 1, i, q - 1);
      NextIs(chain', a - 1, i, q - 1);
    }
  }

  /** The links after a new node has been spliced in on levels below its height, after at[i] on level i. */
  predicate Spliced(chain: Chain, before: map<Node, seq<Node?>>, after: map<Node, seq<Node?>>, node: Node,
                    at: seq<nat>, n: nat)
    requires n <= |at| && n <= node.height && Slots(chain, before)
  {
    && node in after && |after[node]| == node.height
    && (forall i :: 0 <= i < n ==>
        at[i] < |chain| && chain[at[i]].height > i && after[node][i] == before[chain[at[i]]][i])
    && Slots(chain, after)
    && forall a, i :: 0 <= a < |chain| && 0 <= i < chain[a].height ==>
        SplicedAt(chain, before, after, node, at, n, a, i)
  }

  predicate SplicedAt(chain: Chain, before: map<Node, seq<Node?>>, after: map<Node, seq<Node?>>, node: Node,
                      at: seq<nat>, n: nat, a: nat, i: nat)
    requires n <= |at| && Slots(chain, before) && Slots(chain, after) && a < |chain| && i < chain[a].height
  {
    after[chain[a]][i] == if i < n && a == at[i] then node else before[chain[a]][i]
  }

  lemma LinkedInserted(chain: Chain, before: map<Node, seq<Node?>>, after: map<Node, seq<Node?>>,
                       node: Node, p: nat, at: seq<nat>)
    requires Linked(chain, before) && node.height <= |at| && Spliced(chain, before, after, node, at, node.height)
    requires p < |chain| && forall i :: 0 <= i < node.height ==> LastUpTo(chain, p, i, at[i])
    ensures Linked(Inserted(chain, p, node), after)
  {
    hide Next, Inserted;
    var chain' := Inserted(chain, p, node);
    InsertedAt(chain, p, node);
    forall b, i | 0 <= b < |chain'| && 0 <= i < chain'[b].height
      ensures LinkedAt(chain', after, b, i)
    {
      if b == p + 1 {
        assert LastUpTo(chain, p, i, at[i]);
        NextInserted(chain, p, node, at[i], i);
        assert LinkedAt(chain, before, at[i], i);
      } else {
        var a := if b <= p then b else b - 1;
        NextInserted(chain, p, node, a, i);
        assert LinkedAt(chain, before, a, i) && SplicedAt(chain, before, after, node, at, node.height, a, i);
        if i < node.height && a <= p < Next(chain, a, i) {
          LastUnique(chain, p, i, a, at[i]);
        } else if i < node.height {
          assert LastUpTo(chain, p, i, at[i]);
        }
      }
    }
  }

  /** The links after levels below `n` have been led past the node at p + 1. */
  predicate Bypassed(chain: Chain, before: map<Node, seq<Node?>>, after: map<Node, seq<Node?>>, p: nat, at: seq<nat>,
                     n: nat)
    requires p + 1 < |chain| && n <= |at| && n <= chain[p + 1].height && Slots(chain, before)
  {
    && Slots(chain, after)
    && forall a, i :: 0 <= a < |chain| && 0 <= i < chain[a].height ==> BypassedAt(chain, before, after, p, at, n, a, i)
  }

  predicate BypassedAt(chain: Chain, before: map<Node, seq<Node?>>, after: map<Node, seq<Node?>>, p: nat, at: seq<nat>,
                       n: nat, a: nat, i: nat)
    requires p + 1 < |chain| && n <= |at| && n <= chain[p + 1].height && Slots(chain, before) && Slots(chain, after)
    requires a < |chain| && i < chain[a].height
  {
    after[chain[a]][i] == if i < n && a == at[i] then before[chain[p + 1]][i] else before[chain[a]][i]
  }

  lemma LinkedRemoved(chain: Chain, before: map<Node, seq<Node?>>, after: map<Node, seq<Node?>>, p: nat, at: seq<nat>)
    requires Linked(chain, before) && p + 1 < |chain|
    requires chain[p + 1].height <= |at| && Bypassed(chain, before, after, p, at, chain[p + 1].height)
    requires forall i :: 0 <= i < chain[p + 1].height ==> LastUpTo(chain, p, i, at[i])
    ensures Linked(Removed(chain, p), after)
  {
    hide Next, Removed;
    var chain', h := Removed(chain, p), chain[p + 1].height;
    RemovedAt(chain, p);
    forall b, i | 0 <= b < |chain'| && 0 <= i < chain'[b].height
      ensures LinkedAt(chain', after, b, i)
    {
      var a := if b <= p then b else b + 1;
      var q := Next(chain, a, i);
      assert IsNext(chain, a, i, q);
      NextRemoved(chain, p, a, i);
      assert LinkedAt(chain, before, a, i) && BypassedAt(chain, before, after, p, at, h, a, i);
      if i < h {
        assert LastUpTo(chain, p, i, at[i]);
        assert LinkedAt(chain, before, p + 1, i);
        assert IsNext(chain, p + 1, i, Next(chain, p + 1, i));
        if a <= p < q {
          LastUnique(chain, p, i, a, at[i]);
          assert q == p + 1;
        } else {
          assert a != at[i];
        }
      }
    }
  }

  // ----- where a key belongs

  /** `a` is the last position on level `i` whose key is below `key`; the head counts as below. */
  predicate Pred(chain: Chain, key: Str, i: nat, a: nat)
  {
    && a < |chain| && chain[a].height > i && (a > 0 ==> Less(K(chain[a]), key))
    && var q := Next(chain, a, i); (q < |chain| ==> !Less(K(chain[q]), key))
  }

  /** Keys up to position `p` are below `key`, the others are not. */
  predicate Split(chain: Chain, key: Str, p: nat)
  {
    && p < |chain|
    && (forall a :: 1 <= a <= p ==> Less(K(chain[a]), key))
    && (forall a :: p < a < |chain| ==> !Less(K(chain[a]), key))
  }

  lemma NextOnZero(chain: Chain, maxLevel: nat, level: nat, a: nat)
    requires Heights(chain, maxLevel, level) && a < |chain|
    ensures Next(chain, a, 0) == a + 1
  {}

  lemma PredSplits(chain: Chain, maxLevel: nat, level: nat, key: Str, p: nat)
    requires Heights(chain, maxLevel, level) && Ordered(chain) && Pred(chain, key, 0, p)
    ensures Split(chain, key, p) && Next(chain, p, 0) == p + 1
  {
    hide K, Less;
    NextOnZero(chain, maxLevel, level, p);
    forall a | 1 <= a < p ensures Less(K(chain[a]), key) {
      LessTransitive(K(chain[a]), K(chain[p]), key);
    }
    forall a | p + 1 < a < |chain| ensures !Less(K(chain[a]), key) {
      if Less(K(chain[a]), key) {
        LessTransitive(K(chain[p + 1]), K(chain[a]), key);
      }
    }
  }

  lemma PredIsLast(chain: Chain, key: Str, p: nat, i: nat, a: nat)
    requires Split(chain, key, p) && Pred(chain, key, i, a)
    ensures LastUpTo(chain, p, i, a)
  {
    hide K, Less;
    assert IsNext(chain, a, i, Next(chain, a, i));
  }

  /** The key is there if and only if it is the one right after the split. */
  lemma FoundAtSplit(chain: Chain, contents: map<Str, Buf>, key: Str, p: nat)
    requires Split(chain, key, p) && Holds(chain, contents) && Ordered(chain)
    ensures key in contents <==> p + 1 < |chain| && K(chain[p + 1]) == key
    ensures key in contents ==> contents[key] == chain[p + 1].entry
  {
    hide K, Less;
    LessTotal(key, key);
    forall a | p + 1 < a < |chain| ensures K(chain[a]) != key {
      assert Less(K(chain[p + 1]), K(chain[a]));
    }
    if key in contents {
      var a :| 1 <= a < |chain| && K(chain[a]) == key;
      assert a == p + 1;
    }
  }

  lemma InsertKeeps(chain: Chain, contents: map<Str, Buf>, node: Node, p: nat)
    requires Ordered(chain) && Distinct(chain) && Holds(chain, contents)
    requires Split(chain, K(node), p) && K(node) !in contents && node !in chain
    ensures var chain' := Inserted(chain, p, node);
            Ordered(chain') && Distinct(chain') && Holds(chain', contents[K(node) := node.entry]) &&
                chain'[0] == chain[0]
  {
    hide K, Less, Inserted;
    var chain', k := Inserted(chain, p, node), K(node);
    InsertedAt(chain, p, node);
    forall a | p < a < |chain| ensures Less(k, K(chain[a])) {
      LessTotal(k, K(chain[a]));
    }
    assert Ordered(chain');
    var contents' := contents[k := node.entry];
    forall x | x in contents' ensures exists a :: 1 <= a < |chain'| && K(chain'[a]) == x {
      if x == k {
        assert K(chain'[p + 1]) == x;
      } else {
        var a :| 1 <= a < |chain| && K(chain[a]) == x;
        assert K(chain'[if a <= p then a else a + 1]) == x;
      }
    }
  }

  lemma RemoveKeeps(chain: Chain, contents: map<Str, Buf>, p: nat)
    requires Ordered(chain) && Distinct(chain) && Holds(chain, contents) && p + 1 < |chain|
    ensures var chain' := Removed(chain, p);
            Ordered(chain') && Distinct(chain') && Holds(chain', contents - {K(chain[p + 1])})
  {
    hide K, Less, Removed;
    var chain', k := Removed(chain, p), K(chain[p + 1]);
    RemovedAt(chain, p);
    LessTotal(k, k);
    assert forall a {:trigger chain[a]} :: 1 <= a < |chain| && a != p + 1 ==> K(chain[a]) != k;
    forall x | x in contents - {k} ensures exists a :: 1 <= a < |chain'| && K(chain'[a]) == x {
      var a :| 1 <= a < |chain| && K(chain[a]) == x;
      assert K(chain'[if a <= p then a else a - 1]) == x;
    }
  }

  lemma InsertHeights(chain: Chain, maxLevel: nat, level: nat, node: Node, p: nat)
    requires Heights(chain, maxLevel, level) && p < |chain| && 1 <= node.height <= maxLevel
    ensures Heights(Inserted(chain, p, node), maxLevel, if node.height > level then node.height - 1 else level)
  {
    hide Inserted;
    var chain', level' := Inserted(chain, p, node), if node.height > level then node.height - 1 else level;
    InsertedAt(chain, p, node);
    if level' > 0 {
      if node.height > level {
        assert chain'[p + 1].height == level' + 1;
      } else {
        var a :| 1 <= a < |chain| && chain[a].height == level + 1;
        assert chain'[if a <= p then a else a + 1].height == level' + 1;
      }
    }
  }

  /** `node` takes over the link of `u` on level `n`. */
  function LinkIn(links: map<Node, seq<Node?>>, node: Node, u: Node, n: nat): map<Node, seq<Node?>>
    requires node in links && u in links && n < |links[node]| && n < |links[u]|
  {
    links[node := links[node][n := links[u][n]]][u := links[u][n := node]]
  }

  lemma LinkedSlots(chain: Chain, links: map<Node, seq<Node?>>)
    requires Linked(chain, links)
    ensures Slots(chain, links)
  {}

  lemma SpliceNone(chain: Chain, links: map<Node, seq<Node?>>, w: map<Node, seq<Node?>>, node: Node, at: seq<nat>)
    requires Slots(chain, links) && node in w && |w[node]| == node.height
    requires forall n :: n in chain ==> n in links && n in w && w[n] == links[n]
    ensures Spliced(chain, links, w, node, at, 0)
  {
    forall a {:trigger chain[a]} | 0 <= a < |chain| ensures chain[a] in w && w[chain[a]] == links[chain[a]] {
      assert chain[a] in chain;
    }
  }

  lemma SpliceStep(chain: Chain, before: map<Node, seq<Node?>>, w: map<Node, seq<Node?>>, node: Node, p: nat,
                   at: seq<nat>, n: nat)
    requires n < |at| && n < node.height && Slots(chain, before) && Spliced(chain, before, w, node, at, n)
    requires Distinct(chain) && node !in chain && LastUpTo(chain, p, n, at[n])
    ensures at[n] < |chain| && node in w && n < |w[node]|
    ensures var u := chain[at[n]];
            u in w && n < |w[u]| && Spliced(chain, before, LinkIn(w, node, u, n), node, at, n + 1)
  {
    forall a | 0 <= a < |chain| ensures chain[a] != node {
      assert chain[a] in chain;
    }
    assert SplicedAt(chain, before, w, node, at, n, at[n], n);
    var w', m := LinkIn(w, node, chain[at[n]], n), n + 1;
    forall a, i | 0 <= a < |chain| && 0 <= i < chain[a].height ensures SplicedAt(chain, before, w', node, at, m, a, i) {
      assert SplicedAt(chain, before, w, node, at, n, a, i);
    }
  }

  /** Levels not in use lead from the head straight to the end. */
  lemma HeadIsLast(chain: Chain, maxLevel: nat, level: nat, p: nat, i: nat)
    requires Heights(chain, maxLevel, level) && level < i < maxLevel && p < |chain|
    ensures LastUpTo(chain, p, i, 0)
  {
    assert IsNext(chain, 0, i, Next(chain, 0, i));
  }

  /** The last node before p + 1 on a level points at p + 1 if and only if p + 1 is that tall. */
  lemma PointsAtVictim(chain: Chain, p: nat, i: nat, a: nat)
    requires Distinct(chain) && p + 1 < |chain| && LastUpTo(chain, p, i, a)
    ensures NodeAt(chain, Next(chain, a, i)) == chain[p + 1] <==> i < chain[p + 1].height
  {
    assert IsNext(chain, a, i, Next(chain, a, i));
  }

  lemma LinkedRestrict(chain: Chain, links: map<Node, seq<Node?>>, links': map<Node, seq<Node?>>)
    requires Linked(chain, links) && forall n :: n in chain ==> n in links && n in links' && links'[n] == links[n]
    ensures Linked(chain, links')
  {
    hide Next;
    forall a, i | 0 <= a < |chain| && 0 <= i < chain[a].height ensures LinkedAt(chain, links', a, i) {
      assert chain[a] in chain && LinkedAt(chain, links, a, i);
    }
  }

  /** `u` takes over the link of `victim` on level `n`. */
  function LinkPast(links: map<Node, seq<Node?>>, victim: Node, u: Node, n: nat): map<Node, seq<Node?>>
    requires victim in links && u in links && n < |links[victim]| && n < |links[u]|
  {
    links[u := links[u][n := links[victim][n]]]
  }

  lemma BypassStep(chain: Chain, before: map<Node, seq<Node?>>, w: map<Node, seq<Node?>>, p: nat, at: seq<nat>, n: nat)
    requires p + 1 < |chain| && n < |at| && n < chain[p + 1].height && Slots(chain, before) && Distinct(chain)
    requires Bypassed(chain, before, w, p, at, n) && at[n] <= p && chain[at[n]].height > n
    ensures Bypassed(chain, before, LinkPast(w, chain[p + 1], chain[at[n]], n), p, at, n + 1)
  {
    var u := chain[at[n]];
    assert at[n] != p + 1;
    forall a | 0 <= a < |chain| && a != at[n] ensures chain[a] != u {}
    assert BypassedAt(chain, before, w, p, at, n, p + 1, n);
    var w', m := LinkPast(w, chain[p + 1], u, n), n + 1;
    forall a, i | 0 <= a < |chain| && 0 <= i < chain[a].height ensures BypassedAt(chain, before, w', p, at, m, a, i) {
      assert BypassedAt(chain, before, w, p, at, n, a, i);
    }
  }

  /** On level `n` the node to update still points at the victim if and only if the victim is that
      tall, and then leading it past the victim is one step more. */
  lemma BypassAt(chain: Chain, before: map<Node, seq<Node?>>, w: map<Node, seq<Node?>>, p: nat, at: seq<nat>, n: nat)
    requires p + 1 < |chain| && n < |at| && n <= chain[p + 1].height && Linked(chain, before) && Distinct(chain)
    requires Bypassed(chain, before, w, p, at, n) && LastUpTo(chain, p, n, at[n])
    ensures at[n] < |chain| && chain[at[n]] in w && n < |w[chain[at[n]]]|
    ensures w[chain[at[n]]][n] == chain[p + 1] <==> n < chain[p + 1].height
    ensures n < chain[p + 1].height ==>
              && chain[p + 1] in w && n < |w[chain[p + 1]]|
              && Bypassed(chain, before, LinkPast(w, chain[p + 1], chain[at[n]], n), p, at, n + 1)
  {
    hide Next;
    PointsAtVictim(chain, p, n, at[n]);
    assert LinkedAt(chain, before, at[n], n) && BypassedAt(chain, before, w, p, at, n, at[n], n);
    if n < chain[p + 1].height {
      BypassStep(chain, before, w, p, at, n);
    }
  }

  lemma RemovedHeights(chain: Chain, maxLevel: nat, level: nat, p: nat)
    requires Heights(chain, maxLevel, level) && p + 1 < |chain|
    ensures var chain' := Removed(chain, p);
            && level < maxLevel && chain' != [] && chain'[0] == chain[0] && chain[0].height == maxLevel
            && forall a :: 1 <= a < |chain'| ==> 1 <= chain'[a].height <= level + 1
  {}

  class SkipList {
    const maxLevel: nat
    const head: Node
    var level: nat                       // top level in use
    ghost var chain: Chain
    ghost var contents: map<Str, Buf>    // the entries in the list, by key

    static ghost function Forwards(nodes: seq<Node>): map<Node, seq<Node?>>
      reads nodes
    {
      map n | n in nodes :: n.forward
    }

    /** Level 0 is the strictly sorted list of the keys present; level i links exactly the nodes
        with more than i levels, in the same order. */
    ghost predicate Valid()
      reads this, chain
    {
      && Heights(chain, maxLevel, level) && chain[0] == head
      && Distinct(chain) && Ordered(chain) && Holds(chain, contents) && Linked(chain, Forwards(chain))
    }

    constructor (maxLevel: nat)
      requires maxLevel >= 1
      ensures Valid() && contents == map[] && this.maxLevel == maxLevel && fresh(chain)
    {
      var first := new Node(seq(16, _ => 0), maxLevel);
      this.maxLevel, head, level, chain, contents := maxLevel, first, 0, [first], map[];
    }

    /** The inner loop shared by the three operations: along level `i` while keys are below. */
    method Along(start: Node, i: nat, key: Str, ghost a0: nat) returns (current: Node, ghost a: nat)
      requires Valid() && a0 < |chain| && start == chain[a0] && start.height > i && (a0 > 0 ==> Less(K(start), key))
      ensures Pred(chain, key, i, a) && current == chain[a]
    {
      hide Less, Next, DecodeKey, Holds, Ordered;
      current, a := start, a0;
      while current.forward[i] != null && Less(DecodeKey(current.forward[i].entry), key)
        invariant a < |chain| && current == chain[a] && current.height > i && (a > 0 ==> Less(K(current), key))
        invariant LinkedAt(chain, Forwards(chain), a, i)
        decreases |chain| - a
      {
        a := Next(chain, a, i);
        current := current.forward[i];
        assert LinkedAt(chain, Forwards(chain), a, i);
      }
    }

    /** `coins` says which draws come out below the probability; after those listed none does. */
    method RandomLevel(coins: seq<bool>) returns (lvl: nat)
      requires maxLevel >= 1
      ensures Tower(coins, maxLevel, lvl)
    {
      lvl := 1;
      while lvl - 1 < |coins| && coins[lvl - 1] && lvl < maxLevel
        invariant 1 <= lvl <= maxLevel && lvl - 1 <= |coins|
        invariant forall i :: 0 <= i < lvl - 1 ==> coins[i]
      {
        lvl := lvl + 1;
      }
    }

    /** Skips over everything below the key, level by level. */
    method search(key: Str) returns (found: bool, value: Str)
      requires Valid()
      ensures found <==> key in contents
      ensures found ==> value == DecodeValue(contents[key])
    {
      hide Less, Next, DecodeKey, DecodeValue, Holds, Ordered;
      var current := head;
      ghost var p: nat := 0;
      for i := level + 1 downto 0
        invariant p < |chain| && current == chain[p] && current.height >= i && (p > 0 ==> Less(K(current), key))
        invariant i <= level ==> Pred(chain, key, i, p)
      {
        current, p := Along(current, i, key, p);
      }
      PredSplits(chain, maxLevel, level, key, p);
      FoundAtSplit(chain, contents, key, p);
      assert LinkedAt(chain, Forwards(chain), p, 0);
      var next := current.forward[0];
      found, value := false, [];
      if next != null && DecodeKey(next.entry) == key {
        found, value := true, DecodeValue(next.entry);
      }
    }

    /** skipList.h:57-65 and 116-124: on each level, the last node whose key is below. */
    method FindUpdate(key: Str) returns (current: Node, update: seq<Node?>, ghost p: nat, ghost at: seq<nat>)
      requires Valid()
      ensures Split(chain, key, p) && current == chain[p]
      ensures |current.forward| > 0 && current.forward[0] == NodeAt(chain, p + 1)
      ensures |update| == |at| == maxLevel
      ensures forall i :: 0 <= i <= level ==> LastUpTo(chain, p, i, at[i]) && update[i] == chain[at[i]]
    {
      hide Less, Next, DecodeKey, Holds, Ordered;
      update, at := seq(maxLevel, _ => null), seq(maxLevel, _ => 0);
      current, p := head, 0;
      for i := level + 1 downto 0
        invariant p < |chain| && current == chain[p] && current.height >= i && (p > 0 ==> Less(K(current), key))
        invariant i <= level ==> Pred(chain, key, i, p)
        invariant |update| == |at| == maxLevel
        invariant forall j :: i <= j <= level ==> Pred(chain, key, j, at[j]) && update[j] == chain[at[j]]
      {
        current, p := Along(current, i, key, p);
        update, at := update[i := current], at[i := p];
      }
      PredSplits(chain, maxLevel, level, key, p);
      assert LinkedAt(chain, Forwards(chain), p, 0);
      forall i | 0 <= i <= level ensures LastUpTo(chain, p, i, at[i]) {
        PredIsLast(chain, key, p, i, at[i]);
      }
    }

    /** skipList.h:81-84. */
    method Splice(node: Node, update: seq<Node?>, ghost p: nat, ghost at: seq<nat>)
      requires Linked(chain, Forwards(chain)) && Distinct(chain) && node !in chain && |node.forward| == node.height
      requires p < |chain| && node.height <= |update| == |at|
      requires forall i :: 0 <= i < node.height ==> LastUpTo(chain, p, i, at[i]) && update[i] == chain[at[i]]
      modifies chain, node
      ensures Linked(Inserted(chain, p, node), Forwards(Inserted(chain, p, node)))
    {
      hide Next, Inserted, Linked, Slots, Spliced, LastUpTo, Distinct;
      ghost var all := Inserted(chain, p, node);
      ghost var before := Forwards(chain);
      InsertedMembers(chain, p, node);
      LinkedSlots(chain, before);
      SpliceNone(chain, before, Forwards(all), node, at);
      for i := 0 to node.height
        invariant Spliced(chain, before, Forwards(all), node, at, i)
      {
        ghost var w := Forwards(all);
        SpliceStep(chain, before, w, node, p, at, i);
        var u: Node := update[i];
        node.forward := node.forward[i := u.forward[i]];
        u.forward := u.forward[i := node];
        assert Forwards(all) == LinkIn(w, node, u, i);
      }
      LinkedInserted(chain, before, Forwards(all), node, p, at);
    }

    /** skipList.h:72-78: the levels that come into use start at the head; `level` becomes the new
        top level, newLevel - 1. */
    method Raise(newLevel: nat, update0: seq<Node?>, ghost p: nat, ghost at0: seq<nat>)
      returns (update: seq<Node?>, ghost at: seq<nat>)
      requires Valid() && p < |chain| && 1 <= newLevel <= maxLevel == |update0| == |at0|
      requires forall i :: 0 <= i <= level ==> LastUpTo(chain, p, i, at0[i]) && update0[i] == chain[at0[i]]
      modifies this`level
      ensures level == if newLevel > old(level) then newLevel - 1 else old(level)
      ensures |update| == |at| == maxLevel
      ensures forall i :: 0 <= i <= level ==> LastUpTo(chain, p, i, at[i]) && update[i] == chain[at[i]]
    {
      hide Next, Ordered, Distinct, Holds, Linked;
      update, at := update0, at0;
      if newLevel > level {
        for i := level + 1 to newLevel
          modifies {}
          invariant |update| == |at| == maxLevel
          invariant forall j :: 0 <= j < i ==> LastUpTo(chain, p, j, at[j]) && update[j] == chain[at[j]]
        {
          HeadIsLast(chain, maxLevel, level, p, i);
          update, at := update[i := head], at[i := 0];
        }
        level := newLevel - 1;
      }
    }

    /** A key already present is left as it is, and so is the list. A new one gets one node, of the height the draws
        give, and no other node moves. skipList.h:69 tests current->forward[i]. */
    method insert(entry: Buf, coins: seq<bool>) returns (ghost p: nat)
      requires Valid()
      modifies this, chain
      ensures Valid() && forall n :: n in chain ==> n in old(chain) || fresh(n)
      ensures if DecodeKey(entry) in old(contents) then chain == old(chain) else
                && p + 1 < |chain| && p < |old(chain)| && chain == Inserted(old(chain), p, chain[p + 1])
                && chain[p + 1].entry == entry && Tower(coins, maxLevel, chain[p + 1].height)
      ensures contents ==
              if DecodeKey(entry) in old(contents) then old(contents) else old(contents)[DecodeKey(entry) := entry]
    {
      hide Next, Less, DecodeKey, Inserted, Ordered, Holds, Heights, Linked;
      var current, update, pos, at := FindUpdate(DecodeKey(entry));
      p := pos;
      FoundAtSplit(chain, contents, DecodeKey(entry), p);
      HeadSlots();
      var next := current.forward[0];
      if next == null || DecodeKey(next.entry) != DecodeKey(entry) {
        var newLevel := RandomLevel(coins);
        InsertNew(entry, newLevel, update, p, at);
      }
    }

    /** skipList.h:72-84. */
    method InsertNew(entry: Buf, newLevel: nat, update0: seq<Node?>, ghost p: nat, ghost at0: seq<nat>)
      requires Valid() && Split(chain, DecodeKey(entry), p) && DecodeKey(entry) !in contents
      requires 1 <= newLevel <= maxLevel == |update0| == |at0|
      requires forall i :: 0 <= i <= level ==> LastUpTo(chain, p, i, at0[i]) && update0[i] == chain[at0[i]]
      modifies this, chain
      ensures Valid() && contents == old(contents)[DecodeKey(entry) := entry]
      ensures forall n :: n in chain ==> n in old(chain) || fresh(n)
      ensures p < |old(chain)| && p + 1 < |chain| && chain == Inserted(old(chain), p, chain[p + 1])
      ensures chain[p + 1].entry == entry && chain[p + 1].height == newLevel
    {
      hide Next, Less, DecodeKey, Inserted, Distinct, Ordered, Holds, Heights, Linked, LastUpTo;
      HeadSlots();
      ghost var level0 := level;
      var update, at := Raise(newLevel, update0, p, at0);
      var node := new Node(entry, newLevel);
      InsertHeights(chain, maxLevel, level0, node, p);
      InsertKeeps(chain, contents, node, p);
      InsertedMembers(chain, p, node);
      Splice(node, update, p, at);
      InsertedAt(chain, p, node);
      chain := Inserted(chain, p, node);
      contents := contents[DecodeKey(entry) := entry];
    }

    /** skipList.h:129-134. */
    method Bypass(victim: Node, update: seq<Node?>, ghost p: nat, ghost at: seq<nat>)
      requires Valid() && p + 1 < |chain| && victim == chain[p + 1] && |update| == |at| == maxLevel
      requires forall i :: 0 <= i <= level ==> LastUpTo(chain, p, i, at[i]) && update[i] == chain[at[i]]
      modifies chain
      ensures Slots(chain, old(Forwards(chain))) && victim.height <= |at|
      ensures Bypassed(chain, old(Forwards(chain)), Forwards(chain), p, at, victim.height)
    {
      hide Next, Less, Ordered, Holds, Linked, Distinct, Heights, LastUpTo, Bypassed;
      HeadSlots();
      ghost var before, h := Forwards(chain), victim.height;
      BypassNone(p, at);
      for i := 0 to level + 1
        invariant i <= h && Bypassed(chain, before, Forwards(chain), p, at, i)
      {
        ghost var w := Forwards(chain);
        BypassAt(chain, before, w, p, at, i);
        var u: Node := update[i];
        if u.forward[i] != victim {
          break;
        }
        u.forward := u.forward[i := victim.forward[i]];
        assert Forwards(chain) == LinkPast(w, victim, u, i);
      }
    }

    lemma BypassNone(p: nat, at: seq<nat>)
      requires Valid() && p + 1 < |chain| && |at| == maxLevel
      ensures 1 <= chain[p + 1].height <= level + 1 <= maxLevel &&
              Bypassed(chain, Forwards(chain), Forwards(chain), p, at, 0)
    {
      hide Next;
    }

    /** skipList.h:138-140. */
    method Lower()
      requires level < maxLevel && chain != [] && chain[0] == head && head.height == maxLevel
      requires (forall a :: 1 <= a < |chain| ==> 1 <= chain[a].height <= level + 1) && Linked(chain, Forwards(chain))
      modifies this`level
      ensures Heights(chain, maxLevel, level)
    {
      hide Next;
      while level > 0 && head.forward[level] == null
        invariant level < maxLevel && forall a :: 1 <= a < |chain| ==> 1 <= chain[a].height <= level + 1
        decreases level
      {
        assert LinkedAt(chain, Forwards(chain), 0, level);
        assert IsNext(chain, 0, level, Next(chain, 0, level));
        level := level - 1;
      }
      if level > 0 {
        assert LinkedAt(chain, Forwards(chain), 0, level);
        assert chain[Next(chain, 0, level)].height == level + 1;
      }
    }

    /** skipList.h:128 tests current->forward[i], for a smaller key. */
    method remove(entry: Buf) returns (ghost p: nat)
      requires Valid()
      modifies this, chain
      ensures Valid() && (forall n :: n in chain ==> n in old(chain))
      ensures if DecodeKey(entry) !in old(contents) then chain == old(chain) else
                && p + 1 < |old(chain)| && chain == Removed(old(chain), p)
                && K(old(chain)[p + 1]) == DecodeKey(entry)
      ensures contents == old(contents) - {DecodeKey(entry)}
    {
      hide Next, Less, DecodeKey, Removed, Distinct, Ordered, Holds, Heights, Linked;
      var current, update, pos, at := FindUpdate(DecodeKey(entry));
      p := pos;
      FoundAtSplit(chain, contents, DecodeKey(entry), p);
      var next := current.forward[0];
      if next != null && DecodeKey(next.entry) == DecodeKey(entry) {
        RemoveFound(next, update, p, at);
      }
    }

    /** skipList.h:129-140. */
    method RemoveFound(victim: Node, update: seq<Node?>, ghost p: nat, ghost at: seq<nat>)
      requires Valid() && p + 1 < |chain| && victim == chain[p + 1] && |update| == |at| == maxLevel
      requires forall i :: 0 <= i <= level ==> LastUpTo(chain, p, i, at[i]) && update[i] == chain[at[i]]
      modifies this, chain
      ensures Valid() && (forall n :: n in chain ==> n in old(chain))
      ensures contents == old(contents) - {K(victim)} && chain == Removed(old(chain), p)
    {
      hide Next, Less, DecodeKey, Removed, Distinct, Ordered, Holds, Linked, Heights, LastUpTo, Bypassed, Slots;
      RemovedHeights(chain, maxLevel, level, p);
      BypassNone(p, at);
      Bypass(victim, update, p, at);
      LinkedRemoved(chain, old(Forwards(chain)), Forwards(chain), p, at);
      RemoveKeeps(chain, contents, p);
      RemovedMembers(chain, p);
      LinkedRestrict(Removed(chain, p), Forwards(chain), Forwards(Removed(chain, p)));
      chain := Removed(chain, p);
      contents := contents - {K(victim)};
      Lower();
    }

    /** Level 0 from the head is the strictly sorted list of the keys present, level i + 1 a sub-list
        of level i, and nothing lies above `level`. */
    lemma Levels(i: nat)
      requires Valid()
      ensures RunsThrough(Level(chain, i), Forwards(chain), i) && Level(chain, i + 1) == Level(Level(chain, i), i + 1)
      ensures Level(chain, 0) == chain && Ordered(chain) && Holds(chain, contents)
      ensures level < i < maxLevel ==> Level(chain, i) == [head]
    {
      LinksFollowLevel(chain, Forwards(chain), i);
      LevelOfLevel(chain, i);
      LevelZero(chain);
      if level < i < maxLevel {
        OnlyHead(chain, i);
      }
    }

    /** Above level 0 the top level is never empty. */
    lemma TopLevelUsed()
      requires Valid()
      ensures level > 0 ==> Level(chain, level) != [head]
    {
      hide Level, Linked, Ordered, Holds;
      if level > 0 {
        var a :| 1 <= a < |chain| && chain[a].height == level + 1;
        LevelHas(chain, level, a);
      }
    }

    lemma HeadSlots()
      requires Valid()
      ensures Slots(chain, Forwards(chain)) && maxLevel >= 1
    {}
  }

  // ----- the levels as lists

  /** The nodes with more than `i` levels, in order. */
  function Level(chain: Chain, i: nat): Chain
  {
    if chain == [] then [] else
      var n := |chain| - 1;
      Level(chain[..n], i) + if chain[n].height > i then [chain[n]] else []
  }

  /** Where they stand among the first `m` nodes. */
  function Positions(chain: Chain, m: nat, i: nat): seq<nat>
    requires m <= |chain|
  {
    if m == 0 then [] else Positions(chain, m - 1, i) + if chain[m - 1].height > i then [m - 1] else []
  }

  lemma {:induction false} LevelAt(chain: Chain, m: nat, i: nat)
    requires m <= |chain|
    ensures var ps, list := Positions(chain, m, i), Level(chain[..m], i);
            |list| == |ps| && forall k :: 0 <= k < |ps| ==>
                ps[k] < m && list[k] == chain[ps[k]] && chain[ps[k]].height > i
  {
    if m > 0 {
      LevelAt(chain, m - 1, i);
      assert chain[..m][..m - 1] == chain[..m - 1];
    }
  }

  /** On level `i`, position `a` is followed by `ps[k]`, or by nothing before `m` if that does not exist. */
  predicate GoesOn(chain: Chain, ps: seq<nat>, k: nat, m: nat, i: nat, a: nat)
    requires a < |chain|
  {
    if k < |ps| then Next(chain, a, i) == ps[k] else Next(chain, a, i) >= m
  }

  predicate GoOn(chain: Chain, ps: seq<nat>, m: nat, i: nat)
    requires m <= |chain|
  {
    forall k {:trigger ps[k]} :: 0 <= k < |ps| ==> ps[k] < m && GoesOn(chain, ps, k + 1, m, i, ps[k])
  }

  lemma {:induction false} PositionsNext(chain: Chain, m: nat, i: nat)
    requires m <= |chain|
    ensures GoOn(chain, Positions(chain, m, i), m, i)
  {
    hide Next;
    if m > 0 {
      PositionsNext(chain, m - 1, i);
      var ps0, ps := Positions(chain, m - 1, i), Positions(chain, m, i);
      forall k {:trigger ps[k]} | 0 <= k < |ps| ensures ps[k] < m && GoesOn(chain, ps, k + 1, m, i, ps[k]) {
        if k < |ps0| {
          assert ps[k] == ps0[k] && GoesOn(chain, ps0, k + 1, m - 1, i, ps0[k]);
          assert IsNext(chain, ps[k], i, Next(chain, ps[k], i));
        } else {
          assert IsNext(chain, m - 1, i, Next(chain, m - 1, i));
        }
      }
    }
  }

  /** Following the links of level `i` from its first node visits the rest of the list, then ends. */
  predicate RunsThrough(list: Chain, links: map<Node, seq<Node?>>, i: nat)
  {
    forall k {:trigger list[k]} :: 0 <= k < |list| ==>
      list[k] in links && i < |links[list[k]]| && links[list[k]][i] == NodeAt(list, k + 1)
  }

  /** The links of level `i`, starting from the head, run through exactly the nodes that tall. */
  lemma LinksFollowLevel(chain: Chain, links: map<Node, seq<Node?>>, i: nat)
    requires Linked(chain, links)
    ensures RunsThrough(Level(chain, i), links, i)
  {
    hide Next;
    var ps, list := Positions(chain, |chain|, i), Level(chain, i);
    assert chain[..|chain|] == chain;
    LevelAt(chain, |chain|, i);
    PositionsNext(chain, |chain|, i);
    forall k {:trigger list[k]} | 0 <= k < |list|
      ensures list[k] in links && i < |links[list[k]]| && links[list[k]][i] == NodeAt(list, k + 1)
    {
      assert GoesOn(chain, ps, k + 1, |chain|, i, ps[k]);
      assert LinkedAt(chain, links, ps[k], i);
      assert IsNext(chain, ps[k], i, Next(chain, ps[k], i));
    }
  }

  /** Each level is made of the nodes of the level below that are tall enough, in the same order. */
  lemma {:induction false} LevelOfLevel(chain: Chain, i: nat)
    ensures Level(chain, i + 1) == Level(Level(chain, i), i + 1)
  {
    if chain != [] {
      var n := |chain| - 1;
      LevelOfLevel(chain[..n], i);
      var front := Level(chain[..n], i);
      if chain[n].height > i {
        assert (front + [chain[n]])[..|front|] == front;
      } else {
        assert Level(chain, i) == front;
      }
    }
  }

  lemma {:induction false} LevelZero(chain: Chain)
    requires forall a :: 0 <= a < |chain| ==> chain[a].height >= 1
    ensures Level(chain, 0) == chain
  {
    if chain != [] {
      LevelZero(chain[..|chain| - 1]);
    }
  }

  lemma {:induction false} LevelHas(chain: Chain, i: nat, a: nat)
    requires a < |chain| && chain[a].height > i
    ensures chain[a] in Level(chain, i)
  {
    var n := |chain| - 1;
    if a < n {
      LevelHas(chain[..n], i, a);
    }
  }

  lemma {:induction false} OnlyHead(chain: Chain, i: nat)
    requires chain != [] && chain[0].height > i && forall a :: 1 <= a < |chain| ==> chain[a].height <= i
    ensures Level(chain, i) == [chain[0]]
  {
    if |chain| > 1 {
      OnlyHead(chain[..|chain| - 1], i);
    }
  }

  lemma RemovedMembers(chain: Chain, p: nat)
    requires p + 1 < |chain|
    ensures forall n :: n in Removed(chain, p) ==> n in chain
  {}

  lemma InsertedMembers(chain: Chain, p: nat, node: Node)
    requires p < |chain|
    ensures forall n :: n in Inserted(chain, p, node) <==> n in chain || n == node
  {
    assert chain == chain[..p + 1] + chain[p + 1..];
  }
}
