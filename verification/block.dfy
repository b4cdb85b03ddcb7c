/** db/block.h: the bytes of a block, its builder and its iterator. */
module Blocks {
  import opened Bytes
  import opened Coding
  import opened Digits
  import opened Options

  datatype Entry = Entry(key: Str, value: Str)

  /** `groupSize`: every GROUP entries a key is stored in full. */
  const GROUP: nat := 20

  // ----- the format

  /** Length of the longest common prefix. */
  function CommonPrefix(a: Str, b: Str): (n: nat)
    ensures n <= |a| && n <= |b| && a[..n] == b[..n]
    ensures n == |a| || n == |b| || a[n] != b[n]
  {
    if a != [] && b != [] && a[0] == b[0] then
      var n := CommonPrefix(a[1..], b[1..]);
      assert a[..n + 1] == [a[0]] + a[1..][..n] && b[..n + 1] == [b[0]] + b[1..][..n];
      n + 1
    else 0
  }

  /** What the loop at block.h:51-58 counts to: its bound is an int compared with a uint32_t, so of two keys
      that both reach 4GB not all they share need be seen. */
  function SharedPrefix(a: Str, b: Str): (n: nat)
    ensures n <= |a| && n <= |b| && n < WORD_SIZE && a[..n] == b[..n]
    ensures |a| < WORD_SIZE || |b| < WORD_SIZE ==> n == CommonPrefix(a, b)
  {
    var limit := (if |a| < |b| then |a| else |b|) % WORD_SIZE;
    var n := CommonPrefix(a, b);
    assert n > limit ==> a[..n][..limit] == b[..n][..limit];
    if n < limit then n else limit
  }

  /** All of the common prefix, or as much as the 32-bit bound lets the loop see. */
  lemma SharedPrefixIs(a: Str, b: Str)
    ensures var n, bound := SharedPrefix(a, b), (if |a| < |b| then |a| else |b|) % 0x1_0000_0000;
            n <= CommonPrefix(a, b) && n <= bound && (n == CommonPrefix(a, b) || n == bound)
  {
    var n, c := SharedPrefix(a, b), CommonPrefix(a, b);
    LongestPrefix(a, b, n);
  }

  lemma LongestPrefix(a: Str, b: Str, n: nat)
    requires n <= |a| && n <= |b| && a[..n] == b[..n]
    ensures n <= CommonPrefix(a, b)
  {
    var c := CommonPrefix(a, b);
    if c < n {
      assert a[..n][c] == b[..n][c];
    }
  }

  /** How much of its key entry `i` leaves out. */
  function Shared(es: seq<Entry>, i: nat): (n: nat)
    requires i < |es|
    ensures n <= |es[i].key|
  {
    if i % GROUP == 0 then 0 else SharedPrefix(es[i - 1].key, es[i].key)
  }

  function EntryBytes(shared: nat, key: Str, value: Str): (r: Str)
    requires shared <= |key|
    ensures |r| == 12 + |key| - shared + |value|
  {
    Fixed32(shared) + Fixed32(|key| - shared) + Fixed32(|value|) + key[shared..] + value
  }

  function Body(es: seq<Entry>): Str
  {
    if es == [] then [] else
      var n := |es| - 1;
      Body(es[..n]) + EntryBytes(Shared(es, n), es[n].key, es[n].value)
  }

  function Offset(es: seq<Entry>, i: nat): nat
    requires i <= |es|
  {
    |Body(es[..i])|
  }

  function Restarts(es: seq<Entry>): seq<nat>
  {
    if es == [] then [] else
      var n := |es| - 1;
      Restarts(es[..n]) + if n % GROUP == 0 then [|Body(es[..n])|] else []
  }

  function Trailer(es: seq<Entry>): Str { FixedSeq(Restarts(es)) + Fixed32(|Restarts(es)|) }

  /** The finished block. */
  function Block(es: seq<Entry>): Str { Body(es) + Trailer(es) }

  // ----- where things are

  lemma {:induction false} BodyPrefix(es: seq<Entry>, i: nat)
    requires i <= |es|
    ensures Offset(es, i) <= |Body(es)| && Body(es)[..Offset(es, i)] == Body(es[..i])
  {
    if i < |es| {
      var front := es[..|es| - 1];
      BodyPrefix(front, i);
      assert front[..i] == es[..i];
    } else {
      assert es[..i] == es;
    }
  }

  lemma BodyNext(es: seq<Entry>, i: nat)
    requires i < |es|
    ensures Body(es[..i + 1]) == Body(es[..i]) + EntryBytes(Shared(es, i), es[i].key, es[i].value)
  {
    hide EntryBytes, SharedPrefix;
    var es1 := es[..i + 1];
    assert es1[..i] == es[..i];
    assert Shared(es1, i) == Shared(es, i);
  }

  /** Entry `i` occupies [Offset(i), Offset(i + 1)). */
  lemma EntryAt(es: seq<Entry>, i: nat)
    requires i < |es|
    ensures Offset(es, i) + |EntryBytes(Shared(es, i), es[i].key, es[i].value)| == Offset(es, i + 1) <= |Body(es)|
    ensures Body(es)[Offset(es, i)..Offset(es, i + 1)] == EntryBytes(Shared(es, i), es[i].key, es[i].value)
  {
    hide EntryBytes, Body, SharedPrefix;
    BodyNext(es, i);
    BodyPrefix(es, i + 1);
    var es1 := es[..i + 1];
    assert Body(es)[Offset(es, i)..Offset(es, i + 1)] == Body(es1)[Offset(es, i)..];
  }

  lemma {:induction false} RestartAt(es: seq<Entry>)
    ensures |Restarts(es)| == (|es| + 19) / 20
    ensures forall r :: 0 <= r < |Restarts(es)| ==> 20 * r < |es| && Restarts(es)[r] == Offset(es, 20 * r)
  {
    hide Body;
    if es != [] {
      var n := |es| - 1;
      var front := es[..n];
      RestartAt(front);
      assert n % GROUP == 0 ==> n == GROUP * ((n + GROUP - 1) / GROUP);
      forall r | 0 <= r < |Restarts(es)|
        ensures GROUP * r < |es| && Restarts(es)[r] == Offset(es, GROUP * r)
      {
        if r < |Restarts(front)| {
          assert front[..GROUP * r] == es[..GROUP * r];
        }
      }
    }
  }

  // ----- reading

  function Resize(key: Str, n: nat): (r: Str)
    ensures |r| == n
  {
    if n <= |key| then key[..n] else key + seq(n - |key|, _ => 0)
  }

  datatype Parsed = Parsed(entry: Entry, next: nat)

  /** parseNext at `off`, after the entry with key `prev`; None where the bytes do not hold an entry. */
  function Parse(data: Str, off: nat, prev: Str): Option<Parsed>
  {
    if off + 12 > |data| then None else
      var shared, non_shared, value_size := DecodeFixed32(data, off), DecodeFixed32(data, off + 4),
          DecodeFixed32(data, off + 8);
      var p := off + 12;
      if p + non_shared + value_size > |data| then None
      else Some(Parsed(Entry(Resize(prev, shared) + data[p..p + non_shared],
                             data[p + non_shared..p + non_shared + value_size]),
                       p + non_shared + value_size))
  }

  /** The entries take less than 4GB, so every length and offset fits in 32 bits. */
  predicate Fits(es: seq<Entry>) { |Body(es)| < WORD_SIZE }

  /** There are fewer restarts than bytes, so their number fits too. */
  lemma {:induction false} RestartsFit(es: seq<Entry>)
    ensures |Restarts(es)| <= |es| <= |Body(es)|
  {
    if es != [] {
      RestartsFit(es[..|es| - 1]);
    }
  }

  lemma EntrySlices(shared: nat, key: Str, value: Str)
    requires shared <= |key|
    ensures var d := EntryBytes(shared, key, value);
            var k := |key| - shared;
            && d[..4] == Fixed32(shared) && d[4..8] == Fixed32(k) && d[8..12] == Fixed32(|value|)
            && d[12..12 + k] == key[shared..] && d[12 + k..12 + k + |value|] == value
  {
    hide Fixed32;
    var head := Fixed32(shared) + Fixed32(|key| - shared) + Fixed32(|value|);
    assert EntryBytes(shared, key, value) == head + (key[shared..] + value);
  }

  lemma SubSlice(data: Str, off: nat, d: Str, i: nat, j: nat)
    requires off + |d| <= |data| && data[off..off + |d|] == d && i <= j <= |d|
    ensures data[off + i..off + j] == d[i..j]
  {
    forall k | 0 <= k < j - i
      ensures data[off + i..off + j][k] == d[i..j][k]
    {
      assert d[i + k] == data[off..off + |d|][i + k];
    }
  }

  lemma ParseEntryBytes(data: Str, off: nat, shared: nat, key: Str, value: Str, prev: Str)
    requires shared <= |key| && shared < WORD_SIZE && |key| - shared < WORD_SIZE && |value| < WORD_SIZE
    requires Resize(prev, shared) == key[..shared]
    requires var bytes := EntryBytes(shared, key, value);
             off + |bytes| <= |data| && data[off..off + |bytes|] == bytes
    ensures DecodeFixed32(data, off) == shared && DecodeFixed32(data, off + 4) == |key| - shared
    ensures DecodeFixed32(data, off + 8) == |value|
    ensures Parse(data, off, prev) == Some(Parsed(Entry(key, value), off + 12 + |key| - shared + |value|))
  {
    hide Fixed32, DecodeFixed32, Resize, EntryBytes;
    var d := EntryBytes(shared, key, value);
    var k := |key| - shared;
    EntrySlices(shared, key, value);
    SubSlice(data, off, d, 0, 4);
    SubSlice(data, off, d, 4, 8);
    SubSlice(data, off, d, 8, 12);
    SubSlice(data, off, d, 12, 12 + k);
    SubSlice(data, off, d, 12 + k, 12 + k + |value|);
    Fixed32RoundTrip(data, off, shared);
    Fixed32RoundTrip(data, off + 4, k);
    Fixed32RoundTrip(data, off + 8, |value|);
    assert key[..shared] + key[shared..] == key;
  }

  /** A key is no longer than the bytes up to the end of its entry. */
  lemma {:induction false} KeyLength(es: seq<Entry>, i: nat)
    requires i < |es|
    ensures |es[i].key| <= Offset(es, i + 1)
  {
    hide Body;
    EntryAt(es, i);
    if i % GROUP != 0 {
      KeyLength(es, i - 1);
    }
  }

  /** The three lengths stored for entry `i` survive the conversion to uint32_t. */
  predicate LengthsFit(es: seq<Entry>, i: nat)
    requires i < |es|
  {
    Shared(es, i) < WORD_SIZE && |es[i].key| - Shared(es, i) < WORD_SIZE && |es[i].value| < WORD_SIZE
  }

  lemma FitsAll(es: seq<Entry>, i: nat)
    requires Fits(es) && i < |es|
    ensures LengthsFit(es, i)
  {
    hide Body, Trailer, EntryBytes;
    EntryAt(es, i);
    KeyLength(es, i);
  }

  lemma BytesAt(es: seq<Entry>, i: nat)
    requires i < |es|
    ensures var off, d := Offset(es, i), EntryBytes(Shared(es, i), es[i].key, es[i].value);
            off + |d| == Offset(es, i + 1) <= |Body(es)| <= |Block(es)| && Block(es)[off..off + |d|] == d
  {
    hide Body, Trailer, EntryBytes;
    EntryAt(es, i);
    var off, d := Offset(es, i), EntryBytes(Shared(es, i), es[i].key, es[i].value);
    assert Block(es)[off..off + |d|] == Body(es)[off..off + |d|];
  }

  /** The bytes of entry `i`, of any size: three little-endian lengths, what its key does not share, its value. */
  lemma EntryLayout(es: seq<Entry>, i: nat, j: nat)
    requires i < |es| && j < 4
    ensures var b, off := Block(es), Offset(es, i);
            var left := es[i].key[Shared(es, i)..];
            && off + 12 + |left| + |es[i].value| == Offset(es, i + 1) <= |b|
            && b[off + j] as nat == DigitOf(Shared(es, i), 256, j)
            && b[off + 4 + j] as nat == DigitOf(|left|, 256, j)
            && b[off + 8 + j] as nat == DigitOf(|es[i].value|, 256, j)
            && b[off + 12..Offset(es, i + 1)] == left + es[i].value
  {
    hide Fixed32, Body, Block, EntryBytes, DigitOf;
    var shared, key, value := Shared(es, i), es[i].key, es[i].value;
    var d := EntryBytes(shared, key, value);
    BytesAt(es, i);
    EntrySlices(shared, key, value);
    Fixed32Bytes(shared, j);
    Fixed32Bytes(|key| - shared, j);
    Fixed32Bytes(|value|, j);
    var b, off := Block(es), Offset(es, i);
    assert b[off + j] == d[j] == d[..4][j] by { assert b[off..off + |d|][j] == d[j]; }
    assert b[off + 4 + j] == d[4 + j] == d[4..8][j] by { assert b[off..off + |d|][4 + j] == d[4 + j]; }
    assert b[off + 8 + j] == d[8 + j] == d[8..12][j] by { assert b[off..off + |d|][8 + j] == d[8 + j]; }
    SubSlice(b, off, d, 12, |d|);
    assert d[12..|d|] == d[12..12 + (|key| - shared)] + d[12 + (|key| - shared)..|d|];
  }

  /** Entry `i` is stored with the prefix it shares with its predecessor left out, none of it if
      it starts a group, and is read back from there. */
  lemma ParseAt(es: seq<Entry>, i: nat, prev: Str)
    requires i < |es| && LengthsFit(es, i)
    requires i % GROUP != 0 ==> prev == es[i - 1].key
    ensures Offset(es, i) + 12 <= |Block(es)|
    ensures DecodeFixed32(Block(es), Offset(es, i)) ==
            if i % GROUP == 0 then 0 else SharedPrefix(es[i - 1].key, es[i].key)
    ensures Parse(Block(es), Offset(es, i), prev) == Some(Parsed(es[i], Offset(es, i + 1)))
  {
    hide Parse, Fixed32, DecodeFixed32, Body, Block, EntryBytes;
    BytesAt(es, i);
    ParseEntryBytes(Block(es), Offset(es, i), Shared(es, i), es[i].key, es[i].value, prev);
  }

  lemma EntryEnd(es: seq<Entry>, i: nat)
    requires i < |es| && LengthsFit(es, i)
    ensures Offset(es, i) + 8 <= |Block(es)|
    ensures Offset(es, i + 1) == Offset(es, i) + DecodeFixed32(Block(es), Offset(es, i) + 4) + |es[i].value| + 12
  {
    hide Fixed32, DecodeFixed32, Body, Block, EntryBytes;
    var d := EntryBytes(Shared(es, i), es[i].key, es[i].value);
    BytesAt(es, i);
    EntrySlices(Shared(es, i), es[i].key, es[i].value);
    SubSlice(Block(es), Offset(es, i), d, 4, 8);
    Fixed32RoundTrip(Block(es), Offset(es, i) + 4, |es[i].key| - Shared(es, i));
  }

  /** Where a length does not fit, what is read back is too short. */
  lemma ParseTruncated(es: seq<Entry>, i: nat, prev: Str)
    requires i < |es| && !LengthsFit(es, i)
    ensures var p := Parse(Block(es), Offset(es, i), prev); p.None? || p.value.entry != es[i]
  {
    hide Fixed32, DecodeFixed32, Body, Block, EntryBytes, Resize;
    var d := EntryBytes(Shared(es, i), es[i].key, es[i].value);
    var off, k := Offset(es, i), |es[i].key| - Shared(es, i);
    BytesAt(es, i);
    EntrySlices(Shared(es, i), es[i].key, es[i].value);
    SubSlice(Block(es), off, d, 0, 4);
    SubSlice(Block(es), off, d, 4, 8);
    SubSlice(Block(es), off, d, 8, 12);
    Fixed32RoundTrip(Block(es), off, Shared(es, i));
    Fixed32RoundTrip(Block(es), off + 4, k);
    Fixed32RoundTrip(Block(es), off + 8, |es[i].value|);
  }

  /** One stop of a forward scan: where an entry was parsed, and what it was. */
  datatype Visit = Visit(offset: nat, entry: Entry)

  /** What the first `n` calls of Next visit from `current`, both `current` and `restarts` being
      uint32_t (block.h:225,228): the offset wraps around. */
  function Scan(data: Str, n: nat, current: Word, restarts: Word, prev: Str): seq<Visit>
  {
    if n == 0 || current >= restarts then []
    else match Parse(data, current, prev)
      case None => []
      case Some(p) => [Visit(current, p.entry)] + Scan(data, n - 1, p.next % WORD_SIZE, restarts, p.entry.key)
  }

  /** The entries from number `i` on, each where it is stored. */
  function VisitsFrom(es: seq<Entry>, i: nat): (r: seq<Visit>)
    requires i <= |es|
    ensures |r| == |es| - i
    decreases |es| - i
  {
    if i == |es| then [] else [Visit(Offset(es, i), es[i])] + VisitsFrom(es, i + 1)
  }

  /** Entry `i` and those after it can all be reached: their lengths fit, and the last of them starts
      before the end of the entries as 32 bits hold it. */
  predicate Reachable(es: seq<Entry>, i: nat)
    requires i <= |es|
  {
    && (forall j :: i <= j < |es| ==> LengthsFit(es, j))
    && (i < |es| ==> Offset(es, |es| - 1) < |Body(es)| % WORD_SIZE)
  }

  lemma LastOffset(es: seq<Entry>, i: nat)
    requires i < |es|
    ensures Offset(es, i) <= Offset(es, |es| - 1)
  {
    hide Body;
    if i < |es| - 1 {
      OffsetsIncrease(es, i, |es| - 1);
    }
  }

  lemma WholeBody(es: seq<Entry>)
    ensures Offset(es, |es|) == |Body(es)|
  {
    assert es[..|es|] == es;
  }

  /** From entry `i`, more calls of Next than there are entries left visit exactly those. */
  lemma {:induction false} ScanFrom(es: seq<Entry>, i: nat, prev: Str, n: nat)
    requires i <= |es| && n > |es| - i
    requires i < |es| && i % GROUP != 0 ==> prev == es[i - 1].key
    ensures Scan(Block(es), n, Offset(es, i) % WORD_SIZE, |Body(es)| % WORD_SIZE, prev) == VisitsFrom(es, i) <==>
            Reachable(es, i)
    decreases |es| - i
  {
    hide Parse, Body, Block, LengthsFit, Scan, EntryBytes, SharedPrefix;
    WholeBody(es);
    ScanSteps(Block(es), n, Offset(es, i) % WORD_SIZE, |Body(es)| % WORD_SIZE, prev);
    if i < |es| {
      var off, end := Offset(es, i), |Body(es)| % WORD_SIZE;
      LastOffset(es, i);
      BytesAt(es, i);
      var expected := VisitsFrom(es, i);
      assert expected[0] == Visit(off, es[i]) && expected[1..] == VisitsFrom(es, i + 1);
      if off < end {
        if LengthsFit(es, i) {
          ParseAt(es, i, prev);
          ScanFrom(es, i + 1, es[i].key, n - 1);
          var rest := Scan(Block(es), n - 1, Offset(es, i + 1) % WORD_SIZE, end, es[i].key);
          assert ([Visit(off, es[i])] + rest)[1..] == rest;
          NextReachable(es, i);
        } else {
          ParseTruncated(es, i, prev);
        }
      } else {
        FirstVisit(Block(es), n, off, end, prev);
      }
    }
  }

  lemma ScanSteps(data: Str, n: nat, current: Word, restarts: Word, prev: Str)
    requires n > 0
    ensures var p, r := Parse(data, current, prev), Scan(data, n, current, restarts, prev);
            if current >= restarts || p.None? then r == []
            else r == [Visit(current, p.value.entry)] +
                      Scan(data, n - 1, p.value.next % WORD_SIZE, restarts, p.value.entry.key)
  {}

  /** A scan that does not start at `off`, the end of the entries being no later, visits no `off`. */
  lemma FirstVisit(data: Str, n: nat, off: nat, end: Word, prev: Str)
    requires off >= end
    ensures var r := Scan(data, n, off % WORD_SIZE, end, prev); r == [] || r[0].offset != off
  {}

  lemma NextReachable(es: seq<Entry>, i: nat)
    requires i < |es| && LengthsFit(es, i) && Offset(es, i) < |Body(es)| % WORD_SIZE
    ensures Reachable(es, i) <==> Reachable(es, i + 1)
  {
    hide Body, LengthsFit;
  }

  /** Whatever the entries and in whatever order, a forward scan of the finished block visits each of
      them, in order and where it is stored, and nothing more, if and only if there are none, or every
      stored length fits in 32 bits and the last entry starts before the end of the entries as 32 bits
      hold it; in any block whose entries take less than 4GB it does. */
  lemma BlockRoundTrip(es: seq<Entry>, n: nat)
    requires n > |es|
    ensures Scan(Block(es), n, 0, |Body(es)| % WORD_SIZE, []) == VisitsFrom(es, 0)
            <==> es == [] || ((forall i :: 0 <= i < |es| ==> LengthsFit(es, i)) &&
                              Offset(es, |es| - 1) < |Body(es)| % WORD_SIZE)
    ensures Fits(es) ==> Scan(Block(es), n, 0, |Body(es)| % WORD_SIZE, []) == VisitsFrom(es, 0)
  {
    hide Scan, LengthsFit, Block, Body, VisitsFrom;
    ScanFrom(es, 0, [], n);
    ZeroOffset(es);
    if Fits(es) && es != [] {
      forall i | 0 <= i < |es| ensures LengthsFit(es, i) {
        FitsAll(es, i);
      }
      WholeBody(es);
      OffsetsIncrease(es, |es| - 1, |es|);
    }
  }

  lemma ZeroOffset(es: seq<Entry>)
    ensures Offset(es, 0) == 0
  {
    assert es[..0] == [];
  }

  // ----- where the offset wraps

  /** A value of 2^32 - 1 zero bytes. */
  function HugeValue(): (v: Str)
    ensures |v| == WORD_SIZE - 1 && forall i :: 0 <= i < |v| ==> v[i] == 0
  {
    seq(WORD_SIZE - 1, _ => 0)
  }

  function TwoHuge(): seq<Entry> { [Entry([1], HugeValue()), Entry([2], HugeValue())] }

  lemma TwoHugeSizes()
    ensures var es := TwoHuge();
            && |Body(es)| % WORD_SIZE == 24 && Offset(es, 1) == WORD_SIZE + 12
            && LengthsFit(es, 0) && LengthsFit(es, 1)
  {
    hide Fixed32, HugeValue;
    var es := TwoHuge();
    assert es[..1] == [es[0]] && es[..1][..0] == [] && es[..0] == [];
    assert SharedPrefix([1], [2]) == 0;
  }

  lemma TwoHugeStart()
    ensures var b := Block(TwoHuge());
            && |b| > 28 && b[12] == 1 && (forall p :: 13 <= p < 28 ==> b[p] == 0)
            && Parse(b, 0, []) == Some(Parsed(TwoHuge()[0], WORD_SIZE + 12))
  {
    hide Fixed32, Body, Block, EntryBytes, HugeValue, Parse;
    var es := TwoHuge();
    TwoHugeSizes();
    ZeroOffset(es);
    ParseAt(es, 0, []);
    BytesAt(es, 0);
    var d := EntryBytes(0, [1], HugeValue());
    EntrySlices(0, [1], HugeValue());
    assert [1][0..] == [1];
    assert d[12..13] == [1] && d[13..] == HugeValue();
    SubSlice(Block(es), 0, d, 12, 28);
    forall p | 12 <= p < 28 ensures Block(es)[p] == d[p] {
      assert Block(es)[12..28][p - 12] == d[12..28][p - 12];
    }
  }

  /** Every length fits, and yet the second call of Next parses bytes inside the first entry, finds an
      entry there, and the third is at the end. */
  lemma OffsetWraps(n: nat)
    requires n >= 3
    ensures var es := TwoHuge();
            && LengthsFit(es, 0) && LengthsFit(es, 1)
            && Scan(Block(es), n, 0, |Body(es)| % WORD_SIZE, []) == [Visit(0, es[0]), Visit(12, Entry([1], []))]
            && Scan(Block(es), n, 0, |Body(es)| % WORD_SIZE, []) != VisitsFrom(es, 0)
  {
    hide Body, Block, HugeValue, Parse, Scan, VisitsFrom, LengthsFit;
    var es := TwoHuge();
    TwoHugeSizes();
    TwoHugeStart();
    ParseZeros(Block(es));
    ScanTwo(Block(es), n, es[0], WORD_SIZE + 12, Entry([1], []));
    BlockRoundTrip(es, n);
  }

  /** The key byte 1 followed by zeros, read as an entry. */
  lemma ParseZeros(b: Str)
    requires |b| > 28 && b[12] == 1 && forall p :: 13 <= p < 28 ==> b[p] == 0
    ensures Parse(b, 12, [1]) == Some(Parsed(Entry([1], []), 24))
  {
    assert DecodeFixed32(b, 12) == 1 && DecodeFixed32(b, 16) == 0 && DecodeFixed32(b, 20) == 0;
    assert Resize([1], 1) + b[24..24] == [1];
  }

  lemma ScanTwo(b: Str, n: nat, e0: Entry, next: nat, e1: Entry)
    requires n >= 3 && Parse(b, 0, []) == Some(Parsed(e0, next)) && next % WORD_SIZE == 12
    requires Parse(b, 12, e0.key) == Some(Parsed(e1, 24))
    ensures Scan(b, n, 0, 24, []) == [Visit(0, e0), Visit(12, e1)]
  {
    hide Parse;
    assert Scan(b, n - 2, 24, 24, e1.key) == [];
    assert Scan(b, n - 1, 12, 24, e0.key) == [Visit(12, e1)];
  }

  // ----- the appends as block.h:43-47 writes them

  /** `buffer.append(buf)` with a char pointer: up to the first NUL. */
  function CString(buf: Str): (r: Str)
    ensures r <= buf && 0 !in r && (|r| < |buf| ==> buf[|r|] == 0)
  {
    if buf == [] || buf[0] == 0 then [] else [buf[0]] + CString(buf[1..])
  }

  /** The first entry of a block, for sizes below 2^24, which end in a NUL inside `buf`. */
  function EntryAsWritten(key: Str, value: Str): Str
    requires |key| < 0x100_0000 && |value| < 0x100_0000
  {
    CString(Fixed32(0)) + CString(Fixed32(|key|)) + CString(Fixed32(|value|)) + key + value
  }

  /** Such appends lose which length was meant, so no reader could undo them; the builder below
      appends all four bytes. */
  lemma AppendAsWrittenCollides()
    ensures EntryAsWritten([1], []) == EntryAsWritten([], [1])
  {
    assert CString(Fixed32(0)) == [] && CString(Fixed32(1)) == [1] by {
      assert Fixed32(1)[1..][0] == 0;
    }
  }

  // ----- the builder

  lemma AppendEntry(es: seq<Entry>, e: Entry)
    ensures var n, es1 := |es|, es + [e];
            && Body(es1) == Body(es) + EntryBytes(if n % GROUP == 0 then 0 else SharedPrefix(es[n - 1].key, e.key),
                                                  e.key, e.value)
            && Restarts(es1) == Restarts(es) + if n % GROUP == 0 then [|Body(es)|] else []
  {
    assert (es + [e])[..|es|] == es;
  }

  class BlockBuilder {
    var last_key: Str
    var buffer: Str
    var restarts_: seq<nat>    // kept as offsets; both uint32_t conversions happen in Fixed32
    var counter: nat
    var finished: bool
    ghost var entries: seq<Entry>

    ghost predicate Valid()
      reads this
    {
      && buffer == (if finished then Block(entries) else Body(entries))
      && restarts_ == Restarts(entries)
      && counter == |entries| % GROUP
      && last_key == if entries == [] then [] else entries[|entries| - 1].key
    }

    /** `counter` starts at 0; block.h:30,111 leaves it unset. */
    constructor ()
      ensures Valid() && entries == [] && !finished
    {
      last_key, buffer, restarts_, counter, finished, entries := [], [], [], 0, false, [];
    }

    /** The loop of Add, block.h:51-58. */
    static method SharedLength(last_key: Str, key: Str) returns (shared: nat)
      ensures shared == SharedPrefix(last_key, key)
    {
      shared := 0;
      var min_length := (if |last_key| < |key| then |last_key| else |key|) % WORD_SIZE;
      while shared < min_length
        invariant shared <= min_length
        invariant CommonPrefix(last_key, key) == shared + CommonPrefix(last_key[shared..], key[shared..])
      {
        if key[shared] != last_key[shared] {
          break;
        }
        assert last_key[shared..][1..] == last_key[shared + 1..] && key[shared..][1..] == key[shared + 1..];
        shared := shared + 1;
      }
    }

    /** Four bytes per number; block.h:43-47 and 63-68 append `buf` up to its first NUL. */
    method Add(key: Str, value: Str)
      modifies this
      ensures finished == old(finished) && last_key == key
      ensures old(Valid() && !finished) ==> Valid() && entries == old(entries) + [Entry(key, value)]
    {
      hide SharedPrefix, Fixed32, EntryBytes, Body, Restarts;
      AppendEntry(entries, Entry(key, value));
      if counter == 0 {
        restarts_ := restarts_ + [|buffer|];
        AppendBytes(0, key, value);
      } else {
        var shared := SharedLength(last_key, key);
        AppendBytes(shared, key, value);
      }
      last_key := key;
      counter := counter + 1;
      if counter >= GROUP {
        counter := 0;
      }
      entries := entries + [Entry(key, value)];
    }

    /** block.h:41-49 and 62-70, whichever branch: the full key is the case of nothing shared. */
    method AppendBytes(shared: nat, key: Str, value: Str)
      requires shared <= |key|
      modifies this`buffer
      ensures buffer == old(buffer) + EntryBytes(shared, key, value)
    {
      hide Fixed32;
      buffer := buffer + Fixed32(shared);
      buffer := buffer + Fixed32(|key| - shared);
      buffer := buffer + Fixed32(|value|);
      buffer := buffer + key[shared..];
      buffer := buffer + value;
      assert buffer == old(buffer) + EntryBytes(shared, key, value);
    }

    method Finish() returns (r: Str)
      modifies this
      ensures r == buffer && finished
      ensures old(Valid() && !finished) ==> Valid() && entries == old(entries) && r == Block(entries)
    {
      hide Body, Restarts, Fixed32;
      ghost var body := buffer;
      for i := 0 to |restarts_|
        invariant restarts_ == old(restarts_) && entries == old(entries) && counter == old(counter)
        invariant last_key == old(last_key) && finished == old(finished)
        invariant buffer == body + FixedSeq(restarts_[..i])
      {
        buffer := buffer + Fixed32(restarts_[i]);
        assert restarts_[..i + 1][..i] == restarts_[..i];
      }
      assert restarts_[..|restarts_|] == restarts_;
      buffer := buffer + Fixed32(|restarts_|);
      finished := true;
      r := buffer;
    }

    /** What Finish would return is exactly as long as the estimate. */
    method CurrentSizeEstimate() returns (r: nat)
      requires Valid() && !finished
      ensures r == |Block(entries)|
    {
      r := |buffer| + |restarts_| * 4 + 4;
    }

    method Reset()
      modifies this
      ensures Valid() && entries == [] && !finished
    {
      buffer, last_key, restarts_, counter, finished, entries := [], [], [], 0, false, [];
    }

    method Empty() returns (r: bool)
      requires Valid() && !finished
      ensures r <==> entries == []
    {
      r := |buffer| == 0;
    }
  }

  // ----- the iterator

  predicate Sorted(es: seq<Entry>)
  {
    forall i, j :: 0 <= i < j < |es| ==> !Less(es[j].key, es[i].key)
  }

  /** A linear search: the first entry with key >= target, or |es|. */
  function FirstAtLeast(es: seq<Entry>, target: Str): (i: nat)
    ensures i <= |es|
    ensures forall j :: 0 <= j < i ==> Less(es[j].key, target)
    ensures i < |es| ==> !Less(es[i].key, target)
  {
    if es == [] || !Less(es[0].key, target) then 0 else 1 + FirstAtLeast(es[1..], target)
  }

  /** The loop at block.h:195-201, over the decoded restart array. */
  function AdvanceRestart(rs: seq<nat>, r: Word, current: nat): Word
    decreases |rs| - r
  {
    if r + 1 < |rs| && r + 1 < WORD_SIZE && rs[r + 1] < current then AdvanceRestart(rs, r + 1, current) else r
  }

  /** Where the finished block ends up in memory, and what its last word says. */
  lemma BlockLayout(es: seq<Entry>)
    ensures |Block(es)| == |Body(es)| + 4 * |Restarts(es)| + 4
    ensures |Restarts(es)| < WORD_SIZE ==> DecodeFixed32(Block(es), |Block(es)| - 4) == |Restarts(es)|
  {
    hide Fixed32, DecodeFixed32, Body, Restarts;
    var n := |Block(es)|;
    assert Block(es)[n - 4..n] == Fixed32(|Restarts(es)|);
    if |Restarts(es)| < WORD_SIZE {
      Fixed32RoundTrip(Block(es), n - 4, |Restarts(es)|);
    }
  }

  /** The restart array read back. */
  lemma RestartWord(es: seq<Entry>, r: nat)
    requires Fits(es) && r < |Restarts(es)|
    ensures |Body(es)| + 4 * r + 4 <= |Block(es)|
    ensures DecodeFixed32(Block(es), |Body(es)| + 4 * r) == Restarts(es)[r]
    ensures GROUP * r < |es| && Restarts(es)[r] == Offset(es, GROUP * r)
  {
    hide Fixed32, DecodeFixed32, Body, Restarts;
    var p, rs := |Body(es)|, Restarts(es);
    FixedSeqAt(rs, r);
    assert Block(es) == Body(es) + (FixedSeq(rs) + Fixed32(|rs|));
    assert Block(es)[p + 4 * r..p + 4 * r + 4] == FixedSeq(rs)[4 * r..4 * r + 4];
    Fixed32RoundTrip(Block(es), p + 4 * r, rs[r]);
    RestartAt(es);
    BodyPrefix(es, GROUP * r);
  }

  /** The bytes after the entries, of any size: each restart, then their number, little-endian. */
  lemma TrailerLayout(es: seq<Entry>, r: nat, j: nat)
    requires j < 4
    ensures var b, p, n := Block(es), |Body(es)|, |Restarts(es)|;
            && |b| == p + 4 * n + 4
            && (r < n ==> b[p + 4 * r + j] as nat == DigitOf(Restarts(es)[r], 256, j))
            && b[p + 4 * n + j] as nat == DigitOf(n, 256, j)
  {
    hide Fixed32, Body, Restarts, DigitOf;
    var p, rs := |Body(es)|, Restarts(es);
    Fixed32Bytes(|rs|, j);
    if r < |rs| {
      FixedSeqAt(rs, r);
      Fixed32Bytes(rs[r], j);
      assert FixedSeq(rs)[4 * r + j] == FixedSeq(rs)[4 * r..4 * r + 4][j];
    }
  }

  lemma {:induction false} OffsetsIncrease(es: seq<Entry>, i: nat, j: nat)
    requires i < j <= |es|
    ensures Offset(es, i) < Offset(es, j)
  {
    hide Body;
    EntryAt(es, j - 1);
    if i < j - 1 {
      OffsetsIncrease(es, i, j - 1);
    }
  }

  /** restart_index ends up naming the group of entry `i` if and only if it did so before, or lagged
      behind and the entry does not start a group: the test at block.h:196 is strict, and nothing
      ever moves the index back, which SeekToFirst would need (block.h:132-135). */
  lemma {:induction false} RestartIndexExact(es: seq<Entry>, i: nat, r: Word)
    requires Fits(es) && i < |es| && r < |Restarts(es)| < WORD_SIZE
    ensures AdvanceRestart(Restarts(es), r, Offset(es, i)) == i / GROUP
            <==> r == i / GROUP || (r < i / GROUP && i % GROUP != 0)
    decreases |Restarts(es)| - r
  {
    hide Restarts, Body, Fits;
    RestartAt(es);
    var rs, off := Restarts(es), Offset(es, i);
    if r + 1 < |rs| {
      var k := GROUP * (r + 1);
      if k < i {
        OffsetsIncrease(es, k, i);
        RestartIndexExact(es, i, r + 1);
      } else if i < k {
        OffsetsIncrease(es, i, k);
      }
    }
  }

  lemma {:induction false} AdvanceTwice(rs: seq<nat>, r: Word, a: nat, b: nat)
    requires a <= b && |rs| < WORD_SIZE
    ensures AdvanceRestart(rs, AdvanceRestart(rs, r, a), b) == AdvanceRestart(rs, r, b)
    decreases |rs| - r
  {
    if r + 1 < |rs| && rs[r + 1] < a {
      AdvanceTwice(rs, r + 1, a, b);
    }
  }

  class BlockIter {
    const data: Str
    const restarts_num: Word
    const restarts: Word
    var current: Word
    var restart_index: Word
    var key_: Str
    var value_: Str
    ghost const es: seq<Entry>
    ghost var pos: nat    // how many entries lie before `current`

    ghost predicate Valid()
      reads this
    {
      && data == Block(es) && Fits(es)
      && restarts_num == |Restarts(es)| && restarts == |Body(es)|
      && (restarts_num > 0 ==> restart_index < restarts_num)
      && pos <= |es| && current == Offset(es, pos)
      && (pos % GROUP != 0 ==> key_ == es[pos - 1].key)
    }

    /** The entry last parsed, if any: what key() and value() return. */
    ghost predicate At(i: nat)
      reads this
    {
      i < |es| && pos == i + 1 && key_ == es[i].key && value_ == es[i].value
    }

    method ParseNext() returns (parsed: bool)
      requires Valid()
      modifies this`key_, this`value_, this`restart_index
      ensures parsed == (pos < |es|)
      ensures parsed ==> key_ == es[pos].key && value_ == es[pos].value
                         && restart_index == AdvanceRestart(Restarts(es), old(restart_index), current) < restarts_num
      ensures !parsed ==> (key_, value_, restart_index) == old((key_, value_, restart_index))
    {
      hide DecodeFixed32, Body, Restarts, Block, SharedPrefix;
      var ptr := current;
      PastEnd(es, pos);
      if ptr >= restarts {
        return false;
      }
      FitsAll(es, pos);
      ParseAt(es, pos, key_);
      SomeRestart(es);
      var shared := DecodeFixed32(data, ptr);
      var non_shared := DecodeFixed32(data, ptr + 4);
      var value_size := DecodeFixed32(data, ptr + 8);
      ptr := ptr + 12;
      key_ := Resize(key_, shared) + data[ptr..ptr + non_shared];
      value_ := data[ptr + non_shared..ptr + non_shared + value_size];
      UpdateRestartIndex();
      parsed := true;
    }

    method UpdateRestartIndex()
      requires Fits(es) && data == Block(es) && restarts == |Body(es)| && restart_index < restarts_num == |Restarts(es)|
      modifies this`restart_index
      ensures restart_index == AdvanceRestart(Restarts(es), old(restart_index), current) < restarts_num
    {
      hide DecodeFixed32, Body, Restarts, Block;
      while restart_index + 1 < restarts_num
        invariant restart_index < restarts_num
        invariant AdvanceRestart(Restarts(es), restart_index, current) ==
                  AdvanceRestart(Restarts(es), old(restart_index), current)
        decreases restarts_num - restart_index
      {
        var next := restart_index + 1;
        RestartWord(es, next);
        if DecodeFixed32(data, restarts + next * 4) < current {
          restart_index := next;
        } else {
          break;
        }
      }
    }

    /** Advances by what the entry occupies, non_shared + value size + 12, and not at all at the
        end; block.h:179 adds the whole key's length, every time. */
    method Next()
      requires Valid()
      modifies this
      ensures Valid()
      ensures old(pos) < |es| ==>
              At(old(pos)) && restart_index == AdvanceRestart(Restarts(es), old(restart_index), old(current))
      ensures old(pos) == |es| ==>
                (pos, current, key_, value_, restart_index) == old((pos, current, key_, value_, restart_index))
    {
      hide DecodeFixed32, Body, Restarts, Block;
      var parsed := ParseNext();
      if parsed {
        FitsAll(es, pos);
        EntryEnd(es, pos);
        BodyPrefix(es, pos + 1);
        var non_shared := DecodeFixed32(data, current + 4);
        current := (current as int + non_shared + |value_| + 12) % WORD_SIZE;
        pos := pos + 1;
      }
    }

    /** The end of the entries and the first restart point; block.h:119 decodes a word there and
        takes it for the offset of the restart array. */
    constructor (data: Str, restarts_num: Word, ghost es: seq<Entry>)
      requires data == Block(es) && Fits(es) && restarts_num == |Restarts(es)|
      ensures Valid() && this.es == es && (es != [] ==> At(0)) && (es == [] ==> pos == 0)
    {
      hide DecodeFixed32, Body, Restarts, Block;
      this.data, this.restarts_num, this.es := data, restarts_num, es;
      BlockLayout(es);
      restarts := (|data| - (restarts_num + 1) * 4) % WORD_SIZE;
      restart_index := (restarts_num - 1) % WORD_SIZE;
      current, key_, value_, pos := 0, [], [], 0;
      new;
      assert es[..0] == [];
      EmptyBody();
      SeekToFirst();
    }

    method SeekToFirst()
      requires Valid()
      modifies this
      ensures Valid() && (es != [] ==> At(0)) && (es == [] ==> pos == 0)
    {
      hide DecodeFixed32, Body, Restarts, Block;
      FirstWord(es);
      current := DecodeFixed32(data, restarts);
      pos := 0;
      assert es[..0] == [];
      EmptyBody();
      Next();
    }

    /** Ends on the last entry. */
    method SeekToLast()
      requires Valid() && es != []
      modifies this
      ensures Valid() && At(|es| - 1) && restart_index == (|es| - 1) / GROUP
    {
      hide DecodeFixed32, Body, Restarts, Block;
      SomeRestart(es);
      RestartAt(es);
      restart_index := restarts_num - 1;
      RestartWord(es, restart_index);
      current := DecodeFixed32(data, restarts + (restarts_num - 1) * 4);
      pos := GROUP * (restarts_num - 1);
      PastEnd(es, pos);
      while current < restarts
        invariant Valid() && (pos == |es| ==> At(|es| - 1)) && restart_index == restarts_num - 1
        invariant current < restarts <==> pos < |es|
        decreases |es| - pos
      {
        Next();
        PastEnd(es, pos);
      }
    }

    /** The binary search of Seek, block.h:147-165: restart keys left of `left` are below the
        target, those right of `r` are not. */
    method SearchRestarts(target: Str) returns (right: Word)
      requires Valid()
      ensures right < restarts_num || (right == 0 && es == [])
      ensures GROUP * right < |es| || es == []
      ensures Sorted(es) ==> forall j :: 0 <= j < GROUP * right && j < |es| ==> Less(es[j].key, target)
      ensures Sorted(es) ==> (right > 0 ==> RestartBelow(es, right, target)) && !RestartBelow(es, right + 1, target)
    {
      hide DecodeFixed32, Body, Restarts, Block, Less, Sorted;
      RestartCount(es);
      var left, r := 0, restarts_num - 1;
      while left <= r
        invariant 0 <= left <= r + 1 <= restarts_num
        invariant left > 0 ==> RestartBelow(es, left - 1, target)
        invariant Sorted(es) ==> forall k :: 0 <= k < left ==> RestartBelow(es, k, target)
        invariant Sorted(es) ==> forall k :: r < k < restarts_num ==> !RestartBelow(es, k, target)
      {
        var mid := (left + r) / 2;
        RestartKey(es, mid);
        var offset: int := DecodeFixed32(data, restarts as int + mid * 4);
        var shared := DecodeFixed32(data, offset);
        assert shared == 0;
        var non_shared := DecodeFixed32(data, offset + 4);
        var ptr := offset + 12;
        var key := data[ptr..ptr + non_shared];
        if Sorted(es) {
          RestartsOrdered(es, target, mid);
        }
        if Less(key, target) {
          left := mid + 1;
        } else {
          r := mid - 1;
        }
      }
      right := if r < 0 then 0 else r;
      if right > 0 && Sorted(es) {
        BelowRestart(es, target, right);
      }
    }

    /** Binary search over the restart keys, then a scan; the lower bound 0 for `right` and the end
        of the scan are missing at block.h:165 and 169. A first entry of a group is always reached
        from the group before, and restart_index then still names that one. */
    method Seek(target: Str)
      requires Valid()
      modifies this
      ensures Valid()
      ensures Sorted(es) ==>
                var i := FirstAtLeast(es, target);
                if i < |es| then At(i) && (restart_index == i / GROUP <==> i == 0 || i % GROUP != 0)
                else pos == |es| && current == restarts && (es != [] ==> At(|es| - 1) && Less(key_, target))
    {
      hide DecodeFixed32, Body, Restarts, Block, Less, Sorted, FirstAtLeast, AdvanceRestart, RestartBelow,
           SharedPrefix, Fits;
      var right := SearchRestarts(target);
      restart_index := right;
      StartWord(es, right);
      current := DecodeFixed32(data, restarts as int + 4 * (right as int));
      pos := GROUP * right;
      ghost var start := pos;
      PastEnd(es, pos);
      while current < restarts
        invariant Valid() && start <= pos && (current < restarts <==> pos < |es|)
        invariant start < pos ==> At(pos - 1)
        invariant restart_index ==
                  if start < pos then AdvanceRestart(Restarts(es), right, Offset(es, pos - 1)) else right
        invariant forall j :: start <= j < pos ==> Less(es[j].key, target)
        decreases |es| - pos
      {
        if start < pos {
          OffsetsIncrease(es, pos - 1, pos);
          AdvanceTwice(Restarts(es), right, Offset(es, pos - 1), Offset(es, pos));
        }
        Next();
        PastEnd(es, pos);
        if !Less(key_, target) {
          if Sorted(es) {
            FirstIs(es, target, pos - 1);
            SeekGroup(es, target, pos - 1, right);
          }
          return;
        }
      }
      if Sorted(es) {
        FirstIs(es, target, |es|);
        assert start < |es| || es == [];
      }
      assert es[..|es|] == es;
    }
  }

  lemma RestartCount(es: seq<Entry>)
    ensures es == [] <==> |Restarts(es)| == 0
    ensures |es| <= GROUP * |Restarts(es)|
    ensures forall k :: 0 <= k < |Restarts(es)| ==> GROUP * k < |es|
  {
    RestartAt(es);
  }

  /** The first entry of a group is stored with its full key. */
  lemma RestartKey(es: seq<Entry>, r: nat)
    requires Fits(es) && r < |Restarts(es)|
    ensures |Body(es)| + 4 * r + 4 <= |Block(es)| && GROUP * r < |es|
    ensures var off := DecodeFixed32(Block(es), |Body(es)| + 4 * r);
            && off + 12 <= |Block(es)| && DecodeFixed32(Block(es), off) == 0
            && var n := DecodeFixed32(Block(es), off + 4);
            off + 12 + n <= |Block(es)| && Block(es)[off + 12..off + 12 + n] == es[GROUP * r].key
  {
    hide DecodeFixed32, Body, Restarts, Block;
    RestartWord(es, r);
    FitsAll(es, GROUP * r);
    ParseAt(es, GROUP * r, []);
    var off := Offset(es, GROUP * r);
    var n := DecodeFixed32(Block(es), off + 4);
    assert Resize([], 0) + Block(es)[off + 12..off + 12 + n] == Block(es)[off + 12..off + 12 + n];
  }

  predicate RestartBelow(es: seq<Entry>, r: nat, target: Str)
  {
    GROUP * r < |es| && Less(es[GROUP * r].key, target)
  }

  lemma RestartsOrdered(es: seq<Entry>, target: Str, r: nat)
    requires Sorted(es) && GROUP * r < |es|
    ensures RestartBelow(es, r, target) ==> forall k :: 0 <= k <= r ==> RestartBelow(es, k, target)
    ensures !RestartBelow(es, r, target) ==> forall k :: r <= k ==> !RestartBelow(es, k, target)
  {
    forall k | 0 <= k && GROUP * k < |es|
      ensures k <= r && RestartBelow(es, r, target) ==> RestartBelow(es, k, target)
      ensures r <= k && RestartBelow(es, k, target) ==> RestartBelow(es, r, target)
    {
      var a, b := es[GROUP * k].key, es[GROUP * r].key;
      if k < r && Less(b, target) {
        NotLessThenLess(a, b, target);
      }
      if r < k && Less(a, target) {
        NotLessThenLess(b, a, target);
      }
    }
  }

  /** Everything before a restart point whose key is below the target is below it too. */
  lemma BelowRestart(es: seq<Entry>, target: Str, r: nat)
    requires Sorted(es) && RestartBelow(es, r, target)
    ensures forall j :: 0 <= j < GROUP * r ==> Less(es[j].key, target)
  {
    forall j | 0 <= j < GROUP * r ensures Less(es[j].key, target) {
      NotLessThenLess(es[j].key, es[GROUP * r].key, target);
    }
  }

  lemma StartWord(es: seq<Entry>, r: nat)
    requires Fits(es) && (r < |Restarts(es)| || (r == 0 && es == []))
    ensures |Body(es)| + 4 * r + 4 <= |Block(es)| && GROUP * r <= |es|
    ensures DecodeFixed32(Block(es), |Body(es)| + 4 * r) == Offset(es, GROUP * r)
  {
    hide DecodeFixed32, Restarts, Block;
    RestartCount(es);
    if es == [] {
      FirstWord(es);
    } else {
      RestartWord(es, r);
    }
  }

  /** A search that starts in group `right` and stops on entry `i` leaves restart_index at the group
      of `i`, unless `i` is the first of a later group. */
  lemma SeekGroup(es: seq<Entry>, target: Str, i: nat, right: Word)
    requires Fits(es) && i < |es| && right < |Restarts(es)| < WORD_SIZE && GROUP * right <= i &&
             FirstAtLeast(es, target) == i
    requires (right > 0 ==> RestartBelow(es, right, target)) && !RestartBelow(es, right + 1, target)
    ensures AdvanceRestart(Restarts(es), right, Offset(es, i)) == i / GROUP <==> i == 0 || i % GROUP != 0
  {
    hide Restarts, Body, Fits, Less;
    RestartIndexExact(es, i, right);
    assert i <= GROUP * (right + 1);
    assert right > 0 ==> i != GROUP * right;
  }

  lemma FirstIs(es: seq<Entry>, target: Str, i: nat)
    requires i <= |es| && (forall j :: 0 <= j < i ==> Less(es[j].key, target)) &&
             (i < |es| ==> !Less(es[i].key, target))
    ensures FirstAtLeast(es, target) == i
  {}

  lemma EmptyBody()
    ensures Body([]) == []
  {}

  lemma FirstWord(es: seq<Entry>)
    requires Fits(es)
    ensures |Body(es)| + 4 <= |Block(es)| && DecodeFixed32(Block(es), |Body(es)|) == 0
  {
    if es != [] {
      SomeRestart(es);
      RestartWord(es, 0);
      assert es[..0] == [];
    } else {
      BlockLayout(es);
    }
  }

  lemma SomeRestart(es: seq<Entry>)
    requires es != []
    ensures |Restarts(es)| > 0
  {
    RestartAt(es);
  }

  lemma PastEnd(es: seq<Entry>, pos: nat)
    requires pos <= |es|
    ensures Offset(es, pos) >= |Body(es)| <==> pos == |es|
  {
    if pos < |es| {
      EntryAt(es, pos);
    } else {
      assert es[..pos] == es;
    }
  }
}
