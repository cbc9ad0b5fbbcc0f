/** Bloom filters that admit a response to the cache only after enough requests for it. */
module Admission {
  import opened AdmissionBank

  const SHARDS: nat := 64
  const WORDS: nat := 128

  /** A cache key as the two little-endian halves the filter hashes. */
  datatype Key = Key(low: bv64, high: bv64)

  /** One bit of the filter: its word, counted over all shards, and its mask in the word. */
  datatype Spot<+M> = Spot(word: int, mask: M)

  type Position = Spot<bv64>

  predicate OneBit(mask: bv64) { mask != 0 && mask & (mask - 1) == 0 }

  predicate InRange(p: Position) {
    0 <= p.word < SHARDS * WORDS && OneBit(p.mask)
  }

  function Hash1(seed: bv64, key: Key): bv64 { key.low ^ (seed * 0x9e3779b97f4a7c15) }

  function Hash2(seed: bv64, key: Key): bv64 { (key.high ^ (seed * 0xbf58476d1ce4e5b9)) | 1 }

  /** The sums and products wrap around at 64 bits, as the bit-vector operations do. */
  function ProbeBit(seed: bv64, key: Key, index: bv64): bv64 {
    (Hash1(seed, key) / 64 + index * Hash2(seed, key)) % 8192
  }

  function Shard(seed: bv64, key: Key): int { (Hash1(seed, key) % 64) as int }

  function Probe(seed: bv64, key: Key, index: bv64): Position {
    var bit := ProbeBit(seed, key, index);
    Spot(Shard(seed, key) * WORDS + (bit / 64) as int, 1 << (bit % 64))
  }

  lemma {:induction false} ShardIndex(hash: bv64)
    ensures 0 <= (hash % 64) as int < SHARDS
  {
    BelowShards(hash % 64);
  }

  lemma {:induction false} BelowShards(shard: bv64)
    requires shard < 64
    ensures shard as int < 64
  {
  }

  lemma {:induction false} WordIndex(bit: bv64)
    requires bit < 8192
    ensures 0 <= (bit / 64) as int < WORDS
  {
    BelowWords(bit / 64);
  }

  lemma {:induction false} BelowWords(word: bv64)
    requires word < 128
    ensures word as int < 128
  {
  }

  lemma {:induction false} ShiftedOnce(i: bv64)
    requires i < 64
    ensures OneBit((1 as bv64) << i)
  {
  }

  lemma {:induction false} OddSteps(base: bv64, step: bv64, i: bv64, j: bv64)
    requires step & 1 == 1 && i < j < 4
    ensures (base + i * step) % 8192 != (base + j * step) % 8192
  {
  }

  /** The four bits of a key are four different ones, since the step between them is odd. */
  lemma {:induction false} BitsDiffer(seed: bv64, key: Key, i: bv64, j: bv64)
    requires i < j < 4
    ensures ProbeBit(seed, key, i) != ProbeBit(seed, key, j)
  {
    OddSteps(Hash1(seed, key) / 64, Hash2(seed, key), i, j);
  }

  /** Every computed bit lies inside its shard. */
  lemma {:induction false} ProbeInRange(seed: bv64, key: Key, index: bv64)
    ensures InRange(Probe(seed, key, index))
    ensures Shard(seed, key) * WORDS <= Probe(seed, key, index).word < (Shard(seed, key) + 1) * WORDS
  {
    var bit := ProbeBit(seed, key, index);
    assert bit < 8192;
    ShardIndex(Hash1(seed, key));
    WordIndex(bit);
    ShiftedOnce(bit % 64);
  }

  type Filter = iset<Position>

  function ProbeList(seed: bv64, key: Key): seq<Position> {
    [Probe(seed, key, 0), Probe(seed, key, 1), Probe(seed, key, 2), Probe(seed, key, 3)]
  }

  ghost function Among(positions: seq<Position>): Filter { iset p | p in positions }

  ghost function Probes(seed: bv64, key: Key): Filter { Among(ProbeList(seed, key)) }

  ghost predicate Contains(filter: Filter, seed: bv64, key: Key) {
    Probes(seed, key) <= filter
  }

  // ----- the words -----

  predicate IsSet(w: bv64, mask: bv64) { OneBit(mask) && w & mask != 0 }

  function SetIn(w: bv64, mask: bv64): bv64 { w | mask }

  /** Setting one bit of a word sets that bit and no other. */
  ghost predicate Settable<W(!new), M(!new)>(test: (W, M) -> bool, put: (W, M) -> W, bit: M -> bool) {
    forall w, p, q :: bit(p) ==> (test(put(w, p), q) <==> test(w, q) || q == p)
  }

  lemma {:induction false} WordSettable()
    ensures Settable(IsSet, SetIn, OneBit)
  {
    forall w: bv64, p: bv64, q: bv64 | OneBit(p) ensures IsSet(SetIn(w, p), q) <==> IsSet(w, q) || q == p {
      if OneBit(q) { MaskSet(w, p, q); }
    }
  }

  lemma {:induction false} MaskSet(w: bv64, p: bv64, q: bv64)
    requires OneBit(p) && OneBit(q)
    ensures ((w | p) & q) != 0 <==> (w & q) != 0 || p == q
  {
  }

  lemma {:induction false} ProbesInRange(seed: bv64, key: Key)
    ensures forall p :: p in ProbeList(seed, key) ==> InRange(p)
  {
    ProbeInRange(seed, key, 0);
    ProbeInRange(seed, key, 1);
    ProbeInRange(seed, key, 2);
    ProbeInRange(seed, key, 3);
  }

  lemma {:induction false} NoBits()
    ensures forall mask :: !IsSet(0, mask)
  {
  }

  /** The set bits of a row of words, given the test of one bit of one word. */
  ghost function RowBits<W(!new), M(!new)>(words: seq<W>, test: (W, M) -> bool): iset<Spot<M>> {
    iset p: Spot<M> | 0 <= p.word < |words| && test(words[p.word], p.mask)
  }

  lemma {:induction false} RowSet<W(!new), M(!new)>(words: seq<W>, test: (W, M) -> bool, put: (W, M) -> W,
          bit: M -> bool, p: Spot<M>)
    requires Settable(test, put, bit) && 0 <= p.word < |words| && bit(p.mask)
    ensures RowBits(words[p.word := put(words[p.word], p.mask)], test) == RowBits(words, test) + iset{p}
  {
  }

  lemma {:induction false} RowTest<W(!new), M(!new)>(words: seq<W>, test: (W, M) -> bool, i: int, mask: M)
    requires 0 <= i < |words|
    ensures Spot(i, mask) in RowBits(words, test) <==> test(words[i], mask)
  {
  }

  lemma {:induction false} RowClear<W(!new), M(!new)>(words: seq<W>, test: (W, M) -> bool)
    requires forall i, m :: 0 <= i < |words| ==> !test(words[i], m)
    ensures RowBits(words, test) == iset{}
  {
  }

  lemma {:induction false} PositionSet(words: seq<bv64>, p: Position)
    requires 0 <= p.word < |words| && OneBit(p.mask)
    ensures RowBits(words[p.word := SetIn(words[p.word], p.mask)], IsSet) == RowBits(words, IsSet) + iset{p}
  {
    WordSettable();
    RowSet(words, IsSet, SetIn, OneBit, p);
  }

  lemma {:induction false} PositionTest(words: seq<bv64>, p: Position)
    requires 0 <= p.word < |words| && OneBit(p.mask)
    ensures p in RowBits(words, IsSet) <==> words[p.word] & p.mask != 0
  {
    RowTest(words, IsSet, p.word, p.mask);
  }

  class Bloom {
    const seed: bv64
    const words: array<bv64>

    ghost predicate Valid() { words.Length == SHARDS * WORDS }

    constructor (seed: bv64)
      ensures Valid() && fresh(words) && this.seed == seed && Bits() == iset{}
    {
      this.seed := seed;
      words := new bv64[SHARDS * WORDS](i => 0);
      new;
      NoBits();
      RowClear(words[..], IsSet);
    }

    ghost function Bits(): Filter
      reads words
    {
      RowBits(words[..], IsSet)
    }

    method SetOne(p: Position) returns (absent: bool)
      requires Valid() && InRange(p)
      modifies words
      ensures absent == (p !in old(Bits())) && Bits() == old(Bits()) + iset{p}
    {
      ghost var before := words[..];
      PositionSet(before, p);
      PositionTest(before, p);
      absent := words[p.word] & p.mask == 0;
      if absent {
        words[p.word] := SetIn(words[p.word], p.mask);
        assert words[..] == before[p.word := SetIn(before[p.word], p.mask)];
      }
    }

    method MarkAll(positions: seq<Position>) returns (isNew: bool)
      requires Valid() && forall p :: p in positions ==> InRange(p)
      modifies words
      ensures isNew == !(Among(positions) <= old(Bits()))
      ensures Bits() == old(Bits()) + Among(positions)
    {
      ghost var before := Bits();
      isNew := false;
      for i := 0 to |positions|
        invariant Bits() == before + Among(positions[..i])
        invariant isNew <==> !(Among(positions[..i]) <= before)
      {
        assert positions[..i + 1] == positions[..i] + [positions[i]];
        assert Among(positions[..i + 1]) == Among(positions[..i]) + iset{positions[i]};
        var absent := SetOne(positions[i]);
        if absent { isNew := true; }
      }
      assert positions[..|positions|] == positions;
    }

    method MarkIfNew(key: Key) returns (isNew: bool)
      requires Valid()
      modifies words
      ensures isNew == !Contains(old(Bits()), seed, key)
      ensures Bits() == old(Bits()) + Probes(seed, key)
    {
      ProbesInRange(seed, key);
      isNew := MarkAll(ProbeList(seed, key));
    }

    method Reset()
      requires Valid()
      modifies words
      ensures Bits() == iset{}
    {
      for i := 0 to words.Length
        invariant forall k :: 0 <= k < i ==> words[k] == 0
      {
        words[i] := 0;
      }
      NoBits();
      RowClear(words[..], IsSet);
    }
  }

  // ----- a bank of filters -----

  ghost function Bank(blooms: seq<Bloom>): seq<Filter>
    reads set b | b in blooms :: b.words
  {
    seq(|blooms|, i requires 0 <= i < |blooms| reads set b | b in blooms :: b.words => blooms[i].Bits())
  }

  /** The bits that the key needs in each filter. */
  ghost function Needs(seeds: seq<bv64>, key: Key): seq<Filter> {
    seq(|seeds|, i requires 0 <= i < |seeds| => Probes(seeds[i], key))
  }

  function Seeds(blooms: seq<Bloom>): seq<bv64> {
    seq(|blooms|, i requires 0 <= i < |blooms| => blooms[i].seed)
  }

  ghost predicate ValidBank(blooms: seq<Bloom>) {
    && (forall i :: 0 <= i < |blooms| ==> blooms[i].Valid())
    && (forall i, j :: 0 <= i < j < |blooms| ==> blooms[i].words != blooms[j].words)
  }

  /** Marks the key in filter after filter until one lacked it; `n` is that filter, or the size of the bank. */
  method MarkFirst(blooms: seq<Bloom>, key: Key) returns (n: nat)
    requires ValidBank(blooms)
    modifies set b | b in blooms :: b.words
    ensures n <= |blooms| && forall j :: 0 <= j < n ==> Contains(old(blooms[j].Bits()), blooms[j].seed, key)
    ensures n < |blooms| ==> !Contains(old(blooms[n].Bits()), blooms[n].seed, key)
    ensures n < |blooms| ==> blooms[n].Bits() == old(blooms[n].Bits()) + Probes(blooms[n].seed, key)
    ensures forall j :: 0 <= j < |blooms| && j != n ==> blooms[j].Bits() == old(blooms[j].Bits())
  {
    n := 0;
    while n < |blooms|
      invariant 0 <= n <= |blooms|
      invariant forall j :: 0 <= j < n ==> Contains(old(blooms[j].Bits()), blooms[j].seed, key)
      invariant forall j :: 0 <= j < |blooms| ==> blooms[j].Bits() == old(blooms[j].Bits())
    {
      assert blooms[n] in blooms;
      var isNew := blooms[n].MarkIfNew(key);
      if isNew { return; }
      n := n + 1;
    }
  }

  method Admit(blooms: seq<Bloom>, key: Key) returns (admitted: bool)
    requires ValidBank(blooms)
    modifies set b | b in blooms :: b.words
    ensures admitted <==> Admitted(old(Bank(blooms)), Needs(Seeds(blooms), key))
    ensures Bank(blooms) == Ask(old(Bank(blooms)), Needs(Seeds(blooms), key))
  {
    ghost var before, need := Bank(blooms), Needs(Seeds(blooms), key);
    var n := MarkFirst(blooms, key);
    FirstLackingIs(before, need, 0, n);
    assert Bank(blooms) == Ask(before, need);
    admitted := n == |blooms|;
  }

  /** Between resets a key is turned away at most once for each filter, whatever other keys are asked for. */
  lemma {:induction false} TurnedAwayAtMost(filters: seq<Filter>, seeds: seq<bv64>, trace: seq<Key>, key: Key)
    requires |filters| == |seeds|
    ensures Rejections(filters, k => Needs(seeds, k), trace, key) <= |seeds|
  {
    RejectedAtMost(filters, k => Needs(seeds, k), trace, key);
  }

  /** From a reset, and without other keys, it is turned away exactly that often. */
  lemma {:induction false} TurnedAwayExactly(seeds: seq<bv64>, trace: seq<Key>, key: Key)
    requires forall k :: k in trace ==> k == key
    ensures var empty := seq(|seeds|, i => iset{});
      Rejections(empty, k => Needs(seeds, k), trace, key) == if |trace| < |seeds| then |trace| else |seeds|
  {
    var empty: seq<Filter> := seq(|seeds|, i => iset{});
    var need := Needs(seeds, key);
    forall j | 0 <= j < |seeds| ensures empty[j] == iset{} && need[j] != iset{} {
      assert ProbeList(seeds[j], key)[0] in Probes(seeds[j], key);
    }
    EmptyLacksAll(empty, need, 0);
    RejectedExactly(empty, k => Needs(seeds, k), trace, key);
  }
}
