/**
 * The Bloom filter over a shared bitmap. An item's five bit positions come from its MD5 digest
 * (RFC 1321): seed i reads the four digest bytes from position i on (wrapping around) as a
 * big-endian Java int, which is reduced into [0, 2^29) with Java's `%` and `Math.abs`. The
 * digest itself is not computed here: a filter is given the digest function, and the bitmap
 * is the set of positions whose bit is 1.
 */
module Bloom {
  import opened JavaInts

  /** `2 << 28` on a Java int. */
  const BitSize: int := ((2 as bv32) << 28) as int
  const HashCount: nat := 5
  const DigestLength: nat := 16

  /** An MD5 digest: sixteen Java bytes. */
  type Digest = d: seq<Byte> | |d| == DigestLength witness seq(16, _ => 0 as Byte)

  lemma BitSizeValue()
    ensures BitSize == 0x2000_0000
  {
  }

  function Pow256(n: nat): int
    requires n <= 4
  {
    if n == 0 then 1 else 256 * Pow256(n - 1)
  }

  /** The unsigned big-endian value of the `n` digest bytes from position `seed` on, wrapping around. */
  function Window(d: Digest, seed: nat, n: nat): (v: int)
    requires n <= 4
    ensures 0 <= v < Pow256(n)
  {
    if n == 0 then 0 else Window(d, seed, n - 1) * 256 + Unsigned(d[(seed + n - 1) % |d|])
  }

  /**
   * `hash(digest, seed)`: the Java int whose four bytes, most significant first, are the digest
   * bytes at positions seed, seed + 1, seed + 2 and seed + 3, taken modulo the digest length.
   */
  function HashValue(d: Digest, seed: nat): (h: int)
    ensures IsInt32(h)
    ensures (h - Unsigned(d[(seed + 3) % |d|])) % 0x100 == 0
  {
    ToInt32(Unsigned(d[seed % |d|]) * 0x100_0000 + Unsigned(d[(seed + 1) % |d|]) * 0x1_0000
            + Unsigned(d[(seed + 2) % |d|]) * 0x100 + Unsigned(d[(seed + 3) % |d|]))
  }

  lemma WindowIsBigEndian(d: Digest, seed: nat)
    ensures ToInt32(Window(d, seed, 4)) == HashValue(d, seed)
  {
    assert Window(d, seed, 1) == Unsigned(d[seed % |d|]);
    assert Window(d, seed, 2) == Unsigned(d[seed % |d|]) * 256 + Unsigned(d[(seed + 1) % |d|]);
  }

  /** `Math.abs(hash % BIT_SIZE)`: every bit position lies in [0, BitSize). */
  function Index(hash: int): (index: int)
    requires IsInt32(hash)
    ensures 0 <= index < BitSize
  {
    BitSizeValue();
    JavaAbs(JavaRem(hash, BitSize))
  }

  /** `getHashIndexes`: HashCount positions, the i-th from seed i. */
  function HashIndexes(d: Digest): (indexes: seq<int>)
    ensures |indexes| == HashCount
    ensures forall i :: 0 <= i < HashCount ==> 0 <= indexes[i] < BitSize
  {
    seq(HashCount, i requires 0 <= i => Index(HashValue(d, i)))
  }

  /** The positions an item with digest `d` sets. */
  function IndexSet(d: Digest): set<int>
  {
    set i | 0 <= i < HashCount :: HashIndexes(d)[i]
  }

  /** The positions a batch of items sets. */
  function ItemsBits(digestOf: string -> Digest, items: seq<string>): set<int>
    decreases |items|
  {
    if items == [] then {}
    else ItemsBits(digestOf, items[..|items| - 1]) + IndexSet(digestOf(items[|items| - 1]))
  }

  /** `contains` answers true iff every one of the item's positions is set. */
  predicate MayContain(bits: set<int>, d: Digest) {
    forall i :: 0 <= i < HashCount ==> HashIndexes(d)[i] in bits
  }

  lemma MayContainIffIndexesSet(bits: set<int>, d: Digest)
    ensures MayContain(bits, d) <==> IndexSet(d) <= bits
  {
    if IndexSet(d) <= bits {
      forall i | 0 <= i < HashCount
        ensures HashIndexes(d)[i] in bits
      {
        assert HashIndexes(d)[i] in IndexSet(d);
      }
    }
  }

  /** Setting an item's positions makes it present: there are no false negatives. */
  lemma NoFalseNegative(bits: set<int>, d: Digest)
    ensures MayContain(bits + IndexSet(d), d)
  {
    MayContainIffIndexesSet(bits + IndexSet(d), d);
  }

  /** Setting more bits never makes a present item absent. */
  lemma MayContainMonotone(bits: set<int>, more: set<int>, d: Digest)
    requires bits <= more && MayContain(bits, d)
    ensures MayContain(more, d)
  {
  }

  /** A cleared bitmap contains no item. */
  lemma EmptyContainsNothing(d: Digest)
    ensures !MayContain({}, d)
  {
    var none: set<int> := {};
    assert HashIndexes(d)[0] !in none;
  }

  /** Every item of a batch has its positions among the batch's bits. */
  lemma {:induction false} ItemsBitsCover(digestOf: string -> Digest, items: seq<string>, k: nat)
    requires k < |items|
    ensures IndexSet(digestOf(items[k])) <= ItemsBits(digestOf, items)
    decreases |items|
  {
    if k < |items| - 1 {
      ItemsBitsCover(digestOf, items[..|items| - 1], k);
    }
  }

  /** After adding a batch to any bitmap, every item of the batch is reported present. */
  lemma AddAllNoFalseNegatives(bits: set<int>, digestOf: string -> Digest, items: seq<string>, k: nat)
    requires k < |items|
    ensures MayContain(bits + ItemsBits(digestOf, items), digestOf(items[k]))
  {
    ItemsBitsCover(digestOf, items, k);
    MayContainIffIndexesSet(bits + ItemsBits(digestOf, items), digestOf(items[k]));
  }

  /** Adding only sets bits: a bit set afterwards was set before or belongs to one of the added items. */
  lemma {:induction false} AddedBitsBelongToItems(digestOf: string -> Digest, items: seq<string>, b: int)
    requires b in ItemsBits(digestOf, items)
    ensures exists k, i :: 0 <= k < |items| && 0 <= i < HashCount && b == HashIndexes(digestOf(items[k]))[i]
    decreases |items|
  {
    var n := |items| - 1;
    if b in IndexSet(digestOf(items[n])) {
      var i :| 0 <= i < HashCount && b == HashIndexes(digestOf(items[n]))[i];
    } else {
      AddedBitsBelongToItems(digestOf, items[..n], b);
      var k, i :| 0 <= k < n && 0 <= i < HashCount && b == HashIndexes(digestOf(items[..n][k]))[i];
      assert items[..n][k] == items[k];
    }
  }

  class BloomFilter {
    /** The digest function (MD5 of the item's UTF-8 bytes). */
    const digestOf: string -> Digest
    /** The positions whose bit is 1 in the shared bitmap. */
    var bits: set<int>

    /** A filter over the bitmap as the store currently holds it. */
    constructor (digestOf: string -> Digest, stored: set<int>)
      ensures this.digestOf == digestOf && bits == stored
    {
      this.digestOf := digestOf;
      bits := stored;
    }

    method Hash(digest: Digest, seed: nat) returns (hash: int)
      ensures hash == HashValue(digest, seed)
    {
      hash := 0;
      var i := 0;
      while i < 4
        invariant 0 <= i <= 4
        invariant hash == ToInt32(Window(digest, seed, i))
      {
        // `(hash << 8) | (digest[...] & 0xFF)`: the shift clears the low eight bits, so `|` adds the byte
        hash := ToInt32(hash * 256) + Unsigned(digest[(seed + i) % |digest|]);
        i := i + 1;
      }
      WindowIsBigEndian(digest, seed);
    }

    method GetHashIndexes(item: string) returns (indexes: array<int>)
      ensures fresh(indexes)
      ensures indexes[..] == HashIndexes(digestOf(item))
    {
      var digest := digestOf(item);
      indexes := new int[HashCount];
      var i := 0;
      while i < HashCount
        invariant 0 <= i <= HashCount
        invariant forall k :: 0 <= k < i ==> indexes[k] == HashIndexes(digest)[k]
      {
        var hash := Hash(digest, i);
        indexes[i] := JavaAbs(JavaRem(hash, BitSize));
        i := i + 1;
      }
      assert indexes[..] == HashIndexes(digest);
    }

    method Add(item: string)
      modifies this
      ensures bits == old(bits) + IndexSet(digestOf(item))
    {
      AddAll([item]);
      assert [item][..0] == [];
    }

    /** Sets every position of every item (one pipelined batch of SETBIT commands). */
    method AddAll(items: seq<string>)
      modifies this
      ensures bits == old(bits) + ItemsBits(digestOf, items)
    {
      var k := 0;
      while k < |items|
        invariant 0 <= k <= |items|
        invariant bits == old(bits) + ItemsBits(digestOf, items[..k])
      {
        var indexes := GetHashIndexes(items[k]);
        SetBits(indexes);
        assert items[..k + 1][..k] == items[..k];
        k := k + 1;
      }
      assert items[..|items|] == items;
    }

    /** The inner loop of `addAll`: one SETBIT per position. */
    method SetBits(indexes: array<int>)
      modifies this
      ensures bits == old(bits) + (set i | 0 <= i < indexes.Length :: indexes[i])
    {
      var j := 0;
      while j < indexes.Length
        invariant 0 <= j <= indexes.Length
        invariant bits == old(bits) + (set i | 0 <= i < j :: indexes[i])
      {
        bits := bits + {indexes[j]};
        j := j + 1;
      }
    }

    /** Reads the item's positions (one pipelined batch of GETBIT commands) and answers true iff all are set. */
    method Contains(item: string) returns (present: bool)
      ensures present == MayContain(bits, digestOf(item))
    {
      var indexes := GetHashIndexes(item);
      var i := 0;
      while i < indexes.Length
        invariant 0 <= i <= indexes.Length
        invariant forall k :: 0 <= k < i ==> indexes[k] in bits
      {
        if indexes[i] !in bits {
          return false;
        }
        i := i + 1;
      }
      return true;
    }

    /** Deletes the bitmap's key: every bit reads 0 afterwards. */
    method Delete()
      modifies this
      ensures bits == {}
    {
      bits := {};
    }
  }
}
