/** Hash joins look keys up behind a Bloom filter (src/native_joins.cpp:36-84 and 138-165). */
module KeyIndex {
  import opened Values
  import opened Words

  const MinimumBits: nat
  const BitsPerValue: nat
  const Mix: nat -> nat
  const Salted: nat -> nat  // xor with the golden ratio constant

  /** The low bits of a hash: the remainder by the filter's size. */
  function Reduce(hash: nat, bits: nat): (bit: nat)
    requires bits > 0
    ensures bit < bits
  {
    if hash < bits then hash else Reduce(hash - bits, bits)
  }

  class BloomFilter {
    const words: array<bv64>
    const bits: nat
    ghost var added: set<Value>

    ghost predicate Sized() {
      bits > 0 && words.Length * 64 >= bits
    }

    ghost predicate Valid()
      reads this, words
    {
      Sized() && forall v :: v in added ==> Passes(Hash(v))
    }

    constructor (expected: nat)
      ensures Valid() && fresh(words) && added == {}
    {
      added := {};
      var size := if MinimumBits == 0 then 1 else MinimumBits;
      var wanted := if size > expected * BitsPerValue then size else expected * BitsPerValue;
      while size < wanted
        invariant size > 0
      {
        size := size * 2;
      }
      bits := size;
      words := new bv64[(size + 63) / 64](_ => 0);
    }

    method Set(hash: nat)
      requires Sized()
      modifies words
      ensures Test(hash)
      ensures forall h: nat :: old(Test(h)) ==> Test(h)
    {
      var bit := Reduce(hash, bits);
      var word := WithBit(words[bit / 64], bit % 64);
      words[bit / 64] := word;
    }

    predicate Test(hash: nat)
      requires Sized()
      reads words
    {
      var bit := Reduce(hash, bits);
      HasBit(words[bit / 64], bit % 64)
    }

    predicate Passes(hash: nat)
      requires Sized()
      reads words
    {
      && Test(hash)
      && Test((hash + Mix(hash)) % TwoTo64)
      && Test((hash + Mix(Salted(hash))) % TwoTo64)
    }

    method Add(v: Value)
      requires Valid()
      modifies this`added, words
      ensures Valid() && added == old(added) + {v}
    {
      SetThree(Hash(v));
      added := added + {v};
    }

    method SetThree(hash: nat)
      requires Sized()
      modifies words
      ensures Passes(hash)
      ensures forall h: nat :: old(Passes(h)) ==> Passes(h)
    {
      Set(hash);
      Set((hash + Mix(hash)) % TwoTo64);
      Set((hash + Mix(Salted(hash))) % TwoTo64);
    }

    /** No false negatives, also for a value of another type that equals one added. */
    method MayContain(v: Value) returns (r: bool)
      requires Valid()
      ensures !r ==> forall w :: w in added ==> !Equal(v, w)
    {
      r := Passes(Hash(v));
      forall w | w in added && Equal(v, w) ensures r {
        EqualHash(v, w);
      }
    }
  }

  /** A key joins with these positions: NULL with none, a value with the equal ones. */
  predicate Matches(keys: seq<Value>, key: Value, n: nat)
    requires n < |keys|
  {
    !key.Null? && !keys[n].Null? && Equal(key, keys[n])
  }

  /** Each matching position once, in whatever order the multimap yields them. */
  ghost predicate AllMatches(keys: seq<Value>, key: Value, found: seq<nat>) {
    && (forall i :: 0 <= i < |found| ==> found[i] < |keys| && Matches(keys, key, found[i]))
    && (forall i, j :: 0 <= i < j < |found| ==> found[i] != found[j])
    && (forall n :: 0 <= n < |keys| && Matches(keys, key, n) ==> n in found)
  }

  datatype Entry = Entry(key: Value, position: nat)

  /** What the multimap holds: the non-NULL keys with their positions. */
  ghost predicate Holds(entries: seq<Entry>, keys: seq<Value>) {
    && (forall i :: 0 <= i < |entries| ==>
         entries[i].position < |keys| && !entries[i].key.Null? && entries[i].key == keys[entries[i].position])
    && (forall i, j :: 0 <= i < j < |entries| ==> entries[i].position < entries[j].position)
    && (forall n :: 0 <= n < |keys| && !keys[n].Null? ==> Entry(keys[n], n) in entries)
  }

  lemma HoldsOneMore(entries: seq<Entry>, keys: seq<Value>, key: Value)
    requires Holds(entries, keys)
    ensures Holds(if key.Null? then entries else entries + [Entry(key, |keys|)], keys + [key])
  {
    var entries' := if key.Null? then entries else entries + [Entry(key, |keys|)];
    var keys' := keys + [key];
    forall n | 0 <= n < |keys'| && !keys'[n].Null? ensures Entry(keys'[n], n) in entries' {
      if n < |keys| {
        assert Entry(keys[n], n) in entries;
      } else {
        assert entries'[|entries|] == Entry(key, n);
      }
    }
  }

  method EqualRange(entries: seq<Entry>, key: Value, ghost keys: seq<Value>) returns (found: seq<nat>)
    requires Holds(entries, keys) && !key.Null?
    ensures AllMatches(keys, key, found)
  {
    found := [];
    for i := 0 to |entries|
      invariant FoundUpTo(entries, keys, key, i, found)
    {
      FoundOneMore(entries, keys, key, i, found);
      if Equal(key, entries[i].key) { found := found + [entries[i].position]; }
    }
    FoundAll(entries, keys, key, found);
  }

  ghost predicate FoundOnly(keys: seq<Value>, key: Value, found: seq<nat>) {
    && (forall k :: 0 <= k < |found| ==> found[k] < |keys| && Matches(keys, key, found[k]))
    && (forall k, l :: 0 <= k < l < |found| ==> found[k] < found[l])
  }

  ghost predicate FoundBelow(found: seq<nat>, position: nat) {
    forall k :: 0 <= k < |found| ==> found[k] < position
  }

  ghost predicate FoundUpTo(entries: seq<Entry>, keys: seq<Value>, key: Value, i: nat, found: seq<nat>) {
    && i <= |entries| && FoundOnly(keys, key, found)
    && (i < |entries| ==> FoundBelow(found, entries[i].position))
    && (forall n :: 0 <= n < i && Equal(key, entries[n].key) ==> entries[n].position in found)
  }

  lemma FoundOneMore(entries: seq<Entry>, keys: seq<Value>, key: Value, i: nat, found: seq<nat>)
    requires Holds(entries, keys) && !key.Null? && i < |entries| && FoundUpTo(entries, keys, key, i, found)
    ensures FoundUpTo(entries, keys, key, i + 1,
                      if Equal(key, entries[i].key) then found + [entries[i].position] else found)
  {
    if i + 1 < |entries| { assert entries[i].position < entries[i + 1].position; }
    if Equal(key, entries[i].key) {
      FoundAppended(keys, key, found, entries[i].position);
      var found' := found + [entries[i].position];
      forall n | 0 <= n < i + 1 && Equal(key, entries[n].key) ensures entries[n].position in found' {
        if n == i { assert found'[|found|] == entries[i].position; }
      }
    }
  }

  lemma FoundAppended(keys: seq<Value>, key: Value, found: seq<nat>, position: nat)
    requires FoundOnly(keys, key, found) && FoundBelow(found, position)
    requires position < |keys| && Matches(keys, key, position)
    ensures FoundOnly(keys, key, found + [position])
    ensures FoundBelow(found + [position], position + 1)
  {
  }

  lemma FoundAll(entries: seq<Entry>, keys: seq<Value>, key: Value, found: seq<nat>)
    requires Holds(entries, keys) && FoundUpTo(entries, keys, key, |entries|, found)
    ensures AllMatches(keys, key, found)
  {
    forall n | 0 <= n < |keys| && Matches(keys, key, n) ensures n in found {
      var i :| 0 <= i < |entries| && entries[i] == Entry(keys[n], n);
    }
  }

  /** A multimap from the non-NULL keys to their positions, with its Bloom filter. */
  class Index {
    const bloom: BloomFilter
    var entries: seq<Entry>
    ghost var keys: seq<Value>

    ghost predicate Valid()
      reads this, bloom, bloom.words
    {
      && bloom.Valid() && Holds(entries, keys)
      && (forall n :: 0 <= n < |keys| && !keys[n].Null? ==> keys[n] in bloom.added)
    }

    constructor (expected: nat)
      ensures Valid() && keys == [] && fresh(bloom) && fresh(bloom.words)
    {
      bloom := new BloomFilter(expected);
      entries, keys := [], [];
    }

    method Add(key: Value, position: nat)
      requires Valid() && position == |keys|
      modifies this`entries, this`keys, bloom`added, bloom.words
      ensures Valid() && keys == old(keys) + [key]
    {
      HoldsOneMore(entries, keys, key);
      if !key.Null? {
        bloom.Add(key);
        entries := entries + [Entry(key, position)];
      }
      keys := keys + [key];
    }

    method Probe(key: Value) returns (found: seq<nat>)
      requires Valid()
      ensures AllMatches(keys, key, found)
    {
      if key.Null? { return []; }
      var pass := bloom.MayContain(key);
      if !pass { return []; }
      found := EqualRange(entries, key, keys);
    }
  }

  method Build(keys: seq<Value>) returns (index: Index)
    ensures index.Valid() && index.keys == keys && fresh(index) && fresh(index.bloom) && fresh(index.bloom.words)
  {
    index := new Index(|keys|);
    for i := 0 to |keys|
      invariant index.Valid() && index.keys == keys[..i]
      invariant fresh(index) && fresh(index.bloom) && fresh(index.bloom.words)
    {
      index.Add(keys[i], i);
    }
  }
}
