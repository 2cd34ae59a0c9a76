/** A Bloom filter over strings: a fixed bit array, `numHashes` positions per item
    derived from one seeded hash, `Add` sets them and `Check` tests them. */
module BloomFilters {

  /** The seeded hash (mmh3.hash in the original): an opaque, deterministic
      function of the text and the seed, supplied by whoever builds the filter. */
  type Hasher = (string, nat) -> int

  /** A value or the message of the ValueError the original raises. */
  datatype Result<T> = Ok(value: T) | Err(message: string)

  /** Success, or the message of the ValueError the original raises. */
  datatype Outcome = Pass | Fail(message: string)

  /** Message raised for a non-positive size or hash count. */
  const ConfigError: string := "Розмір та кількість хеш-функцій мають бути додатними числами"

  /** Message raised by `Add` and `Check` for an empty item. */
  const ItemError: string := "Елемент має бути непорожнім рядком"

  // ---------------------------------------------------------------------------
  // The bit array as a value
  // ---------------------------------------------------------------------------

  /** Every position in `ps` indexes a bit array of length `n`. */
  ghost predicate InRange(ps: seq<nat>, n: nat) {
    forall i :: 0 <= i < |ps| ==> ps[i] < n
  }

  /** The bits after setting, one after another, every position of `ps`. */
  function Mark(b: seq<bool>, ps: seq<nat>): (r: seq<bool>)
    requires InRange(ps, |b|)
    ensures |r| == |b|
    ensures forall i :: 0 <= i < |b| ==> r[i] == (b[i] || i in ps)
    decreases |ps|
  {
    if ps == [] then b
    else
      var last := |ps| - 1;
      Mark(b, ps[..last])[ps[last] := true]
  }

  /** Whether every position of `ps` is set, tested left to right as `all` does. */
  function AllMarked(b: seq<bool>, ps: seq<nat>): (r: bool)
    requires InRange(ps, |b|)
    ensures r <==> forall i :: 0 <= i < |ps| ==> b[ps[i]]
  {
    ps == [] || (b[ps[0]] && AllMarked(b, ps[1..]))
  }

  /** The number of set bits. */
  function CountSet(b: seq<bool>): (n: nat)
    ensures n <= |b|
  {
    if b == [] then 0 else (if b[0] then 1 else 0) + CountSet(b[1..])
  }

  /** Setting positions twice leaves the same bits as setting them once. */
  lemma MarkIdempotent(b: seq<bool>, ps: seq<nat>)
    requires InRange(ps, |b|)
    ensures Mark(Mark(b, ps), ps) == Mark(b, ps)
  {
    var once := Mark(b, ps);
    var twice := Mark(once, ps);
    forall i | 0 <= i < |b| ensures twice[i] == once[i] { }
  }

  /** Right after its positions are set, all of them test set. */
  lemma MarkedAfterMark(b: seq<bool>, ps: seq<nat>)
    requires InRange(ps, |b|)
    ensures AllMarked(Mark(b, ps), ps)
  {
    var r := Mark(b, ps);
    forall i | 0 <= i < |ps| ensures r[ps[i]] {
      assert ps[i] in ps;
    }
  }

  /** Setting more positions never unsets what was all set before. */
  lemma MarkKeepsMarked(b: seq<bool>, ps: seq<nat>, qs: seq<nat>)
    requires InRange(ps, |b|) && InRange(qs, |b|)
    requires AllMarked(b, qs)
    ensures AllMarked(Mark(b, ps), qs)
  {
    var r := Mark(b, ps);
    forall i | 0 <= i < |qs| ensures r[qs[i]] {
      assert b[qs[i]];
    }
  }

  /** A bit array pointwise above another has at least as many set bits. */
  lemma {:induction false} CountMonotone(a: seq<bool>, b: seq<bool>)
    requires |a| == |b|
    requires forall i :: 0 <= i < |a| ==> a[i] ==> b[i]
    ensures CountSet(a) <= CountSet(b)
  {
    if a != [] {
      assert forall i :: 0 <= i < |a| - 1 ==> a[1..][i] == a[i + 1] && b[1..][i] == b[i + 1];
      CountMonotone(a[1..], b[1..]);
    }
  }

  /** Saturation only grows: setting positions never lowers the number of set
      bits, and it never exceeds the length of the array. */
  lemma MarkCountGrows(b: seq<bool>, ps: seq<nat>)
    requires InRange(ps, |b|)
    ensures CountSet(b) <= CountSet(Mark(b, ps)) <= |b|
  {
    CountMonotone(b, Mark(b, ps));
  }

  // ---------------------------------------------------------------------------
  // The filter
  // ---------------------------------------------------------------------------

  class BloomFilter {
    /** Length of the bit array; fixed for the filter's lifetime. */
    const size: nat
    /** Number of seeds, 0 .. numHashes - 1, hashed per item; fixed. */
    const numHashes: nat
    /** The seeded hash the positions are derived from. */
    const hash: Hasher
    /** The bit array; the reference is fixed, its entries only go from false to true. */
    const bits: array<bool>

    ghost predicate Valid() {
      size > 0 && numHashes > 0 && bits.Length == size
    }

    /** The filter after a successful `__init__`: every bit clear. */
    constructor (size: nat, numHashes: nat, hash: Hasher)
      requires size > 0 && numHashes > 0
      ensures Valid() && fresh(bits)
      ensures this.size == size && this.numHashes == numHashes && this.hash == hash
      ensures forall i :: 0 <= i < bits.Length ==> !bits[i]
    {
      this.size := size;
      this.numHashes := numHashes;
      this.hash := hash;
      bits := new bool[size](_ => false);
    }

    /** `BloomFilter(size, num_hashes)`: rejects a non-positive size or hash
        count, otherwise a fresh filter with every bit clear. */
    static method Create(size: int, numHashes: int, hash: Hasher) returns (r: Result<BloomFilter>)
      ensures r.Err? <==> size <= 0 || numHashes <= 0
      ensures r.Err? ==> r.message == ConfigError
      ensures r.Ok? ==> fresh(r.value) && fresh(r.value.bits) && r.value.Valid()
      ensures r.Ok? ==> r.value.size == size && r.value.numHashes == numHashes && r.value.hash == hash
      ensures r.Ok? ==> forall i :: 0 <= i < r.value.bits.Length ==> !r.value.bits[i]
    {
      if size <= 0 || numHashes <= 0 {
        return Err(ConfigError);
      }
      var filter := new BloomFilter(size, numHashes, hash);
      return Ok(filter);
    }

    /** The positions of `item`: one per seed, in seed order. */
    function Positions(item: string): (ps: seq<nat>)
      requires Valid()
      ensures |ps| == numHashes && InRange(ps, size)
      ensures forall seed :: 0 <= seed < numHashes ==> ps[seed] == hash(item, seed) % size
    {
      seq(numHashes, seed requires 0 <= seed => hash(item, seed) % size)
    }

    /** `_get_hash`: the hash of each seed 0 .. numHashes - 1, reduced modulo
        the size. Python's `%` by a positive size already lies in [0, size), as
        Dafny's does, so the `abs` applied afterwards changes nothing. */
    method GetHash(item: string) returns (ps: seq<nat>)
      requires Valid()
      ensures |ps| == numHashes && InRange(ps, size)
      ensures forall seed :: 0 <= seed < numHashes ==> ps[seed] == hash(item, seed) % size
      ensures ps == Positions(item)
    {
      ps := [];
      var seed := 0;
      while seed < numHashes
        invariant 0 <= seed <= numHashes
        invariant |ps| == seed
        invariant forall s :: 0 <= s < seed ==> ps[s] == hash(item, s) % size
      {
        var v := hash(item, seed) % size;
        ps := ps + [if v < 0 then -v else v];
        seed := seed + 1;
      }
    }

    /** `check` on a given state of the bits. */
    function CheckOn(b: seq<bool>, item: string): (r: Result<bool>)
      requires Valid() && |b| == size
      ensures r.Err? <==> item == []
      ensures r.Err? ==> r.message == ItemError
      ensures r.Ok? ==> (r.value <==> forall seed :: 0 <= seed < numHashes ==> b[hash(item, seed) % size])
    {
      if item == [] then Err(ItemError) else Ok(AllMarked(b, Positions(item)))
    }

    /** `check`: reads the bits and changes nothing; true exactly when the bit
        of every seed's position is set. */
    function Check(item: string): (r: Result<bool>)
      requires Valid()
      reads bits
      ensures r.Err? <==> item == []
      ensures r.Ok? ==> (r.value <==> forall seed :: 0 <= seed < numHashes ==> bits[hash(item, seed) % size])
      ensures r == CheckOn(bits[..], item)
    {
      CheckOn(bits[..], item)
    }

    /** `add`: rejects the empty item without touching the bits; otherwise sets
        exactly the item's positions. */
    method Add(item: string) returns (r: Outcome)
      requires Valid()
      modifies bits
      ensures r == if item == [] then Fail(ItemError) else Pass
      ensures item == [] ==> bits[..] == old(bits[..])
      ensures item != [] ==> bits[..] == Mark(old(bits[..]), Positions(item))
    {
      if item == [] {
        return Fail(ItemError);
      }
      var ps := GetHash(item);
      var j := 0;
      while j < |ps|
        invariant 0 <= j <= |ps|
        invariant bits[..] == Mark(old(bits[..]), ps[..j])
      {
        bits[ps[j]] := true;
        assert ps[..j + 1][..j] == ps[..j];
        j := j + 1;
      }
      assert ps[..j] == ps;
      return Pass;
    }

    /** The bits after calling `add` on every item of `items` in turn; an empty
        item is rejected and leaves the bits as they were. */
    function AddAll(b: seq<bool>, items: seq<string>): (r: seq<bool>)
      requires Valid() && |b| == size
      ensures |r| == size
      ensures forall i :: 0 <= i < size ==> b[i] ==> r[i]
    {
      if items == [] then b
      else
        var last := |items| - 1;
        var before := AddAll(b, items[..last]);
        if items[last] == [] then before else Mark(before, Positions(items[last]))
    }

    /** No false negatives: every item added tests present afterwards, however
        many other items were added before or after it. */
    lemma {:induction false} AddAllKeepsPresent(b: seq<bool>, items: seq<string>)
      requires Valid() && |b| == size
      ensures forall x :: x in items && x != [] ==> CheckOn(AddAll(b, items), x) == Ok(true)
    {
      if items != [] {
        var last := |items| - 1;
        var before := AddAll(b, items[..last]);
        AddAllKeepsPresent(b, items[..last]);
        forall x | x in items && x != [] ensures CheckOn(AddAll(b, items), x) == Ok(true) {
          if x == items[last] {
            MarkedAfterMark(before, Positions(x));
          } else {
            assert x in items[..last];
            MarkKeepsMarked(before, Positions(items[last]), Positions(x));
          }
        }
      }
    }
  }
}
