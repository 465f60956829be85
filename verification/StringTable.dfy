/** The growing hash table (src/string-table.c) as a refinement of a finite map, for any hash function. */
module StringTable {
  import opened Data

  /** The address of the associated data, which is never null. */
  type Mapped = p: nat | p > 0 witness 1

  /** The chain that a hash selects. */
  function SlotFor(hash: nat, capacity: nat): (r: nat)
    requires capacity > 0
    ensures r < capacity
  {
    hash % capacity
  }

  datatype Bucket = Bucket(hash: nat, key: Bytes, data: Mapped)

  /** A chain of colliding buckets, linked by their next fields. */
  datatype Chain = End | Link(bucket: Bucket, next: Chain)

  predicate Holds(c: Chain, key: Bytes) { c.Link? && (c.bucket.key == key || Holds(c.next, key)) }

  function Length(c: Chain): nat { if c.End? then 0 else 1 + Length(c.next) }

  /** Every key once, with the data the map has for it, in the chain that its hash selects. */
  predicate Good(hash: Bytes -> nat, m: map<Bytes, Mapped>, c: Chain, index: nat, capacity: nat)
    requires capacity > 0
  {
    c.Link? ==>
      && c.bucket.key in m && c.bucket.data == m[c.bucket.key] && c.bucket.hash == hash(c.bucket.key)
      && SlotFor(c.bucket.hash, capacity) == index
      && !Holds(c.next, c.bucket.key) && Good(hash, m, c.next, index, capacity)
  }

  predicate PowerOfTwo(n: nat) { n == 1 || (n > 1 && n % 2 == 0 && PowerOfTwo(n / 2)) }

  lemma {:induction false} GoodKey(hash: Bytes -> nat, m: map<Bytes, Mapped>, c: Chain, index: nat, capacity: nat, key: Bytes)
    requires capacity > 0 && Good(hash, m, c, index, capacity) && Holds(c, key)
    ensures key in m && SlotFor(hash(key), capacity) == index
  {
    if c.bucket.key != key { GoodKey(hash, m, c.next, index, capacity, key); }
  }

  lemma {:induction false} GoodLater(hash: Bytes -> nat, m: map<Bytes, Mapped>, c: Chain, index: nat, capacity: nat, key: Bytes, data: Mapped)
    requires capacity > 0 && Good(hash, m, c, index, capacity) && key !in m
    ensures Good(hash, m[key := data], c, index, capacity)
  {
    if c.Link? { GoodLater(hash, m, c.next, index, capacity, key, data); }
  }

  /** Every key can be found where its hash says. */
  predicate AllThere(hash: Bytes -> nat, m: map<Bytes, Mapped>, chains: seq<Chain>)
    requires |chains| > 0
  {
    forall k :: k in m ==> Holds(chains[SlotFor(hash(k), |chains|)], k)
  }

  lemma {:induction false} Inserted(hash: Bytes -> nat, m: map<Bytes, Mapped>, chains: seq<Chain>, after: seq<Chain>, key: Bytes, data: Mapped)
    requires |chains| > 0 && AllGood(hash, m, chains) && AllThere(hash, m, chains) && key !in m
    requires var i := SlotFor(hash(key), |chains|); after == chains[i := Link(Bucket(hash(key), key, data), chains[i])]
    ensures AllGood(hash, m[key := data], after) && AllThere(hash, m[key := data], after)
  {
    hide SlotFor;
    var index := SlotFor(hash(key), |chains|);
    forall i | 0 <= i < |chains| ensures Good(hash, m[key := data], chains[i], i, |chains|) {
      GoodLater(hash, m, chains[i], i, |chains|, key, data);
    }
    if Holds(chains[index], key) { GoodKey(hash, m, chains[index], index, |chains|, key); }
    forall k | k in m[key := data] ensures Holds(after[SlotFor(hash(k), |after|)], k) {
      if k != key { assert Holds(chains[SlotFor(hash(k), |chains|)], k); }
    }
  }

  class Table {
    const hash: Bytes -> nat
    var buckets: array<Chain>
    var capacity: nat
    var associations: nat
    /** The map that the table stands for. */
    ghost var contents: map<Bytes, Mapped>

    ghost predicate Valid() reads this, buckets {
      && capacity == buckets.Length && capacity >= 32 && PowerOfTwo(capacity)
      && associations == |contents| <= capacity
      && AllGood(hash, contents, buckets[..])
      && AllThere(hash, contents, buckets[..])
    }

    /** strTableNew() */
    constructor (hash: Bytes -> nat)
      ensures Valid() && fresh(buckets) && contents == map[] && this.hash == hash
    {
      this.hash, capacity, associations, contents := hash, 32, 0, map[];
      buckets := new Chain[32](_ => End);
      Powers();
    }

    /** strTableMap(): the caller does not map a key twice. */
    method Map(key: Bytes, data: Mapped)
      requires Valid() && key !in contents
      modifies this`buckets, this`capacity, this`associations, this`contents, buckets
      ensures Valid() && contents == old(contents)[key := data] && (buckets == old(buckets) || fresh(buckets))
    {
      hide PowerOfTwo, Good, Holds, SlotFor, AllGood;
      if associations == capacity { DoubleCapacity(); }
      var h := hash(key);
      var index := SlotFor(h, capacity);
      ghost var before := buckets[..];
      buckets[index] := Link(Bucket(h, key, data), buckets[index]);
      Inserted(hash, contents, before, buckets[..], key, data);
      CardinalityGrows(contents, key, data);
      associations := associations + 1;
      contents := contents[key := data];
    }

    /** doubleTableCapacity(): every bucket is relinked into the chain that its hash selects now. */
    method DoubleCapacity()
      requires Valid()
      modifies this`buckets, this`capacity
      ensures Valid() && contents == old(contents) && associations == old(associations)
      ensures capacity == 2 * old(capacity) && fresh(buckets)
    {
      hide PowerOfTwo, Good, Holds, SlotFor, AllGood, Moved;
      var newCapacity := 2 * capacity;
      Doubled(capacity);
      var newBuckets := new Chain[newCapacity](_ => End);
      ghost var chains := buckets[..];
      NothingMoved(hash, contents, chains, newBuckets[..]);
      var index := 0;
      while index < capacity
        invariant 0 <= index <= capacity == old(capacity) && newBuckets.Length == newCapacity && fresh(newBuckets)
        invariant buckets == old(buckets) && chains == buckets[..]
        invariant Moved(hash, contents, chains, index, End, newBuckets[..])
      {
        var bucket := buckets[index];
        NextChain(hash, contents, chains, index, newBuckets[..]);
        while bucket.Link?
          invariant newBuckets.Length == newCapacity && capacity == old(capacity) && buckets == old(buckets) && chains == buckets[..]
          invariant Moved(hash, contents, chains, index + 1, bucket, newBuckets[..])
          invariant Good(hash, contents, bucket, index, capacity)
          decreases bucket
        {
          var toMove := bucket.bucket;
          ghost var whole, moved := bucket, newBuckets[..];
          bucket := bucket.next;
          var id := SlotFor(toMove.hash, newCapacity);
          newBuckets[id] := Link(toMove, newBuckets[id]);
          OneMoved(hash, contents, chains, index, whole, moved, newBuckets[..]);
        }
        index := index + 1;
      }
      buckets := newBuckets;
      capacity := newCapacity;
      EverythingMoved(hash, contents, chains, buckets[..]);
    }

    /** strTableGet() */
    method Get(key: Bytes) returns (r: Option<Mapped>)
      requires Valid()
      ensures r == if key in contents then Some(contents[key]) else None
    {
      var index := SlotFor(hash(key), capacity);
      var bucket := buckets[index];
      assert Good(hash, contents, bucket, index, capacity);
      assert key in contents <==> Holds(bucket, key) by {
        if Holds(bucket, key) { GoodKey(hash, contents, bucket, index, capacity, key); }
      }
      while bucket.Link?
        invariant Good(hash, contents, bucket, index, capacity)
        invariant key in contents <==> Holds(bucket, key)
        decreases bucket
      {
        if bucket.bucket.key == key { return Some(bucket.bucket.data); }
        bucket := bucket.next;
      }
      r := None;
    }
  }

  lemma {:induction false} Powers()
    ensures PowerOfTwo(32)
  {
    assert PowerOfTwo(2) && PowerOfTwo(4) && PowerOfTwo(8) && PowerOfTwo(16);
  }

  lemma {:induction false} Doubled(n: nat)
    requires n > 0 && PowerOfTwo(n)
    ensures PowerOfTwo(2 * n)
  {
  }

  lemma {:induction false} CardinalityGrows(m: map<Bytes, Mapped>, key: Bytes, data: Mapped)
    requires key !in m
    ensures |m[key := data]| == |m| + 1
  {
    assert m[key := data].Keys == m.Keys + {key};
    assert |m.Keys + {key}| == |m.Keys| + 1;
    assert |m| == |m.Keys| && |m[key := data]| == |m[key := data].Keys|;
  }

  predicate AllGood(hash: Bytes -> nat, m: map<Bytes, Mapped>, chains: seq<Chain>) {
    forall i :: 0 <= i < |chains| ==> Good(hash, m, chains[i], i, |chains|)
  }

  /** The buckets of the first chains have moved, except those that are still linked. */
  ghost predicate Moved(hash: Bytes -> nat, m: map<Bytes, Mapped>, chains: seq<Chain>, index: nat, rest: Chain, moved: seq<Chain>)
    requires |chains| > 0 && |moved| > 0
  {
    && AllGood(hash, m, moved)
    && forall k :: k in m ==>
      (Holds(moved[SlotFor(hash(k), |moved|)], k) <==> SlotFor(hash(k), |chains|) < index && !Holds(rest, k))
  }

  lemma {:induction false} NothingMoved(hash: Bytes -> nat, m: map<Bytes, Mapped>, chains: seq<Chain>, moved: seq<Chain>)
    requires |chains| > 0 && |moved| > 0 && forall i :: 0 <= i < |moved| ==> moved[i] == End
    ensures Moved(hash, m, chains, 0, End, moved)
  {
  }

  lemma {:induction false} NextChain(hash: Bytes -> nat, m: map<Bytes, Mapped>, chains: seq<Chain>, index: nat, moved: seq<Chain>)
    requires index < |chains| && |moved| > 0 && Moved(hash, m, chains, index, End, moved)
    requires AllGood(hash, m, chains) && AllThere(hash, m, chains)
    ensures Moved(hash, m, chains, index + 1, chains[index], moved) && Good(hash, m, chains[index], index, |chains|)
  {
    forall k | k in m
      ensures Holds(moved[SlotFor(hash(k), |moved|)], k) <==> SlotFor(hash(k), |chains|) < index + 1 && !Holds(chains[index], k)
    {
      if Holds(chains[index], k) { GoodKey(hash, m, chains[index], index, |chains|, k); }
    }
  }

  lemma {:induction false} OneMoved(hash: Bytes -> nat, m: map<Bytes, Mapped>, chains: seq<Chain>, index: nat, rest: Chain, moved: seq<Chain>, after: seq<Chain>)
    requires index < |chains| && |moved| > 0 && rest.Link?
    requires Moved(hash, m, chains, index + 1, rest, moved) && Good(hash, m, rest, index, |chains|)
    requires var id := SlotFor(rest.bucket.hash, |moved|); after == moved[id := Link(rest.bucket, moved[id])]
    ensures Moved(hash, m, chains, index + 1, rest.next, after) && Good(hash, m, rest.next, index, |chains|)
  {
    var id := SlotFor(rest.bucket.hash, |moved|);
    var key := rest.bucket.key;
    assert !Holds(moved[id], key);
    forall k | k in m
      ensures Holds(after[SlotFor(hash(k), |after|)], k) <==> SlotFor(hash(k), |chains|) < index + 1 && !Holds(rest.next, k)
    {
      assert Holds(moved[SlotFor(hash(k), |moved|)], k) <==> SlotFor(hash(k), |chains|) < index + 1 && !Holds(rest, k);
    }
  }

  lemma {:induction false} EverythingMoved(hash: Bytes -> nat, m: map<Bytes, Mapped>, chains: seq<Chain>, moved: seq<Chain>)
    requires |chains| > 0 && |moved| > 0 && Moved(hash, m, chains, |chains|, End, moved)
    ensures AllGood(hash, m, moved) && AllThere(hash, m, moved)
  {
  }

  // ----- any use of a table -----

  datatype Call = Insert(key: Bytes, data: Mapped) | Find(key: Bytes)

  /** What a finite map answers to the lookups among the calls. */
  function Answers(m: map<Bytes, Mapped>, calls: seq<Call>): seq<Option<Mapped>>
    decreases |calls|
  {
    if calls == [] then []
    else
      match calls[0]
      case Insert(k, d) => Answers(m[k := d], calls[1..])
      case Find(k) => [if k in m then Some(m[k]) else None] + Answers(m, calls[1..])
  }

  predicate DistinctKeys(m: map<Bytes, Mapped>, calls: seq<Call>)
    decreases |calls|
  {
    calls == [] ||
    match calls[0]
    case Insert(k, d) => k !in m && DistinctKeys(m[k := d], calls[1..])
    case Find(k) => DistinctKeys(m, calls[1..])
  }

  lemma {:induction false} NoCalls(m: map<Bytes, Mapped>)
    ensures Answers(m, []) == []
  {
  }

  lemma {:induction false} CallsStep(m: map<Bytes, Mapped>, calls: seq<Call>, i: nat)
    requires i < |calls| && DistinctKeys(m, calls[i..])
    ensures match calls[i]
      case Insert(k, d) =>
        && k !in m && DistinctKeys(m[k := d], calls[i + 1..])
        && Answers(m, calls[i..]) == Answers(m[k := d], calls[i + 1..])
      case Find(k) =>
        && DistinctKeys(m, calls[i + 1..])
        && Answers(m, calls[i..]) == [if k in m then Some(m[k]) else None] + Answers(m, calls[i + 1..])
  {
    assert calls[i..][0] == calls[i] && calls[i..][1..] == calls[i + 1..];
  }

  /** Any sequence of insertions of distinct keys and lookups, with however many doublings in between,
      is answered as by a finite map. */
  method UseTable(hash: Bytes -> nat, calls: seq<Call>) returns (answers: seq<Option<Mapped>>)
    requires DistinctKeys(map[], calls)
    ensures answers == Answers(map[], calls)
  {
    hide PowerOfTwo, Good, Holds, SlotFor, AllGood, AllThere, Answers, DistinctKeys;
    var table := new Table(hash);
    answers := [];
    var i := 0;
    assert calls[0..] == calls && [] + Answers(map[], calls) == Answers(map[], calls);
    while i < |calls|
      invariant 0 <= i <= |calls| && fresh(table) && fresh(table.buckets) && table.Valid()
      invariant DistinctKeys(table.contents, calls[i..])
      invariant answers + Answers(table.contents, calls[i..]) == Answers(map[], calls)
    {
      CallsStep(table.contents, calls, i);
      match calls[i] {
        case Insert(k, d) =>
          table.Map(k, d);
        case Find(k) =>
          var r := table.Get(k);
          assert answers + ([r] + Answers(table.contents, calls[i + 1..])) == answers + [r] + Answers(table.contents, calls[i + 1..]);
          answers := answers + [r];
      }
      i := i + 1;
    }
    assert calls[i..] == [];
    NoCalls(table.contents);
    assert answers + [] == answers;
  }
}
