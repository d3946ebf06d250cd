/**
 An open-addressing hash table with linear probing, in which a bucket is occupied if the top
 bit of its stored hash is set.

 Main result: any sequence of inserts and finds answers like a finite map in which the first
 write wins.  At most half of the buckets are occupied, so every probe ends, at the key or at
 an empty bucket; growing the table looks at the stored hashes only.
 */
module OpenAddressing {
  import opened Wrappers
  import opened Bits

  const OCCUPIED_BIT: int := 0x8000_0000_0000_0000
  const INITIAL_BUCKETS: nat := 4
  const SIZE_MAX: nat := 0xFFFF_FFFF_FFFF_FFFF

  datatype Item<+K, +V> = Item(key: K, value: V)

  /** The top bit of a 64-bit word. */
  predicate Occupied(h: int) {
    h >= OCCUPIED_BIT
  }

  /** A 64-bit hash with its top bit set. */
  function Needle(h: nat): (needle: int)
    ensures Occupied(needle)
  {
    if Occupied(h) then h else h + OCCUPIED_BIT
  }

  // ---------------------------------------------------------------- what it should be

  /** The map after a sequence of writes, of which only the first one for each key counts. */
  ghost function FirstWins<K, V>(writes: seq<Item<K, V>>): map<K, V> {
    if writes == [] then map[]
    else
      var m, last := FirstWins(writes[..|writes| - 1]), writes[|writes| - 1];
      if last.key in m then m else m[last.key := last.value]
  }

  lemma {:induction false} FirstWinsAt<K, V>(writes: seq<Item<K, V>>, i: nat)
    requires i < |writes| && forall j | 0 <= j < i :: writes[j].key != writes[i].key
    ensures writes[i].key in FirstWins(writes) && FirstWins(writes)[writes[i].key] == writes[i].value
    decreases |writes|
  {
    var k := |writes| - 1;
    if i == k {
      if writes[k].key in FirstWins(writes[..k]) {
        var j := Written(writes[..k], writes[k].key);
      }
    } else {
      FirstWinsAt(writes[..k], i);
    }
  }

  lemma {:induction false} Written<K, V>(writes: seq<Item<K, V>>, key: K) returns (i: nat)
    requires key in FirstWins(writes)
    ensures i < |writes| && writes[i].key == key
  {
    var k := |writes| - 1;
    if writes[k].key == key {
      i := k;
    } else {
      i := Written(writes[..k], key);
    }
  }

  // ---------------------------------------------------------------- probing

  /** The bucket that is probed after `j` others. */
  function Probe(home: nat, j: nat, n: nat): (pos: nat)
    requires 0 < n
    ensures pos < n
  {
    (home + j) % n
  }

  lemma ProbeNext(home: nat, j: nat, n: nat)
    requires 0 < n
    ensures Probe(home, j + 1, n) == (Probe(home, j, n) + 1) % n
  {
    var q, r := (home + j) / n, (home + j) % n;
    if r + 1 < n {
      ModUnique(home + j + 1, n, q, r + 1);
      ModUnique(r + 1, n, 0, r + 1);
    } else {
      assert home + j + 1 == n * (q + 1) by { assert n * (q + 1) == n * q + n; }
      ModUnique(home + j + 1, n, q + 1, 0);
      ModUnique(r + 1, n, 1, 0);
    }
  }

  /** Masking instead of dividing, since the number of buckets is a power of two. */
  lemma MaskIsMod(x: int, n: nat)
    requires exists k: nat :: n == Pow2(k)
    ensures BitAnd(x, n - 1) == x % n
  {
    var k: nat :| n == Pow2(k);
    LowMask(x, k);
  }

  /** How many buckets are probed before `pos`. */
  function Distance(home: nat, pos: nat, n: nat): (d: nat)
    requires home < n && pos < n
    ensures d < n
  {
    if home <= pos then pos - home else pos + n - home
  }

  lemma ProbeDistance(home: nat, pos: nat, n: nat)
    requires home < n && pos < n
    ensures Probe(home, Distance(home, pos, n), n) == pos
  {
    if home <= pos {
      ModUnique(pos, n, 0, pos);
    } else {
      ModUnique(pos + n, n, 1, pos);
    }
  }

  // ---------------------------------------------------------------- tables

  /** All buckets that are probed before `pos` are occupied. */
  ghost predicate Chain(hashes: seq<int>, home: nat, pos: nat)
    requires home < |hashes| && pos < |hashes|
  {
    forall j {:trigger Probe(home, j, |hashes|)} | 0 <= j < Distance(home, pos, |hashes|) ::
      Occupied(hashes[Probe(home, j, |hashes|)])
  }

  function Home(needle: int, n: nat): (home: nat)
    requires 0 < n
    ensures home < n
  {
    needle % n
  }

  /** Key `k` is stored in its bucket, where a probe finds it. */
  ghost predicate Stored<K, V>(hash: K -> nat, hashes: seq<int>, items: seq<Option<Item<K, V>>>, m: map<K, V>,
                               at: map<K, nat>, k: K)
    requires |hashes| == |items| && k in m && k in at
  {
    && at[k] < |hashes|
    && hashes[at[k]] == Needle(hash(k))
    && items[at[k]] == Some(Item(k, m[k]))
    && Chain(hashes, Home(Needle(hash(k)), |hashes|), at[k])
  }

  /** The table holds exactly the map `m`, with key `k` in bucket `at[k]`. */
  ghost predicate Holds<K(!new), V>(hash: K -> nat, hashes: seq<int>, items: seq<Option<Item<K, V>>>, m: map<K, V>,
                                    at: map<K, nat>) {
    && |hashes| == |items|
    && at.Keys == m.Keys
    && (forall k | k in m :: Stored(hash, hashes, items, m, at, k))
    && (forall i | 0 <= i < |hashes| && Occupied(hashes[i]) ::
          items[i].Some? && items[i].value.key in m && at[items[i].value.key] == i)
  }

  lemma SubsetSize<T>(a: set<T>, b: set<T>)
    requires a <= b
    ensures |a| <= |b|
  {
    assert b == a + (b - a);
  }

  /** The part of `m` that is stored in the first `i` buckets. */
  ghost function Below<K, V>(m: map<K, V>, at: map<K, nat>, i: nat): map<K, V>
    requires at.Keys == m.Keys
  {
    map k | k in m && at[k] < i :: m[k]
  }

  lemma BelowSize<K, V>(m: map<K, V>, at: map<K, nat>, i: nat)
    requires at.Keys == m.Keys
    ensures |Below(m, at, i)| <= |m|
  {
    SubsetSize(Below(m, at, i).Keys, m.Keys);
    assert |Below(m, at, i)| == |Below(m, at, i).Keys| && |m| == |m.Keys|;
  }

  lemma BelowAll<K(!new), V>(hash: K -> nat, hashes: seq<int>, items: seq<Option<Item<K, V>>>, m: map<K, V>,
                             at: map<K, nat>)
    requires Holds(hash, hashes, items, m, at)
    ensures Below(m, at, |hashes|) == m
  {
    forall k | k in m ensures at[k] < |hashes| {
      assert Stored(hash, hashes, items, m, at, k);
    }
  }

  /** Bucket `i` adds its item, or nothing if it is empty. */
  lemma BelowNext<K(!new), V>(hash: K -> nat, hashes: seq<int>, items: seq<Option<Item<K, V>>>, m: map<K, V>,
                              at: map<K, nat>, i: nat)
    requires Holds(hash, hashes, items, m, at) && i < |hashes|
    ensures !Occupied(hashes[i]) ==> Below(m, at, i + 1) == Below(m, at, i)
    ensures Occupied(hashes[i]) ==>
      && items[i].Some? && items[i].value.key in m
      && var k := items[i].value.key;
      && k !in Below(m, at, i) && items[i].value.value == m[k] && hashes[i] == Needle(hash(k))
      && Below(m, at, i + 1) == Below(m, at, i)[k := m[k]]
  {
    forall k | k in m && at[k] == i ensures Occupied(hashes[i]) && items[i] == Some(Item(k, m[k])) {
      assert Stored(hash, hashes, items, m, at, k);
    }
    if Occupied(hashes[i]) {
      assert Stored(hash, hashes, items, m, at, items[i].value.key);
    }
  }

  lemma {:induction false} FullPrefix<K(!new), V>(hash: K -> nat, hashes: seq<int>, items: seq<Option<Item<K, V>>>,
                                                  m: map<K, V>, at: map<K, nat>, i: nat)
    requires Holds(hash, hashes, items, m, at) && i <= |hashes| && forall j | 0 <= j < i :: Occupied(hashes[j])
    ensures |Below(m, at, i)| == i
  {
    if i != 0 {
      FullPrefix(hash, hashes, items, m, at, i - 1);
      BelowNext(hash, hashes, items, m, at, i - 1);
    } else {
      assert Below(m, at, 0) == map[];
    }
  }

  /** While there are fewer keys than buckets, a bucket is empty. */
  lemma EmptyBucket<K(!new), V>(hash: K -> nat, hashes: seq<int>, items: seq<Option<Item<K, V>>>, m: map<K, V>,
                                at: map<K, nat>) returns (pos: nat)
    requires Holds(hash, hashes, items, m, at) && |m| < |hashes|
    ensures pos < |hashes| && !Occupied(hashes[pos])
  {
    BelowSize(m, at, |hashes|);
    if forall i | 0 <= i < |hashes| :: Occupied(hashes[i]) {
      FullPrefix(hash, hashes, items, m, at, |hashes|);
    }
    pos :| pos < |hashes| && !Occupied(hashes[pos]);
  }

  /** Storing a new key in an empty bucket at the end of its chain. */
  lemma StoreNew<K(!new), V>(hash: K -> nat, hashes: seq<int>, items: seq<Option<Item<K, V>>>, m: map<K, V>,
                             at: map<K, nat>, k: K, v: V, pos: nat)
    requires Holds(hash, hashes, items, m, at) && k !in m && pos < |hashes| && !Occupied(hashes[pos])
    requires Chain(hashes, Home(Needle(hash(k)), |hashes|), pos)
    ensures Holds(hash, hashes[pos := Needle(hash(k))], items[pos := Some(Item(k, v))], m[k := v], at[k := pos])
  {
    var n := |hashes|;
    var hashes', items', m', at' := hashes[pos := Needle(hash(k))], items[pos := Some(Item(k, v))], m[k := v],
      at[k := pos];
    forall q | q in m' ensures Stored(hash, hashes', items', m', at', q) {
      assert q != k ==> Stored(hash, hashes, items, m, at, q);
    }
  }

  /** Bucket `pos` holds key `k`. */
  predicate IsAt<K(==), V>(hashes: seq<int>, items: seq<Option<Item<K, V>>>, pos: nat, needle: int, k: K)
    requires pos < |hashes| == |items|
  {
    hashes[pos] == needle && items[pos].Some? && items[pos].value.key == k
  }

  /** The first `j` buckets that are probed for `k` are occupied, but not by `k`. */
  ghost predicate Passed<K, V>(hashes: seq<int>, items: seq<Option<Item<K, V>>>, home: nat, needle: int, k: K, j: nat)
    requires home < |hashes| == |items|
  {
    forall i {:trigger Probe(home, i, |hashes|)} | 0 <= i < j ::
      Occupied(hashes[Probe(home, i, |hashes|)]) && !IsAt(hashes, items, Probe(home, i, |hashes|), needle, k)
  }

  /** Where a probe for `k` ends at an empty bucket, without having seen it, it is nowhere. */
  lemma NotStored<K(!new), V>(hash: K -> nat, hashes: seq<int>, items: seq<Option<Item<K, V>>>, m: map<K, V>,
                              at: map<K, nat>,
                              k: K, needle: int, home: nat, pos: nat)
    requires Holds(hash, hashes, items, m, at) && pos < |hashes| && !Occupied(hashes[pos])
    requires needle == Needle(hash(k)) && home == Home(needle, |hashes|)
    requires Passed(hashes, items, home, needle, k, Distance(home, pos, |hashes|))
    ensures k !in m && Chain(hashes, home, pos)
  {
    if k in m {
      assert Stored(hash, hashes, items, m, at, k);
      ProbeDistance(home, at[k], |hashes|);
      ProbeDistance(home, pos, |hashes|);
    }
  }

  /** Probing begins at home. */
  lemma NothingPassed<K, V>(hashes: seq<int>, items: seq<Option<Item<K, V>>>, home: nat, needle: int, k: K)
    requires home < |hashes| == |items|
    ensures Passed(hashes, items, home, needle, k, 0)
    ensures Probe(home, 0, |hashes|) == home && Distance(home, home, |hashes|) == 0
  {
    ModUnique(home, |hashes|, 0, home);
  }

  /** An occupied bucket holds a key of the map. */
  lemma InBucket<K(!new), V>(hash: K -> nat, hashes: seq<int>, items: seq<Option<Item<K, V>>>, m: map<K, V>,
                             at: map<K, nat>, pos: nat)
    requires Holds(hash, hashes, items, m, at) && pos < |hashes| && Occupied(hashes[pos])
    ensures items[pos].Some? && items[pos].value.key in m && at[items[pos].value.key] == pos
    ensures var k := items[pos].value.key; items[pos] == Some(Item(k, m[k]))
  {
    assert Stored(hash, hashes, items, m, at, items[pos].value.key);
  }

  /** A probe that passes an occupied bucket goes on, towards an empty one. */
  lemma PassOn<K, V>(hashes: seq<int>, items: seq<Option<Item<K, V>>>, home: nat, needle: int, k: K, j: nat, pos: nat,
                     empty: nat)
    requires home < |hashes| == |items| && empty < |hashes| && !Occupied(hashes[empty])
    requires pos == Probe(home, j, |hashes|) && j == Distance(home, pos, |hashes|) <= Distance(home, empty, |hashes|)
    requires Passed(hashes, items, home, needle, k, j) && Occupied(hashes[pos]) && !IsAt(hashes, items, pos, needle, k)
    ensures Passed(hashes, items, home, needle, k, j + 1) && j < Distance(home, empty, |hashes|)
    ensures var next := (pos + 1) % |hashes|;
      next == Probe(home, j + 1, |hashes|) && j + 1 == Distance(home, next, |hashes|)
  {
    ProbeDistance(home, empty, |hashes|);
    ProbeNext(home, j, |hashes|);
    DistanceNext(home, pos, |hashes|, j);
  }

  datatype Operation<+K, +V> = Insertion(key: K, value: V) | Query(key: K)

  /** The writes so far, and that of an operation, if it is one. */
  ghost function After<K, V>(writes: seq<Item<K, V>>, op: Operation<K, V>): seq<Item<K, V>> {
    if op.Insertion? then writes + [Item(op.key, op.value)] else writes
  }

  ghost function ValueIn<K, V>(m: map<K, V>, k: K): Option<V> {
    if k in m then Some(m[k]) else None
  }

  class HashMap<K(==, !new), V> {
    const hash: K -> nat
    var nbuckets: nat
    var size: nat
    var hashes: array<int>
    var items: array<Option<Item<K, V>>>
    ghost var writes: seq<Item<K, V>>  // all inserts so far
    ghost var contents: map<K, V>
    ghost var at: map<K, nat>

    ghost predicate Valid()
      reads this, hashes, items
    {
      && contents == FirstWins(writes)
      && hashes.Length == items.Length == nbuckets
      && (exists k: nat :: nbuckets == Pow2(k))
      && Holds(hash, hashes[..], items[..], contents, at)
      && size == |contents| && 2 * size <= nbuckets && 2 <= nbuckets
      && (nbuckets == INITIAL_BUCKETS || nbuckets <= 4 * size)
    }

    constructor (hash: K -> nat)
      ensures Valid() && writes == [] && this.hash == hash && nbuckets == INITIAL_BUCKETS && size == 0
      ensures fresh(hashes) && fresh(items)
    {
      this.hash := hash;
      nbuckets, size := INITIAL_BUCKETS, 0;
      hashes := new int[INITIAL_BUCKETS](i => 0);
      items := new Option<Item<K, V>>[INITIAL_BUCKETS](i => None);
      writes, contents, at := [], map[], map[];
      new;
      assert Pow2(0) == 1 && Pow2(1) == 2 && Pow2(2) == 4;
      assert nbuckets == Pow2(2);
    }

    /** Probe for a key: ends at the key, or at the empty bucket where it belongs. */
    method Lookup(key: K, needle: int) returns (found: bool, pos: nat)
      requires Valid() && needle == Needle(hash(key))
      ensures pos < nbuckets && (found <==> key in contents)
      ensures found ==> at[key] == pos && items[pos] == Some(Item(key, contents[key]))
      ensures !found ==> !Occupied(hashes[pos]) && Chain(hashes[..], Home(needle, nbuckets), pos)
    {
      hide Holds, Needle, FirstWins, Chain, Distance, Probe, BitAnd, Passed, Pow2;
      ghost var home, hs, its := Home(needle, nbuckets), hashes[..], items[..];
      ghost var empty := EmptyBucket(hash, hs, its, contents, at);
      ghost var j, last := 0, Distance(home, empty, nbuckets);
      MaskIsMod(needle, nbuckets);
      pos := BitAnd(needle, nbuckets - 1);
      NothingPassed(hs, its, home, needle, key);
      while true
        invariant j <= last && pos == Probe(home, j, nbuckets) && j == Distance(home, pos, nbuckets)
        invariant Passed(hs, its, home, needle, key, j)
        decreases last - j
      {
        var h := hashes[pos];
        if !Occupied(h) {
          NotStored(hash, hs, its, contents, at, key, needle, home, pos);
          return false, pos;
        }
        InBucket(hash, hs, its, contents, at, pos);
        if h == needle && items[pos].value.key == key {
          return true, pos;
        }
        PassOn(hs, its, home, needle, key, j, pos, empty);
        MaskIsMod(pos + 1, nbuckets);
        pos := BitAnd(pos + 1, nbuckets - 1);
        j := j + 1;
      }
    }

    /** The position of a key, if it is there. */
    method Find(key: K) returns (r: Option<nat>)
      requires Valid()
      ensures r.Some? <==> key in contents
      ensures r.Some? ==> r.value < nbuckets && items[r.value] == Some(Item(key, contents[key]))
    {
      hide Holds, FirstWins, Pow2, Needle;
      var found, pos := Lookup(key, Needle(hash(key)));
      r := if found then Some(pos) else None;
    }

    method Store(key: K, value: V, pos: nat)
      requires hashes.Length == items.Length == nbuckets && Holds(hash, hashes[..], items[..], contents, at)
      requires key !in contents && pos < nbuckets && !Occupied(hashes[pos])
      requires Chain(hashes[..], Home(Needle(hash(key)), nbuckets), pos)
      modifies this`contents, this`at, hashes, items
      ensures Holds(hash, hashes[..], items[..], contents, at)
      ensures contents == old(contents)[key := value] && at == old(at)[key := pos]
      ensures items[pos] == Some(Item(key, value))
    {
      StoreNew(hash, hashes[..], items[..], contents, at, key, value, pos);
      hashes[pos] := Needle(hash(key));
      items[pos] := Some(Item(key, value));
      contents, at := contents[key := value], at[key := pos];
      assert hashes[..] == old(hashes[..])[pos := Needle(hash(key))];
      assert items[..] == old(items[..])[pos := Some(Item(key, value))];
    }

    /** Add a key, unless it is there already: then its value is kept. */
    method Insert(key: K, value: V) returns (pos: nat)
      requires Valid()
      // checked at run time by the program:
      requires key !in contents && size >= nbuckets / 2 ==> nbuckets < SIZE_MAX / 2
      modifies this, hashes, items
      ensures Valid() && writes == old(writes) + [Item(key, value)]
      ensures (hashes == old(hashes) && items == old(items)) || (fresh(hashes) && fresh(items))
      ensures nbuckets ==
        if key !in old(contents) && old(size) >= old(nbuckets) / 2 then 2 * old(nbuckets) else old(nbuckets)
      ensures contents == if key in old(contents) then old(contents) else old(contents)[key := value]
      ensures size == if key in old(contents) then old(size) else old(size) + 1
      ensures pos < nbuckets && items[pos] == Some(Item(key, contents[key]))
    {
      hide Holds, Pow2, Needle, Chain, Home;
      var needle := Needle(hash(key));
      ghost var after := writes + [Item(key, value)];
      assert after[..|writes|] == writes;
      var found;
      found, pos := Lookup(key, needle);
      if found {
        writes := after;
        return;
      }
      if size >= nbuckets / 2 {
        Rehash();
        found, pos := Lookup(key, needle);
        assert !found;  // checked at run time by the program
      }
      size := size + 1;
      Store(key, value, pos);
      writes := after;
    }

    /** One operation; the program aborts if the table would get too large. */
    method Perform(op: Operation<K, V>) returns (answer: Option<V>, aborted: bool)
      requires Valid()
      modifies this, hashes, items
      ensures Valid() && ((hashes == old(hashes) && items == old(items)) || (fresh(hashes) && fresh(items)))
      ensures if aborted then writes == old(writes) && SIZE_MAX / 8 <= size else writes == After(old(writes), op)
      ensures !aborted ==> answer == ValueIn(FirstWins(writes), op.key) && size <= old(size) + 1
    {
      hide Holds, Pow2, FirstWins;
      var at := Find(op.key);
      if op.Insertion? {
        if at.None? && size >= nbuckets / 2 && nbuckets >= SIZE_MAX / 2 {
          return None, true;
        }
        var pos := Insert(op.key, op.value);
        at := Some(pos);
      }
      answer, aborted := if at.None? then None else Some(items[at.value].value.value), false;
    }

    /** Double the number of buckets, and move all items by their stored hashes. */
    method Rehash()
      requires Valid() && size >= nbuckets / 2 && nbuckets < SIZE_MAX / 2
      modifies this
      ensures Valid() && contents == old(contents) && writes == old(writes) && size == old(size)
      ensures nbuckets == 2 * old(nbuckets)
      ensures fresh(hashes) && fresh(items)
    {
      hide Holds, FirstWins, Below;
      var newBuckets := nbuckets * 2;
      ghost var k: nat :| nbuckets == Pow2(k);
      assert newBuckets == Pow2(k + 1) && nbuckets % 2 == 0;
      var newHashes, newItems := new int[newBuckets](i => 0), new Option<Item<K, V>>[newBuckets](i => None);
      ghost var newAt := MoveItems(newHashes, newItems, newBuckets);
      hashes, items, nbuckets, at := newHashes, newItems, newBuckets, newAt;
    }

    /** Move all items to a new table, which is empty. */
    method MoveItems(newHashes: array<int>, newItems: array<Option<Item<K, V>>>, newBuckets: nat)
      returns (ghost newAt: map<K, nat>)
      requires Valid() && newBuckets == 2 * nbuckets && (exists k: nat :: newBuckets == Pow2(k))
      requires newHashes.Length == newItems.Length == newBuckets && newHashes != hashes && newItems != items
      requires forall i | 0 <= i < newBuckets :: newHashes[i] == 0
      modifies newHashes, newItems
      ensures Holds(hash, newHashes[..], newItems[..], contents, newAt)
    {
      hide FirstWins, Pow2, Stored;
      ghost var moved := map[];
      newAt := map[];
      for i := 0 to nbuckets
        invariant Holds(hash, newHashes[..], newItems[..], moved, newAt)
        invariant Valid() && moved == Below(contents, at, i)
      {
        moved, newAt := MoveItem(i, newHashes, newItems, newBuckets, moved, newAt);
      }
      BelowAll(hash, hashes[..], items[..], contents, at);
    }

    /** Move the item of bucket `i`, if there is one, to an empty bucket of the new table. */
    method MoveItem(i: nat, newHashes: array<int>, newItems: array<Option<Item<K, V>>>, newBuckets: nat,
                    ghost moved: map<K, V>, ghost newAt: map<K, nat>)
      returns (ghost moved': map<K, V>, ghost newAt': map<K, nat>)
      requires Valid() && i < nbuckets && newBuckets == 2 * nbuckets
      requires newHashes.Length == newItems.Length == newBuckets && newHashes != hashes && newItems != items
      requires (exists k: nat :: newBuckets == Pow2(k)) && Holds(hash, newHashes[..], newItems[..], moved, newAt)
      requires moved == Below(contents, at, i)
      modifies newHashes, newItems
      ensures Holds(hash, newHashes[..], newItems[..], moved', newAt') && moved' == Below(contents, at, i + 1)
    {
      hide FirstWins, Pow2, Stored, Below;
      BelowNext(hash, hashes[..], items[..], contents, at, i);
      var h := hashes[i];
      if !Occupied(h) {
        return moved, newAt;
      }
      BelowSize(contents, at, i);
      var item := items[i].value;
      ghost var hs, its := newHashes[..], newItems[..];
      var newPos := FindEmpty(hash, newHashes, newBuckets, h, its, moved, newAt);
      StoreNew(hash, hs, its, moved, newAt, item.key, item.value, newPos);
      newItems[newPos] := Some(item);
      newHashes[newPos] := h;
      assert newHashes[..] == hs[newPos := h] && newItems[..] == its[newPos := Some(item)];
      moved', newAt' := moved[item.key := item.value], newAt[item.key := newPos];
    }

    /** Probe for an empty bucket. */
    static method FindEmpty(ghost hash: K -> nat, newHashes: array<int>, newBuckets: nat, h: int,
        ghost its: seq<Option<Item<K, V>>>, ghost moved: map<K, V>, ghost newAt: map<K, nat>)
      returns (newPos: nat)
      requires newHashes.Length == newBuckets && (exists k: nat :: newBuckets == Pow2(k))
      requires Holds(hash, newHashes[..], its, moved, newAt) && |moved| < newBuckets
      ensures newPos < newBuckets && !Occupied(newHashes[newPos]) && Chain(newHashes[..], Home(h, newBuckets), newPos)
    {
      ghost var hs, n, home := newHashes[..], newBuckets, Home(h, newBuckets);
      ghost var empty := EmptyBucket(hash, hs, its, moved, newAt);
      ghost var j, last := 0, Distance(home, empty, n);
      ProbeDistance(home, empty, n);
      MaskIsMod(h, newBuckets);
      newPos := BitAnd(h, newBuckets - 1);
      ModUnique(home, n, 0, home);
      while Occupied(newHashes[newPos])
        invariant j <= last && newPos == Probe(home, j, n) && j == Distance(home, newPos, n)
        invariant forall p {:trigger Probe(home, p, n)} | 0 <= p < j :: Occupied(hs[Probe(home, p, n)])
        decreases last - j
      {
        assert newHashes[newPos] == hs[newPos];
        MaskIsMod(newPos + 1, newBuckets);
        ProbeNext(home, j, n);
        DistanceNext(home, newPos, n, j);
        newPos := BitAnd(newPos + 1, newBuckets - 1);
        j := j + 1;
      }
    }
  }

  // ---------------------------------------------------------------- whole runs

  /** The inserts among some operations. */
  ghost function Inserts<K, V>(ops: seq<Operation<K, V>>): seq<Item<K, V>> {
    if ops == [] then [] else After(Inserts(ops[..|ops| - 1]), ops[|ops| - 1])
  }

  /** What operations should answer, each the first value that was inserted for its key by then. */
  ghost function Answers<K, V>(ops: seq<Operation<K, V>>): seq<Option<V>> {
    if ops == [] then []
    else Answers(ops[..|ops| - 1]) + [ValueIn(FirstWins(Inserts(ops)), ops[|ops| - 1].key)]
  }

  lemma NextAnswer<K, V>(ops: seq<Operation<K, V>>, i: nat, before: seq<Item<K, V>>, answers: seq<Option<V>>)
    requires i < |ops| && before == Inserts(ops[..i]) && answers == Answers(ops[..i])
    ensures Inserts(ops[..i + 1]) == After(before, ops[i])
    ensures Answers(ops[..i + 1]) == answers + [ValueIn(FirstWins(After(before, ops[i])), ops[i].key)]
  {
    assert ops[..i + 1][..i] == ops[..i];
  }

  /**
   Running any operations on a new table answers each as the finite map does.  The program
   aborts, and the answers end, only when a table of half the address space would have to grow.
   */
  method RunOperations<K(==, !new), V>(hash: K -> nat, ops: seq<Operation<K, V>>) returns (answers: seq<Option<V>>)
    ensures |answers| <= |ops| && answers == Answers(ops[..|answers|])
    ensures |answers| < |ops| ==> SIZE_MAX / 8 <= |ops|
  {
    assert Inserts(ops[..0]) == [] && Answers(ops[..0]) == [];
    hide Holds, Pow2, Answers, FirstWins, Inserts, After, ValueIn;
    var table := new HashMap(hash);
    answers := [];
    for i := 0 to |ops|
      invariant fresh(table) && fresh(table.hashes) && fresh(table.items) && table.Valid()
      invariant table.writes == Inserts(ops[..i]) && table.size <= i
      invariant |answers| == i && answers == Answers(ops[..i])
    {
      NextAnswer(ops, i, table.writes, answers);
      var answer, aborted := table.Perform(ops[i]);
      if aborted {
        return;
      }
      answers := answers + [answer];
    }
  }

  lemma DistanceNext(home: nat, pos: nat, n: nat, j: nat)
    requires home < n && pos < n && j == Distance(home, pos, n) && j + 1 < n
    ensures Distance(home, (pos + 1) % n, n) == j + 1
  {
    if pos + 1 < n {
      ModUnique(pos + 1, n, 0, pos + 1);
    } else {
      ModUnique(pos + 1, n, 1, 0);
    }
  }
}
