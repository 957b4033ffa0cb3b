/** src/mempool.py: the byte-capped pool of pending transactions. */
module Mempools {
  import opened Params
  import opened Prelude
  import opened Types
  import opened Ledgers
  import opened Packing
  import opened Chains

  /** One item of _pool. The pool is the sequence of its items in insertion order, keys distinct. */
  datatype Entry = Entry(hash: Hash, tx: Tx, entered: Instant)

  function TxsOf(pool: seq<Entry>): (r: seq<Tx>)
    ensures |r| == |pool|
  {
    if pool == [] then [] else [pool[0].tx] + TxsOf(pool[1..])
  }

  function HashesOf(pool: seq<Entry>): (r: seq<Hash>)
    ensures |r| == |pool|
  {
    if pool == [] then [] else [pool[0].hash] + HashesOf(pool[1..])
  }

  function SumSizes(e: Env, pool: seq<Entry>): nat {
    if pool == [] then 0 else TxSize(e, pool[0].tx) + SumSizes(e, pool[1..])
  }

  predicate Holds(pool: seq<Entry>, h: Hash) {
    h in HashesOf(pool)
  }

  function Other(h: Hash): Entry -> bool {
    (x: Entry) => x.hash != h
  }

  function NoneOf(hs: seq<Hash>): Entry -> bool {
    (x: Entry) => x.hash !in hs
  }

  function RateKey(e: Env): Entry -> real {
    (x: Entry) => FeeRate(e, x.tx)
  }

  /** Keys are the hashes of their transactions, each once. */
  ghost predicate Keyed(e: Env, pool: seq<Entry>) {
    && Distinct(HashesOf(pool))
    && forall x :: x in pool ==> x.hash == TxHash(e, x.tx)
  }

  // ------------------------------------------------------------------------------ admission

  /** The eviction loop: how many of the worst-first entries it takes. */
  function EvictCount(e: Env, worst: seq<Entry>, overflow: int, rate: real, freed: int): (n: nat)
    ensures n <= |worst|
    decreases |worst|
  {
    if worst == [] || freed >= overflow || FeeRate(e, worst[0].tx) >= rate then 0
    else 1 + EvictCount(e, worst[1..], overflow, rate, freed + TxSize(e, worst[0].tx))
  }

  datatype Admission = Duplicate | Full | Added(pool: seq<Entry>)

  /** add. */
  function Admit(e: Env, pool: seq<Entry>, t: Tx, now: Instant): Admission {
    var h := TxHash(e, t);
    if Holds(pool, h) then Duplicate
    else
      var overflow := SumSizes(e, pool) + TxSize(e, t) - MEMPOOL_MAX_BYTES;
      if overflow <= 0 then Added(pool + [Entry(h, t, now)])
      else
        var worst := SortBy(pool, RateKey(e));
        var k := EvictCount(e, worst, overflow, FeeRate(e, t), 0);
        if SumSizes(e, worst[..k]) < overflow then Full
        else Added(Filter(pool, NoneOf(HashesOf(worst[..k]))) + [Entry(h, t, now)])
  }

  /** k worst-first evictions make room for t, no fewer do, and each of them is strictly cheaper. */
  ghost predicate MakesRoom(e: Env, pool: seq<Entry>, t: Tx, k: nat) {
    var worst := SortBy(pool, RateKey(e));
    var overflow := SumSizes(e, pool) + TxSize(e, t) - MEMPOOL_MAX_BYTES;
    && k <= |worst|
    && SumSizes(e, worst[..k]) >= overflow
    && (forall j :: 0 <= j < k ==> SumSizes(e, worst[..j]) < overflow)
    && (forall i :: 0 <= i < k ==> FeeRate(e, worst[i].tx) < FeeRate(e, t))
  }

  lemma {:induction false} SumConcat(e: Env, a: seq<Entry>, b: seq<Entry>)
    ensures SumSizes(e, a + b) == SumSizes(e, a) + SumSizes(e, b)
  {
    if a == [] {
      assert a + b == b;
    } else {
      assert (a + b)[1..] == a[1..] + b;
      SumConcat(e, a[1..], b);
    }
  }

  lemma {:induction false} SumInsert(e: Env, x: Entry, s: seq<Entry>, key: Entry -> real)
    ensures SumSizes(e, InsertBy(x, s, key)) == TxSize(e, x.tx) + SumSizes(e, s)
  {
    if s != [] && key(x) > key(s[0]) {
      SumInsert(e, x, s[1..], key);
    }
  }

  lemma {:induction false} SumSort(e: Env, s: seq<Entry>, key: Entry -> real)
    ensures SumSizes(e, SortBy(s, key)) == SumSizes(e, s)
  {
    if s != [] {
      SumSort(e, s[1..], key);
      SumInsert(e, s[0], SortBy(s[1..], key), key);
    }
  }

  /** The loop's count, with what was freed before it. */
  lemma {:induction false} EvictCountMeaning(e: Env, worst: seq<Entry>, overflow: int, rate: real, freed: int)
    ensures var k := EvictCount(e, worst, overflow, rate, freed);
      && (forall i :: 0 <= i < k ==> FeeRate(e, worst[i].tx) < rate)
      && (forall j :: 0 <= j < k ==> freed + SumSizes(e, worst[..j]) < overflow)
      && (freed + SumSizes(e, worst[..k]) >= overflow || k == |worst| || FeeRate(e, worst[k].tx) >= rate)
    decreases |worst|
  {
    var k := EvictCount(e, worst, overflow, rate, freed);
    if k > 0 {
      var size := TxSize(e, worst[0].tx);
      EvictCountMeaning(e, worst[1..], overflow, rate, freed + size);
      forall j | 0 <= j <= |worst|
        ensures SumSizes(e, worst[..j]) == if j == 0 then 0 else size + SumSizes(e, worst[1..][..j - 1]) {
        if j > 0 {
          assert worst[..j][1..] == worst[1..][..j - 1];
        }
      }
      forall i | 0 <= i < k ensures FeeRate(e, worst[i].tx) < rate {
        if i > 0 {
          assert worst[i] == worst[1..][i - 1];
        }
      }
    }
  }

  /** The pool without its k worst entries. */
  function WithoutWorst(e: Env, pool: seq<Entry>, k: nat): seq<Entry>
    requires k <= |pool|
  {
    Filter(pool, NoneOf(HashesOf(SortBy(pool, RateKey(e))[..k])))
  }

  /** The entries the eviction loop takes for t. */
  function EvictedFor(e: Env, pool: seq<Entry>, t: Tx): (n: nat)
    ensures n <= |pool|
  {
    EvictCount(e, SortBy(pool, RateKey(e)), SumSizes(e, pool) + TxSize(e, t) - MEMPOOL_MAX_BYTES, FeeRate(e, t), 0)
  }

  /** The eviction loop makes room if anything does. */
  lemma {:induction false} CountMakesRoom(e: Env, pool: seq<Entry>, t: Tx)
    requires SumSizes(e, SortBy(pool, RateKey(e))[..EvictedFor(e, pool, t)])
          >= SumSizes(e, pool) + TxSize(e, t) - MEMPOOL_MAX_BYTES
    ensures MakesRoom(e, pool, t, EvictedFor(e, pool, t))
  {
    var overflow := SumSizes(e, pool) + TxSize(e, t) - MEMPOOL_MAX_BYTES;
    EvictCountMeaning(e, SortBy(pool, RateKey(e)), overflow, FeeRate(e, t), 0);
    hide EvictCount, SortBy, SumSizes;
  }

  lemma {:induction false} RoomIsCount(e: Env, pool: seq<Entry>, t: Tx, k: nat)
    requires MakesRoom(e, pool, t, k)
    ensures k == EvictedFor(e, pool, t)
    ensures SumSizes(e, SortBy(pool, RateKey(e))[..k]) >= SumSizes(e, pool) + TxSize(e, t) - MEMPOOL_MAX_BYTES
  {
    var overflow := SumSizes(e, pool) + TxSize(e, t) - MEMPOOL_MAX_BYTES;
    var n := EvictedFor(e, pool, t);
    EvictCountMeaning(e, SortBy(pool, RateKey(e)), overflow, FeeRate(e, t), 0);
    hide EvictCount, SortBy, SumSizes;
    assert k <= n;
    assert n <= k;
  }

  /** add without room, in terms of the eviction loop. */
  lemma {:induction false} AdmitByCount(e: Env, pool: seq<Entry>, t: Tx, now: Instant)
    requires !Holds(pool, TxHash(e, t))
    requires SumSizes(e, pool) + TxSize(e, t) > MEMPOOL_MAX_BYTES
    ensures
      var n := EvictedFor(e, pool, t);
      var overflow := SumSizes(e, pool) + TxSize(e, t) - MEMPOOL_MAX_BYTES;
      Admit(e, pool, t, now) ==
        if SumSizes(e, SortBy(pool, RateKey(e))[..n]) < overflow then Full
        else Added(WithoutWorst(e, pool, n) + [Entry(TxHash(e, t), t, now)])
  {
    hide Filter, EvictCount, SortBy, SumSizes, HashesOf, Holds;
  }

  /** An addition that needs room succeeds exactly when some worst-first prefix of strictly cheaper
      entries makes room; else it is refused as too cheap. */
  lemma {:induction false} AdmissionNeedsRoom(e: Env, pool: seq<Entry>, t: Tx, now: Instant)
    requires !Holds(pool, TxHash(e, t))
    requires SumSizes(e, pool) + TxSize(e, t) > MEMPOOL_MAX_BYTES
    ensures Admit(e, pool, t, now).Added? <==> exists k: nat :: MakesRoom(e, pool, t, k)
    ensures Admit(e, pool, t, now).Added? || Admit(e, pool, t, now) == Full
  {
    AdmitByCount(e, pool, t, now);
    if Admit(e, pool, t, now).Added? {
      CountMakesRoom(e, pool, t);
    }
    if k: nat :| MakesRoom(e, pool, t, k) {
      RoomIsCount(e, pool, t, k);
      hide MakesRoom, Admit, EvictedFor, SortBy, SumSizes;
    }
  }

  /** It then evicts the shortest such prefix, and nothing else. */
  lemma {:induction false} AdmissionEvictsShortestPrefix(e: Env, pool: seq<Entry>, t: Tx, k: nat, now: Instant)
    requires !Holds(pool, TxHash(e, t))
    requires SumSizes(e, pool) + TxSize(e, t) > MEMPOOL_MAX_BYTES
    requires MakesRoom(e, pool, t, k)
    ensures Admit(e, pool, t, now) == Added(WithoutWorst(e, pool, k) + [Entry(TxHash(e, t), t, now)])
  {
    AdmitByCount(e, pool, t, now);
    RoomIsCount(e, pool, t, k);
    hide MakesRoom, Admit, EvictedFor, SortBy, SumSizes, WithoutWorst, Holds;
  }

  // ------------------------------------------------------------------------------ removal

  lemma {:induction false} FilterBoth<T>(s: seq<T>, p: T -> bool, q: T -> bool, r: T -> bool)
    requires forall x :: x in s ==> (r(x) <==> p(x) && q(x))
    ensures Filter(Filter(s, p), q) == Filter(s, r)
  {
    if s != [] {
      FilterBoth(s[1..], p, q, r);
    }
  }

  lemma {:induction false} HashesContain(pool: seq<Entry>)
    ensures forall h :: h in HashesOf(pool) <==> exists i :: 0 <= i < |pool| && pool[i].hash == h
    ensures forall i :: 0 <= i < |pool| ==> HashesOf(pool)[i] == pool[i].hash
  {
    if pool != [] {
      HashesContain(pool[1..]);
      forall i | 0 <= i < |pool| ensures HashesOf(pool)[i] == pool[i].hash {
        if i > 0 {
          assert HashesOf(pool)[i] == HashesOf(pool[1..])[i - 1] && pool[i] == pool[1..][i - 1];
        }
      }
      forall h ensures h in HashesOf(pool) <==> exists i :: 0 <= i < |pool| && pool[i].hash == h {
        if h in HashesOf(pool) {
          var i :| 0 <= i < |pool| && HashesOf(pool)[i] == h;
          assert pool[i].hash == h;
        }
        if i :| 0 <= i < |pool| && pool[i].hash == h {
          assert HashesOf(pool)[i] == h;
        }
      }
    }
  }

  lemma {:induction false} HashesOfFilter(pool: seq<Entry>, keep: Entry -> bool)
    requires Distinct(HashesOf(pool))
    ensures Distinct(HashesOf(Filter(pool, keep)))
    ensures forall h :: h in HashesOf(Filter(pool, keep)) ==> h in HashesOf(pool)
  {
    if pool != [] {
      FilterFirst(pool, keep);
      hide Filter;
      var hs, rest := HashesOf(pool), Filter(pool[1..], keep);
      assert forall i :: 0 <= i < |hs[1..]| ==> hs[1..][i] == hs[i + 1];
      assert hs[1..] == HashesOf(pool[1..]) && hs == [hs[0]] + hs[1..];
      assert hs[0] !in hs[1..];
      HashesOfFilter(pool[1..], keep);
      if keep(pool[0]) {
        HashesOfFirst(pool[0], rest);
        hide HashesOf;
        DistinctFirst(hs[0], HashesOf(rest));
      } else {
        assert [] + rest == rest;
      }
    }
  }

  lemma {:induction false} HashesOfFirst(x: Entry, rest: seq<Entry>)
    ensures HashesOf([x] + rest) == [x.hash] + HashesOf(rest)
  {
    assert ([x] + rest)[1..] == rest;
  }

  lemma DistinctFirst<T>(x: T, s: seq<T>)
    requires Distinct(s) && x !in s
    ensures Distinct([x] + s)
  {
  }

  lemma {:induction false} KeyedFilter(e: Env, pool: seq<Entry>, keep: Entry -> bool)
    requires Keyed(e, pool)
    ensures Keyed(e, Filter(pool, keep))
  {
    HashesOfFilter(pool, keep);
  }

  lemma KeyedAppend(e: Env, pool: seq<Entry>, t: Tx, now: Instant)
    requires Keyed(e, pool) && !Holds(pool, TxHash(e, t))
    ensures Keyed(e, pool + [Entry(TxHash(e, t), t, now)])
  {
    var x := Entry(TxHash(e, t), t, now);
    HashesConcat(pool, [x]);
    assert HashesOf([x]) == [x.hash];
  }

  lemma {:induction false} HashesConcat(a: seq<Entry>, b: seq<Entry>)
    ensures HashesOf(a + b) == HashesOf(a) + HashesOf(b)
  {
    if a == [] {
      assert a + b == b;
    } else {
      assert (a + b)[1..] == a[1..] + b;
      HashesConcat(a[1..], b);
    }
  }

  lemma {:induction false} RemoveAbsent(pool: seq<Entry>, h: Hash)
    requires !Holds(pool, h)
    ensures Filter(pool, Other(h)) == pool
  {
    HashesContain(pool);
    FilterAll(pool, Other(h));
  }

  /** What pop(h) does to the byte sum. */
  lemma {:induction false} SumRemoveOne(e: Env, pool: seq<Entry>, i: nat)
    requires Distinct(HashesOf(pool)) && i < |pool|
    ensures SumSizes(e, Filter(pool, Other(pool[i].hash))) == SumSizes(e, pool) - TxSize(e, pool[i].tx)
  {
    var hs := HashesOf(pool);
    assert hs[1..] == HashesOf(pool[1..]);
    assert forall j :: 0 <= j < |hs[1..]| ==> hs[1..][j] == hs[j + 1];
    HashesContain(pool);
    if i == 0 {
      assert pool[0].hash !in hs[1..];
      RemoveAbsent(pool[1..], pool[0].hash);
    } else {
      assert hs[0] != hs[i];
      SumRemoveOne(e, pool[1..], i - 1);
      var rest := Filter(pool[1..], Other(pool[i].hash));
      assert ([pool[0]] + rest)[1..] == rest;
    }
  }

  lemma {:induction false} RemoveNext(pool: seq<Entry>, hs: seq<Hash>, i: nat)
    requires i < |hs|
    ensures Filter(Filter(pool, NoneOf(hs[..i])), Other(hs[i])) == Filter(pool, NoneOf(hs[..i + 1]))
  {
    assert hs[..i + 1] == hs[..i] + [hs[i]];
    FilterBoth(pool, NoneOf(hs[..i]), Other(hs[i]), NoneOf(hs[..i + 1]));
  }

  lemma {:induction false} MemberHash(a: seq<Entry>, x: Entry)
    requires x in a
    ensures x.hash in HashesOf(a)
  {
    if x != a[0] {
      MemberHash(a[1..], x);
    }
  }

  lemma {:induction false} DistinctSplit(a: seq<Entry>, b: seq<Entry>, x: Entry)
    requires Distinct(HashesOf(a + b)) && x in b
    ensures x.hash !in HashesOf(a)
  {
    if a != [] {
      var rest := a[1..] + b;
      assert (a + b)[1..] == rest;
      var hs := HashesOf(a + b);
      assert hs == [a[0].hash] + HashesOf(rest);
      assert forall i :: 0 <= i < |rest| ==> HashesOf(rest)[i] == hs[i + 1];
      DistinctSplit(a[1..], b, x);
      MemberHash(rest, x);
      forall i | 0 <= i < |rest| ensures HashesOf(rest)[i] != hs[0] {
        assert hs[0] != hs[i + 1];
      }
    }
  }

  lemma {:induction false} EvictPrefixKeepsRest(a: seq<Entry>, b: seq<Entry>)
    requires Distinct(HashesOf(a + b))
    ensures Filter(a + b, NoneOf(HashesOf(a))) == b
  {
    var keep := NoneOf(HashesOf(a));
    hide Filter, Distinct;
    forall i | 0 <= i < |a| ensures !keep(a[i]) {
      MemberHash(a, a[i]);
    }
    hide HashesOf;
    forall i | 0 <= i < |b| ensures keep(b[i]) {
      DistinctSplit(a, b, b[i]);
    }
    FilterDropsPrefix(a, b, keep);
  }

  /** Evicting the first k of the sorted pool frees exactly their bytes. */
  lemma {:induction false} EvictionFrees(e: Env, pool: seq<Entry>, worst: seq<Entry>, k: nat)
    requires Distinct(HashesOf(pool)) && worst == SortBy(pool, RateKey(e)) && k <= |worst|
    ensures SumSizes(e, Filter(pool, NoneOf(HashesOf(worst[..k])))) == SumSizes(e, pool) - SumSizes(e, worst[..k])
  {
    var a, b := worst[..k], worst[k..];
    assert worst == a + b;
    SortedHashesDistinct(pool, RateKey(e));
    EvictPrefixKeepsRest(a, b);
    FilterSort(pool, RateKey(e), NoneOf(HashesOf(a)));
    SumSort(e, pool, RateKey(e));
    SumSort(e, Filter(pool, NoneOf(HashesOf(a))), RateKey(e));
    SumConcat(e, a, b);
  }

  lemma {:induction false} HashesInsert(x: Entry, s: seq<Entry>, key: Entry -> real)
    ensures multiset(HashesOf(InsertBy(x, s, key))) == multiset(HashesOf(s)) + multiset{x.hash}
  {
    if s != [] && key(x) > key(s[0]) {
      HashesInsert(x, s[1..], key);
      assert HashesOf(s) == [s[0].hash] + HashesOf(s[1..]);
    } else {
      assert ([x] + s)[1..] == s;
    }
  }

  lemma {:induction false} HashesSort(s: seq<Entry>, key: Entry -> real)
    ensures multiset(HashesOf(SortBy(s, key))) == multiset(HashesOf(s))
  {
    if s != [] {
      HashesSort(s[1..], key);
      HashesInsert(s[0], SortBy(s[1..], key), key);
      assert HashesOf(s) == [s[0].hash] + HashesOf(s[1..]);
    }
  }

  lemma {:induction false} DistinctByCount<T>(s: seq<T>)
    ensures Distinct(s) <==> forall x :: multiset(s)[x] <= 1
  {
    if s != [] {
      DistinctByCount(s[1..]);
      assert s == [s[0]] + s[1..];
      assert multiset(s) == multiset{s[0]} + multiset(s[1..]);
      if Distinct(s) {
        assert forall i :: 0 <= i < |s[1..]| ==> s[1..][i] == s[i + 1];
        assert s[0] !in s[1..];
      }
      if forall x :: multiset(s)[x] <= 1 {
        forall x ensures multiset(s[1..])[x] <= 1 {
          assert multiset(s)[x] <= 1;
        }
        assert multiset(s)[s[0]] <= 1;
        assert s[0] !in s[1..];
        forall i, j | 0 <= i < j < |s| ensures s[i] != s[j] {
          if i == 0 {
            assert s[j] == s[1..][j - 1];
          } else {
            assert s[i] == s[1..][i - 1] && s[j] == s[1..][j - 1];
          }
        }
      }
    }
  }

  lemma {:induction false} SortedHashesDistinct(s: seq<Entry>, key: Entry -> real)
    requires Distinct(HashesOf(s))
    ensures Distinct(HashesOf(SortBy(s, key)))
  {
    HashesSort(s, key);
    DistinctByCount(HashesOf(s));
    DistinctByCount(HashesOf(SortBy(s, key)));
  }

  lemma {:induction false} AppendKeepsKeyed(e: Env, kept: seq<Entry>, t: Tx, now: Instant)
    requires Keyed(e, kept) && !Holds(kept, TxHash(e, t))
    ensures var r := kept + [Entry(TxHash(e, t), t, now)];
      Keyed(e, r) && SumSizes(e, r) == SumSizes(e, kept) + TxSize(e, t)
  {
    KeyedAppend(e, kept, t, now);
    var x := Entry(TxHash(e, t), t, now);
    SumConcat(e, kept, [x]);
    assert SumSizes(e, [x]) == TxSize(e, t) + SumSizes(e, []);
  }

  lemma PlaceInSorted(pool: seq<Entry>, key: Entry -> real, x: Entry) returns (i: nat)
    requires Distinct(HashesOf(pool)) && x in pool
    ensures var sorted := SortBy(pool, key);
      && i < |sorted| && sorted[i] == x
      && forall k :: 0 <= k <= |sorted| ==> (x.hash in HashesOf(sorted[..k]) <==> i < k)
  {
    var sorted := SortBy(pool, key);
    SortKeepsMembers(pool, key);
    SortedHashesDistinct(pool, key);
    hide SortBy, HashesOf;
    i :| 0 <= i < |sorted| && sorted[i] == x;
    HashesContain(sorted);
    forall k | 0 <= k <= |sorted| ensures x.hash in HashesOf(sorted[..k]) <==> i < k {
      HashesContain(sorted[..k]);
      if i < k {
        assert sorted[..k][i] == x;
      }
      if x.hash in HashesOf(sorted[..k]) {
        var n :| 0 <= n < k && sorted[..k][n].hash == x.hash;
        assert HashesOf(sorted)[n] == HashesOf(sorted)[i];
      }
    }
  }

  /** No entry that is kept pays less for its bytes than one that is evicted, and the newcomer pays more. */
  lemma {:induction false} EvictedPaysLeast(e: Env, pool: seq<Entry>, t: Tx, now: Instant, x: Entry, y: Entry)
    requires Distinct(HashesOf(pool)) && Admit(e, pool, t, now).Added? && x in pool && y in pool
    requires x !in Admit(e, pool, t, now).pool && y in Admit(e, pool, t, now).pool
    ensures x.tx.fee * SizeAtLeastOne(e, y.tx) <= y.tx.fee * SizeAtLeastOne(e, x.tx)
    ensures x.tx.fee * SizeAtLeastOne(e, t) < t.fee * SizeAtLeastOne(e, x.tx)
  {
    EvictedByRate(e, pool, t, now, x, y);
    RateOrder(e, x.tx, y.tx);
    RateOrder(e, x.tx, t);
  }

  function SizeAtLeastOne(e: Env, t: Tx): int {
    if TxSize(e, t) > 1 then TxSize(e, t) else 1
  }

  /** Fee rates compare like fees weighed with the other's size. */
  lemma RateOrder(e: Env, t: Tx, u: Tx)
    ensures FeeRate(e, t) <= FeeRate(e, u) <==> t.fee * SizeAtLeastOne(e, u) <= u.fee * SizeAtLeastOne(e, t)
    ensures FeeRate(e, t) < FeeRate(e, u) <==> t.fee * SizeAtLeastOne(e, u) < u.fee * SizeAtLeastOne(e, t)
  {
    Quotients(t.fee, SizeAtLeastOne(e, t), u.fee, SizeAtLeastOne(e, u));
  }

  lemma Quotients(a: int, m: int, b: int, n: int)
    requires m > 0 && n > 0
    ensures a as real / m as real <= b as real / n as real <==> a * n <= b * m
    ensures a as real / m as real < b as real / n as real <==> a * n < b * m
  {
    var x, y := a as real / m as real, b as real / n as real;
    assert x * m as real == a as real && y * n as real == b as real;
    assert (a * n) as real == x * m as real * n as real && (b * m) as real == y * n as real * m as real;
    Scaled(x, y, m as real * n as real);
  }

  lemma Scaled(x: real, y: real, c: real)
    requires c > 0.0
    ensures x <= y <==> x * c <= y * c
    ensures x < y <==> x * c < y * c
  {
  }

  lemma {:induction false} EvictedByRate(e: Env, pool: seq<Entry>, t: Tx, now: Instant, x: Entry, y: Entry)
    requires Distinct(HashesOf(pool)) && Admit(e, pool, t, now).Added? && x in pool && y in pool
    requires x !in Admit(e, pool, t, now).pool && y in Admit(e, pool, t, now).pool
    ensures FeeRate(e, x.tx) <= FeeRate(e, y.tx) && FeeRate(e, x.tx) < FeeRate(e, t)
  {
    var overflow := SumSizes(e, pool) + TxSize(e, t) - MEMPOOL_MAX_BYTES;
    hide SortBy, EvictCount, SumSizes, FeeRate, HashesOf, Filter;
    if overflow > 0 {
      var k := EvictedFor(e, pool, t);
      EvictCountMeaning(e, SortBy(pool, RateKey(e)), overflow, FeeRate(e, t), 0);
      AdmitByCount(e, pool, t, now);
      hide Admit, EvictedFor;
      OldEntry(pool, TxHash(e, t), y);
      KeptByHash(pool, HashesOf(SortBy(pool, RateKey(e))[..k]), x);
      KeptByHash(pool, HashesOf(SortBy(pool, RateKey(e))[..k]), y);
      hide Holds;
      EvictedBefore(e, pool, k, x, y);
    }
  }

  lemma OldEntry(pool: seq<Entry>, h: Hash, y: Entry)
    requires !Holds(pool, h) && y in pool
    ensures y.hash != h
  {
    HashesContain(pool);
    var n :| 0 <= n < |pool| && pool[n] == y;
    assert HashesOf(pool)[n] == y.hash;
  }

  lemma {:induction false} KeptByHash(pool: seq<Entry>, gone: seq<Hash>, x: Entry)
    requires x in pool
    ensures x in Filter(pool, NoneOf(gone)) <==> x.hash !in gone
  {
    assert NoneOf(gone)(x) <==> x.hash !in gone;
  }

  /** What goes among the first k of the sorted pool pays no better than what stays. */
  lemma {:induction false} EvictedBefore(e: Env, pool: seq<Entry>, k: nat, x: Entry, y: Entry)
    requires Distinct(HashesOf(pool)) && x in pool && y in pool && k <= |SortBy(pool, RateKey(e))|
    requires
      var gone := HashesOf(SortBy(pool, RateKey(e))[..k]);
      x.hash in gone && y.hash !in gone
    ensures FeeRate(e, x.tx) <= FeeRate(e, y.tx)
    ensures exists i :: 0 <= i < k && SortBy(pool, RateKey(e))[i] == x
  {
    var worst := SortBy(pool, RateKey(e));
    SortByIsSort(pool, RateKey(e));
    hide SortBy, FeeRate, HashesOf;
    var i := PlaceInSorted(pool, RateKey(e), x);
    var j := PlaceInSorted(pool, RateKey(e), y);
    assert i < k <= j;
    assert RateKey(e)(worst[i]) <= RateKey(e)(worst[j]);
  }

  lemma {:induction false} HoldsFilter(e: Env, pool: seq<Entry>, gone: seq<Hash>)
    ensures forall h :: Holds(Filter(pool, NoneOf(gone)), h) <==> Holds(pool, h) && h !in gone
    ensures SumSizes(e, Filter(pool, NoneOf(gone))) <= SumSizes(e, pool)
  {
    if pool != [] {
      FilterFirst(pool, NoneOf(gone));
      hide Filter;
      var rest := Filter(pool[1..], NoneOf(gone));
      HoldsFilter(e, pool[1..], gone);
      assert pool == [pool[0]] + pool[1..] && [] + rest == rest;
      HoldsFirst(e, pool[0], pool[1..]);
      HoldsFirst(e, pool[0], rest);
      hide Holds, SumSizes;
    }
  }

  lemma {:induction false} HoldsFirst(e: Env, x: Entry, rest: seq<Entry>)
    ensures forall h :: Holds([x] + rest, h) <==> x.hash == h || Holds(rest, h)
    ensures SumSizes(e, [x] + rest) == TxSize(e, x.tx) + SumSizes(e, rest)
  {
    assert ([x] + rest)[1..] == rest;
  }

  /** Whatever add answers, the pool stays keyed and within the cap. */
  lemma {:induction false} AdmissionKeepsCap(e: Env, pool: seq<Entry>, t: Tx, now: Instant)
    requires Keyed(e, pool) && SumSizes(e, pool) <= MEMPOOL_MAX_BYTES
    requires Admit(e, pool, t, now).Added?
    ensures var r := Admit(e, pool, t, now).pool;
      Keyed(e, r) && SumSizes(e, r) <= MEMPOOL_MAX_BYTES && r[|r| - 1] == Entry(TxHash(e, t), t, now)
  {
    hide SortBy, EvictCount, Filter, HashesOf, Distinct;
    var overflow := SumSizes(e, pool) + TxSize(e, t) - MEMPOOL_MAX_BYTES;
    if overflow <= 0 {
      AppendKeepsKeyed(e, pool, t, now);
    } else {
      var worst := SortBy(pool, RateKey(e));
      var evicted := HashesOf(worst[..EvictCount(e, worst, overflow, FeeRate(e, t), 0)]);
      EvictionFrees(e, pool, worst, EvictCount(e, worst, overflow, FeeRate(e, t), 0));
      HashesOfFilter(pool, NoneOf(evicted));
      KeyedFilter(e, pool, NoneOf(evicted));
      AppendKeepsKeyed(e, Filter(pool, NoneOf(evicted)), t, now);
    }
  }

  lemma AddedHolds(e: Env, pool: seq<Entry>, t: Tx, now: Instant)
    ensures
      var r := Admit(e, pool, t, now);
      r.Added? ==> !Holds(pool, TxHash(e, t)) && Holds(r.pool, TxHash(e, t))
  {
    var r := Admit(e, pool, t, now);
    if r.Added? {
      var kept := r.pool[..|r.pool| - 1];
      var x := Entry(TxHash(e, t), t, now);
      assert r.pool == kept + [x];
      HashesConcat(kept, [x]);
      assert HashesOf([x]) == [x.hash] + HashesOf([]);
      assert x.hash in HashesOf(kept) + [x.hash];
    }
  }

  /** prune_stale's test: superseded on chain, or too old. */
  function Stale(l: Ledger, now: Instant, ttl: Instant): Entry -> bool {
    (x: Entry) => x.tx.nonce <= l.Nonce(x.tx.from) || now - x.entered > ttl
  }

  function Fresh(l: Ledger, now: Instant, ttl: Instant): Entry -> bool {
    (x: Entry) => x.tx.nonce > l.Nonce(x.tx.from) && now - x.entered <= ttl
  }

  lemma {:induction false} PruneKeepsFresh(pool: seq<Entry>, l: Ledger, now: Instant, ttl: Instant)
    requires Distinct(HashesOf(pool))
    ensures Filter(pool, NoneOf(HashesOf(Filter(pool, Stale(l, now, ttl))))) == Filter(pool, Fresh(l, now, ttl))
  {
    var keep := NoneOf(HashesOf(Filter(pool, Stale(l, now, ttl))));
    forall x | x in pool ensures keep(x) <==> Fresh(l, now, ttl)(x) {
      PruneTakesStale(pool, l, now, ttl, x);
    }
    FilterSame(pool, keep, Fresh(l, now, ttl));
  }

  lemma {:induction false} PruneTakesStale(pool: seq<Entry>, l: Ledger, now: Instant, ttl: Instant, x: Entry)
    requires Distinct(HashesOf(pool)) && x in pool
    ensures x.hash in HashesOf(Filter(pool, Stale(l, now, ttl))) <==> Stale(l, now, ttl)(x)
  {
    var stale := Filter(pool, Stale(l, now, ttl));
    hide Filter, HashesOf;
    HashesContain(stale);
    HashesContain(pool);
    var i :| 0 <= i < |pool| && pool[i] == x;
    if x.hash in HashesOf(stale) {
      var k :| 0 <= k < |stale| && stale[k].hash == x.hash;
      assert stale[k] in pool;
      var j :| 0 <= j < |pool| && pool[j] == stale[k];
      assert HashesOf(pool)[i] == HashesOf(pool)[j];
    }
    if Stale(l, now, ttl)(x) {
      assert x in stale;
    }
  }

  lemma {:induction false} FilterSame<T>(s: seq<T>, p: T -> bool, q: T -> bool)
    requires forall x :: x in s ==> (p(x) <==> q(x))
    ensures Filter(s, p) == Filter(s, q)
  {
    if s != [] {
      FilterSame(s[1..], p, q);
    }
  }

  // ------------------------------------------------------------------------- the Mempool object

  class Mempool {
    const env: Env
    var pool: seq<Entry>
    var totalBytes: int

    /** The byte counter is the sum of the sizes held, and within the cap. */
    ghost predicate Valid()
      reads this
    {
      Keyed(env, pool) && totalBytes == SumSizes(env, pool) && totalBytes <= MEMPOOL_MAX_BYTES
    }

    constructor (env: Env)
      ensures Valid() && pool == [] && this.env == env
    {
      this.env := env;
      pool, totalBytes := [], 0;
    }

    /** remove: pop, and give the bytes back. */
    method Remove(h: Hash)
      requires Valid()
      modifies this
      ensures Valid() && pool == Filter(old(pool), Other(h))
    {
      HashesContain(pool);
      KeyedFilter(env, pool, Other(h));
      if Holds(pool, h) {
        var i: nat :| i < |pool| && pool[i].hash == h;
        SumRemoveOne(env, pool, i);
        var entry := pool[i];
        pool := Filter(pool, Other(h));
        totalBytes := totalBytes - TxSize(env, entry.tx);
      } else {
        RemoveAbsent(pool, h);
      }
    }

    method RemoveMany(hs: seq<Hash>)
      requires Valid()
      modifies this
      ensures Valid() && pool == Filter(old(pool), NoneOf(hs))
    {
      FilterAll(pool, NoneOf(hs[..0]));
      var i := 0;
      while i < |hs|
        invariant 0 <= i <= |hs|
        invariant Valid() && pool == Filter(old(pool), NoneOf(hs[..i]))
      {
        RemoveNext(old(pool), hs, i);
        Remove(hs[i]);
        i := i + 1;
      }
      assert hs[..i] == hs;
    }

    /** The eviction loop of add: the hashes to evict and the bytes they free. */
    method ChooseEvictions(overflow: int, rate: real) returns (toEvict: seq<Hash>, freed: int)
      ensures var worst := SortBy(pool, RateKey(env));
        var k := EvictCount(env, worst, overflow, rate, 0);
        toEvict == HashesOf(worst[..k]) && freed == SumSizes(env, worst[..k])
    {
      var byWorstFirst := SortBy(pool, RateKey(env));
      EvictNothing(env, byWorstFirst, overflow, rate);
      hide Evicting, SortBy, HashesOf, SumSizes, EvictCount;
      toEvict, freed := [], 0;
      var k := 0;
      while k < |byWorstFirst| && freed < overflow && FeeRate(env, byWorstFirst[k].tx) < rate
        invariant 0 <= k <= |byWorstFirst|
        invariant Evicting(env, byWorstFirst, overflow, rate, k, toEvict, freed)
      {
        EvictNext(env, byWorstFirst, overflow, rate, k, toEvict, freed);
        toEvict := toEvict + [byWorstFirst[k].hash];
        freed := freed + TxSize(env, byWorstFirst[k].tx);
        k := k + 1;
      }
      EvictEnd(env, byWorstFirst, overflow, rate, k, toEvict, freed);
    }

    /** add. */
    method Add(t: Tx, now: Instant) returns (r: Admission)
      requires Valid()
      modifies this
      ensures Valid()
      ensures r == Admit(env, old(pool), t, now)
      ensures pool == if r.Added? then r.pool else old(pool)
    {
      hide SortBy, EvictCount, Filter, Keyed, HashesOf;
      var h := TxHash(env, t);
      if Holds(pool, h) {
        return Duplicate;
      }
      var size := TxSize(env, t);
      var overflow := totalBytes + size - MEMPOOL_MAX_BYTES;
      var toEvict: seq<Hash> := [];
      if overflow > 0 {
        var freed;
        toEvict, freed := ChooseEvictions(overflow, FeeRate(env, t));
        if freed < overflow {
          return Full;
        }
      }
      AddedIs(env, pool, t, now, toEvict, overflow);
      AdmissionKeepsCap(env, pool, t, now);
      RemoveMany(toEvict);
      SumConcat(env, pool, [Entry(h, t, now)]);
      assert SumSizes(env, [Entry(h, t, now)]) == size + SumSizes(env, []);
      pool := pool + [Entry(h, t, now)];
      totalBytes := totalBytes + size;
      r := Added(pool);
    }

    /** prune_stale; returns the pruned hashes. */
    method PruneStale(l: Ledger, now: Instant, ttl: Instant) returns (pruned: seq<Hash>)
      requires Valid()
      modifies this
      ensures Valid() && pool == Filter(old(pool), Fresh(l, now, ttl))
      ensures pruned == HashesOf(Filter(old(pool), Stale(l, now, ttl)))
      ensures forall x :: x in pool <==>
        x in old(pool) && x.tx.nonce > l.Nonce(x.tx.from) && now - x.entered <= ttl
    {
      PruneKeepsFresh(pool, l, now, ttl);
      pruned := HashesOf(Filter(pool, Stale(l, now, ttl)));
      RemoveMany(pruned);
    }

    /** probe_state_for: the sender's pending transactions applied in nonce order; it raises where
        apply_tx does. */
    method ProbeStateFor(a: Address, l: Ledger) returns (probe: Attempt)
      ensures probe == ReplayTxs(l, Group(TxsOf(pool), a))
    {
      var pending := Group(TxsOf(pool), a);
      var state := l;
      var i := 0;
      while i < |pending|
        invariant 0 <= i <= |pending|
        invariant ReplayTxs(l, pending) == ReplayTxs(state, pending[i..])
      {
        var applied := ApplyTx(state, pending[i]);
        if applied.Raised? {
          return applied;
        }
        state := applied.ledger;
        i := i + 1;
      }
      return Done(state);
    }
  }

  /** The eviction loop after k entries. */
  ghost predicate Evicting(e: Env, worst: seq<Entry>, overflow: int, rate: real, k: nat, toEvict: seq<Hash>,
                           freed: int) {
    && k <= |worst| && toEvict == HashesOf(worst[..k]) && freed == SumSizes(e, worst[..k])
    && EvictCount(e, worst, overflow, rate, 0) == k + EvictCount(e, worst[k..], overflow, rate, freed)
  }

  lemma EvictNothing(e: Env, worst: seq<Entry>, overflow: int, rate: real)
    ensures Evicting(e, worst, overflow, rate, 0, [], 0)
  {
    assert HashesOf(worst[..0]) == [] && SumSizes(e, worst[..0]) == 0;
    assert worst[0..] == worst;
  }

  lemma EvictNext(e: Env, worst: seq<Entry>, overflow: int, rate: real, k: nat, toEvict: seq<Hash>, freed: int)
    requires Evicting(e, worst, overflow, rate, k, toEvict, freed)
    requires k < |worst| && freed < overflow && FeeRate(e, worst[k].tx) < rate
    ensures Evicting(e, worst, overflow, rate, k + 1, toEvict + [worst[k].hash], freed + TxSize(e, worst[k].tx))
  {
    hide TxSize, FeeRate;
    EvictOneMore(e, worst, k);
    assert worst[k..][0] == worst[k] && worst[k..][1..] == worst[k + 1..];
    hide HashesOf, SumSizes;
  }

  lemma {:induction false} EvictEnd(e: Env, worst: seq<Entry>, overflow: int, rate: real, k: nat, toEvict: seq<Hash>,
                                    freed: int)
    requires Evicting(e, worst, overflow, rate, k, toEvict, freed)
    requires k < |worst| && freed < overflow ==> FeeRate(e, worst[k].tx) >= rate
    ensures EvictCount(e, worst, overflow, rate, 0) == k
    ensures toEvict == HashesOf(worst[..k]) && freed == SumSizes(e, worst[..k])
  {
  }

  lemma {:induction false} EvictOneMore(e: Env, s: seq<Entry>, k: nat)
    requires k < |s|
    ensures HashesOf(s[..k + 1]) == HashesOf(s[..k]) + [s[k].hash]
    ensures SumSizes(e, s[..k + 1]) == SumSizes(e, s[..k]) + TxSize(e, s[k].tx)
  {
    assert s[..k + 1] == s[..k] + [s[k]];
    HashesConcat(s[..k], [s[k]]);
    SumConcat(e, s[..k], [s[k]]);
    assert HashesOf([s[k]]) == [s[k].hash] + HashesOf([]);
    assert SumSizes(e, [s[k]]) == TxSize(e, s[k].tx) + SumSizes(e, []);
  }

  lemma {:induction false} AddedIs(e: Env, pool: seq<Entry>, t: Tx, now: Instant, toEvict: seq<Hash>, overflow: int)
    requires !Holds(pool, TxHash(e, t)) && overflow == SumSizes(e, pool) + TxSize(e, t) - MEMPOOL_MAX_BYTES
    requires overflow <= 0 ==> toEvict == []
    requires overflow > 0 ==>
      var worst := SortBy(pool, RateKey(e));
      var k := EvictCount(e, worst, overflow, FeeRate(e, t), 0);
      SumSizes(e, worst[..k]) >= overflow && toEvict == HashesOf(worst[..k])
    ensures Admit(e, pool, t, now) == Added(Filter(pool, NoneOf(toEvict)) + [Entry(TxHash(e, t), t, now)])
  {
    hide SortBy, EvictCount, SumSizes, HashesOf, Holds;
    if overflow <= 0 {
      AddedWithRoom(e, pool, t, now);
    } else {
      AdmitByCount(e, pool, t, now);
      hide Admit, Filter;
    }
  }

  lemma {:induction false} AddedWithRoom(e: Env, pool: seq<Entry>, t: Tx, now: Instant)
    requires !Holds(pool, TxHash(e, t)) && SumSizes(e, pool) + TxSize(e, t) <= MEMPOOL_MAX_BYTES
    ensures Admit(e, pool, t, now) == Added(Filter(pool, NoneOf([])) + [Entry(TxHash(e, t), t, now)])
  {
    FilterAll(pool, NoneOf([]));
    hide Filter, SumSizes, Holds, SortBy, EvictCount;
  }
}
