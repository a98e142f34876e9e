/** Sharding in src/store/KvStore.cpp: the key hash, the power-of-two mask, and the shards as one map. */
module Shards {
  import opened ByteStrings

  datatype Entry = Entry(value: bytes, deadline: int)  // a negative deadline means none

  type Table = map<bytes, Entry>

  // ---- unsigned machine arithmetic on naturals ----

  function BitAnd(a: nat, b: nat): nat {
    if a == 0 || b == 0 then 0 else 2 * BitAnd(a / 2, b / 2) + (a % 2) * (b % 2)
  }

  function BitXor(a: nat, b: nat): nat {
    if a == 0 then b else if b == 0 then a else 2 * BitXor(a / 2, b / 2) + (a % 2 + b % 2) % 2
  }

  const WORD: nat := 0x1_0000_0000_0000_0000

  /** DJB2 with exclusive or, in 64 bits that wrap around. */
  function HashFrom(h: nat, key: bytes): nat
    decreases |key|
  {
    if key == [] then h else HashFrom(BitXor((h * 32 % WORD + h) % WORD, key[0]), key[1..])
  }

  function Hash(key: bytes): nat { HashFrom(5381, key) }

  /** The constructor's test on the number of shards. */
  predicate PowerOfTwo(n: nat) { n > 0 && BitAnd(n, n - 1) == 0 }

  function ShardIndex(key: bytes, n: nat): nat
    requires n > 0
  {
    BitAnd(Hash(key), n - 1)
  }

  method ComputeShardIndex(key: bytes, n: nat) returns (index: nat)
    requires n > 0
    ensures index == ShardIndex(key, n)
  {
    var h: nat := 5381;
    assert key[0..] == key;
    for i := 0 to |key|
      invariant HashFrom(h, key[i..]) == Hash(key)
    {
      assert key[i..][1..] == key[i + 1..];
      h := BitXor((h * 32 % WORD + h) % WORD, key[i]);
    }
    index := BitAnd(h, n - 1);
  }

  lemma AndUnfolds(a: nat, b: nat)
    ensures BitAnd(a, b) == if a == 0 || b == 0 then 0 else 2 * BitAnd(a / 2, b / 2) + (a % 2) * (b % 2)
  {
  }

  lemma {:induction false} AndSelf(n: nat)
    ensures BitAnd(n, n) == n
  {
    hide BitAnd;
    AndUnfolds(n, n);
    if n > 0 {
      AndSelf(n / 2);
      var bit := n % 2;
      assert bit * bit == bit by {
        assert bit == 0 || bit == 1;
      }
    }
  }

  lemma OddIsNoPower(m: nat)
    requires m > 0
    ensures BitAnd(2 * m + 1, 2 * m) == 2 * m
  {
    AndSelf(m);
    assert (2 * m + 1) / 2 == m && (2 * m) / 2 == m && (2 * m) % 2 == 0;
  }

  lemma HalvesMod(h: nat, m: nat)
    requires m > 0
    ensures h % (2 * m) == 2 * ((h / 2) % m) + h % 2
  {
    var q, r := h / 2 / m, (h / 2) % m;
    assert h / 2 == q * m + r;
    assert h == (2 * m) * q + (2 * r + h % 2) by {
      assert (2 * m) * q == 2 * (q * m);
    }
    UniqueRemainder(h, 2 * m, q, 2 * r + h % 2);
  }

  lemma UniqueRemainder(h: nat, d: nat, q: nat, r: nat)
    requires r < d && h == d * q + r
    ensures h % d == r
  {
    assert d * (h / d) + h % d == d * q + r;
    MultipleGap(d, q, h / d);
    MultipleGap(d, h / d, q);
  }

  lemma {:induction false} MultipleGap(d: nat, a: nat, b: nat)
    ensures a < b ==> d * a + d <= d * b
    decreases b
  {
    if a < b {
      MultipleGap(d, a, b - 1);
      assert d * b == d * (b - 1) + d;
    }
  }

  lemma AndStep(h: nat, m: nat)
    requires m > 0
    ensures BitAnd(h, 2 * m - 1) == 2 * BitAnd(h / 2, m - 1) + h % 2
  {
    assert (2 * m - 1) / 2 == m - 1 && (2 * m - 1) % 2 == 1;
  }

  /** For every count the constructor accepts, masking the hash is taking it modulo the count. */
  lemma {:induction false} MaskIsModulo(h: nat, n: nat)
    requires PowerOfTwo(n)
    ensures BitAnd(h, n - 1) == h % n
    decreases n
  {
    if n > 1 {
      var m := n / 2;
      if n == 2 * m + 1 {
        OddIsNoPower(m);
      } else {
        assert BitAnd(n, n - 1) == 2 * BitAnd(m, m - 1) by {
          AndStep(n, m);
        }
        MaskIsModulo(h / 2, m);
        AndStep(h, m);
        HalvesMod(h, m);
      }
    }
  }

  lemma IndexInRange(key: bytes, n: nat)
    requires PowerOfTwo(n)
    ensures ShardIndex(key, n) < n && ShardIndex(key, n) == Hash(key) % n
  {
    MaskIsModulo(Hash(key), n);
  }

  function PowerOf2(e: nat): nat { if e == 0 then 1 else 2 * PowerOf2(e - 1) }

  lemma {:induction false} PowersPass(e: nat)
    ensures PowerOf2(e) > 0 && PowerOfTwo(PowerOf2(e))
  {
    hide BitAnd;
    if e == 0 {
      AndUnfolds(1, 0);
    } else {
      var m := PowerOf2(e - 1);
      PowersPass(e - 1);
      AndStep(2 * m, m);
    }
  }

  /** The constructor's test passes the powers of two and nothing else. */
  lemma {:induction false} OnlyPowersPass(n: nat)
    ensures PowerOfTwo(n) <==> exists e: nat :: n == PowerOf2(e)
    decreases n
  {
    if e: nat :| n == PowerOf2(e) {
      PowersPass(e);
    }
    if PowerOfTwo(n) {
      var e := HalveDown(n);
    }
  }

  lemma {:induction false} HalveDown(n: nat) returns (e: nat)
    requires PowerOfTwo(n)
    ensures n == PowerOf2(e)
    decreases n
  {
    hide BitAnd;
    if n == 1 {
      e := 0;
    } else {
      var m := n / 2;
      if n == 2 * m + 1 {
        OddIsNoPower(m);
        assert false;
      }
      AndStep(n, m);
      var half := HalveDown(m);
      e := half + 1;
    }
  }

  /** The hash is that of the source: it starts at 5381, and each byte is mixed into 33 times what was before. */
  lemma HashBegins()
    ensures Hash([]) == 5381 && Hash([97]) == 177604
  {
    assert (5381 * 32 % WORD + 5381) % WORD == 177573;
    assert BitXor(1, 0) == 1 && BitXor(2, 0) == 2;
    assert 177573 / 2 == 88786 && 88786 / 2 == 44393 && 44393 / 2 == 22196 && 22196 / 2 == 11098;
    assert 11098 / 2 == 5549 && 5549 / 2 == 2774 && 2774 / 2 == 1387;
    assert BitXor(1387, 0) == 1387;
    assert BitXor(2774, 1) == 2775;
    assert BitXor(5549, 3) == 5550;
    assert BitXor(11098, 6) == 11100;
    assert BitXor(22196, 12) == 22200;
    assert BitXor(44393, 24) == 44401;
    assert BitXor(88786, 48) == 88802;
    assert BitXor(177573, 97) == 177604;
    assert [97][1..] == [];
  }

  /** And it wraps around at 64 bits. */
  lemma HashWraps()
    ensures HashFrom(9223372036854775809, [0]) == 9223372036854775841
  {
    assert 9223372036854775809 * 32 % 18446744073709551616 == 32;
    assert [0][1..] == [];
  }

  // ---- the shards as one map ----

  /** Each key lives only in the shard its hash names, and the constructor accepted the count. */
  predicate Placed(shards: seq<Table>) {
    && PowerOfTwo(|shards|)
    && forall i, k :: 0 <= i < |shards| && k in shards[i] ==> ShardIndex(k, |shards|) == i
  }

  function Find(shards: seq<Table>, k: bytes): Option<Entry>
    requires Placed(shards)
  {
    IndexInRange(k, |shards|);
    var shard := shards[ShardIndex(k, |shards|)];
    if k in shard then Some(shard[k]) else None
  }

  function Put(shards: seq<Table>, k: bytes, e: Entry): seq<Table>
    requires Placed(shards)
  {
    IndexInRange(k, |shards|);
    var i := ShardIndex(k, |shards|);
    shards[i := shards[i][k := e]]
  }

  function Erase(shards: seq<Table>, k: bytes): seq<Table>
    requires Placed(shards)
  {
    IndexInRange(k, |shards|);
    var i := ShardIndex(k, |shards|);
    shards[i := shards[i] - {k}]
  }

  function Keys(shards: seq<Table>): set<bytes> {
    set i, k | 0 <= i < |shards| && k in shards[i] :: k
  }

  /** The single map that the shards stand for. */
  function Union(shards: seq<Table>): Table
    requires Placed(shards)
  {
    map k | k in Keys(shards) :: shards[ShardIndex(k, |shards|)][k]
  }

  /** A lookup in the right shard is a lookup in the single map. */
  lemma FindIsLookup(shards: seq<Table>, k: bytes)
    requires Placed(shards)
    ensures Find(shards, k) == if k in Union(shards) then Some(Union(shards)[k]) else None
  {
    hide ShardIndex, PowerOfTwo;
    IndexInRange(k, |shards|);
    var shard := shards[ShardIndex(k, |shards|)];
    assert k in shard ==> k in Keys(shards);
  }

  /** A store in the right shard is a store in the single map; placement is kept. */
  lemma PutIsUpdate(shards: seq<Table>, k: bytes, e: Entry)
    requires Placed(shards)
    ensures Placed(Put(shards, k, e)) && |Put(shards, k, e)| == |shards|
    ensures Union(Put(shards, k, e)) == Union(shards)[k := e]
  {
    hide ShardIndex, PowerOfTwo;
    IndexInRange(k, |shards|);
    var i, after := ShardIndex(k, |shards|), Put(shards, k, e);
    assert forall j :: 0 <= j < |shards| && j != i ==> after[j] == shards[j];
    assert after[i] == shards[i][k := e];
    forall x
      ensures x in Keys(after) <==> x in Keys(shards) || x == k
    {
      if x in Keys(shards) {
        var j :| 0 <= j < |shards| && x in shards[j];
        assert x in after[j];
      }
      assert k in after[i];
    }
  }

  lemma EraseKeys(shards: seq<Table>, k: bytes, x: bytes)
    requires Placed(shards)
    ensures x in Keys(Erase(shards, k)) <==> x in Keys(shards) && x != k
  {
    hide ShardIndex, PowerOfTwo;
    IndexInRange(k, |shards|);
    var i, after := ShardIndex(k, |shards|), Erase(shards, k);
    assert forall j :: 0 <= j < |shards| && j != i ==> after[j] == shards[j];
    assert after[i] == shards[i] - {k};
    if x in Keys(shards) && x != k {
      var j :| 0 <= j < |shards| && x in shards[j];
      assert x in after[j];
    }
    if x in Keys(after) {
      var j :| 0 <= j < |after| && x in after[j];
      assert x in shards[j] && ShardIndex(x, |shards|) == j;
    }
  }

  lemma EraseIsRemoval(shards: seq<Table>, k: bytes)
    requires Placed(shards)
    ensures Placed(Erase(shards, k)) && |Erase(shards, k)| == |shards|
    ensures Union(Erase(shards, k)) == Union(shards) - {k}
  {
    hide ShardIndex, PowerOfTwo, Keys;
    IndexInRange(k, |shards|);
    var i, after := ShardIndex(k, |shards|), Erase(shards, k);
    assert forall j :: 0 <= j < |shards| && j != i ==> after[j] == shards[j];
    assert after[i] == shards[i] - {k};
    EraseKeepsPlace(shards, k);
    forall x
      ensures x in Union(after) <==> x in Union(shards) && x != k
      ensures x in Union(after) ==> Union(after)[x] == Union(shards)[x]
    {
      EraseKeys(shards, k, x);
      if x in Keys(after) {
        KeyInItsShard(shards, x);
      }
    }
  }

  lemma EraseKeepsPlace(shards: seq<Table>, k: bytes)
    requires Placed(shards)
    ensures Placed(Erase(shards, k))
  {
    hide ShardIndex, PowerOfTwo;
    IndexInRange(k, |shards|);
  }

  lemma KeyInItsShard(shards: seq<Table>, x: bytes)
    requires Placed(shards) && x in Keys(shards)
    ensures ShardIndex(x, |shards|) < |shards| && x in shards[ShardIndex(x, |shards|)]
  {
    hide ShardIndex, PowerOfTwo;
    IndexInRange(x, |shards|);
  }

  // ---- count ----

  /** Visible at `now`: no deadline, or one that lies ahead. */
  predicate Live(e: Entry, now: int) { e.deadline < 0 || now < e.deadline }

  function LiveKeys(m: Table, now: int): set<bytes> {
    set k | k in m && Live(m[k], now)
  }

  method CountShard(m: Table, now: int) returns (total: nat)
    ensures total == |LiveKeys(m, now)|
  {
    total := 0;
    var keys := m.Keys;
    ghost var seen: set<bytes> := {};
    while keys != {}
      invariant keys <= m.Keys && seen == m.Keys - keys
      invariant total == |set k | k in seen && Live(m[k], now)|
      decreases keys
    {
      var k :| k in keys;
      ghost var before := set x | x in seen && Live(m[x], now);
      ghost var after := set x | x in seen + {k} && Live(m[x], now);
      if Live(m[k], now) {
        assert after == before + {k};
        total := total + 1;
      } else {
        assert after == before;
      }
      keys := keys - {k};
      seen := seen + {k};
    }
    assert (set k | k in seen && Live(m[k], now)) == LiveKeys(m, now);
  }

  /** `count`: summed over the shards, exactly the keys visible in the single map. */
  method Count(shards: seq<Table>, now: int) returns (total: nat)
    requires Placed(shards)
    ensures total == |LiveKeys(Union(shards), now)|
  {
    hide ShardIndex, PowerOfTwo;
    total := 0;
    ghost var counted: set<bytes> := {};
    for i := 0 to |shards|
      invariant forall k :: k in counted <==> exists j :: 0 <= j < i && k in LiveKeys(shards[j], now)
      invariant total == |counted|
    {
      var n := CountShard(shards[i], now);
      ghost var more := LiveKeys(shards[i], now);
      assert counted !! more by {
        forall k | k in more
          ensures k !in counted
        {
          assert ShardIndex(k, |shards|) == i;
        }
      }
      counted := counted + more;
      total := total + n;
    }
    assert counted == LiveKeys(Union(shards), now) by {
      forall k
        ensures k in counted <==> k in LiveKeys(Union(shards), now)
      {
        LiveKeyIsSomewhere(shards, now, k);
      }
    }
  }

  lemma LiveKeyIsSomewhere(shards: seq<Table>, now: int, k: bytes)
    requires Placed(shards)
    ensures k in LiveKeys(Union(shards), now) <==> exists j :: 0 <= j < |shards| && k in LiveKeys(shards[j], now)
  {
    hide ShardIndex, PowerOfTwo;
    if k in LiveKeys(Union(shards), now) {
      IndexInRange(k, |shards|);
      assert k in Keys(shards);
      assert k in LiveKeys(shards[ShardIndex(k, |shards|)], now);
    }
    if j :| 0 <= j < |shards| && k in LiveKeys(shards[j], now) {
      assert k in Keys(shards) && ShardIndex(k, |shards|) == j;
    }
  }
}
