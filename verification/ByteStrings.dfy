/**
Byte strings and the order in which the database iterates over them: RocksDB column families and
Rust's `BTreeMap<Vec<u8>, _>` both sort keys lexicographically, byte by byte, a proper prefix first.
 */
module ByteStrings {

  datatype Option<+T> = None | Some(value: T)

  datatype Result<+T, +E> = Ok(value: T) | Err(error: E)

  type Byte = b: int | 0 <= b < 256

  type Key = seq<Byte>

  type Value = seq<Byte>

  /** `a` sorts strictly before `b`, given that they agree on their first `i` bytes. */
  predicate LessFrom(a: Key, b: Key, i: nat)
    requires i <= |a| && i <= |b|
    decreases |a| - i
  {
    i < |b| && (i == |a| || a[i] < b[i] || (a[i] == b[i] && LessFrom(a, b, i + 1)))
  }

  predicate Less(a: Key, b: Key) {
    LessFrom(a, b, 0)
  }

  predicate AtMost(a: Key, b: Key) {
    a == b || Less(a, b)
  }

  lemma {:induction false} LessFromIrreflexive(a: Key, i: nat)
    requires i <= |a|
    ensures !LessFrom(a, a, i)
    decreases |a| - i
  {
    if i < |a| {
      LessFromIrreflexive(a, i + 1);
    }
  }

  lemma {:induction false} LessFromTransitive(a: Key, b: Key, c: Key, i: nat)
    requires i <= |a| && i <= |b| && i <= |c|
    requires LessFrom(a, b, i) && LessFrom(b, c, i)
    ensures LessFrom(a, c, i)
    decreases |a| - i
  {
    if i < |a| && a[i] == b[i] == c[i] {
      LessFromTransitive(a, b, c, i + 1);
    }
  }

  lemma {:induction false} LessFromTotal(a: Key, b: Key, i: nat)
    requires i <= |a| && i <= |b|
    requires a[..i] == b[..i]
    ensures LessFrom(a, b, i) || a == b || LessFrom(b, a, i)
    decreases |a| - i
  {
    if i < |a| && i < |b| && a[i] == b[i] {
      assert a[..i + 1] == a[..i] + [a[i]] && b[..i + 1] == b[..i] + [b[i]];
      LessFromTotal(a, b, i + 1);
    } else if i == |a| == |b| {
      assert a == a[..i] && b == b[..i];
    }
  }

  /** The byte order is a strict total order. */
  lemma KeyOrder()
    ensures forall a: Key :: !Less(a, a)
    ensures forall a: Key, b: Key, c: Key {:trigger Less(a, b), Less(b, c)} ::
              Less(a, b) && Less(b, c) ==> Less(a, c)
    ensures forall a: Key, b: Key {:trigger Less(a, b)} :: Less(a, b) || a == b || Less(b, a)
  {
    forall a: Key ensures !Less(a, a) {
      LessFromIrreflexive(a, 0);
    }
    forall a: Key, b: Key, c: Key | Less(a, b) && Less(b, c) ensures Less(a, c) {
      LessFromTransitive(a, b, c, 0);
    }
    forall a: Key, b: Key ensures Less(a, b) || a == b || Less(b, a) {
      LessFromTotal(a, b, 0);
    }
  }

  lemma SmallerSet<T>(a: set<T>, b: set<T>, x: T)
    requires a <= b && x in b && x !in a
    ensures |a| < |b|
  {
    assert b == a + (b - a) && |b - a| > 0;
  }

  // ---------------------------------------------------------------- prefixes

  predicate StartsWith(k: Key, prefix: Key) {
    |prefix| <= |k| && k[..|prefix|] == prefix
  }

  /** Where two strings part after a common prefix decides their order. */
  lemma {:induction false} LessFromSharedPrefix(a: Key, b: Key, i: nat, n: nat)
    requires i <= n <= |a| && n <= |b| && a[..n] == b[..n]
    ensures LessFrom(a, b, i) == LessFrom(a, b, n)
    decreases n - i
  {
    if i < n {
      assert a[i] == a[..n][i] == b[..n][i] == b[i];
      LessFromSharedPrefix(a, b, i + 1, n);
    }
  }

  /** A prefix sorts at or before everything that starts with it. */
  lemma PrefixIsFirst(k: Key, prefix: Key)
    requires StartsWith(k, prefix)
    ensures AtMost(prefix, k)
  {
    if |k| == |prefix| {
      assert k == k[..|prefix|];
    } else {
      LessFromSharedPrefix(prefix, k, 0, |prefix|);
    }
  }

  lemma {:induction false} BeyondPrefixFrom(prefix: Key, a: Key, b: Key, i: nat)
    requires i <= |prefix| && i <= |a| && i <= |b|
    requires prefix[..i] == a[..i] == b[..i]
    requires LessFrom(prefix, a, i) && LessFrom(a, b, i) && !StartsWith(a, prefix)
    ensures !StartsWith(b, prefix)
    decreases |prefix| - i
  {
    if i < |prefix| {
      assert prefix[..i + 1] == prefix[..i] + [prefix[i]];
      assert a[..i + 1] == a[..i] + [a[i]] && b[..i + 1] == b[..i] + [b[i]];
      if StartsWith(b, prefix) {
        assert b[i] == b[..|prefix|][i] == prefix[i];
        BeyondPrefixFrom(prefix, a, b, i + 1);
      }
    }
  }

  /** The keys that start with a prefix are contiguous: past the first one that does not, none does. */
  lemma BeyondPrefix(prefix: Key, a: Key, b: Key)
    requires AtMost(prefix, a) && !StartsWith(a, prefix) && AtMost(a, b)
    ensures !StartsWith(b, prefix)
  {
    if a != b && a != prefix {
      BeyondPrefixFrom(prefix, a, b, 0);
    }
  }

  ghost predicate IsLeast(keys: set<Key>, k: Key) {
    k in keys && forall x :: x in keys ==> AtMost(k, x)
  }

  ghost predicate IsGreatest(keys: set<Key>, k: Key) {
    k in keys && forall x :: x in keys ==> AtMost(x, k)
  }

  lemma {:induction false} LeastExists(keys: set<Key>)
    requires keys != {}
    ensures exists k :: IsLeast(keys, k)
  {
    KeyOrder();
    var k :| k in keys;
    if keys - {k} != {} {
      LeastExists(keys - {k});
      var least :| IsLeast(keys - {k}, least);
      var candidate := if Less(k, least) then k else least;
      assert forall x :: x in keys ==> x == k || x in keys - {k};
      assert IsLeast(keys, candidate);
    } else {
      assert keys == {k};
      assert IsLeast(keys, k);
    }
  }

  lemma {:induction false} GreatestExists(keys: set<Key>)
    requires keys != {}
    ensures exists k :: IsGreatest(keys, k)
  {
    KeyOrder();
    var k :| k in keys;
    if keys - {k} != {} {
      GreatestExists(keys - {k});
      var greatest :| IsGreatest(keys - {k}, greatest);
      var candidate := if Less(greatest, k) then k else greatest;
      assert forall x :: x in keys ==> x == k || x in keys - {k};
      assert IsGreatest(keys, candidate);
    } else {
      assert keys == {k};
      assert IsGreatest(keys, k);
    }
  }

  /** Where an ordered iterator over `keys` starts. */
  function Least(keys: set<Key>): (k: Key)
    requires keys != {}
    ensures IsLeast(keys, k)
  {
    LeastExists(keys);
    KeyOrder();
    var k :| k in keys && forall x :: x in keys ==> AtMost(k, x);
    k
  }

  /** The key of `BTreeMap::last_key_value`. */
  function Greatest(keys: set<Key>): (k: Key)
    requires keys != {}
    ensures IsGreatest(keys, k)
  {
    GreatestExists(keys);
    KeyOrder();
    var k :| k in keys && forall x :: x in keys ==> AtMost(x, k);
    k
  }
}
