/**
Records stored as one database entry per field: the keys of a record share a prefix and end with a
field tag, and a record is read back by concatenating the values that a prefix scan meets.
 */
module FieldStore {
  import opened ByteStrings
  import opened Columns
  import opened DbModel
  import opened KeyLayout

  /** The values of `keys`, in key order. */
  function ConcatValues(col: Column, keys: set<Key>): seq<Byte>
    requires keys <= col.Keys
    decreases |keys|
  {
    if keys == {} then []
    else
      var k := Least(keys);
      col[k] + ConcatValues(col, keys - {k})
  }

  /** Everything stored under a prefix. */
  method ReadPrefix(col: Column, prefix: Key) returns (bytes: seq<Byte>)
    ensures bytes == ConcatValues(col, PrefixKeys(col, prefix))
  {
    hide Least, StartsWith, ConcatValues;
    bytes := [];
    var rest := set k | k in col && AtMost(prefix, k);
    ScanStarts(col, prefix, rest);
    while rest != {}
      invariant rest <= col.Keys && forall k :: k in rest ==> AtMost(prefix, k)
      invariant bytes + ConcatValues(col, Under(rest, prefix)) == ConcatValues(col, PrefixKeys(col, prefix))
      decreases |rest|
    {
      var k := Least(rest);
      ScanStep(col, rest, prefix);
      if !StartsWith(k, prefix) {
        ConcatNothing(col);
        return;
      }
      bytes := bytes + col[k];
      rest := rest - {k};
    }
    assert Under(rest, prefix) == {};
    ConcatNothing(col);
  }

  function Under(keys: set<Key>, prefix: Key): set<Key> {
    set k | k in keys && StartsWith(k, prefix)
  }

  lemma ConcatNothing(col: Column)
    ensures ConcatValues(col, {}) == []
  {
  }

  lemma ScanStarts(col: Column, prefix: Key, rest: set<Key>)
    requires rest == set k | k in col && AtMost(prefix, k)
    ensures Under(rest, prefix) == PrefixKeys(col, prefix)
  {
    forall k | k in PrefixKeys(col, prefix)
      ensures k in Under(rest, prefix)
    {
      PrefixIsFirst(k, prefix);
    }
  }

  /** The least key of a scan starts with the prefix, or nothing that is left does. */
  lemma ScanStep(col: Column, rest: set<Key>, prefix: Key)
    requires rest != {} && rest <= col.Keys && forall k :: k in rest ==> AtMost(prefix, k)
    ensures var k := Least(rest);
            if StartsWith(k, prefix)
            then ConcatValues(col, Under(rest, prefix)) == col[k] + ConcatValues(col, Under(rest - {k}, prefix))
            else Under(rest, prefix) == {}
  {
    var k := Least(rest);
    if StartsWith(k, prefix) {
      KeyOrder();
      assert k in Under(rest, prefix) && Least(Under(rest, prefix)) == k;
      assert Under(rest, prefix) - {k} == Under(rest - {k}, prefix);
    } else {
      forall x | x in rest
        ensures !StartsWith(x, prefix)
      {
        BeyondPrefix(prefix, k, x);
      }
    }
  }

  // ---------------------------------------------------------------- fields

  /** The fields with tags from `lo` up to `hi`, one after the other. */
  function Fields(value: Byte -> Value, lo: nat, hi: nat): seq<Byte>
    requires hi <= 256
    decreases hi - lo
  {
    if lo >= hi then [] else value(lo) + Fields(value, lo + 1, hi)
  }

  lemma FieldsUnroll(value: Byte -> Value, lo: Byte, hi: nat)
    requires lo + 3 <= hi <= 256
    ensures Fields(value, lo, hi) == value(lo) + (value(lo + 1) + (value(lo + 2) + Fields(value, lo + 3, hi)))
  {
    assert Fields(value, lo + 1, hi) == value(lo + 1) + Fields(value, lo + 2, hi);
    assert Fields(value, lo + 2, hi) == value(lo + 2) + Fields(value, lo + 3, hi);
  }

  lemma {:induction false} FieldsSplit(value: Byte -> Value, lo: nat, mid: nat, hi: nat)
    requires lo <= mid <= hi <= 256
    ensures Fields(value, lo, hi) == Fields(value, lo, mid) + Fields(value, mid, hi)
    decreases mid - lo
  {
    if lo < mid {
      FieldsSplit(value, lo + 1, mid, hi);
      assert value(lo) + (Fields(value, lo + 1, mid) + Fields(value, mid, hi))
          == value(lo) + Fields(value, lo + 1, mid) + Fields(value, mid, hi);
    }
  }

  lemma FieldsEnd(value: Byte -> Value, hi: nat)
    requires hi <= 256
    ensures Fields(value, hi, hi) == []
  {
  }

  lemma FieldsLast(value: Byte -> Value, hi: nat)
    requires 1 <= hi <= 256
    ensures Fields(value, hi - 1, hi) == value(hi - 1)
  {
    assert Fields(value, hi, hi) == [];
  }

  function FieldKeys(prefix: Key, lo: nat, hi: nat): set<Key>
    requires hi <= 256
  {
    set t: Byte | lo <= t < hi :: prefix + [t]
  }

  /** A record whose fields are all there is under its prefix reads back in the order of its tags. */
  lemma {:induction false} ReadsFields(col: Column, prefix: Key, value: Byte -> Value, lo: nat, hi: nat)
    requires hi <= 256
    requires forall t: Byte :: lo <= t < hi ==> Get(col, prefix + [t]) == Some(value(t))
    ensures FieldKeys(prefix, lo, hi) <= col.Keys
    ensures ConcatValues(col, FieldKeys(prefix, lo, hi)) == Fields(value, lo, hi)
    decreases hi - lo
  {
    forall k | k in FieldKeys(prefix, lo, hi)
      ensures k in col
    {
      var t: Byte :| lo <= t < hi && k == prefix + [t];
      assert Get(col, prefix + [t]).Some?;
    }
    if lo >= hi {
      assert FieldKeys(prefix, lo, hi) == {};
    } else {
      ReadsFields(col, prefix, value, lo + 1, hi);
      LeastField(prefix, lo, hi);
      assert Get(col, prefix + [lo]) == Some(value(lo));
    }
  }

  lemma LeastField(prefix: Key, lo: Byte, hi: nat)
    requires lo < hi <= 256
    ensures prefix + [lo] in FieldKeys(prefix, lo, hi)
    ensures Least(FieldKeys(prefix, lo, hi)) == prefix + [lo]
    ensures FieldKeys(prefix, lo, hi) - {prefix + [lo]} == FieldKeys(prefix, lo + 1, hi)
  {
    KeyOrder();
    var keys, first := FieldKeys(prefix, lo, hi), prefix + [lo];
    assert first in keys;
    forall k | k in keys
      ensures AtMost(first, k) && (k != first ==> k in FieldKeys(prefix, lo + 1, hi))
    {
      var t: Byte :| lo <= t < hi && k == prefix + [t];
      TagOrder(prefix, lo, t);
    }
    forall k | k in FieldKeys(prefix, lo + 1, hi)
      ensures k in keys && k != first
    {
      var t: Byte :| lo + 1 <= t < hi && k == prefix + [t];
      TagOrder(prefix, lo, t);
    }
  }

  lemma TagOrder(prefix: Key, a: Byte, b: Byte)
    ensures Less(prefix + [a], prefix + [b]) <==> a < b
    ensures prefix + [a] == prefix + [b] <==> a == b
  {
    LessConcat(prefix, prefix, [a], [b]);
    LessFromIrreflexive(prefix, 0);
    SingleByte(a, b);
    assert (prefix + [a])[|prefix|] == a && (prefix + [b])[|prefix|] == b;
  }

  // ---------------------------------------------------------------- writing fields

  /** What is to be done with each field: nothing, a deletion or a new value. */
  type FieldChanges = Byte -> Option<Option<Value>>

  predicate IsFieldOf(key: Key, prefix: Key) {
    |key| == |prefix| + 1 && StartsWith(key, prefix)
  }

  function FieldAfter(batch: Changes, prefix: Key, lo: nat, hi: nat, change: FieldChanges, t: Byte)
    : Option<Option<Value>>
  {
    if lo <= t < hi && change(t).Some? then change(t) else InBatch(batch, prefix + [t])
  }

  /** `batch'` is `batch` with the fields from `lo` up to `hi` of one record changed, and nothing else. */
  ghost predicate FieldsWritten(
    batch: Changes, batch': Changes, prefix: Key, lo: nat, hi: nat, change: FieldChanges)
  {
    && (forall t: Byte :: InBatch(batch', prefix + [t]) == FieldAfter(batch, prefix, lo, hi, change, t))
    && (forall key :: !IsFieldOf(key, prefix) ==> InBatch(batch', key) == InBatch(batch, key))
  }

  lemma FieldsWrittenMore(
    batch: Changes, batch': Changes, next: Changes, prefix: Key, lo: nat, tag: Byte, change: FieldChanges)
    requires FieldsWritten(batch, batch', prefix, lo, tag, change) && lo <= tag
    requires next == if change(tag).Some? then batch'[prefix + [tag] := change(tag).value] else batch'
    ensures FieldsWritten(batch, next, prefix, lo, tag + 1, change)
  {
    forall t: Byte
      ensures InBatch(next, prefix + [t]) == FieldAfter(batch, prefix, lo, tag + 1, change, t)
    {
      assert InBatch(batch', prefix + [t]) == FieldAfter(batch, prefix, lo, tag, change, t);
      assert (prefix + [t])[|prefix|] == t && (prefix + [tag])[|prefix|] == tag;
    }
    forall key | !IsFieldOf(key, prefix)
      ensures InBatch(next, key) == InBatch(batch, key)
    {
      assert (prefix + [tag])[..|prefix|] == prefix && key != prefix + [tag];
      assert InBatch(batch', key) == InBatch(batch, key);
    }
  }

  /** Puts, deletes or leaves alone the fields of a record, one by one. */
  method WriteFields(batch: Changes, prefix: Key, lo: nat, hi: nat, change: FieldChanges) returns (batch': Changes)
    requires lo <= hi <= 256
    ensures FieldsWritten(batch, batch', prefix, lo, hi, change)
  {
    batch' := batch;
    for tag := lo to hi
      invariant FieldsWritten(batch, batch', prefix, lo, tag, change)
    {
      ghost var before := batch';
      if change(tag).Some? {
        batch' := batch'[prefix + [tag] := change(tag).value];
      }
      FieldsWrittenMore(batch, before, batch', prefix, lo, tag, change);
    }
  }

  // ---------------------------------------------------------------- going through a map

  /** A map being gone through: what has been taken and what is left. */
  ghost predicate Parted<K, V>(all: map<K, V>, taken: map<K, V>, rest: map<K, V>) {
    taken.Keys !! rest.Keys && taken + rest == all
  }

  lemma PartStarts<K, V>(all: map<K, V>)
    ensures Parted(all, map[], all)
  {
  }

  lemma PartMoves<K, V>(all: map<K, V>, taken: map<K, V>, rest: map<K, V>, k: K)
    requires Parted(all, taken, rest) && k in rest
    ensures k in all && all[k] == rest[k] && k !in taken
    ensures Parted(all, taken[k := rest[k]], rest - {k})
  {
  }

  lemma PartEnds<K, V>(all: map<K, V>, taken: map<K, V>, rest: map<K, V>)
    requires Parted(all, taken, rest) && rest == map[]
    ensures taken == all
  {
  }
}
