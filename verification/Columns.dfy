/**
Column families, batches of changes to them, the streaming cursor over a column, and the XOR
digest of a column.
 */
module Columns {
  import opened ByteStrings

  type Column = map<Key, Value>

  /** A `DBBatch`: `Some` puts a value, `None` deletes the key. */
  type Changes = map<Key, Option<Value>>

  function Get(col: Column, k: Key): (r: Option<Value>) {
    if k in col then Some(col[k]) else None
  }

  /** What a batch does to a key: nothing, a deletion or a new value. */
  function InBatch(batch: Changes, key: Key): Option<Option<Value>> {
    if key in batch then Some(batch[key]) else None
  }

  /** `after` is `col` with `changes` written over it. */
  ghost predicate Written(col: Column, changes: Changes, after: Column) {
    forall k :: Get(after, k) == if k in changes then changes[k] else Get(col, k)
  }

  lemma WrittenExists(col: Column, changes: Changes)
    ensures exists after :: Written(col, changes, after)
  {
    assert Written(col, changes,
                   map k | k in col.Keys + changes.Keys && (k !in changes || changes[k].Some?) ::
                     if k in changes then changes[k].value else col[k]);
  }

  /** The column after writing a batch atomically. */
  ghost function Apply(col: Column, changes: Changes): (after: Column)
    ensures Written(col, changes, after)
  {
    WrittenExists(col, changes);
    var after :| Written(col, changes, after);
    after
  }

  function Puts(elements: Column): (r: Changes)
    ensures r.Keys == elements.Keys
    ensures forall k :: k in elements ==> r[k] == Some(elements[k])
  {
    map k | k in elements :: Some(elements[k])
  }

  lemma SameColumn(a: Column, b: Column)
    requires forall k :: Get(a, k) == Get(b, k)
    ensures a == b
  {
    assert forall k :: k in a <==> Get(a, k).Some?;
    assert forall k :: k in b <==> Get(b, k).Some?;
    assert forall k :: k in a ==> Get(a, k) == Some(a[k]);
    assert forall k :: k in b ==> Get(b, k) == Some(b[k]);
  }

  // ---------------------------------------------------------------- streaming cursor

  datatype StreamingStep<+T> = Started | Ongoing(cursor: T) | Finished(last: Option<T>)

  type ColumnStep = StreamingStep<Key>

  /** `k` is among the keys a stream at `step` has already covered. */
  predicate Covered(step: ColumnStep, k: Key) {
    match step
    case Started => false
    case Ongoing(cursor) => AtMost(k, cursor)
    case Finished(_) => true
  }

  /** `view` is `col` restricted to the keys covered at `step`. */
  ghost predicate Restricts(col: Column, step: ColumnStep, view: Column) {
    forall k :: Get(view, k) == if Covered(step, k) then Get(col, k) else None
  }

  lemma RestrictionExists(col: Column, step: ColumnStep)
    ensures exists view :: Restricts(col, step, view)
  {
    assert Restricts(col, step, map k | k in col && Covered(step, k) :: col[k]);
  }

  /** What a client at `step` holds of a column whose full contents are `col`. */
  ghost function View(col: Column, step: ColumnStep): (view: Column)
    ensures Restricts(col, step, view)
  {
    RestrictionExists(col, step);
    var view :| Restricts(col, step, view);
    view
  }

  lemma ApplyNothing(col: Column)
    ensures Apply(col, map[]) == col
  {
    SameColumn(Apply(col, map[]), col);
  }

  lemma ApplyTwice(col: Column, first: Changes, second: Changes)
    ensures Apply(col, first + second) == Apply(Apply(col, first), second)
  {
    SameColumn(Apply(col, first + second), Apply(Apply(col, first), second));
  }

  lemma ViewNothing(col: Column)
    ensures View(col, Started) == map[]
  {
    SameColumn(View(col, Started), map[]);
  }

  lemma ViewAll(col: Column, step: ColumnStep)
    requires forall k :: k in col ==> Covered(step, k)
    ensures View(col, step) == col
  {
    SameColumn(View(col, step), col);
  }

  // ---------------------------------------------------------------- XOR digest

  const STATE_HASH_BYTES_LEN := 512

  type Digest = d: seq<bv8> | |d| == STATE_HASH_BYTES_LEN witness seq(STATE_HASH_BYTES_LEN, _ => 0)

  /** `HashXof::compute_from_tuple`, a foreign function of the key and the value. */
  type EntryHash = (Key, Value) -> Digest

  /** The digest of an empty column. */
  function InitialHash(): Digest {
    seq(STATE_HASH_BYTES_LEN, _ => 0)
  }

  function Xor(a: Digest, b: Digest): Digest {
    seq(STATE_HASH_BYTES_LEN, i requires 0 <= i < STATE_HASH_BYTES_LEN => a[i] ^ b[i])
  }

  lemma XorLaws(a: Digest, b: Digest, c: Digest)
    ensures Xor(a, b) == Xor(b, a)
    ensures Xor(Xor(a, b), c) == Xor(a, Xor(b, c))
    ensures Xor(a, a) == InitialHash()
    ensures Xor(a, InitialHash()) == a
  {
  }

  /** XOR of the entry hashes of a column, whatever the order they are taken in. */
  ghost function HashOf(h: EntryHash, col: Column): Digest
    decreases |col|
  {
    if col == map[] then InitialHash()
    else
      var k :| k in col;
      Xor(h(k, col[k]), HashOf(h, col - {k}))
  }

  lemma {:induction false} HashOfTakesAnyKey(h: EntryHash, col: Column, k: Key)
    requires k in col
    ensures HashOf(h, col) == Xor(h(k, col[k]), HashOf(h, col - {k}))
    decreases |col|
  {
    var p :| p in col && HashOf(h, col) == Xor(h(p, col[p]), HashOf(h, col - {p}));
    if p != k {
      HashOfTakesAnyKey(h, col - {p}, k);
      HashOfTakesAnyKey(h, col - {k}, p);
      assert col - {p} - {k} == col - {k} - {p};
      var rest := HashOf(h, col - {k} - {p});
      XorLaws(h(p, col[p]), h(k, col[k]), rest);
      XorLaws(h(k, col[k]), h(p, col[p]), rest);
    }
  }

  /** The digest after writing one change over a column that had `prev` at `k`. */
  function XorEntry(h: EntryHash, digest: Digest, k: Key, prev: Option<Value>, change: Option<Value>): Digest {
    var without := if prev.Some? then Xor(digest, h(k, prev.value)) else digest;
    if change.Some? then Xor(without, h(k, change.value)) else without
  }

  lemma XorEntryTracksColumn(h: EntryHash, col: Column, k: Key, change: Option<Value>)
    ensures XorEntry(h, HashOf(h, col), k, Get(col, k), change) == HashOf(h, Apply(col, map[k := change]))
  {
    var bare := col - {k};
    var without := if k in col then Xor(HashOf(h, col), h(k, col[k])) else HashOf(h, col);
    assert without == HashOf(h, bare) by {
      if k in col {
        HashOfTakesAnyKey(h, col, k);
        XorLaws(h(k, col[k]), HashOf(h, bare), h(k, col[k]));
        XorLaws(HashOf(h, bare), h(k, col[k]), h(k, col[k]));
      } else {
        assert bare == col;
      }
    }
    var after := Apply(col, map[k := change]);
    if change.Some? {
      forall x ensures Get(after - {k}, x) == Get(bare, x) {
        assert Get(after, x) == if x == k then change else Get(col, x);
      }
      SameColumn(after - {k}, bare);
      assert Get(after, k) == change;
      HashOfTakesAnyKey(h, after, k);
      XorLaws(HashOf(h, bare), h(k, change.value), InitialHash());
    } else {
      SameColumn(after, bare);
    }
  }
}
