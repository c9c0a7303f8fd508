/**
Fields of database keys: numbers and slots of fixed width, which sort like their values, and how
keys made of such fields compare.
 */
module KeyLayout {
  import opened ByteStrings
  import opened Slots
  import opened Wire

  // ---------------------------------------------------------------- fixed-width numbers

  function Pow256(width: nat): (r: nat)
    ensures r > 0
  {
    if width == 0 then 1 else 256 * Pow256(width - 1)
  }

  function BigEndian(n: nat, width: nat): (r: seq<Byte>)
    requires n < Pow256(width)
    ensures |r| == width
  {
    if width == 0 then [] else BigEndian(n / 256, width - 1) + [n % 256]
  }

  lemma {:induction false} LessConcatFrom(a: Key, b: Key, c: Key, d: Key, i: nat)
    requires |a| == |b| && i <= |a| && a[..i] == b[..i]
    ensures LessFrom(a + c, b + d, i) <==> LessFrom(a, b, i) || (a == b && LessFrom(a + c, b + d, |a|))
    decreases |a| - i
  {
    if i < |a| {
      assert a[..i + 1] == a[..i] + [a[i]] && b[..i + 1] == b[..i] + [b[i]];
      if a[i] == b[i] {
        LessConcatFrom(a, b, c, d, i + 1);
      }
    } else {
      assert a == a[..i] && b == b[..i];
    }
  }

  lemma {:induction false} LessShift(a: Key, c: Key, d: Key, i: nat)
    requires i <= |c| && i <= |d|
    ensures LessFrom(a + c, a + d, |a| + i) <==> LessFrom(c, d, i)
    decreases |c| - i
  {
    if i < |c| && i < |d| {
      LessShift(a, c, d, i + 1);
    }
  }

  /** Strings made of fields compare field by field when the first fields have equal lengths. */
  lemma LessConcat(a: Key, b: Key, c: Key, d: Key)
    requires |a| == |b|
    ensures Less(a + c, b + d) <==> Less(a, b) || (a == b && Less(c, d))
  {
    LessConcatFrom(a, b, c, d, 0);
    if a == b {
      LessShift(a, c, d, 0);
    }
  }

  lemma ConcatInjective(a: Key, b: Key, c: Key, d: Key)
    requires |a| == |b| && a + c == b + d
    ensures a == b && c == d
  {
    assert a == (a + c)[..|a|] && b == (b + d)[..|b|];
    assert c == (a + c)[|a|..] && d == (b + d)[|b|..];
  }

  lemma SingleByte(x: Byte, y: Byte)
    ensures Less([x], [y]) <==> x < y
  {
    assert LessFrom([x], [y], 1) == false;
  }

  lemma {:induction false} BigEndianOrder(m: nat, n: nat, width: nat)
    requires m < Pow256(width) && n < Pow256(width)
    ensures Less(BigEndian(m, width), BigEndian(n, width)) <==> m < n
    ensures BigEndian(m, width) == BigEndian(n, width) <==> m == n
  {
    if width > 0 {
      var a, b := BigEndian(m / 256, width - 1), BigEndian(n / 256, width - 1);
      BigEndianOrder(m / 256, n / 256, width - 1);
      LessConcat(a, b, [m % 256], [n % 256]);
      SingleByte(m % 256, n % 256);
      if a + [m % 256] == b + [n % 256] {
        ConcatInjective(a, b, [m % 256], [n % 256]);
      }
    }
  }

  function FromBigEndian(bytes: seq<Byte>): (r: nat)
    ensures r < Pow256(|bytes|)
  {
    if bytes == [] then 0 else 256 * FromBigEndian(bytes[..|bytes| - 1]) + bytes[|bytes| - 1]
  }

  lemma {:induction false} BigEndianOf(bytes: seq<Byte>)
    ensures BigEndian(FromBigEndian(bytes), |bytes|) == bytes
  {
    if bytes != [] {
      BigEndianOf(bytes[..|bytes| - 1]);
    }
  }

  // ---------------------------------------------------------------- slots and addresses

  type KeySlot = s: Slot | s.period < U64_LIMIT && s.thread < 256 witness Slot(0, 0)

  function SlotKey(s: KeySlot): (r: Key)
    ensures |r| == 9
  {
    U64Width();
    BigEndian(s.period, 8) + [s.thread]
  }

  function SlotOfKey(bytes: seq<Byte>): KeySlot
    requires |bytes| == 9
  {
    U64Width();
    Slot(FromBigEndian(bytes[..8]), bytes[8])
  }

  /** Any nine bytes are the key of the slot they are decoded to. */
  lemma SlotKeyOf(bytes: seq<Byte>)
    requires |bytes| == 9
    ensures SlotKey(SlotOfKey(bytes)) == bytes
  {
    U64Width();
    BigEndianOf(bytes[..8]);
    assert bytes == bytes[..8] + [bytes[8]];
  }

  lemma U64Width()
    ensures Pow256(8) == U64_LIMIT
  {
    assert Pow256(4) == 0x1_0000_0000;
  }

  lemma SlotKeyOrder(a: KeySlot, b: KeySlot)
    ensures Less(SlotKey(a), SlotKey(b)) <==> Before(a, b)
    ensures SlotKey(a) == SlotKey(b) <==> a == b
  {
    U64Width();
    BigEndianOrder(a.period, b.period, 8);
    LessConcat(BigEndian(a.period, 8), BigEndian(b.period, 8), [a.thread], [b.thread]);
    SingleByte(a.thread, b.thread);
    if SlotKey(a) == SlotKey(b) {
      ConcatInjective(BigEndian(a.period, 8), BigEndian(b.period, 8), [a.thread], [b.thread]);
    }
  }

  const ADDRESS_LEN := 34

  /** A kind (user or smart contract) and a version, one byte each, and a hash. */
  type Address = a: Key | |a| == ADDRESS_LEN && a[0] <= 1 && a[1] == 0 witness seq(ADDRESS_LEN, _ => 0)
}
