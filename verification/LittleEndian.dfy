/** Bytes, numbers written in them with the lowest byte first, and the fields read back from a file. */
module LittleEndian {
  import opened Words

  type Byte = b: int | 0 <= b < 256

  type Bytes = seq<Byte>

  // ---- writing ----------------------------------------------------------------------------------

  /** The k lowest bytes of n. */
  function LE(n: nat, k: nat): (b: Bytes)
    ensures |b| == k
  {
    if k == 0 then [] else [n % 256] + LE(n / 256, k - 1)
  }

  function Value(b: Bytes): nat { if b == [] then 0 else b[0] + 256 * Value(b[1..]) }

  function Bound(k: nat): nat { if k == 0 then 1 else 256 * Bound(k - 1) }

  /** Written in enough bytes, a number is read back; and bytes are what is written for their value. */
  lemma {:induction false} ValueBack(n: nat, k: nat)
    requires n < Bound(k)
    ensures Value(LE(n, k)) == n
  {
    if k > 0 {
      ValueBack(n / 256, k - 1);
      assert LE(n, k)[1..] == LE(n / 256, k - 1);
    }
  }

  lemma {:induction false} BytesBack(b: Bytes)
    ensures Value(b) < Bound(|b|) && LE(Value(b), |b|) == b
  {
    if b != [] {
      BytesBack(b[1..]);
      assert Value(b) / 256 == Value(b[1..]) && Value(b) % 256 == b[0];
    }
  }

  lemma Bounds()
    ensures Bound(2) == 0x1_0000 && Bound(4) == TWO32 && Bound(8) == TWO64
  {
    assert Bound(4) == 256 * (256 * Bound(2));
    assert Bound(6) == 256 * (256 * Bound(4));
    assert Bound(8) == 256 * (256 * Bound(6));
  }

  // ---- reading ----------------------------------------------------------------------------------

  function U8(f: Bytes, o: nat): (n: nat)
    requires o < |f|
    ensures n < 256
  {
    f[o]
  }

  function U16(f: Bytes, o: nat): (n: nat)
    requires o + 2 <= |f|
    ensures n < 0x1_0000
  {
    U8(f, o) + 256 * U8(f, o + 1)
  }

  function U32(f: Bytes, o: nat): Word32
    requires o + 4 <= |f|
  {
    U16(f, o) + 0x1_0000 * U16(f, o + 2)
  }

  function U64(f: Bytes, o: nat): Word64
    requires o + 8 <= |f|
  {
    U32(f, o) + TWO32 * U32(f, o + 4)
  }

  lemma ValueTwo(f: Bytes, o: nat)
    requires o + 2 <= |f|
    ensures U16(f, o) == Value(f[o..o + 2])
  {
    assert f[o..o + 2] == [f[o], f[o + 1]];
    assert [f[o], f[o + 1]][1..] == [f[o + 1]] && [f[o + 1]][1..] == [];
    assert Value([f[o + 1]]) == f[o + 1];
  }

  lemma {:induction false} ValueOfBoth(a: Bytes, b: Bytes)
    ensures Value(a + b) == Value(a) + Bound(|a|) * Value(b)
  {
    if a == [] {
      assert a + b == b;
    } else {
      ValueOfBoth(a[1..], b);
      assert (a + b)[1..] == a[1..] + b;
      assert 256 * (Bound(|a| - 1) * Value(b)) == Bound(|a|) * Value(b);
    }
  }

  lemma ValueFour(f: Bytes, o: nat)
    requires o + 4 <= |f|
    ensures U32(f, o) == Value(f[o..o + 4])
  {
    Bounds();
    ValueTwo(f, o);
    ValueTwo(f, o + 2);
    ValueOfBoth(f[o..o + 2], f[o + 2..o + 4]);
    assert f[o..o + 4] == f[o..o + 2] + f[o + 2..o + 4];
  }

  lemma ValueEight(f: Bytes, o: nat)
    requires o + 8 <= |f|
    ensures U64(f, o) == Value(f[o..o + 8])
  {
    Bounds();
    ValueFour(f, o);
    ValueFour(f, o + 4);
    ValueOfBoth(f[o..o + 4], f[o + 4..o + 8]);
    assert f[o..o + 8] == f[o..o + 4] + f[o + 4..o + 8];
  }

  /** The bytes b are in the file at o. */
  predicate At(f: Bytes, o: nat, b: Bytes) { o + |b| <= |f| && f[o..o + |b|] == b }

  /** The fields of a file are read as they were written, and as nothing else. */
  lemma FieldsExactly(f: Bytes, o: nat, n: nat)
    ensures o + 2 <= |f| && n < 0x1_0000 ==> (U16(f, o) == n <==> At(f, o, LE(n, 2)))
    ensures o + 4 <= |f| && n < TWO32 ==> (U32(f, o) == n <==> At(f, o, LE(n, 4)))
    ensures o + 8 <= |f| && n < TWO64 ==> (U64(f, o) == n <==> At(f, o, LE(n, 8)))
  {
    Bounds();
    if o + 2 <= |f| && n < 0x1_0000 {
      ValueTwo(f, o);
      ValueBack(n, 2);
      BytesBack(f[o..o + 2]);
    }
    if o + 4 <= |f| && n < TWO32 {
      ValueFour(f, o);
      ValueBack(n, 4);
      BytesBack(f[o..o + 4]);
    }
    if o + 8 <= |f| && n < TWO64 {
      ValueEight(f, o);
      ValueBack(n, 8);
      BytesBack(f[o..o + 8]);
    }
  }

  /** What lies at o lies there in parts. */
  lemma AtBoth(f: Bytes, o: nat, a: Bytes, b: Bytes)
    ensures At(f, o, a + b) <==> At(f, o, a) && At(f, o + |a|, b)
  {
    var n := o + |a| + |b|;
    if n <= |f| {
      assert f[o..n] == f[o..o + |a|] + f[o + |a|..n];
      if f[o..n] == a + b {
        assert f[o..n][..|a|] == a && f[o..n][|a|..] == b;
      }
    }
  }
}
