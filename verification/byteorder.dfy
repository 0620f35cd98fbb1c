/**
 * Big-endian fixed-width integers, as the `byteorder` crate writes and reads
 * them: `write_u64::<BigEndian>`, `write_i64::<BigEndian>` and the matching
 * reads. An `i64` travels as its two's-complement bit pattern.
 */
module ByteOrder {
  import opened Base

  function Pow256(n: nat): (p: nat)
    ensures p >= 1
  {
    if n == 0 then 1 else 256 * Pow256(n - 1)
  }

  /** The unsigned value of a big-endian byte string. */
  function BeValue(s: seq<byte>): (v: nat)
    ensures v < Pow256(|s|)
  {
    if s == [] then 0 else BeValue(s[..|s| - 1]) * 256 + s[|s| - 1]
  }

  /** The `n` low-order bytes of `x`, most significant first. */
  function BeBytes(x: nat, n: nat): (s: seq<byte>)
    ensures |s| == n
  {
    if n == 0 then [] else BeBytes(x / 256, n - 1) + [x % 256]
  }

  function U64Be(x: u64): (s: seq<byte>)
    ensures |s| == 8
  {
    BeBytes(x, 8)
  }

  /** Two's complement: a negative `t` is written as `t + 2^64`. */
  function I64Be(t: i64): (s: seq<byte>)
    ensures |s| == 8
  {
    U64Be(if t >= 0 then t else t + U64_LIMIT)
  }

  /** Reads an 8-byte pattern back as an `i64`. */
  function AsI64(v: u64): i64
  {
    if v < I64_LIMIT then v else v - U64_LIMIT
  }

  lemma {:induction false} BeValueBounded(x: nat, n: nat)
    requires x < Pow256(n)
    ensures BeValue(BeBytes(x, n)) == x
  {
    if n > 0 {
      var init := BeBytes(x / 256, n - 1);
      assert x / 256 < Pow256(n - 1);
      BeValueBounded(x / 256, n - 1);
      var s := init + [x % 256];
      assert s[..|s| - 1] == init;
    }
  }

  lemma Pow256Of8()
    ensures Pow256(8) == U64_LIMIT
  {
  }

  /** The big-endian value of the `n` bytes of `b` from `pos`. */
  function BeValueAt(b: seq<byte>, pos: nat, n: nat): nat
    requires pos + n <= |b|
  {
    if n == 0 then 0 else BeValueAt(b, pos, n - 1) * 256 + b[pos + n - 1]
  }

  /** `read_u64::<BigEndian>` on the eight bytes of `b` from `pos`. */
  function U64At(b: seq<byte>, pos: nat): (v: u64)
    requires pos + 8 <= |b|
  {
    BeValueAtBound(b, pos, 8);
    Pow256Of8();
    BeValueAt(b, pos, 8)
  }

  /** Reading in place is reading the slice. */
  lemma {:induction false} BeValueAtSlice(b: seq<byte>, pos: nat, n: nat)
    requires pos + n <= |b|
    ensures BeValueAt(b, pos, n) == BeValue(b[pos..pos + n])
  {
    if n > 0 {
      BeValueAtSlice(b, pos, n - 1);
      var s := b[pos..pos + n];
      assert s[..|s| - 1] == b[pos..pos + n - 1];
    }
  }

  lemma BeValueAtBound(b: seq<byte>, pos: nat, n: nat)
    requires pos + n <= |b|
    ensures BeValueAt(b, pos, n) < Pow256(n)
  {
    BeValueAtSlice(b, pos, n);
  }

  /** The eight-byte read is the big-endian value of the bytes. */
  lemma U64AtValue(s: seq<byte>)
    requires |s| == 8
    ensures U64At(s, 0) == BeValue(s)
  {
    BeValueAtSlice(s, 0, 8);
    assert s[0..8] == s;
  }

  /** `s` occurs in `b` from position `pos` on. */
  predicate BytesAt(b: seq<byte>, pos: nat, s: seq<byte>)
  {
    pos + |s| <= |b| && forall i | 0 <= i < |s| :: b[pos + i] == s[i]
  }

  /** Every sequence occurs in itself from its start. */
  lemma Whole(b: seq<byte>)
    ensures BytesAt(b, 0, b)
  {
  }

  /** `s + t` occurs at `pos` exactly when `s` does and `t` follows it. */
  lemma BytesAtAppend(b: seq<byte>, pos: nat, s: seq<byte>, t: seq<byte>)
    ensures BytesAt(b, pos, s + t) <==> BytesAt(b, pos, s) && BytesAt(b, pos + |s|, t)
  {
    if BytesAt(b, pos, s + t) {
      forall i | 0 <= i < |s| ensures b[pos + i] == s[i] {
        assert (s + t)[i] == s[i];
      }
      forall j | 0 <= j < |t| ensures b[pos + |s| + j] == t[j] {
        assert (s + t)[|s| + j] == t[j];
      }
    }
    if BytesAt(b, pos, s) && BytesAt(b, pos + |s|, t) {
      forall i | 0 <= i < |s + t| ensures b[pos + i] == (s + t)[i] {
        if i >= |s| {
          assert b[pos + |s| + (i - |s|)] == t[i - |s|];
        }
      }
    }
  }

  /** A read inside an occurrence of `s` sees the bytes of `s`. */
  lemma {:induction false} BeValueAtShift(b: seq<byte>, pos: nat, s: seq<byte>, k: nat, n: nat)
    requires BytesAt(b, pos, s) && k + n <= |s|
    ensures BeValueAt(b, pos + k, n) == BeValueAt(s, k, n)
  {
    if n > 0 {
      BeValueAtShift(b, pos, s, k, n - 1);
      assert b[pos + (k + n - 1)] == s[k + n - 1];
    }
  }

  lemma U64AtShift(b: seq<byte>, pos: nat, s: seq<byte>, k: nat)
    requires BytesAt(b, pos, s) && k + 8 <= |s|
    ensures U64At(b, pos + k) == U64At(s, k)
  {
    BeValueAtShift(b, pos, s, k, 8);
  }

  lemma {:induction false} BeValueAtAppendLeft(s: seq<byte>, t: seq<byte>, k: nat, n: nat)
    requires k + n <= |s|
    ensures BeValueAt(s + t, k, n) == BeValueAt(s, k, n)
  {
    if n > 0 {
      BeValueAtAppendLeft(s, t, k, n - 1);
    }
  }

  /** A read that ends before `t` begins sees only `s`. */
  lemma U64AtAppendLeft(s: seq<byte>, t: seq<byte>, k: nat)
    requires k + 8 <= |s|
    ensures U64At(s + t, k) == U64At(s, k)
  {
    BeValueAtAppendLeft(s, t, k, 8);
  }

  lemma {:induction false} BeValueAtAppendRight(s: seq<byte>, t: seq<byte>, k: nat, n: nat)
    requires k + n <= |t|
    ensures BeValueAt(s + t, |s| + k, n) == BeValueAt(t, k, n)
  {
    if n > 0 {
      BeValueAtAppendRight(s, t, k, n - 1);
      assert (s + t)[|s| + k + n - 1] == t[k + n - 1];
    }
  }

  /** A read that starts after `s` sees only `t`. */
  lemma U64AtAppendRight(s: seq<byte>, t: seq<byte>, k: nat)
    requires k + 8 <= |t|
    ensures U64At(s + t, |s| + k) == U64At(t, k)
  {
    BeValueAtAppendRight(s, t, k, 8);
  }

  /** Reading back what `write_u64` wrote gives the value written. */
  lemma U64RoundTrip(x: u64)
    ensures U64At(U64Be(x), 0) == x
  {
    Pow256Of8();
    BeValueBounded(x, 8);
    U64AtValue(U64Be(x));
  }

  /** Reading back what `write_i64` wrote gives the value written. */
  lemma I64RoundTrip(t: i64)
    ensures AsI64(U64At(I64Be(t), 0)) == t
  {
    U64RoundTrip(if t >= 0 then t else t + U64_LIMIT);
  }
}
