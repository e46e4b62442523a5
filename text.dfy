/** Vocabulary shared by the shell model: bytes, C strings and memcpy. */
module Text {

  datatype Option<T> = None | Some(value: T)

  /** A C `char` as stored in the shared segment. */
  newtype byte = x: int | 0 <= x < 256

  /** A C string: the characters before its terminating NUL, so it holds none. */
  type CStr = s: string | '\0' !in s witness ""

  /** The bytes of a C string: none of them is its terminator. */
  type CBytes = s: seq<byte> | 0 !in s witness []

  predicate IsDigit(c: char) { '0' <= c <= '9' }

  /** `s` with `part` written over it from index `off` on (the effect of a memcpy). */
  function Splice<T>(s: seq<T>, off: nat, part: seq<T>): (r: seq<T>)
    requires off + |part| <= |s|
    ensures |r| == |s|
    ensures r[off..off + |part|] == part
    ensures forall i :: 0 <= i < |s| && !(off <= i < off + |part|) ==> r[i] == s[i]
  {
    s[..off] + part + s[off + |part|..]
  }

  /** Index of the first NUL of a buffer that holds one (what strlen walks to). */
  function NulIndex(b: seq<byte>): (n: nat)
    requires 0 in b
    ensures n < |b| && b[n] == 0
    ensures forall i :: 0 <= i < n ==> b[i] != 0
  {
    if b[0] == 0 then 0 else 1 + NulIndex(b[1..])
  }

  /** The C string at the start of a buffer: every byte before the first NUL. */
  function CString(b: seq<byte>): (s: seq<byte>)
    requires 0 in b
    ensures 0 !in s && |s| < |b|
    ensures b[..|s|] == s && b[|s|] == 0
  {
    b[..NulIndex(b)]
  }

  /** A buffer holding `s` and then a NUL holds exactly the C string `s`. */
  lemma CStringIs(b: seq<byte>, s: seq<byte>)
    requires |s| < |b| && b[..|s|] == s && 0 !in s && b[|s|] == 0
    ensures 0 in b && CString(b) == s
  {
    assert b[|s|] == 0;
  }

  /** `b` with every NUL before index `stop` turned into a space. */
  function RewriteNuls(b: string, stop: nat): (r: string)
    requires stop <= |b|
    ensures |r| == |b|
    ensures forall k :: 0 <= k < stop ==> r[k] != '\0'
    ensures forall k :: 0 <= k < stop && b[k] == '\0' ==> r[k] == ' '
    ensures forall k :: 0 <= k < |b| && b[k] != '\0' ==> r[k] == b[k]
    ensures r[stop..] == b[stop..]
  {
    seq(|b|, k requires 0 <= k < |b| => if k < stop && b[k] == '\0' then ' ' else b[k])
  }

  /** A splice inside a window of `s` is the splice of that window put back. */
  lemma SpliceInWindow<T>(s: seq<T>, off: nat, len: nat, part: seq<T>)
    requires off + len <= |s| && |part| <= len
    ensures Splice(s, off, Splice(s[off..off + len], 0, part)) == Splice(s, off, part)
  {
    var w := Splice(s[off..off + len], 0, part);
    assert forall i :: 0 <= i < |s| ==> Splice(s, off, w)[i] == Splice(s, off, part)[i] by {
      forall i | 0 <= i < |s| ensures Splice(s, off, w)[i] == Splice(s, off, part)[i] {
        if off <= i < off + len {
          assert Splice(s, off, w)[i] == Splice(s, off, w)[off..off + len][i - off];
          if i < off + |part| {
            assert Splice(s, off, part)[i] == Splice(s, off, part)[off..off + |part|][i - off];
            assert w[i - off] == w[0..|part|][i - off];
          }
        }
      }
    }
  }

  /** A splice leaves a window that it does not overlap as it was. */
  lemma SpliceOutside<T>(s: seq<T>, off: nat, part: seq<T>, lo: nat, len: nat)
    requires off + |part| <= |s| && lo + len <= |s|
    requires lo + len <= off || off + |part| <= lo
    ensures Splice(s, off, part)[lo..lo + len] == s[lo..lo + len]
  {
    var r := Splice(s, off, part);
    assert forall i :: lo <= i < lo + len ==> r[i] == s[i];
  }

  /** Writing one more element right after a splice extends it. */
  lemma SpliceThenSet<T>(s: seq<T>, off: nat, part: seq<T>, x: T)
    requires off + |part| < |s|
    ensures Splice(s, off, part)[off + |part| := x] == Splice(s, off, part + [x])
  {
    var a := Splice(s, off, part)[off + |part| := x];
    var b := Splice(s, off, part + [x]);
    assert forall i :: 0 <= i < |s| ==> a[i] == b[i] by {
      forall i | 0 <= i < |s| ensures a[i] == b[i] {
        if off <= i < off + |part| {
          assert Splice(s, off, part)[i] == Splice(s, off, part)[off..off + |part|][i - off];
          assert b[i] == b[off..off + |part| + 1][i - off];
        } else if i == off + |part| {
          assert b[i] == b[off..off + |part| + 1][i - off];
        }
      }
    }
  }

  /** memcpy(dst + off, src, |src|) on an array the caller owns. */
  method CopyInto<T>(dst: array<T>, off: nat, src: seq<T>)
    requires off + |src| <= dst.Length
    modifies dst
    ensures dst[..] == Splice(old(dst[..]), off, src)
  {
    var k := 0;
    while k < |src|
      invariant 0 <= k <= |src|
      invariant forall i :: 0 <= i < dst.Length ==>
                  dst[i] == (if off <= i < off + k then src[i - off] else old(dst[i]))
    {
      dst[off + k] := src[k];
      k := k + 1;
    }
    ghost var want := Splice(old(dst[..]), off, src);
    assert forall i :: 0 <= i < dst.Length ==> dst[..][i] == want[i] by {
      forall i | 0 <= i < dst.Length ensures dst[..][i] == want[i] {
        if off <= i < off + |src| {
          assert want[off..off + |src|][i - off] == src[i - off];
        }
      }
    }
  }
}
