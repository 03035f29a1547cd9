/** Lengths of UTF-8 encodings (RFC 3629, section 3) and positioning a
    text file at a byte offset. A Dafny `char` is a Unicode scalar value,
    so surrogate code points, which Python strings may hold but UTF-8
    cannot encode, do not arise here. */
module Utf8 {
  import opened Prelude

  /** Octets needed for one scalar value: 1 up to U+007F, 2 up to U+07FF,
      3 up to U+FFFF, 4 above. */
  function CharLen(c: char): (n: nat)
    ensures 1 <= n <= 4
    ensures n == 1 <==> c as int < 0x80
  {
    if c as int < 0x80 then 1
    else if c as int < 0x800 then 2
    else if c as int < 0x10000 then 3
    else 4
  }

  /** Python `len(s.encode('utf-8'))`. */
  function ByteLen(s: string): (n: nat)
    ensures |s| <= n <= 4 * |s|
    ensures s != [] ==> n > 0
  {
    if s == [] then 0 else CharLen(s[0]) + ByteLen(s[1..])
  }

  lemma {:induction false} ByteLenAppend(a: string, b: string)
    ensures ByteLen(a + b) == ByteLen(a) + ByteLen(b)
    decreases |a|
  {
    if a != [] {
      assert (a + b)[1..] == a[1..] + b;
      ByteLenAppend(a[1..], b);
    } else {
      assert a + b == b;
    }
  }

  /** UTF-8 length of the first `i` characters, counted one character at
      a time. */
  function PrefixBytes(s: string, i: nat): nat
    requires i <= |s|
  {
    if i == 0 then 0 else CharLen(s[0]) + PrefixBytes(s[1..], i - 1)
  }

  lemma {:induction false} PrefixBytesIsByteLen(s: string, i: nat)
    requires i <= |s|
    ensures PrefixBytes(s, i) == ByteLen(s[..i])
    decreases i
  {
    if i == 0 {
      assert s[..0] == [];
    } else {
      PrefixBytesIsByteLen(s[1..], i - 1);
      assert s[..i][1..] == s[1..][..i - 1];
    }
  }

  /** The character index at which byte offset `k` falls on a character
      boundary (the end when `k` is at or beyond it), or `None` when `k`
      falls inside the encoding of a character. */
  function Boundary(s: string, k: nat): (r: Option<nat>)
    ensures r.Some? ==> r.value <= |s|
    ensures r.Some? && k <= ByteLen(s) ==> PrefixBytes(s, r.value) == k
    ensures ByteLen(s) <= k ==> r == Some(|s|)
    ensures r.None? ==> k < ByteLen(s) && forall i :: 0 <= i <= |s| ==> PrefixBytes(s, i) != k
    decreases |s|
  {
    if s == [] then Some(0)
    else if k == 0 then Some(0)
    else if k < CharLen(s[0]) then None
    else
      match Boundary(s[1..], k - CharLen(s[0]))
      case Some(i) => Some(i + 1)
      case None =>
        assert forall i :: 1 <= i <= |s| ==> PrefixBytes(s, i) == CharLen(s[0]) + PrefixBytes(s[1..], i - 1);
        None
  }

  /** The text read after positioning a UTF-8 text file at byte offset `k`:
      the remaining characters when `k` is a character boundary, nothing
      when `k` is at or beyond the end, and `None` (a decoding error) when
      `k` falls inside the encoding of a character. */
  function TailAt(s: string, k: nat): (r: Option<string>)
    ensures r.Some? ==> |r.value| <= |s| && r.value == s[|s| - |r.value|..]
    ensures r.Some? && k <= ByteLen(s) ==> ByteLen(s[..|s| - |r.value|]) == k
    ensures ByteLen(s) <= k ==> r == Some([])
    ensures r.None? ==> k < ByteLen(s) && forall i :: 0 <= i <= |s| ==> ByteLen(s[..i]) != k
  {
    match Boundary(s, k)
    case Some(i) =>
      PrefixBytesIsByteLen(s, i);
      Some(s[i..])
    case None =>
      assert forall i :: 0 <= i <= |s| ==> ByteLen(s[..i]) != k by {
        forall i | 0 <= i <= |s| ensures ByteLen(s[..i]) != k {
          PrefixBytesIsByteLen(s, i);
        }
      }
      None
  }
}
