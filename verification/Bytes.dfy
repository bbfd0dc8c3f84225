/** Byte strings: padding to words, prefixes at an offset, and C strings. */
module Bytes {
  type byte = x: nat | x < 256

  /** Bytes of padding after `n` bytes, up to the next multiple of four. */
  function Padding(n: nat): (r: nat)
    ensures r < 4 && (n + r) % 4 == 0
  {
    (4 - n % 4) % 4
  }

  function Zeros(n: nat): (r: seq<byte>)
    ensures |r| == n
  {
    seq(n, _ => 0)
  }

  lemma RoundUpPadding(fdt: nat, x: nat)
    requires fdt % 4 == 0
    ensures var y := fdt + x + 3; y - y % 4 - fdt == x + Padding(x)
  {
  }

  lemma Assoc(a: seq<byte>, b: seq<byte>, c: seq<byte>)
    ensures a + b + c == a + (b + c)
  {
  }

  /** The character at `i` of a C string: NUL at its end. */
  function At(s: seq<byte>, i: nat): byte
    requires i <= |s|
  {
    if i < |s| then s[i] else 0
  }

  lemma StringAt(b: seq<byte>, off: nat, s: seq<byte>)
    requires off <= |b| && s + [0] <= b[off..]
    ensures off + |s| < |b|
    ensures forall i {:trigger b[off + i]} {:trigger At(s, i)} :: 0 <= i <= |s| ==> b[off + i] == At(s, i)
  {
  }

  /** `strlen(b + off)`. */
  method StrLen(b: seq<byte>, off: nat, ghost s: seq<byte>) returns (n: nat)
    requires 0 !in s && off <= |b| && s + [0] <= b[off..]
    ensures n == |s|
  {
    n := 0;
    PrefixAt(b, off, s + [0]);
    StringAt(b, off, s);
    while b[off + n] != 0
      invariant n <= |s| && b[off + n] == At(s, n)
      decreases |s| - n
    {
      n := n + 1;
    }
  }

  /** What a prefix of the bytes from `off` on says about the bytes. */
  lemma PrefixAt(b: seq<byte>, off: nat, p: seq<byte>)
    requires off <= |b| && p <= b[off..]
    ensures off + |p| <= |b| && b[off..off + |p|] == p
    ensures forall i :: 0 <= i < |p| ==> b[off + i] == p[i]
  {
  }

  /** A prefix in two parts: the first part here, the second after it. */
  lemma PrefixSplit(b: seq<byte>, off: nat, p: seq<byte>, q: seq<byte>)
    requires off <= |b| && p + q <= b[off..]
    ensures p <= b[off..] && off + |p| <= |b| && q <= b[off + |p|..]
  {
  }

  /** The C string at `p`: the bytes up to the next NUL. */
  ghost function CString(b: seq<byte>, p: nat): seq<byte>
    decreases |b| - p
  {
    if p >= |b| || b[p] == 0 then [] else [b[p]] + CString(b, p + 1)
  }

  ghost predicate Terminated(b: seq<byte>, p: nat) {
    p + |CString(b, p)| < |b|
  }

  /** `!strcmp(b + p, name)`. */
  method StrEq(b: seq<byte>, p: nat, name: seq<byte>) returns (eq: bool)
    requires 0 !in name && Terminated(b, p)
    ensures eq <==> CString(b, p) == name
  {
    var i := 0;
    while b[p + i] == At(name, i) && b[p + i] != 0
      invariant i <= |name| && Terminated(b, p + i) && p + i < |b|
      invariant CString(b, p) == name[..i] + CString(b, p + i)
      decreases |name| - i
    {
      assert name[..i + 1] == name[..i] + [name[i]];
      i := i + 1;
    }
    eq := b[p + i] == At(name, i);
    if eq {
      assert name[..i] == name;
    } else {
      SuffixAgrees(b, p, i, name);
    }
  }

  lemma SuffixAgrees(b: seq<byte>, p: nat, i: nat, name: seq<byte>)
    requires i <= |name| && p + i < |b| && CString(b, p) == name[..i] + CString(b, p + i) && 0 !in name
    ensures CString(b, p) == name ==> b[p + i] == At(name, i)
  {
  }

  lemma PrefixIndex(a: seq<byte>, b: seq<byte>, i: nat)
    requires a <= b && i < |a|
    ensures a[i] == b[i]
  {
  }
}
