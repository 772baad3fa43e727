/** Byte sequences made of rows of pixels. Every framebuffer loop is proved equal to a `Paste` of rows. */
module Bytes {
  import opened Arithmetic
  import opened Wire

  /** `s` with `t` written over it from index `at` on. */
  function Splice(s: seq<u8>, at: nat, t: seq<u8>): (r: seq<u8>)
    requires at + |t| <= |s|
    ensures |r| == |s|
  {
    s[..at] + t + s[at + |t|..]
  }

  /** `at + k * pitch`, by repeated addition (see `StartIsProduct`). */
  function Start(at: nat, pitch: nat, k: nat): nat {
    if k == 0 then at else Start(at, pitch, k - 1) + pitch
  }

  ghost predicate Pasteable(n: nat, pitch: nat, at: nat, rows: seq<seq<u8>>) {
    forall k :: 0 <= k < |rows| ==> Start(at, pitch, k) + |rows[k]| <= n
  }

  /** `s` with row `k` written over it at `at + k * pitch`. */
  function Paste(s: seq<u8>, pitch: nat, at: nat, rows: seq<seq<u8>>): (r: seq<u8>)
    requires Pasteable(|s|, pitch, at, rows)
    ensures |r| == |s|
  {
    if rows == [] then s
    else
      var k := |rows| - 1;
      Splice(Paste(s, pitch, at, rows[..k]), Start(at, pitch, k), rows[k])
  }

  /** The bytes of consecutive pixels. */
  function Flatten(pixels: seq<seq<u8>>): seq<u8> {
    if pixels == [] then [] else Flatten(pixels[..|pixels| - 1]) + pixels[|pixels| - 1]
  }

  predicate Uniform(rows: seq<seq<u8>>, length: nat) {
    forall k :: 0 <= k < |rows| ==> |rows[k]| == length
  }

  /** Copies `bytes` into the buffer. */
  method Store(fb: array<u8>, at: nat, bytes: seq<u8>)
    requires at + |bytes| <= fb.Length
    modifies fb
    ensures fb[..] == Splice(old(fb[..]), at, bytes)
  {
    for b := 0 to |bytes|
      invariant forall i :: 0 <= i < fb.Length ==>
        fb[i] == if at <= i < at + b then bytes[i - at] else old(fb[i])
    {
      fb[at + b] := bytes[b];
    }
    assert fb[..at] == old(fb[..at]) && fb[at..at + |bytes|] == bytes;
    assert fb[at + |bytes|..] == old(fb[at + |bytes|..]);
  }

  lemma SplicePrefix(s: seq<u8>, at: nat, t: seq<u8>)
    requires at + |t| <= |s|
    ensures Splice(s, at, t)[..at + |t|] == s[..at] + t
  {}

  lemma SpliceExtend(s: seq<u8>, at: nat, t: seq<u8>, u: seq<u8>)
    requires at + |t| + |u| <= |s|
    ensures Splice(Splice(s, at, t), at + |t|, u) == Splice(s, at, t + u)
  {}

  lemma {:induction false} FlattenLength(pixels: seq<seq<u8>>, bpp: nat)
    requires Uniform(pixels, bpp)
    ensures |Flatten(pixels)| == |pixels| * bpp
  {
    if pixels != [] {
      FlattenLength(pixels[..|pixels| - 1], bpp);
      Distributes(|pixels| - 1, 1, bpp);
    }
  }

  lemma {:induction false} FlattenAt(pixels: seq<seq<u8>>, bpp: nat, x: nat, b: nat)
    requires Uniform(pixels, bpp) && x < |pixels| && b < bpp
    ensures x * bpp + b < |Flatten(pixels)| && Flatten(pixels)[x * bpp + b] == pixels[x][b]
  {
    var k := |pixels| - 1;
    FlattenLength(pixels, bpp);
    FlattenLength(pixels[..k], bpp);
    if x < k {
      FlattenAt(pixels[..k], bpp, x, b);
    } else {
      assert x * bpp == k * bpp;
    }
  }

  lemma {:induction false} StartIsProduct(at: nat, pitch: nat, k: nat)
    ensures Start(at, pitch, k) == at + k * pitch
  {
    if k > 0 {
      StartIsProduct(at, pitch, k - 1);
      Distributes(k - 1, 1, pitch);
    }
  }

  lemma PasteNext(s: seq<u8>, pitch: nat, at: nat, rows: seq<seq<u8>>, next: seq<u8>)
    requires Pasteable(|s|, pitch, at, rows + [next])
    ensures Pasteable(|s|, pitch, at, rows)
    ensures Start(at, pitch, |rows|) + |next| <= |s|
    ensures Paste(s, pitch, at, rows + [next]) == Splice(Paste(s, pitch, at, rows), Start(at, pitch, |rows|), next)
  {
    var all := rows + [next];
    assert all[|rows|] == next && all[..|rows|] == rows;
    forall k | 0 <= k < |rows| ensures Start(at, pitch, k) + |rows[k]| <= |s| { assert rows[k] == all[k]; }
  }

  /** Row `j` ends before row `k` begins. */
  lemma {:induction false} StartsBelow(at: nat, pitch: nat, j: nat, k: nat)
    requires j < k
    ensures Start(at, pitch, j) + pitch <= Start(at, pitch, k)
  {
    if j + 1 < k { StartsBelow(at, pitch, j, k - 1); }
  }

  /** Inside row `k` the pasted bytes are those of the row, if no row is longer than the pitch. */
  lemma {:induction false} PasteInside(s: seq<u8>, pitch: nat, at: nat, rows: seq<seq<u8>>, length: nat, k: nat, c: nat)
    requires Pasteable(|s|, pitch, at, rows) && Uniform(rows, length) && length <= pitch
    requires k < |rows| && c < length
    ensures Start(at, pitch, k) + c < |s| && Paste(s, pitch, at, rows)[Start(at, pitch, k) + c] == rows[k][c]
  {
    var last := |rows| - 1;
    assert |rows[k]| == length;
    if k < last {
      StartsBelow(at, pitch, k, last);
      PasteInside(s, pitch, at, rows[..last], length, k, c);
    }
  }

  /** Outside every row nothing changes. */
  lemma {:induction false} PasteOutside(s: seq<u8>, pitch: nat, at: nat, rows: seq<seq<u8>>, i: nat)
    requires Pasteable(|s|, pitch, at, rows) && i < |s|
    requires forall k :: 0 <= k < |rows| ==> !(Start(at, pitch, k) <= i < Start(at, pitch, k) + |rows[k]|)
    ensures Paste(s, pitch, at, rows)[i] == s[i]
  {
    if rows != [] {
      var last := |rows| - 1;
      assert |rows[last]| >= 0;
      PasteOutside(s, pitch, at, rows[..last], i);
    }
  }
}
