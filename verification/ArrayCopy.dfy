/** Copying a run of elements into an array, the source's `memcpy`. */
module ArrayCopy {
  function Overwrite<T>(s: seq<T>, at: nat, src: seq<T>): (r: seq<T>)
    requires at + |src| <= |s|
    ensures |r| == |s|
  {
    s[..at] + src + s[at + |src|..]
  }

  method CopyInto<T>(dst: array<T>, at: nat, src: seq<T>)
    requires at + |src| <= dst.Length
    modifies dst
    ensures dst[..] == Overwrite(old(dst[..]), at, src)
  {
    var i := 0;
    while i < |src|
      invariant i <= |src| && dst[..] == Overwrite(old(dst[..]), at, src[..i])
    {
      dst[at + i] := src[i];
      i := i + 1;
    }
    assert src[..i] == src;
  }
}
