/** Concatenation, one step at a time, and the copy of a slice into an array. */
module Sequences {

  import opened Common

  lemma Associative<T>(a: seq<T>, b: seq<T>, c: seq<T>)
    ensures (a + b) + c == a + (b + c)
  {
  }

  lemma Overwritten(now: seq<byte>, front: seq<byte>, was: seq<byte>, chunk: seq<byte>)
    requires |front| + |chunk| <= |was| && now == front + was[|front|..]
    ensures now[..|front|] + chunk + now[|front| + |chunk|..] == (front + chunk) + was[|front| + |chunk|..]
  {
  }

  /** `copy_from_slice` into part of a buffer. */
  method CopyChunk(buf: array<byte>, offset: nat, chunk: seq<byte>)
    requires offset + |chunk| <= buf.Length
    modifies buf
    ensures buf[..] == old(buf[..])[..offset] + chunk + old(buf[..])[offset + |chunk|..]
  {
    forall j | 0 <= j < |chunk| {
      buf[offset + j] := chunk[j];
    }
  }
}
