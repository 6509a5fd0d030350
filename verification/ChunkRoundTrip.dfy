/** A function dumped and loaded again, whatever becomes of its bytes on the way. */
module ChunkRoundTrip {
  import opened Wrappers
  import opened Numbers
  import opened ChunkFormat
  import opened ChunkBack
  import opened Dump
  import opened Undump

  /** Bytes as a reader delivers them: in chunks of the given sizes, none of them empty, and then the others at once. */
  function Split(z: Text, sizes: seq<nat>): (chunks: seq<Text>)
    ensures Flat(chunks) == z && forall i :: 0 <= i < |chunks| ==> chunks[i] != []
    decreases |z|
  {
    if z == [] then []
    else
      var n := if sizes == [] || sizes[0] > |z| then |z| else if sizes[0] == 0 then 1 else sizes[0];
      assert z == z[..n] + z[n..];
      [z[..n]] + Split(z[n..], if sizes == [] then [] else sizes[1..])
  }

  /** luaU_dump, and then luaU_undump on what was written with more bytes behind it: if the writer has reported no
      error, the same function comes back, without its debug information if that was stripped, and just the bytes
      behind it are left. */
  method DumpThenLoad(f: Fitting, strip: bool, writer: nat -> int, sizes: seq<nat>, more: Text, check: Proto -> bool)
    returns (result: int, o: Res<Proto>, left: Text)
    requires Ready(f, strip, check) && Depth(f) <= 200
    ensures (forall n :: writer(n) == 0) ==> result == 0
    ensures result == 0 ==> o == Ok(Loaded(f, strip)) && left == more
  {
    var d := new DumpState(writer, strip);
    result := d.DumpChunk(f);
    if result != 0 {
      return result, Fail("not written"), more;
    }
    var z := new Zio(Split(d.out + more, sizes));
    var s := new LoadState(z, check, 0);
    ChunkComesBack(f, strip, 0, check, more);
    o := s.Load();
    left := z.Rest();
  }
}
