/** How a client of brigades takes lines and blocks of known length off a stream: `apr_memcache.c`. */
module Memcache {
  import opened RingElem
  import opened BucketStore
  import opened BrigadeMeaning
  import opened Brigades
  import World = BrigadeWorld
  import opened BrigadeSplits
  import Writes = BrigadeWrites
  import opened BrigadeLines

  const BUFFER_SIZE: nat := 512

  /** A connection between two uses: `tb` is empty, and what has come in on `bb` shares no data. */
  ghost predicate ConnOk(w: World.World, bb: Elem, tb: Elem) {
    && bb in w.heads && tb in w.heads && bb != tb
    && ListOf(w, tb) == [] && OwnData(w, bb, tb)
  }

  lemma EmptyMeansNothing(w: World.World, b: Elem)
    requires ListOf(w, b) == []
    ensures WholeOf(w, b) == NOTHING
  {
  }

  /** As much of `tb` as the buffer holds copied into it, and `tb` emptied. */
  method Emptied(heap: BucketHeap, tb: Elem, ghost bb: Elem, buffer: array<Byte>) returns (blen: nat)
    requires heap.Valid() && bb in heap.world.heads && tb in heap.world.heads && bb != tb
    requires Confined(heap.world, bb, tb) && buffer.Length == 512
    modifies heap, heap.elems, buffer
    ensures heap.Valid() && ConnOk(heap.world, bb, tb)
    ensures ListOf(heap.world, bb) == old(ListOf(heap.world, bb))
    ensures WholeOf(heap.world, bb) == old(WholeOf(heap.world, bb))
    ensures var all := old(WholeOf(heap.world, tb)).bytes;
            && blen == (if |all| < 512 then |all| else 512)
            && buffer[..] == Over(all[..blen], old(buffer[..]))
  {
    blen := heap.Flatten(tb, buffer, BUFFER_SIZE);
    ConfinedCleaned(heap.world, bb, tb);
    heap.Cleanup(tb);
  }

  /** `get_server_line`: the next line, as much of it as the buffer holds. */
  method GetServerLine(heap: BucketHeap, tb: Elem, bb: Elem, buffer: array<Byte>)
    returns (blen: nat, ghost line: Meaning, ghost k: nat)
    requires heap.Valid() && ConnOk(heap.world, bb, tb) && buffer.Length == 512
    modifies heap, heap.elems, buffer
    ensures heap.Valid() && ConnOk(heap.world, bb, tb)
    ensures old(WholeOf(heap.world, bb)) == Followed(line, WholeOf(heap.world, bb))
    ensures LineTaken(line, ListOf(heap.world, bb), 512)
    ensures Limited(old(heap.world).s, old(ListOf(heap.world, bb)), ListOf(heap.world, bb), line, k, 512)
    ensures FrontOf(old(heap.world).s, old(ListOf(heap.world, bb)), line, k)
    ensures blen == (if |line.bytes| < 512 then |line.bytes| else 512)
    ensures buffer[..] == Over(line.bytes[..blen], old(buffer[..]))
  {
    EmptyMeansNothing(heap.world, tb);
    ghost var acts;
    line, k, acts := heap.SplitLine(tb, bb, BUFFER_SIZE);
    NothingFollowed(line);
    blen := Emptied(heap, tb, bb, buffer);
  }

  /** What has been split off shares data with what is to be destroyed only; `tb` is still empty. */
  lemma ValueParted(w: World.World, mid: World.World, w': World.World, bb: Elem, tb: Elem, rest: Elem,
                    parts: seq<World.Act>, after: Elem)
    requires World.Inv(w) && ConnOk(w, bb, tb) && World.Inv(w')
    requires Throughout(w, mid, w', bb, rest, parts, after) && w'.s == mid.s && rest !in w.heads
    ensures Confined(w', rest, bb) && ListOf(w', tb) == [] && bb in w'.heads && tb in w'.heads && rest in w'.heads
  {
    PartitionShares(w, mid, bb, tb, parts, after);
    PartsConfined(mid, w', bb, after, rest);
    assert Kept(mid, w', tb);
    World.HeadFilled(w', bb);
    World.HeadFilled(mid, tb);
  }

  /** The first part destroyed: the connection goes on with the rest. */
  lemma ValueTaken(w: World.World, bb: Elem, tb: Elem, rest: Elem)
    requires World.Inv(w) && bb in w.heads && tb in w.heads && rest in w.heads && rest != bb && rest != tb && bb != tb
    requires Confined(w, rest, bb) && ListOf(w, tb) == []
    ensures var w' := World.Run(w, DeleteAll(ListOf(w, bb)));
            ConnOk(w', rest, tb) && WholeOf(w', rest) == WholeOf(w, rest)
  {
    var w' := World.Run(w, DeleteAll(ListOf(w, bb)));
    ConfinedCleaned(w, rest, bb);
    CleanupEmpties(w, bb);
    assert Kept(w, w', tb);
    World.HeadFilled(w, tb);
    forall x | x in ListOf(w', rest) + ListOf(w', tb)
      ensures Writes.Unshared(w'.s, x)
    {
      assert x in ListOf(w', rest) + ListOf(w', bb);
    }
  }

  /** The value split off from what comes after it. */
  method PartValue(heap: BucketHeap, bb: Elem, point: nat, ghost tb: Elem) returns (status: Status, rest: Elem)
    requires heap.Valid() && ConnOk(heap.world, bb, tb)
    modifies heap, heap.elems
    ensures heap.Valid()
    ensures status == if point <= |old(WholeOf(heap.world, bb)).bytes| then Success else Incomplete
    ensures status != Success ==> heap.world == old(heap.world)
    ensures status == Success ==>
              && InTwo(heap.world, bb, rest, old(WholeOf(heap.world, bb)), point) && fresh(rest)
              && bb in heap.world.heads && tb in heap.world.heads && rest in heap.world.heads
              && Confined(heap.world, rest, bb) && ListOf(heap.world, tb) == []
    ensures forall x | x in heap.elems :: x in old(heap.elems) || fresh(x)
  {
    ghost var mid, parts, after;
    status, rest, mid, parts, after := heap.PartitionAndSplit(bb, point, null);
    if status == Success {
      ValueParted(old(heap.world), mid, heap.world, bb, tb, rest, parts, after);
    }
  }

  /** A value of `len` bytes and its line end taken off the connection, as `apr_memcache_getp` does it. */
  method TakeValue(heap: BucketHeap, bb: Elem, len: nat, ghost tb: Elem)
    returns (status: Status, data: array<Byte>, rest: Elem)
    requires heap.Valid() && ConnOk(heap.world, bb, tb)
    modifies heap, heap.elems
    ensures heap.Valid()
    ensures status == if len + 2 <= |old(WholeOf(heap.world, bb)).bytes| then Success else Incomplete
    ensures status != Success ==> rest == bb && heap.world == old(heap.world)
    ensures status == Success ==>
              && ConnOk(heap.world, rest, tb)
              && data[..] == old(WholeOf(heap.world, bb)).bytes[..len + 2]
              && WholeOf(heap.world, rest).bytes == old(WholeOf(heap.world, bb)).bytes[len + 2..]
  {
    status, rest := PartValue(heap, bb, len + 2, tb);
    if status != Success {
      data := new Byte[0];
      return status, data, bb;
    }
    data := heap.Pflatten(bb);
    ValueTaken(heap.world, bb, tb, rest);
    heap.Cleanup(bb);
  }
}
