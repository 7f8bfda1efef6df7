/** Buckets, the resources they share, and reference counts. */
module BucketStore {
  import opened RingElem
  import opened Sequences

  type Byte = bv8

  /** A block of data that buckets point into. */
  type Id = nat

  /** The fields of `apr_bucket` besides its links, by what the bucket's type does with them:
      a reference-counted block, a block that is not counted, or no data at all. */
  datatype Bucket =
    | Shared(start: nat, length: nat, data: Id)
    | Simple(start: nat, length: nat, data: Id)
    | Metadata(name: string)

  /** A private data structure that starts with an `apr_bucket_refcount`. */
  datatype Resource = Resource(bytes: seq<Byte>, refcount: nat)

  /** All live buckets, all live counted resources, the blocks nobody counts, and the resources
      that have been freed, in order. */
  datatype Store = Store(bucket: map<Elem, Bucket>, shared: map<Id, Resource>,
                         fixed: map<Id, seq<Byte>>, freed: seq<Id>)

  datatype Status = Success | EInval | ENotImpl | Incomplete

  function Length(b: Bucket): nat {
    if b.Metadata? then 0 else b.length
  }

  ghost predicate BucketOk(s: Store, b: Bucket) {
    match b
    case Shared(start, length, data) => data in s.shared && start + length <= |s.shared[data].bytes|
    case Simple(start, length, data) => data in s.fixed && start + length <= |s.fixed[data]|
    case Metadata(_) => true
  }

  ghost predicate Uses(s: Store, e: Elem, r: Id) {
    e in s.bucket && s.bucket[e].Shared? && s.bucket[e].data == r
  }

  /** The live buckets that refer to a resource. */
  ghost function Users(s: Store, r: Id): set<Elem> {
    set e | e in s.bucket && Uses(s, e, r)
  }

  ghost predicate CountOk(s: Store, r: Id) {
    r in s.shared && s.shared[r].refcount == |Users(s, r)| && s.shared[r].refcount > 0
  }

  /** No live bucket reaches outside live data, every reference count is the number of live buckets
      that refer to the resource, and what has been freed was freed once and is gone. */
  ghost predicate Valid(s: Store) {
    && (forall e {:trigger s.bucket[e]} | e in s.bucket :: BucketOk(s, s.bucket[e]))
    && (forall r {:trigger CountOk(s, r)} | r in s.shared :: CountOk(s, r))
    && Distinct(s.freed)
    && (forall i | 0 <= i < |s.freed| :: s.freed[i] !in s.shared)
  }

  /** The bytes of the block a bucket points into. */
  function Base(s: Store, b: Bucket): seq<Byte> {
    match b
    case Shared(_, _, data) => if data in s.shared then s.shared[data].bytes else []
    case Simple(_, _, data) => if data in s.fixed then s.fixed[data] else []
    case Metadata(_) => []
  }

  /** The bytes of one live bucket, from `base+start` to `base+start+length`. */
  ghost function Segment(s: Store, e: Elem): seq<Byte> {
    if e !in s.bucket || s.bucket[e].Metadata? || !BucketOk(s, s.bucket[e]) then []
    else
      var b := s.bucket[e];
      Base(s, b)[b.start..b.start + b.length]
  }

  // What the bucket functions do.

  function Incremented(s: Store, b: Bucket): map<Id, Resource> {
    if b.Shared? && b.data in s.shared
    then s.shared[b.data := s.shared[b.data].(refcount := s.shared[b.data].refcount + 1)]
    else s.shared
  }

  /** `apr_bucket_shared_make`: a resource that only the new bucket `e` refers to, to part of its data. */
  function SharedMade(s: Store, e: Elem, r: Id, bytes: seq<Byte>, start: nat, length: nat): Store {
    s.(bucket := s.bucket[e := Shared(start, length, r)], shared := s.shared[r := Resource(bytes, 1)])
  }

  /** A bucket that refers to data nobody counts. */
  function SimpleMade(s: Store, e: Elem, d: Id, bytes: seq<Byte>): Store {
    s.(bucket := s.bucket[e := Simple(0, |bytes|, d)], fixed := s.fixed[d := bytes])
  }

  function MetadataMade(s: Store, e: Elem, name: string): Store {
    s.(bucket := s.bucket[e := Metadata(name)])
  }

  /** The bucket structure of `a` duplicated as `b`, not the data. */
  function Copied(s: Store, a: Elem, b: Elem): Store
    requires a in s.bucket
  {
    s.(bucket := s.bucket[b := s.bucket[a]], shared := Incremented(s, s.bucket[a]))
  }

  function SplitStatus(b: Bucket, point: nat): Status {
    if b.Metadata? then ENotImpl else if point > b.length then EInval else Success
  }

  /** `a` keeps what is before `point`, the new bucket `b` gets the rest; nothing changes when the
      bucket cannot be split there. */
  function SplitAt(s: Store, a: Elem, point: nat, b: Elem): Store
    requires a in s.bucket
  {
    var whole := s.bucket[a];
    if SplitStatus(whole, point) != Success then s else
    var copied := Copied(s, a, b);
    copied.(bucket := copied.bucket
      [a := whole.(length := point)]
      [b := whole.(start := whole.start + point, length := whole.length - point)])
  }

  /** The bucket gone; its resource too when no other bucket refers to it. */
  function Destroyed(s: Store, e: Elem): Store
    requires e in s.bucket
  {
    var b := s.bucket[e];
    var gone := s.(bucket := s.bucket - {e});
    if !b.Shared? || b.data !in s.shared then gone
    else if s.shared[b.data].refcount <= 1 then
      gone.(shared := s.shared - {b.data}, freed := s.freed + [b.data])
    else gone.(shared := s.shared[b.data := s.shared[b.data].(refcount := s.shared[b.data].refcount - 1)])
  }

  /** There is room for `n` more bytes in the block of a bucket, behind the bucket's own. */
  predicate HasRoom(s: Store, e: Elem, n: nat) {
    && e in s.bucket && s.bucket[e].Shared? && s.bucket[e].data in s.shared
    && s.bucket[e].start + s.bucket[e].length + n <= |s.shared[s.bucket[e].data].bytes|
  }

  /** A block with some of its bytes written over. */
  function Overwritten(bytes: seq<Byte>, at: nat, data: seq<Byte>): (r: seq<Byte>)
    requires at + |data| <= |bytes|
    ensures |r| == |bytes|
    ensures forall i | 0 <= i < |bytes| :: r[i] == if at <= i < at + |data| then data[i - at] else bytes[i]
  {
    bytes[..at] + data + bytes[at + |data|..]
  }

  /** Bytes put behind those of a bucket, in the block itself. */
  function Extended(s: Store, e: Elem, data: seq<Byte>): Store
    requires HasRoom(s, e, |data|)
  {
    var b := s.bucket[e];
    var r := s.shared[b.data];
    s.(bucket := s.bucket[e := Shared(b.start, b.length + |data|, b.data)],
       shared := s.shared[b.data := r.(bytes := Overwritten(r.bytes, b.start + b.length, data))])
  }

  // Reference counts.

  /** What the changes of one bucket `e` mean for the counts: only the resource `r` is concerned. */
  lemma CountsKept(s: Store, s': Store, e: Elem, r: Id, q: Id)
    requires CountOk(s, q) && q != r && q in s'.shared && s'.shared[q].refcount == s.shared[q].refcount
    requires forall x {:trigger Uses(s, x, q)} {:trigger Uses(s', x, q)} | x != e :: Uses(s', x, q) <==> Uses(s, x, q)
    requires !Uses(s, e, q) && !Uses(s', e, q)
    ensures CountOk(s', q)
  {
    assert Users(s', q) == Users(s, q);
  }

  lemma SharedMadeValid(s: Store, e: Elem, r: Id, bytes: seq<Byte>, start: nat, length: nat)
    requires Valid(s) && e !in s.bucket && r !in s.shared && r !in s.freed
    ensures Valid(SharedMade(s, e, r, bytes, start, length)) <==> start + length <= |bytes|
  {
    var s' := SharedMade(s, e, r, bytes, start, length);
    assert Valid(s') ==> BucketOk(s', s'.bucket[e]);
    forall q | q in s'.shared
      ensures CountOk(s', q)
    {
      if q == r {
        forall x
          ensures Uses(s', x, r) <==> x == e
        {
          assert x in s.bucket ==> BucketOk(s, s.bucket[x]);
        }
        assert Users(s', r) == {e};
      } else {
        assert CountOk(s, q);
        CountsKept(s, s', e, r, q);
      }
    }
    assert forall x | x in s.bucket :: BucketOk(s, s.bucket[x]);
  }

  lemma OtherMadeValid(s: Store, s': Store, e: Elem)
    requires Valid(s) && e !in s.bucket
    requires s'.bucket.Keys == s.bucket.Keys + {e} && !s'.bucket[e].Shared? && BucketOk(s', s'.bucket[e])
    requires forall x | x in s.bucket :: s'.bucket[x] == s.bucket[x]
    requires s'.shared == s.shared && s'.freed == s.freed
    requires forall d | d in s.fixed :: d in s'.fixed && s'.fixed[d] == s.fixed[d]
    ensures Valid(s')
  {
    forall q | q in s'.shared
      ensures CountOk(s', q)
    {
      assert CountOk(s, q);
      assert Users(s', q) == Users(s, q);
    }
    assert forall x | x in s.bucket :: BucketOk(s, s.bucket[x]);
  }

  lemma UserAdded(s: Store, s': Store, a: Elem, b: Elem, q: Id)
    requires a in s.bucket && b !in s.bucket && CountOk(s, q)
    requires s'.bucket.Keys == s.bucket.Keys + {b}
    requires forall x {:trigger Uses(s, x, q)} | x in s.bucket :: Uses(s', x, q) <==> Uses(s, x, q)
    requires Uses(s', b, q) <==> Uses(s, a, q)
    requires s'.shared == Incremented(s, s.bucket[a])
    ensures CountOk(s', q)
  {
    if Uses(s, a, q) {
      assert Users(s', q) == Users(s, q) + {b};
    } else {
      assert Users(s', q) == Users(s, q);
    }
  }

  lemma CopiedValid(s: Store, a: Elem, b: Elem)
    requires Valid(s) && a in s.bucket && b !in s.bucket
    ensures Valid(Copied(s, a, b))
  {
    var s' := Copied(s, a, b);
    forall q | q in s'.shared
      ensures CountOk(s', q)
    {
      assert CountOk(s, q);
      UserAdded(s, s', a, b, q);
    }
    assert forall x | x in s.bucket :: BucketOk(s, s.bucket[x]);
    assert BucketOk(s, s.bucket[a]);
  }

  lemma SplitAtValid(s: Store, a: Elem, point: nat, b: Elem)
    requires Valid(s) && a in s.bucket && b !in s.bucket
    ensures Valid(SplitAt(s, a, point, b))
  {
    var s' := SplitAt(s, a, point, b);
    assert BucketOk(s, s.bucket[a]);
    if SplitStatus(s.bucket[a], point) == Success {
      forall q | q in s'.shared
        ensures CountOk(s', q)
      {
        assert CountOk(s, q);
        UserAdded(s, s', a, b, q);
      }
      assert forall x | x in s.bucket :: BucketOk(s, s.bucket[x]);
    }
  }

  /** The resource of a destroyed bucket is freed exactly when no other live bucket refers to it. */
  lemma DestroyedValid(s: Store, e: Elem)
    requires Valid(s) && e in s.bucket
    ensures Valid(Destroyed(s, e))
    ensures s.bucket[e].Shared? ==>
              var r := s.bucket[e].data;
              && r in s.shared && r !in s.freed
              && (r in Destroyed(s, e).freed <==> Users(s, r) == {e})
              && (r in Destroyed(s, e).shared <==> Users(s, r) != {e})
    ensures Destroyed(s, e).freed == s.freed || exists r :: Uses(s, e, r) && Destroyed(s, e).freed == s.freed + [r]
  {
    var s' := Destroyed(s, e);
    assert BucketOk(s, s.bucket[e]);
    if s.bucket[e].Shared? {
      var r := s.bucket[e].data;
      assert Uses(s, e, r) && CountOk(s, r);
      OneUser(s, r, e);
    }
    forall q | q in s'.shared
      ensures CountOk(s', q)
    {
      assert CountOk(s, q);
      UserRemoved(s, s', e, q);
    }
    forall x | x in s'.bucket
      ensures BucketOk(s', s'.bucket[x])
    {
      assert BucketOk(s, s.bucket[x]);
      assert s.bucket[x].Shared? ==> x in Users(s, s.bucket[x].data);
    }
  }

  lemma OneUser(s: Store, r: Id, e: Elem)
    requires CountOk(s, r) && Uses(s, e, r)
    ensures s.shared[r].refcount == 1 <==> Users(s, r) == {e}
  {
    assert e in Users(s, r);
    if s.shared[r].refcount == 1 {
      assert |Users(s, r) - {e}| == 0;
    }
  }

  lemma UserRemoved(s: Store, s': Store, e: Elem, q: Id)
    requires CountOk(s, q) && e in s.bucket && s' == Destroyed(s, e) && q in s'.shared
    ensures CountOk(s', q)
  {
    assert Users(s', q) == Users(s, q) - {e};
    if Uses(s, e, q) {
      assert e in Users(s, q);
    }
  }

  lemma ExtendedValid(s: Store, e: Elem, data: seq<Byte>)
    requires Valid(s) && HasRoom(s, e, |data|)
    ensures Valid(Extended(s, e, data))
  {
    var s' := Extended(s, e, data);
    forall q | q in s'.shared
      ensures CountOk(s', q)
    {
      assert CountOk(s, q);
      assert Users(s', q) == Users(s, q);
    }
    assert forall x | x in s.bucket :: BucketOk(s, s.bucket[x]);
  }

  // Runs.

  datatype Act =
    | MakeShared(e: Elem, r: Id, bytes: seq<Byte>, start: nat, length: nat)
    | MakeSimple(e: Elem, d: Id, bytes: seq<Byte>)
    | MakeMetadata(e: Elem, name: string)
    | Copy(e: Elem, new_: Elem)
    | Split(e: Elem, point: nat, new_: Elem)
    | Destroy(e: Elem)
    | Extend(e: Elem, data: seq<Byte>)

  /** New buckets and new blocks are not in use yet; the others are live. */
  ghost predicate Possible(s: Store, act: Act) {
    match act
    case MakeShared(e, r, bytes, start, length) =>
      e !in s.bucket && r !in s.shared && r !in s.freed && start + length <= |bytes|
    case MakeSimple(e, d, _) => e !in s.bucket && d !in s.fixed
    case MakeMetadata(e, _) => e !in s.bucket
    case Copy(e, n) => e in s.bucket && n !in s.bucket
    case Split(e, _, n) => e in s.bucket && n !in s.bucket
    case Destroy(e) => e in s.bucket
    case Extend(e, data) => HasRoom(s, e, |data|)
  }

  /** Only meant for `Possible` acts. */
  ghost function Acted(s: Store, act: Act): Store {
    if !Possible(s, act) then s else
    match act
    case MakeShared(e, r, bytes, start, length) => SharedMade(s, e, r, bytes, start, length)
    case MakeSimple(e, d, bytes) => SimpleMade(s, e, d, bytes)
    case MakeMetadata(e, name) => MetadataMade(s, e, name)
    case Copy(e, n) => Copied(s, e, n)
    case Split(e, point, n) => SplitAt(s, e, point, n)
    case Destroy(e) => Destroyed(s, e)
    case Extend(e, data) => Extended(s, e, data)
  }

  ghost predicate PossibleRun(s: Store, acts: seq<Act>)
    decreases |acts|
  {
    acts == [] || (Possible(s, acts[0]) && PossibleRun(Acted(s, acts[0]), acts[1..]))
  }

  ghost function Run(s: Store, acts: seq<Act>): Store
    decreases |acts|
  {
    if acts == [] then s else Run(Acted(s, acts[0]), acts[1..])
  }

  /** The resources that a run makes. */
  function Made(acts: seq<Act>): set<Id> {
    if acts == [] then {}
    else (if acts[0].MakeShared? then {acts[0].r} else {}) + Made(acts[1..])
  }

  /** The resources that are live or have been freed. */
  ghost function Known(s: Store): set<Id> {
    s.shared.Keys + set r | r in s.freed
  }

  lemma ActValid(s: Store, act: Act)
    requires Valid(s) && Possible(s, act)
    ensures Valid(Acted(s, act))
    ensures s.freed <= Acted(s, act).freed
    ensures Known(Acted(s, act)) == Known(s) + if act.MakeShared? then {act.r} else {}
  {
    match act
    case MakeShared(e, r, bytes, start, length) => SharedMadeValid(s, e, r, bytes, start, length);
    case MakeSimple(e, d, bytes) => OtherMadeValid(s, Acted(s, act), e);
    case MakeMetadata(e, name) => OtherMadeValid(s, Acted(s, act), e);
    case Copy(e, n) =>
      assert BucketOk(s, s.bucket[e]);
      CopiedValid(s, e, n);
    case Split(e, point, n) =>
      assert BucketOk(s, s.bucket[e]);
      SplitAtValid(s, e, point, n);
    case Destroy(e) =>
      assert BucketOk(s, s.bucket[e]);
      DestroyedValid(s, e);
    case Extend(e, data) => ExtendedValid(s, e, data);
  }

  /** Over every run of making, copying, splitting, extending and destroying buckets: each reference count is
      the number of live buckets that refer to the resource; every resource ever made is either
      live or was freed once; and it has been freed just when no live bucket refers to it. */
  lemma {:induction false} RunFreesOnce(s: Store, acts: seq<Act>)
    requires Valid(s) && PossibleRun(s, acts)
    ensures Valid(Run(s, acts))
    ensures s.freed <= Run(s, acts).freed
    ensures Known(Run(s, acts)) == Known(s) + Made(acts)
    ensures forall r | r in Known(s) + Made(acts) :: r in Run(s, acts).freed <==> Users(Run(s, acts), r) == {}
    decreases |acts|
  {
    if acts == [] {
      FreedIffUnused(s);
    } else {
      ActValid(s, acts[0]);
      RunFreesOnce(Acted(s, acts[0]), acts[1..]);
    }
  }

  lemma FreedIffUnused(s: Store)
    requires Valid(s)
    ensures forall r | r in Known(s) :: r in s.freed <==> Users(s, r) == {}
  {
    forall r | r in Known(s)
      ensures r in s.freed <==> Users(s, r) == {}
    {
      if r in s.shared {
        assert CountOk(s, r);
      } else {
        assert forall e | e in s.bucket :: BucketOk(s, s.bucket[e]);
      }
    }
  }
}
