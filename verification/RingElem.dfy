/** The objects of `apr_ring.h`: element structs with embedded ring entries. */
module RingElem {

  /** The name of an `APR_RING_ENTRY` field: the `link` argument of every macro. */
  type Link = string

  /** `APR_RING_ENTRY` and `APR_RING_HEAD`: two element pointers, held by value. */
  datatype Entry = Entry(next: Elem, prev: Elem)

  /** An element struct.  It may carry several ring entries, told apart by name.
      The sentinel of a head is an `Elem` too: its entry is the head's own pair of pointers. */
  class Elem {
    var entry: map<Link, Entry>

    /** A struct with these entries, its pointers not yet set to anything in particular. */
    constructor (links: set<Link>)
      ensures entry.Keys == links
    {
      new;
      entry := map l | l in links :: Entry(this, this);
    }

    /** A struct assigned from another: its pointers are copied with the rest. */
    constructor CopyOf(from: Elem)
      ensures entry == from.entry
    {
      entry := from.entry;
    }
  }
}
