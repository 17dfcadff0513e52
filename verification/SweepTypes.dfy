/** The records of the sweep: sites, edges between two of them, and the two halves of each edge. */
module SweepTypes {
  import opened Common

  datatype Point = Point(x: real, y: real)

  datatype Site = Site(coord: Point, sitenbr: nat)

  /** `ELpm`, which of the two halves of an edge a half is; also which of its two ends. */
  datatype Side = Le | Re {
    function Other(): Side {
      if Le? then Re else Le
    }
  }

  /**
   * The address of a halfedge record: one of the list headers of the event queue, or a node of the pool
   * that halfedges are taken from and given back to.
   */
  datatype Ptr = Null | Header(b: nat) | Node(n: nat)

  /**
   * What `ELedge` points to: nothing for the two sentinels, the mark of a deleted halfedge, or the record of
   * an edge, at some address of its own pool.
   */
  datatype EdgeRef = NoEdge | Deleted | Of(edge: nat)

  /** When a halfedge is due: its circle's vertex, if it has one, and the height the circle ends at. */
  datatype Event = Event(vertex: Option<Point>, ystar: real)

  /** Both have a vertex, and the first is due before the second. */
  predicate ComesBefore(a: Event, b: Event) {
    && a.vertex.Some? && b.vertex.Some?
    && (a.ystar < b.ystar || (a.ystar == b.ystar && a.vertex.value.x < b.vertex.value.x))
  }

  function Scaled(v: real, low: real, extent: real, size: nat): real
    requires extent > 0.0
  {
    (v - low) / extent * size as real
  }

  function Clamp(bucket: int, size: nat): (b: nat)
    requires size > 0
    ensures b < size
  {
    if bucket < 0 then 0 else if bucket >= size then size - 1 else bucket
  }

  /** The bucket of a hash table of the given size that a coordinate falls into. */
  function BucketOf(v: real, low: real, extent: real, size: nat): (b: nat)
    requires extent > 0.0 && size > 0
    ensures b < size
  {
    Clamp(Truncate(Scaled(v, low, extent, size)), size)
  }

  lemma ScaledMonotone(v: real, w: real, low: real, extent: real, size: nat)
    requires extent > 0.0 && v <= w
    ensures Scaled(v, low, extent, size) <= Scaled(w, low, extent, size)
  {
    var a, b, n := (v - low) / extent, (w - low) / extent, size as real;
    assert a <= b;
    TimesMonotone(a, b, n);
  }

  lemma TimesMonotone(a: real, b: real, k: real)
    requires a <= b && k >= 0.0
    ensures a * k <= b * k
  {
  }

  /** Larger coordinates never fall into earlier buckets. */
  lemma BucketMonotone(v: real, w: real, low: real, extent: real, size: nat)
    requires extent > 0.0 && size > 0 && v <= w
    ensures BucketOf(v, low, extent, size) <= BucketOf(w, low, extent, size)
  {
    hide Scaled;
    ScaledMonotone(v, w, low, extent, size);
  }
}
