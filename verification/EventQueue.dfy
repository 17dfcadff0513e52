/**
 * The queue of circle events: a table of singly linked lists, one for each strip of the plane, that
 * together are one sequence sorted by (ystar, x).
 */
module EventQueue {
  import opened Common
  import opened SweepTypes

  type Events = map<Ptr, Event>

  predicate Due(ev: Events, a: Ptr) {
    a in ev && ev[a].vertex.Some?
  }

  /** The event of a comes strictly before that of b. */
  predicate Before(ev: Events, a: Ptr, b: Ptr)
    requires Due(ev, a) && Due(ev, b)
  {
    ComesBefore(ev[a], ev[b])
  }

  ghost predicate Sorted(ev: Events, s: seq<Ptr>) {
    && (forall i :: 0 <= i < |s| ==> Due(ev, s[i]))
    && (forall i, j :: 0 <= i < j < |s| ==> s[i] != s[j] && !Before(ev, s[j], s[i]))
  }

  function At(s: seq<Ptr>, i: nat): Ptr {
    if i < |s| then s[i] else Null
  }

  /** The list that starts behind `from` is s. */
  ghost predicate Linked(next: map<Ptr, Ptr>, from: Ptr, s: seq<Ptr>) {
    && from in next && next[from] == At(s, 0)
    && forall i :: 0 <= i < |s| ==> s[i] in next && next[s[i]] == At(s, i + 1)
  }

  /** Where a list is entered after its first k nodes. */
  function Behind(from: Ptr, s: seq<Ptr>, k: nat): Ptr
    requires k <= |s|
  {
    if k == 0 then from else s[k - 1]
  }

  lemma LinkedInsert(next: map<Ptr, Ptr>, from: Ptr, s: seq<Ptr>, k: nat, h: Ptr)
    requires Linked(next, from, s) && k <= |s| && h !in s && h != from && from !in s
    requires Distinct(s)
    ensures var last := Behind(from, s, k);
      last in next && Linked(next[h := next[last]][last := h], from, Inserted(s, k, h))
  {
  }

  lemma LinkedRemove(next: map<Ptr, Ptr>, from: Ptr, s: seq<Ptr>, k: nat)
    requires Linked(next, from, s) && k < |s| && from !in s
    requires Distinct(s)
    ensures var last := Behind(from, s, k);
      && last in next && s[k] in next
      && Linked(next[last := next[s[k]]], from, Without(s, k))
  {
  }

  /** Writing behind nodes of one list leaves every list without those nodes alone. */
  lemma LinkedElsewhere(next: map<Ptr, Ptr>, more: map<Ptr, Ptr>, from: Ptr, s: seq<Ptr>)
    requires Linked(next, from, s)
    requires forall p :: p in s || p == from ==> (p in next ==> p in more && more[p] == next[p])
    ensures Linked(more, from, s)
  {
  }

  lemma SortedInsert(ev: Events, s: seq<Ptr>, k: nat, h: Ptr)
    requires Sorted(ev, s) && Due(ev, h) && h !in s && k <= |s|
    requires forall i :: 0 <= i < k ==> Before(ev, s[i], h)
    requires k < |s| ==> !Before(ev, s[k], h)
    ensures Sorted(ev, Inserted(s, k, h))
  {
  }

  lemma SortedRemove(ev: Events, s: seq<Ptr>, k: nat)
    requires Sorted(ev, s) && k < |s|
    ensures Sorted(ev, Without(s, k))
    ensures forall p :: p in Without(s, k) <==> p in s && p != s[k]
  {
    forall p | p in s && p != s[k]
      ensures p in Without(s, k)
    {
      var i :| 0 <= i < |s| && s[i] == p;
      assert Without(s, k)[if i < k then i else i - 1] == p;
    }
  }

  // ---- All the lists as one ----

  function Flatten(ss: seq<seq<Ptr>>): seq<Ptr> {
    if ss == [] then [] else ss[0] + Flatten(ss[1..])
  }

  /** How many nodes are in the first b lists. */
  function Offset(ss: seq<seq<Ptr>>, b: nat): nat
    requires b <= |ss|
  {
    if b == 0 then 0 else |ss[0]| + Offset(ss[1..], b - 1)
  }

  lemma InsertedConcat(a: seq<Ptr>, b: seq<Ptr>, k: nat, h: Ptr)
    ensures k <= |a| ==> Inserted(a, k, h) + b == Inserted(a + b, k, h)
    ensures k <= |b| ==> a + Inserted(b, k, h) == Inserted(a + b, |a| + k, h)
  {
  }

  lemma WithoutConcat(a: seq<Ptr>, b: seq<Ptr>, k: nat)
    ensures k < |a| ==> Without(a, k) + b == Without(a + b, k)
    ensures k < |b| ==> a + Without(b, k) == Without(a + b, |a| + k)
  {
  }

  lemma {:induction false} FlattenInsert(ss: seq<seq<Ptr>>, b: nat, k: nat, h: Ptr)
    requires b < |ss| && k <= |ss[b]|
    ensures Offset(ss, b) + k <= |Flatten(ss)|
    ensures Flatten(ss[b := Inserted(ss[b], k, h)]) == Inserted(Flatten(ss), Offset(ss, b) + k, h)
  {
    hide Inserted;
    var tt := ss[b := Inserted(ss[b], k, h)];
    if b == 0 {
      assert tt[1..] == ss[1..];
      InsertedConcat(ss[0], Flatten(ss[1..]), k, h);
    } else {
      FlattenInsert(ss[1..], b - 1, k, h);
      assert tt[1..] == ss[1..][b - 1 := Inserted(ss[b], k, h)];
      InsertedConcat(ss[0], Flatten(ss[1..]), Offset(ss[1..], b - 1) + k, h);
    }
  }

  lemma {:induction false} FlattenRemove(ss: seq<seq<Ptr>>, b: nat, k: nat)
    requires b < |ss| && k < |ss[b]|
    ensures Offset(ss, b) + k < |Flatten(ss)| && Flatten(ss)[Offset(ss, b) + k] == ss[b][k]
    ensures Flatten(ss[b := Without(ss[b], k)]) == Without(Flatten(ss), Offset(ss, b) + k)
  {
    hide Without;
    var tt := ss[b := Without(ss[b], k)];
    if b == 0 {
      assert tt[1..] == ss[1..];
      WithoutConcat(ss[0], Flatten(ss[1..]), k);
    } else {
      FlattenRemove(ss[1..], b - 1, k);
      assert tt[1..] == ss[1..][b - 1 := Without(ss[b], k)];
      WithoutConcat(ss[0], Flatten(ss[1..]), Offset(ss[1..], b - 1) + k);
    }
  }

  lemma {:induction false} FlattenEmpty(ss: seq<seq<Ptr>>)
    requires forall b :: 0 <= b < |ss| ==> ss[b] == []
    ensures Flatten(ss) == []
  {
    if ss != [] {
      FlattenEmpty(ss[1..]);
    }
  }

  /** The position of a node in the whole is that of its list plus that in its list. */
  lemma {:induction false} FlattenAt(ss: seq<seq<Ptr>>, i: nat) returns (b: nat, k: nat)
    requires i < |Flatten(ss)|
    ensures b < |ss| && k < |ss[b]| && i == Offset(ss, b) + k && Flatten(ss)[i] == ss[b][k]
  {
    if i < |ss[0]| {
      b, k := 0, i;
    } else {
      b, k := FlattenAt(ss[1..], i - |ss[0]|);
      b := b + 1;
    }
  }

  lemma {:induction false} OffsetMonotone(ss: seq<seq<Ptr>>, b: nat, c: nat)
    requires b < c <= |ss|
    ensures Offset(ss, b) + |ss[b]| <= Offset(ss, c)
    decreases b
  {
    if b == 0 {
      assert Offset(ss, c) == |ss[0]| + Offset(ss[1..], c - 1);
    } else {
      OffsetMonotone(ss[1..], b - 1, c - 1);
    }
  }

  // ---- The buckets ----

  /** Bucket b is a sorted list of the nodes whose event falls into strip b. */
  ghost predicate BucketOk(next: map<Ptr, Ptr>, ev: Events, strip: real -> nat, b: nat, s: seq<Ptr>) {
    && Linked(next, Header(b), s) && Sorted(ev, s)
    && forall i :: 0 <= i < |s| ==> s[i].Node? && strip(ev[s[i]].ystar) == b
  }

  ghost predicate Increasing(strip: real -> nat) {
    forall v, w :: v <= w ==> strip(v) <= strip(w)
  }

  ghost predicate AllBucketsOk(next: map<Ptr, Ptr>, ev: Events, strip: real -> nat, ss: seq<seq<Ptr>>) {
    && Increasing(strip)
    && forall b :: 0 <= b < |ss| ==> BucketOk(next, ev, strip, b, ss[b])
  }

  /** Sorted buckets of rising strips make a sorted whole. */
  lemma WholeIsSorted(next: map<Ptr, Ptr>, ev: Events, strip: real -> nat, ss: seq<seq<Ptr>>)
    requires AllBucketsOk(next, ev, strip, ss)
    ensures Sorted(ev, Flatten(ss))
  {
    var s := Flatten(ss);
    forall i | 0 <= i < |s|
      ensures Due(ev, s[i])
    {
      var b, k := FlattenAt(ss, i);
      assert BucketOk(next, ev, strip, b, ss[b]);
    }
    forall i, j | 0 <= i < j < |s|
      ensures s[i] != s[j] && !Before(ev, s[j], s[i])
    {
      var b, k := FlattenAt(ss, i);
      var c, l := FlattenAt(ss, j);
      InOrder(next, ev, strip, ss, b, k, c, l);
    }
  }

  lemma InOrder(next: map<Ptr, Ptr>, ev: Events, strip: real -> nat, ss: seq<seq<Ptr>>, b: nat, k: nat, c: nat, l: nat)
    requires AllBucketsOk(next, ev, strip, ss) && b < |ss| && c < |ss| && k < |ss[b]| && l < |ss[c]|
    requires Offset(ss, b) + k < Offset(ss, c) + l
    ensures Due(ev, ss[b][k]) && Due(ev, ss[c][l]) && ss[b][k] != ss[c][l] && !Before(ev, ss[c][l], ss[b][k])
  {
    hide Offset, Linked, Increasing;
    assert BucketOk(next, ev, strip, b, ss[b]) && BucketOk(next, ev, strip, c, ss[c]);
    if c < b {
      OffsetMonotone(ss, c, b);
    } else if b < c {
      LaterStrip(strip, ev[ss[b][k]].ystar, ev[ss[c][l]].ystar);
    }
  }

  lemma LaterStrip(strip: real -> nat, v: real, w: real)
    requires Increasing(strip) && strip(v) < strip(w)
    ensures v < w
  {
    assert w <= v ==> strip(w) <= strip(v);
  }

  lemma OneBucket(next: map<Ptr, Ptr>, ev: Events, strip: real -> nat, ss: seq<seq<Ptr>>, b: nat)
    requires AllBucketsOk(next, ev, strip, ss) && b < |ss|
    ensures BucketOk(next, ev, strip, b, ss[b])
    ensures Header(b) in next && (next[Header(b)] == Null <==> ss[b] == [])
    ensures ss[b] != [] ==> next[Header(b)] == ss[b][0] && Due(ev, ss[b][0])
  {
  }

  /** A node of the whole is in the bucket of its strip. */
  lemma InItsBucket(next: map<Ptr, Ptr>, ev: Events, strip: real -> nat, ss: seq<seq<Ptr>>, h: Ptr) returns (k: nat)
    requires AllBucketsOk(next, ev, strip, ss) && h in Flatten(ss)
    ensures h in ev && var b := strip(ev[h].ystar); b < |ss| && k < |ss[b]| && ss[b][k] == h
  {
    var i :| 0 <= i < |Flatten(ss)| && Flatten(ss)[i] == h;
    var b;
    b, k := FlattenAt(ss, i);
    assert BucketOk(next, ev, strip, b, ss[b]);
  }

  lemma {:induction false} InTheWhole(ss: seq<seq<Ptr>>, b: nat, h: Ptr)
    requires b < |ss| && h in ss[b]
    ensures h in Flatten(ss)
  {
    if b > 0 {
      InTheWhole(ss[1..], b - 1, h);
    }
  }

  /** The place in its bucket is a place in the whole: what is before h comes before it, all else behind. */
  lemma PlaceInWhole(next: map<Ptr, Ptr>, ev: Events, strip: real -> nat, ss: seq<seq<Ptr>>, b: nat, k: nat, h: Ptr, i: nat)
    requires AllBucketsOk(next, ev, strip, ss) && Due(ev, h) && b == strip(ev[h].ystar) < |ss| && k <= |ss[b]|
    requires forall j :: 0 <= j < k ==> Due(ev, ss[b][j]) && Before(ev, ss[b][j], h)
    requires k < |ss[b]| ==> Due(ev, ss[b][k]) && !Before(ev, ss[b][k], h)
    requires i < |Flatten(ss)|
    ensures Due(ev, Flatten(ss)[i]) && (i < Offset(ss, b) + k <==> Before(ev, Flatten(ss)[i], h))
  {
    hide Offset, Flatten, Linked, Increasing;
    var c, l := FlattenAt(ss, i);
    assert BucketOk(next, ev, strip, c, ss[c]) && BucketOk(next, ev, strip, b, ss[b]);
    if c < b {
      OffsetMonotone(ss, c, b);
      LaterStrip(strip, ev[ss[c][l]].ystar, ev[h].ystar);
    } else if b < c {
      OffsetMonotone(ss, b, c);
      LaterStrip(strip, ev[h].ystar, ev[ss[c][l]].ystar);
    } else if k < l {
      assert !Before(ev, ss[b][l], ss[b][k]);
    }
  }

  /** Nothing else changes when a node that is in no bucket gets another event. */
  lemma ReschedulingElsewhere(next: map<Ptr, Ptr>, ev: Events, strip: real -> nat, ss: seq<seq<Ptr>>, h: Ptr, e: Event)
    requires AllBucketsOk(next, ev, strip, ss) && h !in Flatten(ss)
    ensures AllBucketsOk(next, ev[h := e], strip, ss)
  {
    forall b | 0 <= b < |ss|
      ensures BucketOk(next, ev[h := e], strip, b, ss[b])
    {
      assert BucketOk(next, ev, strip, b, ss[b]);
      if h in ss[b] {
        InTheWhole(ss, b, h);
      }
    }
  }

  lemma BucketInsert(next: map<Ptr, Ptr>, ev: Events, strip: real -> nat, b: nat, s: seq<Ptr>, k: nat, h: Ptr)
    requires BucketOk(next, ev, strip, b, s) && h !in s && h.Node? && Due(ev, h) && b == strip(ev[h].ystar) && k <= |s|
    requires forall i :: 0 <= i < k ==> Before(ev, s[i], h)
    requires k < |s| ==> !Before(ev, s[k], h)
    ensures var last := Behind(Header(b), s, k);
      last in next && BucketOk(next[h := next[last]][last := h], ev, strip, b, Inserted(s, k, h))
  {
    LinkedInsert(next, Header(b), s, k, h);
    SortedInsert(ev, s, k, h);
  }

  lemma BucketRemove(next: map<Ptr, Ptr>, ev: Events, strip: real -> nat, b: nat, s: seq<Ptr>, k: nat)
    requires BucketOk(next, ev, strip, b, s) && k < |s|
    ensures var last := Behind(Header(b), s, k);
      && last in next && next[last] == s[k] && s[k] in next
      && BucketOk(next[last := next[s[k]]], ev, strip, b, Without(s, k))
  {
    LinkedRemove(next, Header(b), s, k);
    SortedRemove(ev, s, k);
  }

  /** Bucket c does not notice what is written behind a node of bucket b, or into a node of no bucket. */
  lemma BucketUntouched(next: map<Ptr, Ptr>, more: map<Ptr, Ptr>, ev: Events, strip: real -> nat, ss: seq<seq<Ptr>>,
                        b: nat, k: nat, c: nat, h: Ptr)
    requires AllBucketsOk(next, ev, strip, ss) && b < |ss| && c < |ss| && b != c && k <= |ss[b]|
    requires h !in Flatten(ss) && h.Node?
    requires forall p :: p != h && p != Behind(Header(b), ss[b], k) && p in next ==> p in more && more[p] == next[p]
    ensures BucketOk(more, ev, strip, c, ss[c])
  {
    assert BucketOk(next, ev, strip, b, ss[b]) && BucketOk(next, ev, strip, c, ss[c]);
    if h in ss[c] {
      InTheWhole(ss, c, h);
    }
    var last := Behind(Header(b), ss[b], k);
    assert last !in ss[c] && last != Header(c);
    LinkedElsewhere(next, more, Header(c), ss[c]);
  }

  lemma BucketsInsert(next: map<Ptr, Ptr>, ev: Events, strip: real -> nat, ss: seq<seq<Ptr>>, b: nat, k: nat, h: Ptr)
    requires AllBucketsOk(next, ev, strip, ss) && h !in Flatten(ss)
    requires h.Node? && Due(ev, h) && b == strip(ev[h].ystar) < |ss| && k <= |ss[b]|
    requires forall i :: 0 <= i < k ==> Due(ev, ss[b][i]) && Before(ev, ss[b][i], h)
    requires k < |ss[b]| ==> Due(ev, ss[b][k]) && !Before(ev, ss[b][k], h)
    ensures var last := Behind(Header(b), ss[b], k);
      && last in next
      && AllBucketsOk(next[h := next[last]][last := h], ev, strip, ss[b := Inserted(ss[b], k, h)])
  {
    hide BucketOk, Behind, Inserted;
    assert BucketOk(next, ev, strip, b, ss[b]);
    if h in ss[b] {
      InTheWhole(ss, b, h);
    }
    BucketInsert(next, ev, strip, b, ss[b], k, h);
    var last := Behind(Header(b), ss[b], k);
    var more, tt := next[h := next[last]][last := h], ss[b := Inserted(ss[b], k, h)];
    forall c | 0 <= c < |ss|
      ensures BucketOk(more, ev, strip, c, tt[c])
    {
      if c != b {
        BucketUntouched(next, more, ev, strip, ss, b, k, c, h);
      }
    }
  }

  lemma BucketsRemove(next: map<Ptr, Ptr>, ev: Events, strip: real -> nat, ss: seq<seq<Ptr>>, b: nat, k: nat)
    requires AllBucketsOk(next, ev, strip, ss) && b < |ss| && k < |ss[b]|
    ensures var last, h := Behind(Header(b), ss[b], k), ss[b][k];
      && last in next && next[last] == h && h in next
      && AllBucketsOk(next[last := next[h]], ev, strip, ss[b := Without(ss[b], k)])
  {
    hide Behind, Without;
    assert BucketOk(next, ev, strip, b, ss[b]);
    var last, h := Behind(Header(b), ss[b], k), ss[b][k];
    BucketRemove(next, ev, strip, b, ss[b], k);
    var more, tt := next[last := next[h]], ss[b := Without(ss[b], k)];
    forall c | 0 <= c < |ss|
      ensures BucketOk(more, ev, strip, c, tt[c])
    {
      if c != b {
        var spare := SpareNode(Flatten(ss));
        BucketUntouched(next, more, ev, strip, ss, b, k, c, spare);
      }
    }
  }

  /** There is always a node that is not queued. */
  lemma {:induction false} SpareNode(s: seq<Ptr>) returns (h: Ptr)
    ensures h.Node? && h !in s
  {
    var n: nat := 0;
    for i := 0 to |s|
      invariant forall j :: 0 <= j < i && s[j].Node? ==> s[j].n < n
    {
      if s[i].Node? && s[i].n >= n {
        n := s[i].n + 1;
      }
    }
    h := Node(n);
  }

  // ---- The queue ----

  class EventQueue {
    const PQhashsize: nat
    const ymin: real
    const deltay: real
    var PQnext: map<Ptr, Ptr>    // the field of every list header and queued node
    var event: map<Ptr, Event>   // the fields `vertex` and `ystar`
    var PQcount: int
    var PQmin: nat
    ghost var buckets: seq<seq<Ptr>>

    ghost const strip: real -> nat

    ghost predicate Valid()
      reads this
    {
      && deltay > 0.0 && |buckets| == PQhashsize > 0
      && strip == (v => BucketOf(v, ymin, deltay, PQhashsize))
      && AllBucketsOk(PQnext, event, strip, buckets)
      && (forall b :: 0 <= b < PQmin && b < |buckets| ==> buckets[b] == [])
      && PQcount == |Contents()|
    }

    /** The queue as one sequence. */
    ghost function Contents(): seq<Ptr>
      reads this`buckets
    {
      Flatten(buckets)
    }

    ghost function Members(): set<Ptr>
      reads this`buckets
    {
      set p | p in Contents()
    }

    constructor (sqrtNsites: nat, ymin: real, deltay: real)
      requires deltay > 0.0 && sqrtNsites > 0
      ensures Valid() && Contents() == [] && Members() == {} && event == map[]
    {
      this.ymin, this.deltay, PQhashsize := ymin, deltay, 4 * sqrtNsites;
      PQcount, PQmin, event := 0, 0, map[];
      PQnext := map[];
      buckets := seq(4 * sqrtNsites, _ => []);
      strip := v => BucketOf(v, ymin, deltay, 4 * sqrtNsites);
      new;
      for i := 0 to PQhashsize
        invariant forall b :: 0 <= b < i ==> Header(b) in PQnext && PQnext[Header(b)] == Null
        modifies this`PQnext
      {
        PQnext := PQnext[Header(i) := Null];
      }
      FlattenEmpty(buckets);
      StripIncreasing();
    }

    lemma StripIncreasing()
      requires deltay > 0.0 && PQhashsize > 0 && strip == (v => BucketOf(v, ymin, deltay, PQhashsize))
      ensures Increasing(strip)
    {
      forall v, w | v <= w
        ensures strip(v) <= strip(w)
      {
        BucketMonotone(v, w, ymin, deltay, PQhashsize);
      }
    }

    /** The whole queue is in order. */
    lemma ContentsSorted()
      requires Valid()
      ensures Sorted(event, Contents())
    {
      WholeIsSorted(PQnext, event, strip, buckets);
    }

    predicate PQempty()
      reads this`PQcount
    {
      PQcount == 0
    }

    /** A fresh halfedge has no vertex. */
    method Clear(he: Ptr)
      requires Valid() && he !in Contents()
      modifies this`event
      ensures Valid() && Contents() == old(Contents()) && Members() == old(Members())
      ensures event == old(event)[he := Event(None, 0.0)]
    {
      event := event[he := Event(None, 0.0)];
      ReschedulingElsewhere(PQnext, old(event), strip, buckets, he, Event(None, 0.0));
    }

    method PQbucket(he: Ptr) returns (bucket: nat)
      requires Valid() && he in event
      modifies this`PQmin
      ensures bucket == strip(event[he].ystar) < PQhashsize
      ensures PQmin == if bucket < old(PQmin) then bucket else old(PQmin)
    {
      bucket := BucketOf(event[he].ystar, ymin, deltay, PQhashsize);
      if bucket < PQmin {
        PQmin := bucket;
      }
    }

    /** Puts he, due at the vertex v, into the queue: behind all that is before it, and before all else. */
    method PQinsert(he: Ptr, v: Point, offset: real) returns (ghost place: nat)
      requires Valid() && he.Node? && he !in Contents()
      modifies this
      ensures Valid() && event == old(event)[he := Event(Some(v), v.y + offset)]
      ensures place <= |old(Contents())| && Contents() == Inserted(old(Contents()), place, he)
      ensures Members() == old(Members()) + {he}
      ensures forall i :: 0 <= i < |old(Contents())| ==>
        Due(event, old(Contents())[i]) && (i < place <==> Before(event, old(Contents())[i], he))
    {
      hide AllBucketsOk, BucketOk, Flatten, Offset, Behind, Inserted;
      event := event[he := Event(Some(v), v.y + offset)];
      ReschedulingElsewhere(PQnext, old(event), strip, buckets, he, event[he]);
      var b := PQbucket(he);
      OneBucket(PQnext, event, strip, buckets, b);
      var last, next;
      ghost var k;
      last, next, k := FindPlace(he, b);
      forall i | 0 <= i < |Contents()|
        ensures Due(event, Contents()[i]) && (i < Offset(buckets, b) + k <==> Before(event, Contents()[i], he))
      {
        PlaceInWhole(PQnext, event, strip, buckets, b, k, he, i);
      }
      BucketsInsert(PQnext, event, strip, buckets, b, k, he);
      FlattenInsert(buckets, b, k, he);
      PQnext := PQnext[he := next];
      PQnext := PQnext[last := he];
      PQcount := PQcount + 1;
      place := Offset(buckets, b) + k;
      buckets := buckets[b := Inserted(buckets[b], k, he)];
      InsertedMembers(old(Contents()), place, he);
    }

    /** Where he goes in its bucket. */
    method FindPlace(he: Ptr, b: nat) returns (last: Ptr, next: Ptr, ghost k: nat)
      requires b < |buckets| && BucketOk(PQnext, event, strip, b, buckets[b]) && Due(event, he)
      ensures k <= |buckets[b]| && last == Behind(Header(b), buckets[b], k)
      ensures last in PQnext && next == PQnext[last]
      ensures forall i :: 0 <= i < k ==> Due(event, buckets[b][i]) && Before(event, buckets[b][i], he)
      ensures k < |buckets[b]| ==> Due(event, buckets[b][k]) && !Before(event, buckets[b][k], he)
    {
      ghost var s := buckets[b];
      last, k := Header(b), 0;
      next := PQnext[last];
      while next != Null && Before(event, next, he)
        invariant k <= |s| && last == Behind(Header(b), s, k) && last in PQnext && next == PQnext[last] == At(s, k)
        invariant forall i :: 0 <= i < k ==> Before(event, s[i], he)
        decreases |s| - k
      {
        last, k := next, k + 1;
        next := PQnext[last];
      }
    }

    /** Takes he out of the queue, if it has a vertex; it always finds it. */
    method PQdelete(he: Ptr) returns (ghost place: nat)
      requires Valid() && he in event && (event[he].vertex.Some? ==> he in Contents())
      modifies this
      ensures Valid()
      ensures old(event[he].vertex) == None ==> Contents() == old(Contents()) && event == old(event)
      ensures old(event[he].vertex).Some? ==>
        && event == old(event)[he := old(event[he]).(vertex := None)]
        && place < |old(Contents())| && old(Contents())[place] == he && Contents() == Without(old(Contents()), place)
      ensures Members() == old(Members()) - {he}
    {
      hide AllBucketsOk, BucketOk, Flatten, Offset, Behind, Without, Sorted;
      place := 0;
      ContentsSorted();
      DueMembers(event, Contents());
      if event[he].vertex.Some? {
        ghost var k := InItsBucket(PQnext, event, strip, buckets, he);
        var b := PQbucket(he);
        OneBucket(PQnext, event, strip, buckets, b);
        var last := FindNode(he, b, k);
        BucketsRemove(PQnext, event, strip, buckets, b, k);
        FlattenRemove(buckets, b, k);
        PQnext := PQnext[last := PQnext[he]];
        PQcount := PQcount - 1;
        place := Offset(buckets, b) + k;
        buckets := buckets[b := Without(buckets[b], k)];
        SortedRemove(event, old(Contents()), place);
        ReschedulingElsewhere(PQnext, event, strip, buckets, he, event[he].(vertex := None));
        event := event[he := event[he].(vertex := None)];
      }
    }

    /** The loop that looks for he ends at he. */
    method FindNode(he: Ptr, b: nat, ghost k: nat) returns (last: Ptr)
      requires b < |buckets| && BucketOk(PQnext, event, strip, b, buckets[b])
      requires k < |buckets[b]| && buckets[b][k] == he
      ensures last == Behind(Header(b), buckets[b], k)
    {
      last := Header(b);
      ghost var i: nat := 0;
      while PQnext[last] != he
        invariant i <= k && last == Behind(Header(b), buckets[b], i) && last in PQnext
        decreases k - i
      {
        last, i := PQnext[last], i + 1;
      }
    }

    /** The first event of the queue, which is the least of all. */
    method PQ_min() returns (answer: Point)
      requires Valid() && !PQempty()
      modifies this`PQmin
      ensures Valid() && PQmin < PQhashsize && buckets[PQmin] != []
      ensures Contents() != [] && Contents()[0] == buckets[PQmin][0]
      ensures Due(event, Contents()[0])
      ensures answer == Point(event[Contents()[0]].vertex.value.x, event[Contents()[0]].ystar)
      ensures forall h :: h in Contents() ==> Due(event, h) && !Before(event, h, Contents()[0])
    {
      hide AllBucketsOk, BucketOk, Flatten, Offset;
      ContentsSorted();
      ghost var b, k := FlattenAt(buckets, 0);
      OneBucket(PQnext, event, strip, buckets, PQmin);
      while PQnext[Header(PQmin)] == Null
        invariant PQmin <= b && Header(PQmin) in PQnext
        invariant PQnext[Header(PQmin)] == Null <==> buckets[PQmin] == []
        invariant forall c :: 0 <= c < PQmin ==> buckets[c] == []
        decreases b - PQmin
      {
        PQmin := PQmin + 1;
        OneBucket(PQnext, event, strip, buckets, PQmin);
      }
      OneBucket(PQnext, event, strip, buckets, PQmin);
      FirstIsFirst(buckets, PQmin);
      var first := PQnext[Header(PQmin)];
      answer := Point(event[first].vertex.value.x, event[first].ystar);
    }

    /** Takes out the event that PQ_min has found. */
    method PQextractmin() returns (curr: Ptr)
      requires Valid() && PQmin < PQhashsize && buckets[PQmin] != []
      modifies this`PQnext, this`PQcount, this`buckets
      ensures Valid()
      ensures old(Contents()) != [] && curr == old(Contents())[0] && Contents() == old(Contents())[1..]
      ensures Members() == old(Members()) - {curr}
    {
      hide AllBucketsOk, BucketOk, Flatten, Offset, Sorted;
      ContentsSorted();
      OneBucket(PQnext, event, strip, buckets, PQmin);
      FirstIsFirst(buckets, PQmin);
      BucketsRemove(PQnext, event, strip, buckets, PQmin, 0);
      FlattenRemove(buckets, PQmin, 0);
      curr := PQnext[Header(PQmin)];
      PQnext := PQnext[Header(PQmin) := PQnext[curr]];
      PQcount := PQcount - 1;
      buckets := buckets[PQmin := Without(buckets[PQmin], 0)];
      SortedRemove(event, old(Contents()), 0);
      assert Without(old(Contents()), 0) == old(Contents())[1..];
    }
  }

  lemma DueMembers(ev: Events, s: seq<Ptr>)
    requires Sorted(ev, s)
    ensures forall p :: p in s ==> Due(ev, p)
  {
  }

  lemma InsertedMembers(s: seq<Ptr>, k: nat, h: Ptr)
    requires k <= |s|
    ensures forall p :: p in Inserted(s, k, h) <==> p in s || p == h
  {
    forall p
      ensures p in Inserted(s, k, h) <==> p in s || p == h
    {
      if p in s {
        var i :| 0 <= i < |s| && s[i] == p;
        assert Inserted(s, k, h)[if i < k then i else i + 1] == p;
      }
      assert Inserted(s, k, h)[k] == h;
    }
  }

  /** The first node of the first list that has one is the first of all. */
  lemma {:induction false} FirstIsFirst(ss: seq<seq<Ptr>>, b: nat)
    requires b < |ss| && ss[b] != [] && forall c :: 0 <= c < b ==> ss[c] == []
    ensures Flatten(ss) != [] && Flatten(ss)[0] == ss[b][0] && Offset(ss, b) == 0
  {
    if b > 0 {
      FirstIsFirst(ss[1..], b - 1);
    }
  }
}
