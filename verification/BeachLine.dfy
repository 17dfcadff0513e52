/**
 * The beach line: a doubly linked list between two sentinels, and a hash table of hints into it. A halfedge
 * taken out of the list stays marked as deleted until the last hint at it is gone, and is then used again.
 */
module BeachLine {
  import opened Common
  import opened SweepTypes

  // ---- The list ----

  /** The nodes of s are linked to each other in both directions. */
  ghost predicate Linked(left: map<Ptr, Ptr>, right: map<Ptr, Ptr>, s: seq<Ptr>) {
    && (forall i :: 0 <= i < |s| - 1 ==> s[i] in right && right[s[i]] == s[i + 1])
    && (forall i :: 0 < i < |s| ==> s[i] in left && left[s[i]] == s[i - 1])
  }

  /** Only the first and the last node have no edge. */
  ghost predicate Ended(edge: map<Ptr, EdgeRef>, s: seq<Ptr>) {
    && |s| >= 2
    && (forall i :: 0 <= i < |s| ==> s[i].Node? && s[i] in edge)
    && edge[s[0]] == edge[s[|s| - 1]] == NoEdge
    && (forall i :: 0 < i < |s| - 1 ==> edge[s[i]].Of?)
  }

  lemma TwoEnds(edge: map<Ptr, EdgeRef>, s: seq<Ptr>)
    requires Ended(edge, s)
    ensures |s| >= 2
  {
  }

  lemma LinkedInsert(left: map<Ptr, Ptr>, right: map<Ptr, Ptr>, s: seq<Ptr>, k: nat, h: Ptr)
    requires Linked(left, right, s) && Distinct(s) && k + 1 < |s| && h !in s
    ensures s[k] in right && right[s[k]] == s[k + 1]
    ensures Distinct(Inserted(s, k + 1, h))
    ensures Linked(left[h := s[k]][s[k + 1] := h], right[h := s[k + 1]][s[k] := h], Inserted(s, k + 1, h))
  {
  }

  lemma LinkedRemove(left: map<Ptr, Ptr>, right: map<Ptr, Ptr>, s: seq<Ptr>, k: nat)
    requires Linked(left, right, s) && Distinct(s) && 0 < k && k + 1 < |s|
    ensures s[k] in left && left[s[k]] == s[k - 1] && s[k] in right && right[s[k]] == s[k + 1]
    ensures Distinct(Without(s, k)) && s[k] !in Without(s, k)
    ensures forall p :: p in s && p != s[k] ==> p in Without(s, k)
    ensures Linked(left[s[k + 1] := s[k - 1]], right[s[k - 1] := s[k + 1]], Without(s, k))
  {
    forall p | p in s && p != s[k]
      ensures p in Without(s, k)
    {
      var i :| 0 <= i < |s| && s[i] == p;
      assert Without(s, k)[if i < k then i else i - 1] == p;
    }
  }

  lemma EndsInsert(s: seq<Ptr>, k: nat, h: Ptr)
    requires k + 1 < |s|
    ensures var t := Inserted(s, k + 1, h); t[0] == s[0] && t[|t| - 1] == s[|s| - 1]
    ensures forall p :: p in Inserted(s, k + 1, h) ==> p in s || p == h
  {
  }

  lemma EndsRemove(s: seq<Ptr>, k: nat)
    requires 0 < k && k + 1 < |s|
    ensures var t := Without(s, k); t[0] == s[0] && t[|t| - 1] == s[|s| - 1]
    ensures forall p :: p in Without(s, k) ==> p in s
  {
  }

  // ---- The hash table ----

  /** How many interior buckets point at h. */
  ghost function Hints(hash: seq<Ptr>, h: Ptr): nat
    requires |hash| >= 2
  {
    multiset(hash[1..|hash| - 1])[h]
  }

  lemma HintsUpdate(hash: seq<Ptr>, b: nat, x: Ptr, h: Ptr)
    requires 0 < b && b + 1 < |hash|
    ensures Hints(hash[b := x], h) == Hints(hash, h) - One(hash[b] == h) + One(x == h)
    ensures Hints(hash, hash[b]) > 0
  {
    assert hash[b := x][1..|hash| - 1] == hash[1..|hash| - 1][b - 1 := x];
    assert hash[b] == hash[1..|hash| - 1][b - 1];
  }

  lemma NoHints(hash: seq<Ptr>, h: Ptr)
    requires |hash| >= 2 && h !in hash
    ensures Hints(hash, h) == 0
  {
  }

  /** Without interior hints, and away from the ends, no bucket points at h. */
  lemma LastHint(hash: seq<Ptr>, h: Ptr)
    requires |hash| >= 2 && Hints(hash, h) == 0 && hash[0] != h && hash[|hash| - 1] != h
    ensures h !in hash
  {
    if h in hash {
      var b :| 0 <= b < |hash| && hash[b] == h;
      HintsUpdate(hash, b, h, h);
    }
  }

  /** Each bucket is empty or points at a node that is in the list, or that is deleted but not yet reused. */
  ghost predicate HashOk(hash: seq<Ptr>, refcnt: map<Ptr, int>, line: seq<Ptr>, dead: set<Ptr>) {
    && |hash| >= 2 && |line| >= 2
    && hash[0] == line[0] && hash[|hash| - 1] == line[|line| - 1]
    && (forall b :: 0 <= b < |hash| ==> hash[b] == Null || hash[b] in line || hash[b] in dead)
    && (forall h :: h in line || h in dead ==> h in refcnt && refcnt[h] == Hints(hash, h))
  }

  /** The nodes in the list, the deleted ones and the free ones are different nodes. */
  ghost predicate PoolOk(line: seq<Ptr>, dead: set<Ptr>, free: set<Ptr>, pool: nat, edge: map<Ptr, EdgeRef>) {
    && (forall h :: h in line || h in dead || h in free ==> h.Node? && h.n < pool)
    && (forall h :: h in dead ==> h !in line && h !in free && h in edge && edge[h] == Deleted)
    && (forall h :: h in free ==> h !in line)
  }

  lemma AddNode(edge: map<Ptr, EdgeRef>, hash: seq<Ptr>, refcnt: map<Ptr, int>, line: seq<Ptr>, dead: set<Ptr>,
                free: set<Ptr>, pool: nat, k: nat, h: Ptr)
    requires Ended(edge, line) && PoolOk(line, dead, free, pool, edge) && HashOk(hash, refcnt, line, dead)
    requires k + 1 < |line| && h.Node? && h !in line && h !in dead && h !in free && h.n < pool
    requires h in edge && edge[h].Of? && h in refcnt && refcnt[h] == 0 && h != Null
    ensures var more := Inserted(line, k + 1, h);
      && Ended(edge, more) && PoolOk(more, dead, free, pool, edge) && HashOk(hash, refcnt, more, dead)
      && forall p :: p in more <==> p in line || p == h
  {
    var more := Inserted(line, k + 1, h);
    NoHints(hash, h);
    forall p
      ensures p in more <==> p in line || p == h
    {
      if p in line {
        var i :| 0 <= i < |line| && line[i] == p;
        assert more[if i <= k then i else i + 1] == p;
      }
      assert more[k + 1] == h;
    }
  }

  lemma DropFromEnded(edge: map<Ptr, EdgeRef>, line: seq<Ptr>, k: nat)
    requires Ended(edge, line) && Distinct(line) && 0 < k && k + 1 < |line|
    ensures Ended(edge[line[k] := Deleted], Without(line, k))
  {
    var less := Without(line, k);
    assert forall i :: 0 <= i < |less| ==> less[i] == line[if i < k then i else i + 1] != line[k];
  }

  lemma DropFromPool(edge: map<Ptr, EdgeRef>, line: seq<Ptr>, dead: set<Ptr>, free: set<Ptr>, pool: nat, k: nat, less: seq<Ptr>)
    requires PoolOk(line, dead, free, pool, edge) && k < |line|
    requires forall p :: p in less <==> p in line && p != line[k]
    ensures PoolOk(less, dead + {line[k]}, free, pool, edge[line[k] := Deleted])
  {
    assert line[k] in line;
  }

  lemma DropFromHash(hash: seq<Ptr>, refcnt: map<Ptr, int>, line: seq<Ptr>, dead: set<Ptr>, k: nat, less: seq<Ptr>)
    requires HashOk(hash, refcnt, line, dead) && k < |line| && |less| >= 2
    requires less[0] == line[0] && less[|less| - 1] == line[|line| - 1]
    requires forall p :: p in less <==> p in line && p != line[k]
    ensures HashOk(hash, refcnt, less, dead + {line[k]})
  {
    hide Hints;
    assert line[k] in line;
  }

  lemma DropNode(left: map<Ptr, Ptr>, right: map<Ptr, Ptr>, edge: map<Ptr, EdgeRef>, hash: seq<Ptr>,
                 refcnt: map<Ptr, int>, line: seq<Ptr>, dead: set<Ptr>, free: set<Ptr>, pool: nat, k: nat)
    requires Linked(left, right, line) && Distinct(line)
    requires Ended(edge, line) && PoolOk(line, dead, free, pool, edge) && HashOk(hash, refcnt, line, dead)
    requires 0 < k && k + 1 < |line|
    ensures var h, less := line[k], Without(line, k);
      && Ended(edge[h := Deleted], less) && PoolOk(less, dead + {h}, free, pool, edge[h := Deleted])
      && HashOk(hash, refcnt, less, dead + {h})
  {
    hide Ended, PoolOk, HashOk, Linked, Without, Distinct;
    LinkedRemove(left, right, line, k);
    EndsRemove(line, k);
    DropFromEnded(edge, line, k);
    DropFromPool(edge, line, dead, free, pool, k, Without(line, k));
    DropFromHash(hash, refcnt, line, dead, k, Without(line, k));
  }

  lemma TakeNew(line: seq<Ptr>, dead: set<Ptr>, free: set<Ptr>, pool: nat, edge: map<Ptr, EdgeRef>)
    requires PoolOk(line, dead, free, pool, edge)
    ensures Node(pool) !in free
  {
  }

  /** A node of the free list, or a new one, becomes a halfedge that is linked to nothing. */
  lemma TakeNode(edge: map<Ptr, EdgeRef>, hash: seq<Ptr>, refcnt: map<Ptr, int>, line: seq<Ptr>, dead: set<Ptr>,
                 free: set<Ptr>, pool: nat, h: Ptr, e: nat, less: set<Ptr>, more: nat)
    requires Ended(edge, line) && PoolOk(line, dead, free, pool, edge) && HashOk(hash, refcnt, line, dead)
    requires if h in free then less == free - {h} && more == pool else less == free && h == Node(pool) && more == pool + 1
    ensures h !in line && h !in dead && h !in less && h.Node? && h.n < more
    ensures Ended(edge[h := Of(e)], line) && PoolOk(line, dead, less, more, edge[h := Of(e)])
    ensures HashOk(hash, refcnt[h := 0], line, dead)
  {
  }

  /** Whatever a bucket points at is in the list or marked as deleted, and the end buckets point at the ends. */
  lemma Pointed(edge: map<Ptr, EdgeRef>, hash: seq<Ptr>, refcnt: map<Ptr, int>, line: seq<Ptr>, dead: set<Ptr>,
                free: set<Ptr>, pool: nat, b: nat)
    requires Ended(edge, line) && PoolOk(line, dead, free, pool, edge) && HashOk(hash, refcnt, line, dead)
    requires b < |hash|
    ensures hash[b] != Null ==> hash[b] in edge && (edge[hash[b]] == Deleted <==> hash[b] !in line)
    ensures b == 0 ==> hash[b] == line[0] && line[0] in line && line[0] != Null
    ensures b == |hash| - 1 ==> hash[b] == line[|line| - 1] && line[|line| - 1] in line && line[|line| - 1] != Null
  {
    if hash[b] in line {
      var i :| 0 <= i < |line| && line[i] == hash[b];
      assert edge[line[i]] != Deleted;
    }
  }

  /** A hint at a deleted node is dropped; with its last hint the node is free. */
  lemma DropHint(edge: map<Ptr, EdgeRef>, hash: seq<Ptr>, refcnt: map<Ptr, int>, line: seq<Ptr>, dead: set<Ptr>,
                 free: set<Ptr>, pool: nat, b: nat)
    requires Ended(edge, line) && PoolOk(line, dead, free, pool, edge) && HashOk(hash, refcnt, line, dead)
    requires b < |hash| && hash[b] != Null && hash[b] in edge && edge[hash[b]] == Deleted
    ensures hash[b] in dead && hash[b] in refcnt && refcnt[hash[b]] > 0 && 0 < b < |hash| - 1
    ensures var h, none, less := hash[b], hash[b := Null], refcnt[hash[b] := refcnt[hash[b]] - 1];
      if less[h] == 0 then HashOk(none, less, line, dead - {h}) && PoolOk(line, dead - {h}, free + {h}, pool, edge)
      else HashOk(none, less, line, dead)
  {
    hide Hints;
    var h, none, less := hash[b], hash[b := Null], refcnt[hash[b] := refcnt[hash[b]] - 1];
    HintsUpdate(hash, b, Null, h);
    forall p | p in line || p in dead
      ensures p in less && less[p] == Hints(none, p)
    {
      HintsUpdate(hash, b, Null, p);
      assert p != Null;
    }
    if less[h] == 0 {
      LastHint(none, h);
    }
  }

  /** Bucket b is pointed at he instead, and both counts follow. */
  lemma HintOk(edge: map<Ptr, EdgeRef>, hash: seq<Ptr>, refcnt: map<Ptr, int>, line: seq<Ptr>, dead: set<Ptr>,
               free: set<Ptr>, pool: nat, b: nat, he: Ptr)
    requires Ended(edge, line) && PoolOk(line, dead, free, pool, edge) && HashOk(hash, refcnt, line, dead)
    requires 0 < b < |hash| - 1 && (hash[b] == Null || hash[b] in line) && he in line
    ensures hash[b] != Null ==> hash[b] in refcnt
    ensures var one := if hash[b] != Null then refcnt[hash[b] := refcnt[hash[b]] - 1] else refcnt;
      he in one && HashOk(hash[b := he], one[he := one[he] + 1], line, dead)
  {
    hide Hints;
    var one := if hash[b] != Null then refcnt[hash[b] := refcnt[hash[b]] - 1] else refcnt;
    var two := one[he := one[he] + 1];
    forall h | h in line || h in dead
      ensures h in two && two[h] == Hints(hash[b := he], h)
    {
      HintsUpdate(hash, b, he, h);
      assert h != Null;
    }
  }

  // ---- Searching ----

  /** The node at k is left of the point, if it is not the end, and its right neighbour is not. */
  ghost predicate IsBoundary(line: seq<Ptr>, rightOf: Ptr -> bool, k: nat) {
    && k + 1 < |line|
    && (k == 0 || rightOf(line[k]))
    && (k + 2 == |line| || !rightOf(line[k + 1]))
  }

  /** The search without the table: from the left end on, as long as the point is to the right. */
  function LinearScan(line: seq<Ptr>, rightOf: Ptr -> bool, k: nat): (r: nat)
    requires k + 1 < |line|
    ensures k <= r && r + 1 < |line|
    decreases |line| - k
  {
    if k + 2 < |line| && rightOf(line[k + 1]) then LinearScan(line, rightOf, k + 1) else k
  }

  /** The point is to the right of a first part of the list, and of nothing behind it. */
  ghost predicate Monotone(line: seq<Ptr>, rightOf: Ptr -> bool) {
    forall i, j :: 0 < i < j < |line| - 1 && rightOf(line[j]) ==> rightOf(line[i])
  }

  /** The table is only a hint: however the search got there, it found what the plain scan finds. */
  lemma {:induction false} BoundaryIsLinearScan(line: seq<Ptr>, rightOf: Ptr -> bool, from: nat, k: nat)
    requires Monotone(line, rightOf) && IsBoundary(line, rightOf, k) && from <= k
    ensures LinearScan(line, rightOf, from) == k
    decreases |line| - from
  {
    if from < k {
      BoundaryIsLinearScan(line, rightOf, from + 1, k);
    }
  }

  class BeachLine {
    const ELhashsize: nat
    const ELhash: array<Ptr>
    const xmin: real
    const deltax: real
    var ELleftend: Ptr
    var ELrightend: Ptr
    var ELleft: map<Ptr, Ptr>
    var ELright: map<Ptr, Ptr>
    var ELedge: map<Ptr, EdgeRef>
    var ELpm: map<Ptr, Side>
    var ELrefcnt: map<Ptr, int>
    var hfl: set<Ptr>          // the free list
    var pool: nat              // how many nodes have been allocated so far
    ghost var line: seq<Ptr>   // the list from end to end
    ghost var dead: set<Ptr>   // the nodes taken out of it that have not been used again

    ghost predicate Valid()
      reads this, ELhash
    {
      && deltax > 0.0 && ELhash.Length == ELhashsize >= 2
      && Ended(ELedge, line) && Distinct(line) && Linked(ELleft, ELright, line)
      && line[0] == ELleftend && line[|line| - 1] == ELrightend
      && (forall h :: h in line ==> h in ELpm)
      && PoolOk(line, dead, hfl, pool, ELedge)
      && HashOk(ELhash[..], ELrefcnt, line, dead)
    }

    constructor (sqrtNsites: nat, xmin: real, deltax: real)
      requires sqrtNsites >= 1 && deltax > 0.0
      ensures Valid() && line == [ELleftend, ELrightend] && fresh(ELhash) && dead == {} && hfl == {}
    {
      this.xmin, this.deltax := xmin, deltax;
      ELhashsize := 2 * sqrtNsites;
      ELhash := new Ptr[2 * sqrtNsites](_ => Null);
      var l, r := Node(0), Node(1);
      ELleftend, ELrightend, pool, hfl, dead := l, r, 2, {}, {};
      ELedge, ELpm, ELrefcnt := map[l := NoEdge, r := NoEdge], map[l := Le, r := Le], map[l := 0, r := 0];
      ELleft := map[l := Null, r := l];
      ELright := map[l := r, r := Null];
      line := [l, r];
      new;
      ELhash[0] := ELleftend;
      ELhash[ELhashsize - 1] := ELrightend;
      NoHints2(ELhash[..], l, r);
    }

    /** A node for a new halfedge, from the free list or newly allocated, linked to nothing yet. */
    method HEcreate(e: nat, pm: Side) returns (answer: Ptr)
      requires Valid()
      modifies this`ELedge, this`ELpm, this`ELrefcnt, this`hfl, this`pool
      ensures Valid() && answer.Node? && answer !in line && answer !in dead && answer !in hfl && answer.n < pool
      ensures ELedge == old(ELedge)[answer := Of(e)] && ELpm == old(ELpm)[answer := pm]
      ensures answer in ELrefcnt && ELrefcnt[answer] == 0
    {
      hide Ended, PoolOk, HashOk, Linked, Distinct;
      if hfl == {} {
        answer := Node(pool);
        TakeNew(line, dead, hfl, pool, ELedge);
        pool := pool + 1;
      } else {
        answer :| answer in hfl;
        hfl := hfl - {answer};
      }
      TakeNode(ELedge, ELhash[..], ELrefcnt, line, dead, old(hfl), old(pool), answer, e, hfl, pool);
      ELedge := ELedge[answer := Of(e)];
      ELpm := ELpm[answer := pm];
      ELrefcnt := ELrefcnt[answer := 0];
    }

    /** Links newHe in behind lb, the node at k. */
    method ELinsert(lb: Ptr, newHe: Ptr, ghost k: nat)
      requires Valid() && k + 1 < |line| && line[k] == lb
      requires newHe.Node? && newHe !in line && newHe !in dead && newHe !in hfl && newHe.n < pool
      requires newHe in ELedge && ELedge[newHe].Of? && newHe in ELpm && newHe in ELrefcnt && ELrefcnt[newHe] == 0
      modifies this`ELleft, this`ELright, this`line
      ensures Valid() && line == Inserted(old(line), k + 1, newHe)
    {
      hide Ended, PoolOk, HashOk, Linked, Distinct, Inserted;
      LinkedInsert(ELleft, ELright, line, k, newHe);
      AddNode(ELedge, ELhash[..], ELrefcnt, line, dead, hfl, pool, k, newHe);
      EndsInsert(line, k, newHe);
      ELleft := ELleft[newHe := lb];
      ELright := ELright[newHe := ELright[lb]];
      ELleft := ELleft[ELright[lb] := newHe];
      ELright := ELright[lb := newHe];
      line := Inserted(line, k + 1, newHe);
    }

    /** Takes he, the node at k, out of the list and marks it; hints at it may remain. */
    method ELdelete(he: Ptr, ghost k: nat)
      requires Valid() && 0 < k && k + 1 < |line| && line[k] == he
      modifies this`ELleft, this`ELright, this`ELedge, this`line, this`dead
      ensures Valid() && line == Without(old(line), k) && dead == old(dead) + {he}
      ensures ELedge == old(ELedge)[he := Deleted]
    {
      hide Ended, PoolOk, HashOk, Linked, Distinct, Without;
      LinkedRemove(ELleft, ELright, line, k);
      DropNode(ELleft, ELright, ELedge, ELhash[..], ELrefcnt, line, dead, hfl, pool, k);
      EndsRemove(line, k);
      ELright := ELright[ELleft[he] := ELright[he]];
      ELleft := ELleft[ELright[he] := ELleft[he]];
      ELedge := ELedge[he := Deleted];
      line := Without(line, k);
      dead := dead + {he};
    }

    /** The node bucket b points at. A deleted node is not returned, and freed with the last hint at it. */
    method ELgethash(b: int) returns (he: Ptr)
      requires Valid()
      modifies this`ELrefcnt, this`hfl, this`dead, ELhash
      ensures Valid()
      ensures he != Null ==> he in line && he in ELedge && ELedge[he] != Deleted
      ensures he == if 0 <= b < ELhashsize then ELhash[b] else Null
      ensures b == 0 || b == ELhashsize - 1 ==> he != Null
      ensures forall c :: 0 <= c < ELhashsize && c != b ==> ELhash[c] == old(ELhash[c])
      ensures dead <= old(dead) && hfl == old(hfl) + (old(dead) - dead)
    {
      if b < 0 || b >= ELhashsize {
        return Null;
      }
      hide Ended, PoolOk, HashOk, Linked, Distinct;
      he := ELhash[b];
      Pointed(ELedge, ELhash[..], ELrefcnt, line, dead, hfl, pool, b);
      if he == Null || ELedge[he] != Deleted {
        return;
      }
      Prune(b);
      he := Null;
    }

    /** Empties a bucket that points at a deleted node, and frees the node with its last hint. */
    method Prune(b: nat)
      requires Valid() && b < ELhashsize && ELhash[b] != Null && ELhash[b] in ELedge && ELedge[ELhash[b]] == Deleted
      modifies this`ELrefcnt, this`hfl, this`dead, ELhash
      ensures Valid() && ELhash[..] == old(ELhash[..])[b := Null] && 0 < b < ELhashsize - 1
      ensures dead <= old(dead) && hfl == old(hfl) + (old(dead) - dead)
    {
      hide Ended, PoolOk, HashOk, Linked, Distinct;
      var he := ELhash[b];
      DropHint(ELedge, ELhash[..], ELrefcnt, line, dead, hfl, pool, b);
      ELhash[b] := Null;
      assert ELhash[..] == old(ELhash[..])[b := Null];
      ELrefcnt := ELrefcnt[he := ELrefcnt[he] - 1];
      if ELrefcnt[he] == 0 {
        hfl := hfl + {he};
        dead := dead - {he};
      }
    }

    /**
     * The last node of the list that the point is to the right of: found from a hint by walking the list, in
     * whichever direction it takes. The hint for next time is put into the table.
     */
    method ELleftbnd(p: Point, rightOf: Ptr -> bool) returns (he: Ptr, ghost k: nat)
      requires Valid()
      modifies this`ELrefcnt, this`hfl, this`dead, ELhash
      ensures Valid() && IsBoundary(line, rightOf, k) && he == line[k]
      ensures dead <= old(dead) && hfl == old(hfl) + (old(dead) - dead)
    {
      hide Ended, PoolOk, HashOk, Linked, Distinct, Scaled;
      var bucket := Truncate(Scaled(p.x, xmin, deltax, ELhashsize));
      if bucket < 0 {
        bucket := 0;
      }
      if bucket >= ELhashsize {
        bucket := ELhashsize - 1;
      }
      he := NearestHint(bucket);
      he, k := Walk(he, rightOf);
      if bucket > 0 && bucket < ELhashsize - 1 {
        HintOk(ELedge, ELhash[..], ELrefcnt, line, dead, hfl, pool, bucket, he);
        if ELhash[bucket] != Null {
          ELrefcnt := ELrefcnt[ELhash[bucket] := ELrefcnt[ELhash[bucket]] - 1];
        }
        ghost var hash := ELhash[..];
        ELhash[bucket] := he;
        assert ELhash[..] == hash[bucket := he];
        ELrefcnt := ELrefcnt[ELhash[bucket] := ELrefcnt[ELhash[bucket]] + 1];
      }
    }

    /** The live node nearest to the bucket: there is one, as the outermost buckets always have one. */
    method NearestHint(bucket: nat) returns (he: Ptr)
      requires Valid() && bucket < ELhashsize
      modifies this`ELrefcnt, this`hfl, this`dead, ELhash
      ensures Valid() && he in line && (ELhash[bucket] == Null || ELhash[bucket] in line)
      ensures dead <= old(dead) && hfl == old(hfl) + (old(dead) - dead)
    {
      hide Ended, PoolOk, HashOk, Linked, Distinct;
      he := ELgethash(bucket);
      if he == Null {
        var i := 1;
        while true
          invariant Valid() && 1 <= i <= bucket
          invariant ELhash[bucket] == Null
          invariant dead <= old(dead) && hfl == old(hfl) + (old(dead) - dead)
          decreases bucket - i
        {
          he := ELgethash(bucket - i);
          if he != Null {
            break;
          }
          he := ELgethash(bucket + i);
          if he != Null {
            break;
          }
          i := i + 1;
        }
      }
    }

    /** From any node of the list to the boundary. */
    method Walk(from: Ptr, rightOf: Ptr -> bool) returns (he: Ptr, ghost k: nat)
      requires Valid() && from in line
      ensures IsBoundary(line, rightOf, k) && he == line[k]
    {
      hide Ended, PoolOk, HashOk;
      he := from;
      k :| 0 <= k < |line| && line[k] == from;
      TwoEnds(ELedge, line);
      if he == ELleftend || (he != ELrightend && rightOf(he)) {
        assert k + 1 < |line|;
        he, k := ELright[he], k + 1;
        while he != ELrightend && rightOf(he)
          invariant 0 < k < |line| && he == line[k]
          invariant k == 1 || rightOf(line[k - 1])
          decreases |line| - k
        {
          he, k := ELright[he], k + 1;
        }
        he, k := ELleft[he], k - 1;
      } else {
        assert 0 < k;
        he, k := ELleft[he], k - 1;
        while he != ELleftend && !rightOf(he)
          invariant k + 1 < |line| && he == line[k]
          invariant k + 2 == |line| || !rightOf(line[k + 1])
          decreases k
        {
          he, k := ELleft[he], k - 1;
        }
      }
    }
  }

  lemma NoHints2(hash: seq<Ptr>, l: Ptr, r: Ptr)
    requires |hash| >= 2 && l != Null && r != Null
    requires forall b :: 0 < b < |hash| - 1 ==> hash[b] == Null
    ensures Hints(hash, l) == 0 && Hints(hash, r) == 0
  {
    var inner := hash[1..|hash| - 1];
    assert l !in inner && r !in inner;
  }
}
