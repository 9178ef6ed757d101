/**
 * The mark-sweep collector of lib/memory.c and the byte accounting of its
 * `reallocate`.
 *
 * Objects are named by ids; the heap maps each live id to its header and
 * body, and the allocation list `vm.objects` is threaded through the `next`
 * links of the headers. A collection marks the roots, drains the gray stack
 * by blackening one object at a time, drops the intern-table entries of
 * unmarked strings and sweeps the list, freeing every unmarked object.
 */
module Memory {
  import opened Values
  import opened ObjectTypes
  import Growth

  const GC_HEAP_GROW_FACTOR: nat := 2

  // ---------------------------------------------------------------------
  // reallocate: when a change of the byte count starts a collection.
  // ---------------------------------------------------------------------

  /** reallocate as written: after any change of the count, growing, shrinking or freeing. */
  function CollectsAsWritten(bytesAllocated: int, nextGc: int, oldSize: nat, newSize: nat): bool {
    bytesAllocated + newSize - oldSize > nextGc
  }

  /** reallocate as the collector needs it: only a block that grows past the threshold starts a collection. */
  function Collects(bytesAllocated: int, nextGc: int, oldSize: nat, newSize: nat): bool {
    newSize > oldSize && bytesAllocated + newSize - oldSize > nextGc
  }

  /**
   * A collection starts because the count is over the threshold, and the
   * threshold is only raised once the sweep is over. Every object the sweep
   * frees goes through reallocate with a new size of 0; as written, such a
   * free starts a second collection in the middle of the sweep whenever the
   * count is still over the threshold after it, here with 2048 bytes
   * allocated, a threshold of 1024 and a 32-byte object freed.
   */
  lemma FreeDuringSweepCollects()
    ensures CollectsAsWritten(2048, 1024, 32, 0)
    ensures !Collects(2048, 1024, 32, 0)
  {
  }

  /** With the corrected test, freeing or shrinking a block never starts a collection, whatever the count. */
  lemma ShrinkNeverCollects(bytesAllocated: int, nextGc: int, oldSize: nat, newSize: nat)
    requires newSize <= oldSize
    ensures !Collects(bytesAllocated, nextGc, oldSize, newSize)
  {
  }

  /**
   * The corrected test differs from the code as written only on shrinks and
   * frees: it starts no collection the code as written does not, and on a
   * block that grows the two agree.
   */
  lemma CorrectedOnlyDropsShrinks(bytesAllocated: int, nextGc: int, oldSize: nat, newSize: nat)
    ensures Collects(bytesAllocated, nextGc, oldSize, newSize) ==> CollectsAsWritten(bytesAllocated, nextGc, oldSize, newSize)
    ensures newSize > oldSize ==>
      (Collects(bytesAllocated, nextGc, oldSize, newSize) <==> CollectsAsWritten(bytesAllocated, nextGc, oldSize, newSize))
  {
  }

  // ---------------------------------------------------------------------
  // Marking, as a function of the heap and the gray stack.
  // ---------------------------------------------------------------------

  /** Every id of ids names an object of the store. */
  ghost predicate AllIn(ids: seq<ObjId>, store: map<ObjId, HeapObject>) {
    forall x :: x in ids ==> x in store
  }

  /** Every object refers only to objects of the store. */
  ghost predicate ChildrenIn(store: map<ObjId, HeapObject>) {
    forall x :: x in store ==> AllIn(Children(store[x].body), store)
  }

  function MarkedIn(store: map<ObjId, HeapObject>): set<ObjId> {
    set x | x in store && store[x].isMarked
  }

  function UnmarkedIn(store: map<ObjId, HeapObject>): set<ObjId> {
    set x | x in store && !store[x].isMarked
  }

  /** The same objects with the same bodies and links; only mark bits may differ. */
  ghost predicate SameObjects(s: map<ObjId, HeapObject>, t: map<ObjId, HeapObject>) {
    s.Keys == t.Keys && forall x :: x in s ==> t[x].body == s[x].body && t[x].next == s[x].next
  }

  /** t holds the objects of s, with every mark of s still set. */
  ghost predicate MarksGrow(s: map<ObjId, HeapObject>, t: map<ObjId, HeapObject>) {
    SameObjects(s, t) && forall x :: x in s && s[x].isMarked ==> t[x].isMarked
  }

  /** The heap as marking sees it: the objects and the gray stack, bottom first. */
  datatype Marking = Marking(store: map<ObjId, HeapObject>, gray: seq<ObjId>)

  /** l_mark_object on a non-null pointer. */
  function MarkStep(m: Marking, id: ObjId): (r: Marking)
    ensures MarksGrow(m.store, r.store)
  {
    if id !in m.store || m.store[id].isMarked then m
    else Marking(m.store[id := m.store[id].(isMarked := true)], m.gray + [id])
  }

  /** l_mark_object on each of ids, first to last. */
  function MarkAll(m: Marking, ids: seq<ObjId>): (r: Marking)
    ensures MarksGrow(m.store, r.store)
    decreases |ids|
  {
    if ids == [] then m
    else
      var last := ids[|ids| - 1];
      assert ids == ids[..|ids| - 1] + [last];
      MarkStep(MarkAll(m, ids[..|ids| - 1]), last)
  }

  /**
   * l_mark_object: the object ends up marked; it is pushed on the gray stack
   * exactly when it was not marked before, and then it is the one object
   * that changes from white to gray.
   */
  lemma MarkStepEffect(m: Marking, id: ObjId)
    requires id in m.store
    ensures MarkedIn(MarkStep(m, id).store) == MarkedIn(m.store) + {id}
    ensures UnmarkedIn(MarkStep(m, id).store) == UnmarkedIn(m.store) - {id}
    ensures MarkStep(m, id).gray == if m.store[id].isMarked then m.gray else m.gray + [id]
    ensures |UnmarkedIn(MarkStep(m, id).store)| + |MarkStep(m, id).gray| == |UnmarkedIn(m.store)| + |m.gray|
  {
    var r := MarkStep(m, id);
    assert MarkedIn(r.store) == MarkedIn(m.store) + {id};
    assert UnmarkedIn(r.store) == UnmarkedIn(m.store) - {id};
  }

  /** Marking a sequence of objects marks exactly those objects, and unmarks none. */
  lemma {:induction false} MarkAllMarks(m: Marking, ids: seq<ObjId>)
    requires AllIn(ids, m.store)
    ensures MarkedIn(MarkAll(m, ids).store) == MarkedIn(m.store) + set x | x in ids
    decreases |ids|
  {
    if ids != [] {
      var init, last := ids[..|ids| - 1], ids[|ids| - 1];
      assert ids == init + [last];
      MarkAllMarks(m, init);
      MarkStepEffect(MarkAll(m, init), last);
    }
  }

  /** Membership in a non-empty sequence: in its prefix, or its last element. */
  lemma InPrefixOrLast(ids: seq<ObjId>)
    requires ids != []
    ensures forall x :: x in ids <==> x in ids[..|ids| - 1] || x == ids[|ids| - 1]
  {
    assert ids == ids[..|ids| - 1] + [ids[|ids| - 1]];
  }

  /** Marking only pushes: what the gray stack held stays at its bottom. */
  lemma {:induction false} MarkAllKeepsGray(m: Marking, ids: seq<ObjId>)
    requires AllIn(ids, m.store)
    ensures |MarkAll(m, ids).gray| >= |m.gray| && MarkAll(m, ids).gray[..|m.gray|] == m.gray
    decreases |ids|
  {
    if ids != [] {
      var init := ids[..|ids| - 1];
      MarkAllKeepsGray(m, init);
      var mid := MarkAll(m, init);
      assert mid.gray[..|m.gray|] == m.gray;
    }
  }

  /** The objects marking pushes are exactly those of the sequence that were white. */
  lemma {:induction false} MarkAllPushes(m: Marking, ids: seq<ObjId>)
    requires AllIn(ids, m.store)
    ensures |MarkAll(m, ids).gray| >= |m.gray|
    ensures forall x :: x in MarkAll(m, ids).gray[|m.gray|..] <==> x in ids && x in UnmarkedIn(m.store)
    decreases |ids|
  {
    MarkAllKeepsGray(m, ids);
    if ids != [] {
      var init, last := ids[..|ids| - 1], ids[|ids| - 1];
      InPrefixOrLast(ids);
      MarkAllPushes(m, init);
      MarkAllKeepsGray(m, init);
      var mid := MarkAll(m, init);
      MarkAllMarks(m, init);
      var r := MarkStep(mid, last);
      if mid.store[last].isMarked {
        assert last in MarkedIn(mid.store);
      } else {
        assert r.gray[|m.gray|..] == mid.gray[|m.gray|..] + [last];
        assert last !in MarkedIn(mid.store);
      }
    }
  }

  /**
   * Marking a sequence of objects pushes onto the gray stack, above what it
   * held, exactly the objects of the sequence that were white.
   */
  lemma MarkAllGray(m: Marking, ids: seq<ObjId>)
    requires AllIn(ids, m.store)
    ensures |MarkAll(m, ids).gray| >= |m.gray| && MarkAll(m, ids).gray[..|m.gray|] == m.gray
    ensures forall x :: x in MarkAll(m, ids).gray[|m.gray|..] <==> x in ids && x in UnmarkedIn(m.store)
  {
    MarkAllKeepsGray(m, ids);
    MarkAllPushes(m, ids);
  }

  /**
   * Each object goes from white to gray at most once: the number of white
   * objects plus the depth of the gray stack is the same after marking.
   */
  lemma {:induction false} MarkAllCount(m: Marking, ids: seq<ObjId>)
    requires AllIn(ids, m.store)
    ensures |UnmarkedIn(MarkAll(m, ids).store)| + |MarkAll(m, ids).gray| == |UnmarkedIn(m.store)| + |m.gray|
    decreases |ids|
  {
    if ids != [] {
      var init, last := ids[..|ids| - 1], ids[|ids| - 1];
      assert ids == init + [last];
      MarkAllCount(m, init);
      MarkStepEffect(MarkAll(m, init), last);
    }
  }

  /** Marking a + b marks a, then b. */
  lemma {:induction false} MarkAllAppend(m: Marking, a: seq<ObjId>, b: seq<ObjId>)
    ensures MarkAll(m, a + b) == MarkAll(MarkAll(m, a), b)
    decreases |b|
  {
    if b == [] {
      assert a + b == a;
    } else {
      var init := b[..|b| - 1];
      assert (a + b)[..|a + b| - 1] == a + init;
      MarkAllAppend(m, a, init);
    }
  }

  /** Marking objects that are all marked already changes nothing. */
  lemma {:induction false} MarkAllMarked(m: Marking, ids: seq<ObjId>)
    requires AllIn(ids, m.store) && forall x :: x in ids ==> m.store[x].isMarked
    ensures MarkAll(m, ids) == m
    decreases |ids|
  {
    if ids != [] {
      MarkAllMarked(m, ids[..|ids| - 1]);
    }
  }

  /** Marking is idempotent: marking the same objects a second time changes nothing. */
  lemma MarkAllIdempotent(m: Marking, ids: seq<ObjId>)
    requires AllIn(ids, m.store)
    ensures MarkAll(MarkAll(m, ids), ids) == MarkAll(m, ids)
  {
    var r := MarkAll(m, ids);
    MarkAllMarks(m, ids);
    forall x | x in ids ensures r.store[x].isMarked {
      assert x in MarkedIn(r.store);
    }
    MarkAllMarked(r, ids);
  }

  // ---------------------------------------------------------------------
  // Tracing: popping and blackening until the gray stack is empty.
  // ---------------------------------------------------------------------

  /** The gray stack holds objects of the store. */
  ghost predicate GrayIn(m: Marking) {
    AllIn(m.gray, m.store)
  }

  /** The object on top of the gray stack. */
  function Top(m: Marking): ObjId
    requires m.gray != []
  {
    m.gray[|m.gray| - 1]
  }

  /** The heap once the top of the gray stack is popped. */
  function Pop(m: Marking): (r: Marking)
    requires m.gray != []
    ensures r.store == m.store && r.gray + [Top(m)] == m.gray
  {
    Marking(m.store, m.gray[..|m.gray| - 1])
  }

  /**
   * One pass of _trace_references: pop the top gray object and blacken it by
   * marking its children. The number of white objects plus the depth of the
   * gray stack drops by one.
   */
  function Blacken(m: Marking): (r: Marking)
    requires m.gray != [] && GrayIn(m) && AllIn(Children(m.store[Top(m)].body), m.store)
    ensures GrayIn(r) && MarksGrow(m.store, r.store)
    ensures |UnmarkedIn(r.store)| + |r.gray| < |UnmarkedIn(m.store)| + |m.gray|
  {
    var popped := Pop(m);
    var kids := Children(m.store[Top(m)].body);
    MarkAllCount(popped, kids);
    MarkAllGray(popped, kids);
    var r := MarkAll(popped, kids);
    assert GrayIn(r) by {
      var k := |popped.gray|;
      assert r.gray == popped.gray + r.gray[k..];
      assert AllIn(popped.gray, m.store) by {
        forall y | y in popped.gray ensures y in m.store {
          assert y in m.gray;
        }
      }
    }
    r
  }

  /** Changing only mark bits keeps every child pointer inside the store. */
  lemma ChildrenInKept(s: map<ObjId, HeapObject>, t: map<ObjId, HeapObject>)
    requires ChildrenIn(s) && SameObjects(s, t)
    ensures ChildrenIn(t)
  {
    forall x | x in t ensures AllIn(Children(t[x].body), t) {
      assert t[x].body == s[x].body;
    }
  }

  /**
   * _trace_references from m: blacken the top of the gray stack until the
   * stack is empty. Each pass turns a white object gray or shrinks the
   * stack, so tracing ends.
   */
  function Trace(m: Marking): (r: Marking)
    requires ChildrenIn(m.store) && GrayIn(m)
    ensures r.gray == [] && MarksGrow(m.store, r.store)
    decreases |UnmarkedIn(m.store)| + |m.gray|
  {
    if m.gray == [] then m
    else
      var r := Blacken(m);
      ChildrenInKept(m.store, r.store);
      Trace(r)
  }

  /** One pass of the tracing loop: Trace goes on from Blacken(m), which keeps the loop's invariant. */
  lemma TraceStep(m: Marking)
    requires m.gray != [] && ChildrenIn(m.store) && GrayIn(m)
    ensures Top(m) in m.store && AllIn(Children(m.store[Top(m)].body), m.store)
    ensures Blacken(m) == MarkAll(Pop(m), Children(m.store[Top(m)].body))
    ensures Trace(m) == Trace(Blacken(m))
    ensures ChildrenIn(Blacken(m).store) && GrayIn(Blacken(m))
    ensures |UnmarkedIn(Blacken(m).store)| + |Blacken(m).gray| < |UnmarkedIn(m.store)| + |m.gray|
  {
    assert Top(m) in m.gray;
    ChildrenInKept(m.store, Blacken(m).store);
  }

  /** Popping a gray stack held in the first n slots of an array. */
  lemma PopPrefix(store: map<ObjId, HeapObject>, a: seq<ObjId>, n: nat)
    requires 0 < n <= |a|
    ensures Pop(Marking(store, a[..n])) == Marking(store, a[..n - 1])
    ensures Top(Marking(store, a[..n])) == a[n - 1]
  {
    assert a[..n][..n - 1] == a[..n - 1];
  }

  /** The number of white objects plus the depth of the gray stack. */
  function Measure(m: Marking): nat {
    |UnmarkedIn(m.store)| + |m.gray|
  }

  /** What _trace_references keeps while it runs: the heap is well formed, and tracing from it ends where tracing from m0 does. */
  ghost predicate TraceInv(m: Marking, m0: Marking) {
    ChildrenIn(m.store) && GrayIn(m) && ChildrenIn(m0.store) && GrayIn(m0) && Trace(m) == Trace(m0)
  }

  /** The object on top of the gray stack is in the store, with its children. */
  lemma TraceGuard(m: Marking)
    requires m.gray != [] && ChildrenIn(m.store) && GrayIn(m)
    ensures Top(m) in m.store && AllIn(Children(m.store[Top(m)].body), m.store)
  {
    assert Top(m) in m.gray;
  }

  /** A pass of the tracing loop keeps its invariant and lowers the measure. */
  lemma TraceLoopStep(m: Marking, m0: Marking, after: Marking)
    requires m.gray != [] && TraceInv(m, m0)
    requires Top(m) in m.store && after == MarkAll(Pop(m), Children(m.store[Top(m)].body))
    ensures TraceInv(after, m0) && Measure(after) < Measure(m)
  {
    TraceStep(m);
  }

  /** When the gray stack is empty, the heap is the result of tracing. */
  lemma TraceDone(m: Marking, m0: Marking)
    requires TraceInv(m, m0) && m.gray == []
    ensures m == Trace(m0)
  {
  }

  /** Gray objects are marked. */
  ghost predicate GrayMarked(m: Marking) {
    forall x :: x in m.gray ==> x in m.store && m.store[x].isMarked
  }

  /** Every child of x is marked. */
  ghost predicate Blackened(store: map<ObjId, HeapObject>, x: ObjId)
    requires x in store
  {
    forall c :: c in Children(store[x].body) ==> c in store && store[c].isMarked
  }

  /** A marked object that is no longer gray (black) has only marked children. */
  ghost predicate BlackClosed(m: Marking) {
    forall x :: x in m.store && m.store[x].isMarked && x !in m.gray ==> Blackened(m.store, x)
  }

  /** The tri-colour invariant of the tracing loop. */
  ghost predicate Tricolour(m: Marking) {
    GrayMarked(m) && BlackClosed(m)
  }

  /** What one pass of blackening pushes: the white children of the popped object. */
  lemma BlackenPushes(m: Marking)
    requires m.gray != [] && GrayIn(m) && AllIn(Children(m.store[Top(m)].body), m.store)
    ensures var r := Blacken(m);
      |r.gray| >= |m.gray| - 1 && r.gray[..|m.gray| - 1] == Pop(m).gray
      && (forall y :: y in r.gray[|m.gray| - 1..] <==> y in Children(m.store[Top(m)].body) && y in UnmarkedIn(m.store))
      && MarkedIn(r.store) == MarkedIn(m.store) + set c | c in Children(m.store[Top(m)].body)
  {
    MarkAllGray(Pop(m), Children(m.store[Top(m)].body));
    MarkAllMarks(Pop(m), Children(m.store[Top(m)].body));
  }

  /** A pass of blackening keeps gray objects marked. */
  lemma BlackenKeepsGrayMarked(m: Marking)
    requires m.gray != [] && GrayIn(m) && AllIn(Children(m.store[Top(m)].body), m.store)
    requires GrayMarked(m)
    ensures GrayMarked(Blacken(m))
  {
    var r := Blacken(m);
    var k := |m.gray| - 1;
    BlackenPushes(m);
    forall y | y in r.gray ensures y in r.store && r.store[y].isMarked {
      assert r.gray == r.gray[..k] + r.gray[k..];
      if y in r.gray[..k] {
        assert y in m.gray;
        assert y in MarkedIn(m.store);
      }
      assert y in MarkedIn(r.store);
    }
  }

  /** A pass of blackening keeps black objects' children marked, and the popped object becomes black. */
  lemma BlackenKeepsBlackClosed(m: Marking)
    requires m.gray != [] && GrayIn(m) && AllIn(Children(m.store[Top(m)].body), m.store)
    requires GrayMarked(m) && BlackClosed(m)
    ensures BlackClosed(Blacken(m))
  {
    var r := Blacken(m);
    var x := Top(m);
    var k := |m.gray| - 1;
    BlackenPushes(m);
    assert r.gray == Pop(m).gray + r.gray[k..] by {
      assert r.gray == r.gray[..k] + r.gray[k..];
    }
    forall y | y in r.store && r.store[y].isMarked && y !in r.gray ensures Blackened(r.store, y) {
      if y == x {
        forall c | c in Children(r.store[y].body) ensures c in r.store && r.store[c].isMarked {
          assert c in MarkedIn(r.store);
        }
      } else {
        assert y in MarkedIn(r.store);
        assert y in MarkedIn(m.store);
        assert y !in m.gray;
        assert Blackened(m.store, y);
      }
    }
  }

  /** When tracing ends from a tri-coloured heap, every child of a marked object is marked. */
  lemma {:induction false} TraceCloses(m: Marking)
    requires ChildrenIn(m.store) && GrayIn(m) && Tricolour(m)
    ensures forall x :: x in Trace(m).store && Trace(m).store[x].isMarked ==> Blackened(Trace(m).store, x)
    decreases |UnmarkedIn(m.store)| + |m.gray|
  {
    if m.gray != [] {
      var r := Blacken(m);
      BlackenKeepsGrayMarked(m);
      BlackenKeepsBlackClosed(m);
      ChildrenInKept(m.store, r.store);
      TraceCloses(r);
    }
  }

  // ---------------------------------------------------------------------
  // Reachability: what a collection must keep.
  // ---------------------------------------------------------------------

  /** b is a child of a, an object of the store. */
  ghost predicate Edge(store: map<ObjId, HeapObject>, a: ObjId, b: ObjId) {
    a in store && b in Children(store[a].body)
  }

  /** p is a chain of objects of the store, each a child of the one before it. */
  ghost predicate IsPath(store: map<ObjId, HeapObject>, p: seq<ObjId>) {
    |p| >= 1
    && (forall i :: 0 <= i < |p| ==> p[i] in store)
    && forall i :: 0 <= i < |p| - 1 ==> Edge(store, p[i], p[i + 1])
  }

  /** x can be reached from one of the roots by following child pointers. */
  ghost predicate Reaches(store: map<ObjId, HeapObject>, roots: seq<ObjId>, x: ObjId) {
    exists p :: IsPath(store, p) && p[0] in roots && p[|p| - 1] == x
  }

  /** s holds every child of each of its objects. */
  ghost predicate Closed(store: map<ObjId, HeapObject>, s: set<ObjId>) {
    forall x :: x in s ==> x in store && forall c :: c in Children(store[x].body) ==> c in s
  }

  /** Every root of the store is reachable. */
  lemma RootReaches(store: map<ObjId, HeapObject>, roots: seq<ObjId>, x: ObjId)
    requires x in roots && x in store
    ensures Reaches(store, roots, x)
  {
    assert IsPath(store, [x]);
  }

  /** A child of a reachable object is reachable. */
  lemma ChildReaches(store: map<ObjId, HeapObject>, roots: seq<ObjId>, x: ObjId, c: ObjId)
    requires Reaches(store, roots, x) && x in store && c in store && c in Children(store[x].body)
    ensures Reaches(store, roots, c)
  {
    var p :| IsPath(store, p) && p[0] in roots && p[|p| - 1] == x;
    var q := p + [c];
    assert q[|q| - 1] == c && q[0] == p[0];
    assert IsPath(store, q) by {
      forall i | 0 <= i < |q| - 1 ensures Edge(store, q[i], q[i + 1]) {
        if i < |p| - 1 {
          assert q[i] == p[i] && q[i + 1] == p[i + 1];
        }
      }
    }
  }

  /** Every object of a path that starts inside a closed set stays inside it. */
  lemma {:induction false} PathStaysIn(store: map<ObjId, HeapObject>, p: seq<ObjId>, s: set<ObjId>)
    requires IsPath(store, p) && p[0] in s && Closed(store, s)
    ensures p[|p| - 1] in s
    decreases |p|
  {
    if |p| > 1 {
      var init := p[..|p| - 1];
      assert IsPath(store, init) by {
        forall i | 0 <= i < |init| - 1 ensures Edge(store, init[i], init[i + 1]) {
          assert init[i] == p[i] && init[i + 1] == p[i + 1];
        }
      }
      PathStaysIn(store, init, s);
      assert Edge(store, p[|p| - 2], p[|p| - 1]);
    }
  }

  /** A closed set that holds the roots holds every reachable object. */
  lemma ReachableInClosed(store: map<ObjId, HeapObject>, roots: seq<ObjId>, s: set<ObjId>, x: ObjId)
    requires Closed(store, s) && (forall r :: r in roots ==> r in s) && Reaches(store, roots, x)
    ensures x in s
  {
    var p :| IsPath(store, p) && p[0] in roots && p[|p| - 1] == x;
    PathStaysIn(store, p, s);
  }

  /** Reachability looks only at bodies, not at mark bits or links. */
  lemma {:induction false} ReachesSameObjects(s: map<ObjId, HeapObject>, t: map<ObjId, HeapObject>, roots: seq<ObjId>, x: ObjId)
    requires SameObjects(s, t) && Reaches(s, roots, x)
    ensures Reaches(t, roots, x)
  {
    var p :| IsPath(s, p) && p[0] in roots && p[|p| - 1] == x;
    assert IsPath(t, p) by {
      forall i | 0 <= i < |p| - 1 ensures Edge(t, p[i], p[i + 1]) {
        assert Edge(s, p[i], p[i + 1]);
      }
    }
  }

  /** The objects of the store reachable from the roots: what a collection keeps. */
  ghost function Reachable(store: map<ObjId, HeapObject>, roots: seq<ObjId>): set<ObjId> {
    set x | x in store && Reaches(store, roots, x)
  }

  /** Every marked object is reachable from the roots in the original heap. */
  ghost predicate MarkedReach(store0: map<ObjId, HeapObject>, roots: seq<ObjId>, m: Marking) {
    forall x :: x in m.store && m.store[x].isMarked ==> Reaches(store0, roots, x)
  }

  /** A pass of blackening marks only reachable objects. */
  lemma BlackenMarksReachable(store0: map<ObjId, HeapObject>, roots: seq<ObjId>, m: Marking)
    requires m.gray != [] && GrayIn(m) && AllIn(Children(m.store[Top(m)].body), m.store)
    requires SameObjects(store0, m.store) && GrayMarked(m) && MarkedReach(store0, roots, m)
    ensures MarkedReach(store0, roots, Blacken(m))
  {
    var r := Blacken(m);
    var x := Top(m);
    BlackenPushes(m);
    assert Reaches(store0, roots, x) by {
      assert x in m.gray;
    }
    forall y | y in r.store && r.store[y].isMarked ensures Reaches(store0, roots, y) {
      assert y in MarkedIn(r.store);
      if y !in MarkedIn(m.store) {
        assert y in Children(store0[x].body);
        ChildReaches(store0, roots, x, y);
      }
    }
  }

  /** Tracing marks only reachable objects. */
  lemma {:induction false} TraceMarksReachable(store0: map<ObjId, HeapObject>, roots: seq<ObjId>, m: Marking)
    requires ChildrenIn(m.store) && GrayIn(m) && GrayMarked(m)
    requires SameObjects(store0, m.store) && MarkedReach(store0, roots, m)
    ensures MarkedReach(store0, roots, Trace(m))
    decreases |UnmarkedIn(m.store)| + |m.gray|
  {
    if m.gray != [] {
      var r := Blacken(m);
      BlackenMarksReachable(store0, roots, m);
      BlackenKeepsGrayMarked(m);
      ChildrenInKept(m.store, r.store);
      TraceMarksReachable(store0, roots, r);
    }
  }

  /**
   * Marking the roots of a heap with no marks and an empty gray stack
   * marks exactly the roots and leaves them all gray, which satisfies the
   * tri-colour invariant.
   */
  lemma MarkRootsStart(store: map<ObjId, HeapObject>, roots: seq<ObjId>)
    requires AllIn(roots, store) && MarkedIn(store) == {}
    ensures var m := MarkAll(Marking(store, []), roots);
      GrayIn(m) && Tricolour(m) && MarkedReach(store, roots, m)
  {
    var m0 := Marking(store, []);
    var m := MarkAll(m0, roots);
    MarkAllMarks(m0, roots);
    MarkAllGray(m0, roots);
    assert m.gray[|m0.gray|..] == m.gray;
    forall x | x in m.store && m.store[x].isMarked ensures x in roots && x in m.gray && Reaches(store, roots, x) {
      assert x in MarkedIn(m.store);
      assert x in UnmarkedIn(store);
      RootReaches(store, roots, x);
    }
    forall x | x in m.gray ensures x in m.store && m.store[x].isMarked {
      assert x in MarkedIn(m.store);
    }
  }

  /**
   * Marking the roots and tracing from a heap with no marks and an empty
   * gray stack marks exactly the objects reachable from the roots.
   */
  lemma MarkingFindsReachable(store: map<ObjId, HeapObject>, roots: seq<ObjId>)
    requires ChildrenIn(store) && AllIn(roots, store) && MarkedIn(store) == {}
    ensures var m := MarkAll(Marking(store, []), roots);
      ChildrenIn(m.store) && GrayIn(m)
      && MarkedIn(Trace(m).store) == Reachable(store, roots) && SameObjects(store, Trace(m).store)
      && forall x :: x in Trace(m).store && Trace(m).store[x].isMarked ==> Blackened(Trace(m).store, x)
  {
    var m := MarkAll(Marking(store, []), roots);
    MarkRootsStart(store, roots);
    ChildrenInKept(store, m.store);
    var r := Trace(m);
    TraceCloses(m);
    TraceMarksReachable(store, roots, m);
    MarkAllMarks(Marking(store, []), roots);
    var marked := MarkedIn(r.store);
    assert Closed(store, marked) by {
      forall x | x in marked ensures x in store && forall c :: c in Children(store[x].body) ==> c in marked {
        assert Blackened(r.store, x);
        assert r.store[x].body == store[x].body;
      }
    }
    forall x | x in store && Reaches(store, roots, x) ensures x in marked {
      forall y | y in roots ensures y in marked {
        assert y in MarkedIn(m.store);
      }
      ReachableInClosed(store, roots, marked, x);
    }
  }

  // ---------------------------------------------------------------------
  // The allocation list and what the sweep leaves of it.
  // ---------------------------------------------------------------------

  /** The head of a list of objects, or null for the empty list. */
  function First(s: seq<ObjId>): (r: Option<ObjId>)
    ensures r.None? <==> s == []
  {
    if s == [] then None else Some(s[0])
  }

  /** No object occurs twice. */
  ghost predicate Distinct(s: seq<ObjId>) {
    forall i, j :: 0 <= i < j < |s| ==> s[i] != s[j]
  }

  /** Following `next` from head visits the objects of s in order and arrives at end. */
  ghost predicate Segment(store: map<ObjId, HeapObject>, head: Option<ObjId>, s: seq<ObjId>, end: Option<ObjId>)
    decreases |s|
  {
    if s == [] then head == end
    else head == Some(s[0]) && s[0] in store && Segment(store, store[s[0]].next, s[1..], end)
  }

  /**
   * The allocation list: the store holds exactly the objects of s, each
   * once, and following `next` from head visits them in order and ends at
   * null.
   */
  ghost predicate Linked(store: map<ObjId, HeapObject>, head: Option<ObjId>, s: seq<ObjId>) {
    (forall x :: x in store <==> x in s) && Distinct(s) && Segment(store, head, s, None)
  }

  /** A segment depends only on the `next` links of its own objects. */
  lemma {:induction false} SegmentFrame(store: map<ObjId, HeapObject>, t: map<ObjId, HeapObject>, head: Option<ObjId>, s: seq<ObjId>, end: Option<ObjId>)
    requires Segment(store, head, s, end)
    requires forall x :: x in s ==> x in store && x in t && t[x].next == store[x].next
    ensures Segment(t, head, s, end)
    decreases |s|
  {
    if s != [] {
      assert s[0] in s;
      forall x | x in s[1..] ensures x in store && x in t && t[x].next == store[x].next {
        assert x in s;
      }
      SegmentFrame(store, t, store[s[0]].next, s[1..], end);
    }
  }

  /** The objects of a segment are in the store. */
  lemma {:induction false} SegmentInStore(store: map<ObjId, HeapObject>, head: Option<ObjId>, s: seq<ObjId>, end: Option<ObjId>)
    requires Segment(store, head, s, end)
    ensures forall x :: x in s ==> x in store
    decreases |s|
  {
    if s != [] {
      SegmentInStore(store, store[s[0]].next, s[1..], end);
      assert forall x :: x in s ==> x == s[0] || x in s[1..];
    }
  }

  /** A segment from head to mid followed by one from mid to end is one segment from head to end. */
  lemma {:induction false} SegmentAppend(store: map<ObjId, HeapObject>, head: Option<ObjId>, a: seq<ObjId>, mid: Option<ObjId>, b: seq<ObjId>, end: Option<ObjId>)
    requires Segment(store, head, a, mid) && Segment(store, mid, b, end)
    ensures Segment(store, head, a + b, end)
    decreases |a|
  {
    if a == [] {
      assert a + b == b;
    } else {
      assert (a + b)[1..] == a[1..] + b;
      SegmentAppend(store, store[a[0]].next, a[1..], mid, b, end);
    }
  }

  /** Pointing the last object of a segment somewhere else moves the segment's end there. */
  lemma {:induction false} SegmentRetarget(store: map<ObjId, HeapObject>, head: Option<ObjId>, s: seq<ObjId>, end: Option<ObjId>, newEnd: Option<ObjId>)
    requires Segment(store, head, s, end) && s != [] && s[|s| - 1] !in s[..|s| - 1]
    ensures s[|s| - 1] in store
    ensures var last := s[|s| - 1];
      Segment(store[last := store[last].(next := newEnd)], head, s, newEnd)
    decreases |s|
  {
    var last := s[|s| - 1];
    if |s| > 1 {
      assert s[0] in s[..|s| - 1];
      assert s[1..][|s| - 2] == last && s[1..][..|s| - 2] == s[1..|s| - 1];
      var middle, init := s[1..|s| - 1], s[..|s| - 1];
      assert last !in middle by {
        forall i | 0 <= i < |middle| ensures middle[i] != last {
          assert middle[i] == init[i + 1];
        }
      }
      SegmentRetarget(store, store[s[0]].next, s[1..], end, newEnd);
    }
  }

  /** Removing the first object of the second part keeps a list without repeats. */
  lemma DistinctDrop(a: seq<ObjId>, b: seq<ObjId>)
    requires Distinct(a + b) && b != []
    ensures Distinct(a + b[1..])
    ensures b[0] !in a && b[0] !in b[1..]
  {
    var s, u := a + b, a + b[1..];
    forall i, j | 0 <= i < j < |u| ensures u[i] != u[j] {
      var i' := if i < |a| then i else i + 1;
      var j' := if j < |a| then j else j + 1;
      assert u[i] == s[i'] && u[j] == s[j'];
    }
    forall i | 0 <= i < |a| ensures a[i] != b[0] {
      assert s[i] == a[i] && s[|a|] == b[0];
    }
    forall i | 0 <= i < |b| - 1 ensures b[1..][i] != b[0] {
      assert s[|a| + 1 + i] == b[1..][i] && s[|a|] == b[0];
    }
  }

  /** The two parts of a list without repeats have no repeats and nothing in common. */
  lemma DistinctParts(a: seq<ObjId>, b: seq<ObjId>)
    requires Distinct(a + b)
    ensures Distinct(a) && Distinct(b)
    ensures forall x :: x in a ==> x !in b
  {
    var s := a + b;
    forall i, j | 0 <= i < j < |a| ensures a[i] != a[j] {
      assert s[i] == a[i] && s[j] == a[j];
    }
    forall i, j | 0 <= i < j < |b| ensures b[i] != b[j] {
      assert s[|a| + i] == b[i] && s[|a| + j] == b[j];
    }
    forall x | x in a ensures x !in b {
      var i :| 0 <= i < |a| && a[i] == x;
      forall j | 0 <= j < |b| ensures b[j] != x {
        assert s[i] == a[i] && s[|a| + j] == b[j];
      }
    }
  }

  /** Changing mark bits keeps the list linked. */
  lemma LinkedSameObjects(store: map<ObjId, HeapObject>, t: map<ObjId, HeapObject>, head: Option<ObjId>, s: seq<ObjId>)
    requires Linked(store, head, s) && SameObjects(store, t)
    ensures Linked(t, head, s)
  {
    SegmentFrame(store, t, head, s, None);
  }

  /**
   * The sweep keeps a marked object u, the first one not yet visited: the
   * kept part grows by u, whose mark is cleared, and the cursor moves on.
   */
  lemma SweepKeeps(store: map<ObjId, HeapObject>, head: Option<ObjId>, kept: seq<ObjId>, rest: seq<ObjId>)
    requires rest != [] && Distinct(kept + rest)
    requires Segment(store, head, kept, Some(rest[0])) && Segment(store, Some(rest[0]), rest, None)
    ensures rest[0] in store
    ensures var u := rest[0];
      var t := store[u := store[u].(isMarked := false)];
      Segment(t, head, kept + [u], store[u].next) && Segment(t, store[u].next, rest[1..], None)
  {
    var u := rest[0];
    var t := store[u := store[u].(isMarked := false)];
    DistinctDrop(kept, rest);
    SegmentInStore(store, head, kept, Some(u));
    SegmentInStore(store, Some(u), rest, None);
    SegmentFrame(store, t, head, kept, Some(u));
    SegmentFrame(store, t, store[u].next, rest[1..], None);
    assert Segment(t, Some(u), [u], store[u].next) by {
      assert [u][1..] == [];
    }
    SegmentAppend(t, head, kept, Some(u), [u], store[u].next);
  }

  /**
   * The sweep frees a white object u, the first one not yet visited: the
   * last kept object (or the list head) is pointed past u, and u leaves
   * the store.
   */
  lemma SweepUnlinks(store: map<ObjId, HeapObject>, head: Option<ObjId>, kept: seq<ObjId>, rest: seq<ObjId>)
    requires rest != [] && Distinct(kept + rest)
    requires Segment(store, head, kept, Some(rest[0])) && Segment(store, Some(rest[0]), rest, None)
    ensures rest[0] in store && forall x :: x in kept ==> x in store
    ensures var u, next := rest[0], store[rest[0]].next;
      var linked := if kept == [] then store else store[kept[|kept| - 1] := store[kept[|kept| - 1]].(next := next)];
      var t := linked - {u};
      Segment(t, if kept == [] then next else head, kept, next) && Segment(t, next, rest[1..], None)
      && Distinct(kept + rest[1..])
  {
    SegmentInStore(store, Some(rest[0]), rest, None);
    SegmentInStore(store, head, kept, Some(rest[0]));
    var u, next := rest[0], store[rest[0]].next;
    DistinctDrop(kept, rest);
    DistinctParts(kept, rest[1..]);
    var linked := if kept == [] then store else store[kept[|kept| - 1] := store[kept[|kept| - 1]].(next := next)];
    var t := linked - {u};
    if kept != [] {
      var last := kept[|kept| - 1];
      assert kept == kept[..|kept| - 1] + [last];
      DistinctParts(kept[..|kept| - 1], [last]);
      SegmentRetarget(store, head, kept, Some(u), next);
      SegmentFrame(linked, t, head, kept, next);
    }
    forall x | x in rest[1..] ensures x in store && x in t && t[x].next == store[x].next {
      assert x in rest;
    }
    SegmentFrame(store, t, next, rest[1..], None);
  }

  /** The objects of s that are in live, in the order of s. */
  function Keep(s: seq<ObjId>, live: set<ObjId>): (r: seq<ObjId>)
    ensures forall x :: x in r <==> x in s && x in live
    ensures |r| <= |s|
    decreases |s|
  {
    if s == [] then []
    else
      var last := s[|s| - 1];
      InPrefixOrLast(s);
      Keep(s[..|s| - 1], live) + (if last in live then [last] else [])
  }

  /** Keeping the objects of a list without repeats gives a list without repeats. */
  lemma {:induction false} KeepDistinct(s: seq<ObjId>, live: set<ObjId>)
    requires Distinct(s)
    ensures Distinct(Keep(s, live))
    decreases |s|
  {
    if s != [] {
      var init, last := s[..|s| - 1], s[|s| - 1];
      assert Distinct(init) by {
        forall i, j | 0 <= i < j < |init| ensures init[i] != init[j] {
          assert init[i] == s[i] && init[j] == s[j];
        }
      }
      KeepDistinct(init, live);
      assert last !in init by {
        forall i | 0 <= i < |init| ensures init[i] != last {
          assert init[i] == s[i];
        }
      }
    }
  }

  /** The bytes accounted to the objects of s that are not in live. */
  function FreedBytes(sz: Sizes, store: map<ObjId, HeapObject>, s: seq<ObjId>, live: set<ObjId>): nat
    requires AllIn(s, store)
    decreases |s|
  {
    if s == [] then 0
    else
      var last := s[|s| - 1];
      InPrefixOrLast(s);
      FreedBytes(sz, store, s[..|s| - 1], live) + (if last in live then 0 else Footprint(sz, store[last].body))
  }

  /** Freed bytes depend on the bodies only, not on mark bits or links. */
  lemma {:induction false} FreedBytesSameObjects(sz: Sizes, s: map<ObjId, HeapObject>, t: map<ObjId, HeapObject>, ids: seq<ObjId>, live: set<ObjId>)
    requires AllIn(ids, s) && SameObjects(s, t)
    ensures AllIn(ids, t) && FreedBytes(sz, s, ids, live) == FreedBytes(sz, t, ids, live)
    decreases |ids|
  {
    if ids != [] {
      InPrefixOrLast(ids);
      FreedBytesSameObjects(sz, s, t, ids[..|ids| - 1], live);
    }
  }

  /**
   * What survives a sweep refers only to what survives: when every child
   * of a marked object is marked, the marked objects with their bodies form
   * a store whose child pointers all stay inside it.
   */
  lemma SurvivorsClosed(before: map<ObjId, HeapObject>, after: map<ObjId, HeapObject>)
    requires forall x :: x in before && before[x].isMarked ==> Blackened(before, x)
    requires after.Keys == MarkedIn(before)
    requires forall x :: x in after ==> after[x].body == before[x].body
    ensures ChildrenIn(after)
  {
    forall x | x in after ensures AllIn(Children(after[x].body), after) {
      assert x in MarkedIn(before);
      assert Blackened(before, x);
    }
  }

  /** The last object of a list, or null for the empty list. */
  function Last(s: seq<ObjId>): (r: Option<ObjId>)
    ensures r.None? <==> s == []
  {
    if s == [] then None else Some(s[|s| - 1])
  }

  /** One more object of s visited by Keep. */
  lemma KeepStep(s: seq<ObjId>, i: nat, live: set<ObjId>)
    requires i < |s|
    ensures Keep(s[..i + 1], live) == Keep(s[..i], live) + (if s[i] in live then [s[i]] else [])
  {
    assert s[..i + 1][..i] == s[..i];
  }

  /** One more object of s visited by FreedBytes. */
  lemma FreedBytesStep(sz: Sizes, store: map<ObjId, HeapObject>, s: seq<ObjId>, i: nat, live: set<ObjId>)
    requires i < |s| && AllIn(s, store)
    ensures AllIn(s[..i], store) && AllIn(s[..i + 1], store) && s[i] in store
    ensures FreedBytes(sz, store, s[..i + 1], live) == FreedBytes(sz, store, s[..i], live) + (if s[i] in live then 0 else Footprint(sz, store[s[i]].body))
  {
    assert s[..i + 1][..i] == s[..i];
    assert s[i] in s;
    assert forall x :: x in s[..i + 1] ==> x in s;
  }

  /**
   * The shape of the list while _sweep runs: the kept objects lead from
   * the head to the cursor, the unvisited ones from the cursor to null,
   * and `previous` is the last kept object.
   */
  ghost predicate SweepShape(store: map<ObjId, HeapObject>, head: Option<ObjId>, previous: Option<ObjId>, cursor: Option<ObjId>, kept: seq<ObjId>, rest: seq<ObjId>) {
    Distinct(kept + rest) && Segment(store, head, kept, cursor) && Segment(store, cursor, rest, None) && previous == Last(kept)
  }

  /**
   * The objects while _sweep runs: the store holds the kept and the
   * unvisited objects; a kept object has its mark cleared and its body
   * unchanged, an unvisited one is as it was.
   */
  ghost predicate SweepObjects(st0: map<ObjId, HeapObject>, store: map<ObjId, HeapObject>, kept: seq<ObjId>, rest: seq<ObjId>) {
    (forall x :: x in store <==> x in kept || x in rest)
    && (forall x :: x in kept ==> x in store && x in st0 && !store[x].isMarked && store[x].body == st0[x].body)
    && (forall x :: x in rest ==> x in store && x in st0 && store[x] == st0[x])
  }

  /** After i objects of s0: kept are the marked ones among them, and freed counts the bytes of the others. */
  ghost predicate SweepCount(sz: Sizes, st0: map<ObjId, HeapObject>, s0: seq<ObjId>, i: nat, kept: seq<ObjId>, freed: int) {
    i <= |s0| && AllIn(s0, st0) && AllIn(s0[..i], st0)
    && kept == Keep(s0[..i], MarkedIn(st0)) && freed == FreedBytes(sz, st0, s0[..i], MarkedIn(st0))
  }

  /** The invariant of the loop of _sweep over the list s0 of the store st0. */
  ghost predicate SweepInv(sz: Sizes, st0: map<ObjId, HeapObject>, s0: seq<ObjId>, store: map<ObjId, HeapObject>, head: Option<ObjId>,
                           previous: Option<ObjId>, cursor: Option<ObjId>, i: nat, kept: seq<ObjId>, freed: int) {
    SweepCount(sz, st0, s0, i, kept, freed)
    && SweepShape(store, head, previous, cursor, kept, s0[i..])
    && SweepObjects(st0, store, kept, s0[i..])
  }

  /** The loop of _sweep starts with nothing visited. */
  lemma SweepStart(sz: Sizes, store: map<ObjId, HeapObject>, head: Option<ObjId>, s: seq<ObjId>)
    requires Linked(store, head, s)
    ensures SweepInv(sz, store, s, store, head, None, head, 0, [], 0)
  {
    assert s[..0] == [] && s[0..] == s;
    assert SweepCount(sz, store, s, 0, [], 0);
    assert SweepShape(store, head, None, head, [], s) by {
      assert [] + s == s;
    }
    assert SweepObjects(store, store, [], s);
  }

  /** While the cursor is not null it is the next unvisited object, in the store, and so is `previous`. */
  lemma SweepCursor(sz: Sizes, st0: map<ObjId, HeapObject>, s0: seq<ObjId>, store: map<ObjId, HeapObject>, head: Option<ObjId>,
                    previous: Option<ObjId>, cursor: Option<ObjId>, i: nat, kept: seq<ObjId>, freed: int)
    requires SweepInv(sz, st0, s0, store, head, previous, cursor, i, kept, freed) && cursor.Some?
    ensures i < |s0| && cursor.value == s0[i] && cursor.value in store && cursor.value in st0
    ensures store[cursor.value] == st0[cursor.value]
    ensures previous.Some? ==> previous.value in store
  {
    assert s0[i..][0] in s0[i..];
    if previous.Some? {
      assert kept[|kept| - 1] in kept;
    }
  }

  /** The count of the sweep one object further on. */
  lemma SweepCountStep(sz: Sizes, st0: map<ObjId, HeapObject>, s0: seq<ObjId>, i: nat, kept: seq<ObjId>, freed: int)
    requires SweepCount(sz, st0, s0, i, kept, freed) && i < |s0|
    ensures s0[i] in st0
    ensures var u, live := s0[i], MarkedIn(st0);
      SweepCount(sz, st0, s0, i + 1, if u in live then kept + [u] else kept, freed + if u in live then 0 else Footprint(sz, st0[u].body))
  {
    KeepStep(s0, i, MarkedIn(st0));
    FreedBytesStep(sz, st0, s0, i, MarkedIn(st0));
  }

  /** The shape of the list once the cursor moves past a kept object. */
  lemma SweepShapeKeep(store: map<ObjId, HeapObject>, head: Option<ObjId>, previous: Option<ObjId>, cursor: Option<ObjId>, kept: seq<ObjId>, rest: seq<ObjId>)
    requires SweepShape(store, head, previous, cursor, kept, rest) && cursor.Some?
    ensures rest != [] && cursor.value == rest[0] && cursor.value in store
    ensures var u := cursor.value;
      SweepShape(store[u := store[u].(isMarked := false)], head, cursor, store[u].next, kept + [u], rest[1..])
  {
    var u := cursor.value;
    SweepKeeps(store, head, kept, rest);
    assert (kept + [u]) + rest[1..] == kept + rest;
    assert Last(kept + [u]) == cursor;
  }

  /** The objects once a kept object's mark is cleared. */
  lemma SweepObjectsKeep(st0: map<ObjId, HeapObject>, store: map<ObjId, HeapObject>, kept: seq<ObjId>, rest: seq<ObjId>)
    requires SweepObjects(st0, store, kept, rest) && rest != [] && Distinct(kept + rest)
    ensures rest[0] in store
    ensures var u := rest[0];
      SweepObjects(st0, store[u := store[u].(isMarked := false)], kept + [u], rest[1..])
  {
    var u := rest[0];
    assert u in rest;
    DistinctDrop(kept, rest);
    assert rest == [u] + rest[1..];
  }

  /** The shape of the list once a white object is unlinked and freed. */
  lemma SweepShapeFree(store: map<ObjId, HeapObject>, head: Option<ObjId>, previous: Option<ObjId>, cursor: Option<ObjId>, kept: seq<ObjId>, rest: seq<ObjId>)
    requires SweepShape(store, head, previous, cursor, kept, rest) && cursor.Some?
    ensures rest != [] && cursor.value == rest[0] && cursor.value in store
    ensures previous.Some? ==> previous.value in store
    ensures var u, next := cursor.value, store[cursor.value].next;
      var linked := if previous.None? then store else store[previous.value := store[previous.value].(next := next)];
      SweepShape(linked - {u}, if previous.None? then next else head, previous, next, kept, rest[1..])
  {
    SweepUnlinks(store, head, kept, rest);
    if previous.Some? {
      assert kept[|kept| - 1] in kept;
    }
  }

  /** The objects once a white object is unlinked and freed. */
  lemma SweepObjectsFree(st0: map<ObjId, HeapObject>, store: map<ObjId, HeapObject>, previous: Option<ObjId>, next: Option<ObjId>, kept: seq<ObjId>, rest: seq<ObjId>)
    requires SweepObjects(st0, store, kept, rest) && rest != [] && Distinct(kept + rest) && previous == Last(kept)
    ensures rest[0] in store && rest[0] in st0 && store[rest[0]] == st0[rest[0]]
    ensures var u := rest[0];
      var linked := if previous.None? then store else store[previous.value := store[previous.value].(next := next)];
      u in linked && linked[u].body == st0[u].body &&
      SweepObjects(st0, linked - {u}, kept, rest[1..])
  {
    var u := rest[0];
    assert u in rest;
    DistinctDrop(kept, rest);
    DistinctParts(kept, rest);
    if previous.Some? {
      assert kept[|kept| - 1] in kept;
    }
    assert rest == [u] + rest[1..];
    forall x | x in rest[1..] ensures x !in kept {
      assert x in rest;
    }
  }

  /** _sweep keeps a marked object: the invariant holds one object further on, with the mark cleared. */
  lemma SweepKeepStep(sz: Sizes, st0: map<ObjId, HeapObject>, s0: seq<ObjId>, store: map<ObjId, HeapObject>, head: Option<ObjId>,
                      previous: Option<ObjId>, cursor: Option<ObjId>, i: nat, kept: seq<ObjId>, freed: int)
    requires SweepInv(sz, st0, s0, store, head, previous, cursor, i, kept, freed) && cursor.Some?
    requires cursor.value in store && store[cursor.value].isMarked
    ensures var u := cursor.value;
      SweepInv(sz, st0, s0, store[u := store[u].(isMarked := false)], head, cursor, store[u].next, i + 1, kept + [u], freed)
  {
    var rest := s0[i..];
    SweepShapeKeep(store, head, previous, cursor, kept, rest);
    SweepObjectsKeep(st0, store, kept, rest);
    SweepCountStep(sz, st0, s0, i, kept, freed);
    assert rest[1..] == s0[i + 1..];
  }

  /**
   * _sweep frees a white object: `previous` (or the list head) is pointed
   * past it, it leaves the store, and the invariant holds one object
   * further on with its bytes counted as freed.
   */
  lemma SweepFreeStep(sz: Sizes, st0: map<ObjId, HeapObject>, s0: seq<ObjId>, store: map<ObjId, HeapObject>, head: Option<ObjId>,
                      previous: Option<ObjId>, cursor: Option<ObjId>, i: nat, kept: seq<ObjId>, freed: int)
    requires SweepInv(sz, st0, s0, store, head, previous, cursor, i, kept, freed) && cursor.Some?
    requires cursor.value in store && !store[cursor.value].isMarked
    ensures previous.Some? ==> previous.value in store
    ensures var u, next := cursor.value, store[cursor.value].next;
      var linked := if previous.None? then store else store[previous.value := store[previous.value].(next := next)];
      u in linked && linked[u].body == st0[u].body &&
      SweepInv(sz, st0, s0, linked - {u}, if previous.None? then next else head, previous, next, i + 1, kept,
               freed + Footprint(sz, st0[u].body))
  {
    var rest := s0[i..];
    SweepShapeFree(store, head, previous, cursor, kept, rest);
    SweepObjectsFree(st0, store, previous, store[cursor.value].next, kept, rest);
    SweepCountStep(sz, st0, s0, i, kept, freed);
    assert rest[1..] == s0[i + 1..];
  }

  /** When the cursor reaches null, the kept objects are the marked ones of s0, linked and unmarked. */
  lemma SweepDone(sz: Sizes, st0: map<ObjId, HeapObject>, s0: seq<ObjId>, store: map<ObjId, HeapObject>, head: Option<ObjId>,
                  previous: Option<ObjId>, i: nat, kept: seq<ObjId>, freed: int)
    requires SweepInv(sz, st0, s0, store, head, previous, None, i, kept, freed) && forall x :: x in st0 ==> x in s0
    ensures kept == Keep(s0, MarkedIn(st0)) && Linked(store, head, kept)
    ensures store.Keys == MarkedIn(st0) && MarkedIn(store) == {}
    ensures forall x :: x in store ==> x in st0 && store[x].body == st0[x].body
    ensures freed == FreedBytes(sz, st0, s0, MarkedIn(st0))
  {
    assert s0[i..] == [];
    assert s0[..i] == s0 && kept + s0[i..] == kept;
  }

  /**
   * The invariant of the loop of l_free_objects over the list s0 of the
   * store st0: the objects before the cursor are freed and their bytes
   * counted, the rest are as they were.
   */
  ghost predicate FreeInv(sz: Sizes, st0: map<ObjId, HeapObject>, s0: seq<ObjId>, store: map<ObjId, HeapObject>, cursor: Option<ObjId>, i: nat, freed: int) {
    i <= |s0| && AllIn(s0, st0) && Distinct(s0) && Segment(st0, cursor, s0[i..], None)
    && (forall x :: x in store <==> x in s0[i..])
    && (forall x :: x in store ==> x in st0 && store[x] == st0[x])
    && AllIn(s0[..i], st0) && freed == FreedBytes(sz, st0, s0[..i], {})
  }

  /** The loop of l_free_objects starts at the list head with nothing freed. */
  lemma FreeStart(sz: Sizes, store: map<ObjId, HeapObject>, head: Option<ObjId>, s: seq<ObjId>)
    requires Linked(store, head, s)
    ensures FreeInv(sz, store, s, store, head, 0, 0)
  {
    assert s[..0] == [] && s[0..] == s;
  }

  /** l_free_objects frees the object at the cursor and moves on to the one its `next` names. */
  lemma FreeStep(sz: Sizes, st0: map<ObjId, HeapObject>, s0: seq<ObjId>, store: map<ObjId, HeapObject>, cursor: Option<ObjId>, i: nat, freed: int)
    requires FreeInv(sz, st0, s0, store, cursor, i, freed) && cursor.Some?
    ensures i < |s0| && cursor.value in store && store[cursor.value] == st0[cursor.value]
    ensures var u := cursor.value;
      FreeInv(sz, st0, s0, store - {u}, store[u].next, i + 1, freed + Footprint(sz, st0[u].body))
  {
    var u, rest := cursor.value, s0[i..];
    assert rest[0] in rest;
    assert rest == [u] + s0[i + 1..];
    FreedBytesStep(sz, st0, s0, i, {});
    DistinctLater(s0, i);
  }

  /** In a list without repeats, an object does not occur again further on. */
  lemma DistinctLater(s: seq<ObjId>, i: nat)
    requires Distinct(s) && i < |s|
    ensures s[i] !in s[i + 1..]
  {
    var later := s[i + 1..];
    forall j | 0 <= j < |later| ensures later[j] != s[i] {
      assert later[j] == s[i + 1 + j];
    }
  }

  /** When the cursor reaches null every object is freed and counted. */
  lemma FreeDone(sz: Sizes, st0: map<ObjId, HeapObject>, s0: seq<ObjId>, store: map<ObjId, HeapObject>, i: nat, freed: int)
    requires FreeInv(sz, st0, s0, store, None, i, freed)
    ensures store == map[] && freed == FreedBytes(sz, st0, s0, {})
  {
    assert s0[i..] == [];
    assert s0[..i] == s0;
  }

  // ---------------------------------------------------------------------
  // Roots.
  // ---------------------------------------------------------------------

  /** An entry of a table (table.h): a string key and its value. */
  datatype Entry = Entry(key: ObjId, value: Value)

  /** The objects l_mark_table marks: each entry's key, then its value if that is an object. */
  function TableRefs(entries: seq<Entry>): (r: seq<ObjId>)
    ensures forall i :: 0 <= i < |entries| ==> entries[i].key in r && (entries[i].value.Obj? ==> entries[i].value.ref in r)
    ensures forall x :: x in r ==> exists i :: 0 <= i < |entries| && (entries[i].key == x || entries[i].value == Obj(x))
    decreases |entries|
  {
    if entries == [] then []
    else
      var init, last := entries[..|entries| - 1], entries[|entries| - 1];
      var r := TableRefs(init) + [last.key] + Refs([last.value]);
      assert forall i :: 0 <= i < |init| ==> entries[i] == init[i];
      r
  }

  /**
   * What _mark_roots starts from: the live part of the value stack, the
   * closure of each call frame, the head of the open-upvalue list, the
   * globals table and the functions the compiler is building
   * (l_mark_compiler_roots, in compiler.c, which is not part of this model).
   */
  datatype Roots = Roots(stack: seq<Value>, frames: seq<ObjId>, openUpvalues: Option<ObjId>, globals: seq<Entry>, compiler: seq<ObjId>)

  /** chain is the open-upvalue list from head, linked through each upvalue's `next`. */
  ghost predicate UpvalueChain(store: map<ObjId, HeapObject>, head: Option<ObjId>, chain: seq<ObjId>)
    decreases |chain|
  {
    if chain == [] then head == None
    else
      head == Some(chain[0]) && chain[0] in store && store[chain[0]].body.Upvalue?
      && UpvalueChain(store, store[chain[0]].body.nextUpvalue, chain[1..])
  }

  /** The upvalue list is kept when its upvalues stay with the same bodies. */
  lemma {:induction false} UpvalueChainKept(s: map<ObjId, HeapObject>, t: map<ObjId, HeapObject>, head: Option<ObjId>, chain: seq<ObjId>)
    requires UpvalueChain(s, head, chain)
    requires forall x :: x in chain ==> x in s && x in t && t[x].body == s[x].body
    ensures UpvalueChain(t, head, chain)
    decreases |chain|
  {
    if chain != [] {
      assert chain[0] in chain;
      forall x | x in chain[1..] ensures x in s && x in t && t[x].body == s[x].body {
        assert x in chain;
      }
      UpvalueChainKept(s, t, s[chain[0]].body.nextUpvalue, chain[1..]);
    }
  }

  /** The objects _mark_roots marks, in the order it marks them. */
  function RootIds(roots: Roots, chain: seq<ObjId>): seq<ObjId> {
    Refs(roots.stack) + roots.frames + chain + TableRefs(roots.globals) + roots.compiler
  }

  /** The roots name objects of the store, and chain is the open-upvalue list. */
  ghost predicate RootsIn(store: map<ObjId, HeapObject>, roots: Roots, chain: seq<ObjId>) {
    AllIn(RootIds(roots, chain), store) && UpvalueChain(store, roots.openUpvalues, chain)
  }

  /** Marking after an append: the one extra object is marked last. */
  lemma MarkAllSnoc(m: Marking, ids: seq<ObjId>, x: ObjId)
    requires AllIn(ids, m.store) && x in m.store
    ensures AllIn(ids + [x], m.store)
    ensures MarkAll(m, ids + [x]) == MarkStep(MarkAll(m, ids), x)
  {
    assert (ids + [x])[..|ids|] == ids;
  }

  /** Marking the objects among one value. */
  lemma MarkOneValue(m: Marking, v: Value)
    ensures MarkAll(m, Refs([v])) == if v.Obj? then MarkStep(m, v.ref) else m
  {
    assert [v][..0] == [];
  }

  /** The objects among values, one value more. */
  lemma RefsSnoc(vs: seq<Value>, v: Value)
    ensures Refs(vs + [v]) == Refs(vs) + Refs([v])
  {
    assert (vs + [v])[..|vs|] == vs;
    assert [v][..0] == [];
  }

  /** The non-null pointers among some, one pointer more. */
  lemma PresentSnoc(xs: seq<Option<ObjId>>, x: Option<ObjId>)
    ensures Present(xs + [x]) == Present(xs) + Present([x])
  {
    assert (xs + [x])[..|xs|] == xs;
    assert [x][..0] == [];
  }

  /** The objects of a table, one entry more. */
  lemma TableRefsSnoc(entries: seq<Entry>, e: Entry)
    ensures TableRefs(entries + [e]) == TableRefs(entries) + [e.key] + Refs([e.value])
  {
    assert (entries + [e])[..|entries|] == entries;
  }

  /** One more value of the array marked. */
  lemma MarkValuesStep(m: Marking, values: seq<Value>, i: nat)
    requires i < |values|
    ensures var before := MarkAll(m, Refs(values[..i]));
      (if values[i].Obj? then MarkStep(before, values[i].ref) else before) == MarkAll(m, Refs(values[..i + 1]))
  {
    MarkOneValue(MarkAll(m, Refs(values[..i])), values[i]);
    assert values[..i + 1] == values[..i] + [values[i]];
    RefsSnoc(values[..i], values[i]);
    MarkAllAppend(m, Refs(values[..i]), Refs([values[i]]));
  }

  /** One more object of the sequence marked. */
  lemma MarkObjectsStep(m: Marking, ids: seq<ObjId>, i: nat)
    requires i < |ids|
    ensures MarkStep(MarkAll(m, ids[..i]), ids[i]) == MarkAll(m, ids[..i + 1])
  {
    assert ids[..i + 1][..i] == ids[..i];
  }

  /** One more slot of a closure's upvalue array marked. */
  lemma MarkUpvalueArrayStep(m: Marking, upvalues: seq<Option<ObjId>>, i: nat)
    requires i < |upvalues|
    ensures var before := MarkAll(m, Present(upvalues[..i]));
      (if upvalues[i].None? then before else MarkStep(before, upvalues[i].value)) == MarkAll(m, Present(upvalues[..i + 1]))
  {
    assert upvalues[..i + 1] == upvalues[..i] + [upvalues[i]];
    PresentSnoc(upvalues[..i], upvalues[i]);
    MarkAllAppend(m, Present(upvalues[..i]), Present([upvalues[i]]));
    assert [upvalues[i]][..0] == upvalues[..0];
  }

  /** One more open upvalue marked; the rest of the list is still linked. */
  lemma MarkUpvaluesStep(m: Marking, before: map<ObjId, HeapObject>, after: map<ObjId, HeapObject>, upvalue: Option<ObjId>, chain: seq<ObjId>, i: nat)
    requires i <= |chain| && UpvalueChain(before, upvalue, chain[i..]) && upvalue.Some?
    requires after == MarkStep(Marking(before, []), upvalue.value).store
    ensures i < |chain| && upvalue.value in after && chain[..i + 1] == chain[..i] + [chain[i]]
    ensures MarkStep(MarkAll(m, chain[..i]), chain[i]) == MarkAll(m, chain[..i + 1])
    ensures UpvalueChain(after, after[upvalue.value].body.nextUpvalue, chain[i + 1..])
  {
    assert chain[i..][1..] == chain[i + 1..];
    assert chain[..i + 1][..i] == chain[..i];
    forall x | x in chain[i + 1..] ensures x in before && x in after && after[x].body == before[x].body {
      UpvalueChainIn(before, upvalue, chain[i..]);
      assert x in chain[i..];
    }
    UpvalueChainKept(before, after, before[chain[i]].body.nextUpvalue, chain[i + 1..]);
  }

  /** The upvalues of the list are in the store. */
  lemma {:induction false} UpvalueChainIn(store: map<ObjId, HeapObject>, head: Option<ObjId>, chain: seq<ObjId>)
    requires UpvalueChain(store, head, chain)
    ensures forall x :: x in chain ==> x in store
    decreases |chain|
  {
    if chain != [] {
      UpvalueChainIn(store, store[chain[0]].body.nextUpvalue, chain[1..]);
      assert forall x :: x in chain ==> x == chain[0] || x in chain[1..];
    }
  }

  /** One more table entry marked: its key, then its value. */
  lemma MarkTableStep(m: Marking, entries: seq<Entry>, i: nat)
    requires i < |entries|
    ensures var e := entries[i];
      var before := MarkStep(MarkAll(m, TableRefs(entries[..i])), e.key);
      (if e.value.Obj? then MarkStep(before, e.value.ref) else before) == MarkAll(m, TableRefs(entries[..i + 1]))
  {
    var e := entries[i];
    var refs := TableRefs(entries[..i]);
    var before := MarkStep(MarkAll(m, refs), e.key);
    MarkOneValue(before, e.value);
    assert entries[..i + 1] == entries[..i] + [e];
    TableRefsSnoc(entries[..i], e);
    MarkAllAppend(m, refs, [e.key]);
    assert MarkAll(MarkAll(m, refs), [e.key]) == before by {
      assert [e.key][..0] == [];
    }
    MarkAllAppend(m, refs + [e.key], Refs([e.value]));
  }

  /** Each part of the roots names objects of the store. */
  lemma RootsParts(store: map<ObjId, HeapObject>, roots: Roots, chain: seq<ObjId>)
    requires RootsIn(store, roots, chain)
    ensures forall i :: 0 <= i < |roots.stack| && roots.stack[i].Obj? ==> roots.stack[i].ref in store
    ensures forall i :: 0 <= i < |roots.frames| ==> roots.frames[i] in store
    ensures forall i :: 0 <= i < |roots.globals| ==> roots.globals[i].key in store && (roots.globals[i].value.Obj? ==> roots.globals[i].value.ref in store)
    ensures forall i :: 0 <= i < |roots.compiler| ==> roots.compiler[i] in store
  {
    var ids := RootIds(roots, chain);
    forall i | 0 <= i < |roots.stack| && roots.stack[i].Obj? ensures roots.stack[i].ref in store {
      assert roots.stack[i] in roots.stack;
      assert roots.stack[i].ref in ids;
    }
    forall i | 0 <= i < |roots.frames| ensures roots.frames[i] in store {
      assert roots.frames[i] in ids;
    }
    forall i | 0 <= i < |roots.globals| ensures roots.globals[i].key in store && (roots.globals[i].value.Obj? ==> roots.globals[i].value.ref in store) {
      assert roots.globals[i].key in ids;
      assert roots.globals[i].value.Obj? ==> roots.globals[i].value.ref in ids;
    }
    forall i | 0 <= i < |roots.compiler| ensures roots.compiler[i] in store {
      assert roots.compiler[i] in ids;
    }
  }

  /** Marking the parts of the roots one after the other marks RootIds. */
  lemma RootIdsMarked(m: Marking, roots: Roots, chain: seq<ObjId>)
    ensures MarkAll(MarkAll(MarkAll(MarkAll(MarkAll(m, Refs(roots.stack)), roots.frames), chain), TableRefs(roots.globals)), roots.compiler)
      == MarkAll(m, RootIds(roots, chain))
  {
    var a, b, c, d := Refs(roots.stack), roots.frames, chain, TableRefs(roots.globals);
    MarkAllAppend(m, a, b);
    MarkAllAppend(m, a + b, c);
    MarkAllAppend(m, a + b + c, d);
    MarkAllAppend(m, a + b + c + d, roots.compiler);
  }

  /** Changing mark bits keeps the open-upvalue list. */
  lemma UpvalueChainSameObjects(s: map<ObjId, HeapObject>, t: map<ObjId, HeapObject>, head: Option<ObjId>, chain: seq<ObjId>)
    requires UpvalueChain(s, head, chain) && SameObjects(s, t)
    ensures UpvalueChain(t, head, chain)
  {
    UpvalueChainIn(s, head, chain);
    UpvalueChainKept(s, t, head, chain);
  }

  /** Each intern-table entry names a string object of the store whose characters are its key. */
  ghost predicate Interned(store: map<ObjId, HeapObject>, strings: map<seq<bv8>, ObjId>) {
    forall k :: k in strings ==> strings[k] in store && store[strings[k]].body.Str? && store[strings[k]].body.chars == k
  }

  /** The roots survive a collection, and so does the open-upvalue list with its upvalues. */
  lemma RootsSurvive(st0: map<ObjId, HeapObject>, after: map<ObjId, HeapObject>, roots: Roots, chain: seq<ObjId>)
    requires RootsIn(st0, roots, chain) && after.Keys == Reachable(st0, RootIds(roots, chain))
    requires forall x :: x in after ==> x in st0 && after[x].body == st0[x].body
    ensures RootsIn(after, roots, chain)
  {
    var ids := RootIds(roots, chain);
    forall x | x in ids ensures x in after {
      RootReaches(st0, ids, x);
    }
    forall x | x in chain ensures x in st0 && x in after && after[x].body == st0[x].body {
      assert x in ids;
    }
    UpvalueChainKept(st0, after, roots.openUpvalues, chain);
  }

  /**
   * l_table_remove_white followed by the sweep: the intern table keeps the
   * entries whose strings survive, and they still name those strings.
   */
  lemma StringsSurvive(st0: map<ObjId, HeapObject>, traced: map<ObjId, HeapObject>, after: map<ObjId, HeapObject>,
                       strings0: map<seq<bv8>, ObjId>, strings1: map<seq<bv8>, ObjId>)
    requires Interned(st0, strings0) && after.Keys == MarkedIn(traced)
    requires forall x :: x in after ==> x in st0 && after[x].body == st0[x].body
    requires strings1 == RemoveWhite(strings0, traced)
    ensures Interned(after, strings1)
    ensures forall k :: k in strings1 <==> k in strings0 && strings0[k] in after
  {
    forall k | k in strings1 ensures strings1[k] in after {
      assert strings1[k] in MarkedIn(traced);
    }
  }

  /** The intern table without the entries whose string object is not marked. */
  function RemoveWhite(strings: map<seq<bv8>, ObjId>, store: map<ObjId, HeapObject>): (r: map<seq<bv8>, ObjId>)
    ensures forall k :: k in r <==> k in strings && strings[k] in store && store[strings[k]].isMarked
    ensures forall k :: k in r ==> r[k] == strings[k]
  {
    map k | k in strings && strings[k] in store && store[strings[k]].isMarked :: strings[k]
  }

  /**
   * The allocation list threads exactly the objects of the store, every
   * child pointer names an object of the store, ids already handed out
   * are below nextId, and the intern table names string objects.
   */
  ghost predicate HeapValid(store: map<ObjId, HeapObject>, objects: Option<ObjId>, list: seq<ObjId>, nextId: ObjId, strings: map<seq<bv8>, ObjId>) {
    Linked(store, objects, list) && ChildrenIn(store) && (forall x :: x in store ==> x < nextId) && Interned(store, strings)
  }

  /**
   * A collection from a valid heap: after marking from the roots and
   * tracing (traced), dropping the intern-table entries of white strings
   * (strings1) and sweeping (after, threaded by list1 from objects), the
   * heap holds exactly the objects reachable from the roots, with their
   * bodies; it is valid, the roots are still in it, and the intern table
   * holds the entries whose strings survived.
   */
  lemma Collected(st0: map<ObjId, HeapObject>, objects0: Option<ObjId>, list0: seq<ObjId>, nextId: ObjId, strings0: map<seq<bv8>, ObjId>,
                  traced: map<ObjId, HeapObject>, strings1: map<seq<bv8>, ObjId>,
                  after: map<ObjId, HeapObject>, objects1: Option<ObjId>, list1: seq<ObjId>, roots: Roots, chain: seq<ObjId>)
    requires HeapValid(st0, objects0, list0, nextId, strings0) && RootsIn(st0, roots, chain)
    requires SameObjects(st0, traced) && MarkedIn(traced) == Reachable(st0, RootIds(roots, chain))
    requires forall x :: x in traced && traced[x].isMarked ==> Blackened(traced, x)
    requires strings1 == RemoveWhite(strings0, traced)
    requires Linked(after, objects1, list1) && after.Keys == MarkedIn(traced)
    requires forall x :: x in after ==> after[x].body == traced[x].body
    ensures HeapValid(after, objects1, list1, nextId, strings1) && RootsIn(after, roots, chain)
    ensures after.Keys == Reachable(st0, RootIds(roots, chain))
    ensures forall x :: x in after ==> x in st0 && after[x].body == st0[x].body
    ensures forall k :: k in strings1 <==> k in strings0 && strings0[k] in after
    ensures forall k :: k in strings1 ==> strings1[k] == strings0[k]
  {
    assert forall x :: x in after ==> x in st0 && after[x].body == st0[x].body;
    SurvivorsClosed(traced, after);
    RootsSurvive(st0, after, roots, chain);
    StringsSurvive(st0, traced, after, strings0, strings1);
  }

  // ---------------------------------------------------------------------
  // What reallocate leaves of the heap, collecting or not.
  // ---------------------------------------------------------------------

  /** strings1 holds the entries of strings0 whose string objects are still in the store, and no others. */
  ghost predicate StringsKept(strings0: map<seq<bv8>, ObjId>, strings1: map<seq<bv8>, ObjId>, store: map<ObjId, HeapObject>) {
    (forall k :: k in strings1 <==> k in strings0 && strings0[k] in store)
    && forall k :: k in strings1 ==> strings1[k] == strings0[k]
  }

  /**
   * What a reallocate that changed the byte count by `added` leaves of the
   * heap (store0, list0, bytes0, strings0), whether it collected or not:
   * only objects of store0 remain, with their bodies, among them every
   * object reachable from the roots; the list keeps its order; the count
   * also dropped by what the freed objects accounted for; the intern table
   * lost the entries of freed strings.
   */
  ghost predicate Retained(sz: Sizes, store0: map<ObjId, HeapObject>, list0: seq<ObjId>, bytes0: int, strings0: map<seq<bv8>, ObjId>,
                           store1: map<ObjId, HeapObject>, list1: seq<ObjId>, bytes1: int, strings1: map<seq<bv8>, ObjId>,
                           added: int, roots: seq<ObjId>) {
    AllIn(list0, store0)
    && (forall x :: x in store1 ==> x in store0 && store1[x].body == store0[x].body)
    && Reachable(store0, roots) <= store1.Keys
    && list1 == Keep(list0, store1.Keys)
    && bytes1 == bytes0 + added - FreedBytes(sz, store0, list0, store1.Keys)
    && StringsKept(strings0, strings1, store1)
  }

  /** A collection to the objects reachable from the roots, as CollectGarbage leaves it, retains the heap. */
  lemma CollectionRetained(sz: Sizes, store0: map<ObjId, HeapObject>, list0: seq<ObjId>, bytes0: int, strings0: map<seq<bv8>, ObjId>,
                           store1: map<ObjId, HeapObject>, list1: seq<ObjId>, bytes1: int, strings1: map<seq<bv8>, ObjId>,
                           added: int, roots: seq<ObjId>)
    requires AllIn(list0, store0) && store1.Keys == Reachable(store0, roots)
    requires forall x :: x in store1 ==> store1[x].body == store0[x].body
    requires list1 == Keep(list0, store1.Keys)
    requires StringsKept(strings0, strings1, store1)
    requires bytes1 == bytes0 + added - FreedBytes(sz, store0, list0, store1.Keys)
    ensures Retained(sz, store0, list0, bytes0, strings0, store1, list1, bytes1, strings1, added, roots)
  {
  }

  /** A reallocate that does not collect retains the whole heap. */
  lemma NothingCollected(sz: Sizes, store: map<ObjId, HeapObject>, list: seq<ObjId>, bytes0: int, strings: map<seq<bv8>, ObjId>, added: int, roots: seq<ObjId>)
    requires AllIn(list, store) && Interned(store, strings)
    ensures Retained(sz, store, list, bytes0, strings, store, list, bytes0 + added, strings, added, roots)
  {
    FreedNothing(sz, store, list, store.Keys);
  }

  /** Nothing is freed and nothing is dropped when every object of the list stays. */
  lemma {:induction false} FreedNothing(sz: Sizes, store: map<ObjId, HeapObject>, s: seq<ObjId>, live: set<ObjId>)
    requires AllIn(s, store) && forall x :: x in s ==> x in live
    ensures FreedBytes(sz, store, s, live) == 0 && Keep(s, live) == s
    decreases |s|
  {
    if s != [] {
      InPrefixOrLast(s);
      FreedNothing(sz, store, s[..|s| - 1], live);
    }
  }

  /** Keep and FreedBytes look only at which objects of the list are live. */
  lemma {:induction false} FreedSameLive(sz: Sizes, store: map<ObjId, HeapObject>, s: seq<ObjId>, a: set<ObjId>, b: set<ObjId>)
    requires AllIn(s, store) && forall x :: x in s ==> (x in a <==> x in b)
    ensures FreedBytes(sz, store, s, a) == FreedBytes(sz, store, s, b) && Keep(s, a) == Keep(s, b)
    decreases |s|
  {
    if s != [] {
      InPrefixOrLast(s);
      FreedSameLive(sz, store, s[..|s| - 1], a, b);
    }
  }

  /**
   * Two collections in a row, the second over what the first kept (with
   * the same bodies) and keeping no more than the first, free together
   * what one collection down to the second's survivors frees, and keep
   * the same list.
   */
  lemma {:induction false} FreedTwice(sz: Sizes, st0: map<ObjId, HeapObject>, st1: map<ObjId, HeapObject>, s: seq<ObjId>, a: set<ObjId>, b: set<ObjId>)
    requires AllIn(s, st0) && AllIn(Keep(s, a), st1)
    requires forall x :: x in Keep(s, a) ==> st1[x].body == st0[x].body
    requires forall x :: x in s && x in b ==> x in a
    ensures FreedBytes(sz, st0, s, a) + FreedBytes(sz, st1, Keep(s, a), b) == FreedBytes(sz, st0, s, b)
    ensures Keep(Keep(s, a), b) == Keep(s, b)
    decreases |s|
  {
    if s != [] {
      var init, last := s[..|s| - 1], s[|s| - 1];
      InPrefixOrLast(s);
      var k, k0 := Keep(s, a), Keep(init, a);
      assert k == k0 + (if last in a then [last] else []);
      assert AllIn(k0, st1) && forall x :: x in k0 ==> st1[x].body == st0[x].body;
      FreedTwice(sz, st0, st1, init, a, b);
      assert FreedBytes(sz, st0, s, a) == FreedBytes(sz, st0, init, a) + (if last in a then 0 else Footprint(sz, st0[last].body));
      assert FreedBytes(sz, st0, s, b) == FreedBytes(sz, st0, init, b) + (if last in b then 0 else Footprint(sz, st0[last].body));
      assert Keep(s, b) == Keep(init, b) + (if last in b then [last] else []);
      if last in a {
        assert k[..|k| - 1] == k0 && k[|k| - 1] == last;
        assert st1[last].body == st0[last].body;
        assert FreedBytes(sz, st1, k, b) == FreedBytes(sz, st1, k0, b) + (if last in b then 0 else Footprint(sz, st1[last].body));
        assert Keep(k, b) == Keep(k0, b) + (if last in b then [last] else []);
      } else {
        assert k == k0 && last !in b;
      }
    }
  }

  /** The objects of a path from a root are all reachable. */
  lemma PathReaches(store: map<ObjId, HeapObject>, roots: seq<ObjId>, p: seq<ObjId>, i: nat)
    requires IsPath(store, p) && p[0] in roots && i < |p|
    ensures p[i] in Reachable(store, roots)
  {
    var q := p[..i + 1];
    assert IsPath(store, q) by {
      forall j | 0 <= j < |q| - 1 ensures Edge(store, q[j], q[j + 1]) {
        assert q[j] == p[j] && q[j + 1] == p[j + 1];
      }
    }
    assert q[0] in roots && q[|q| - 1] == p[i];
  }

  /** What is reachable in st0 stays reachable in st1 when st1 keeps each of those objects with its body. */
  lemma ReachableKept(st0: map<ObjId, HeapObject>, st1: map<ObjId, HeapObject>, roots: seq<ObjId>)
    requires forall x :: x in Reachable(st0, roots) ==> x in st1 && st1[x].body == st0[x].body
    ensures Reachable(st0, roots) <= Reachable(st1, roots)
  {
    forall x | x in Reachable(st0, roots) ensures x in Reachable(st1, roots) {
      var p :| IsPath(st0, p) && p[0] in roots && p[|p| - 1] == x;
      forall i | 0 <= i < |p| ensures p[i] in st1 && st1[p[i]].body == st0[p[i]].body {
        PathReaches(st0, roots, p, i);
      }
      assert IsPath(st1, p) by {
        forall i | 0 <= i < |p| - 1 ensures Edge(st1, p[i], p[i + 1]) {
          assert Edge(st0, p[i], p[i + 1]);
        }
      }
    }
  }

  // ---------------------------------------------------------------------
  // The collector's state and operations.
  // ---------------------------------------------------------------------

  /**
   * The collector's part of the VM: the allocation list `vm.objects`, the
   * objects it threads, the gray stack with its count, the byte count and
   * the threshold of the next collection, and the intern table
   * `vm.strings` (a map from characters to the string object holding them;
   * table.c is not part of this model). Fresh object ids come from
   * `nextId`, standing for the addresses malloc hands out.
   */
  class Heap {
    const sizes: Sizes
    var objects: Option<ObjId>
    var store: map<ObjId, HeapObject>
    ghost var list: seq<ObjId>
    var grayStack: array<ObjId>
    var grayCount: nat
    var bytesAllocated: int
    var nextGc: int
    var strings: map<seq<bv8>, ObjId>
    var nextId: ObjId

    /**
     * The allocation list threads exactly the objects of the store, every
     * child pointer names an object of the store, ids already handed out
     * are below `nextId`, and the intern table names string objects.
     */
    ghost predicate Valid()
      reads this
    {
      grayCount <= grayStack.Length && HeapValid(store, objects, list, nextId, strings)
    }

    /** Between collections: the gray stack is empty and no object is marked. */
    ghost predicate Quiescent()
      reads this
    {
      grayCount == 0 && MarkedIn(store) == {}
    }

    /** The heap as marking sees it. */
    ghost function Marks(): Marking
      reads this, grayStack
      requires grayCount <= grayStack.Length
    {
      Marking(store, grayStack[..grayCount])
    }

    /**
     * An empty heap with the given first threshold. l_init_vm in this
     * version of vm.c sets none of these fields; the threshold is a
     * parameter.
     */
    constructor (sizes: Sizes, firstThreshold: int)
      ensures Valid() && Quiescent() && this.sizes == sizes
      ensures store == map[] && objects == None && list == [] && strings == map[]
      ensures bytesAllocated == 0 && nextGc == firstThreshold && grayCount == 0
    {
      this.sizes := sizes;
      objects := None;
      store := map[];
      list := [];
      grayStack := new ObjId[0];
      grayCount := 0;
      bytesAllocated := 0;
      nextGc := firstThreshold;
      strings := map[];
      nextId := 0;
    }

    /**
     * l_mark_object: a null pointer or an object already marked changes
     * nothing; otherwise the object is marked and pushed on the gray stack,
     * which grows (GROW_CAPACITY) when it is full.
     */
    method MarkObject(obj: Option<ObjId>)
      requires grayCount <= grayStack.Length && (obj.Some? ==> obj.value in store)
      modifies this`store, this`grayStack, this`grayCount, grayStack
      ensures grayCount <= grayStack.Length && (grayStack == old(grayStack) || fresh(grayStack))
      ensures Marks() == if obj.None? then old(Marks()) else MarkStep(old(Marks()), obj.value)
      ensures store.Keys == old(store).Keys
    {
      if obj.Some? && !store[obj.value].isMarked {
        var id := obj.value;
        store := store[id := store[id].(isMarked := true)];
        if grayStack.Length < grayCount + 1 {
          grayStack := Growth.Reallocate(grayStack, Growth.GrowCapacity(grayStack.Length));
        }
        grayStack[grayCount] := id;
        grayCount := grayCount + 1;
      }
    }

    /** l_mark_value: only an object value is marked; nil, booleans and numbers change nothing. */
    method MarkValue(value: Value)
      requires grayCount <= grayStack.Length && (value.Obj? ==> value.ref in store)
      modifies this`store, this`grayStack, this`grayCount, grayStack
      ensures grayCount <= grayStack.Length && (grayStack == old(grayStack) || fresh(grayStack))
      ensures Marks() == (if value.Obj? then MarkStep(old(Marks()), value.ref) else old(Marks()))
      ensures store.Keys == old(store).Keys
    {
      if value.Obj? {
        MarkObject(Some(value.ref));
      }
    }

    /**
     * l_mark_array, and the first loop of _mark_roots over the value
     * stack: every value, first to last.
     */
    method MarkValues(values: seq<Value>)
      requires grayCount <= grayStack.Length && forall i :: 0 <= i < |values| && values[i].Obj? ==> values[i].ref in store
      modifies this`store, this`grayStack, this`grayCount, grayStack
      ensures grayCount <= grayStack.Length && (grayStack == old(grayStack) || fresh(grayStack))
      ensures Marks() == MarkAll(old(Marks()), Refs(values)) && store.Keys == old(store).Keys
    {
      ghost var m0 := Marks();
      var i := 0;
      while i < |values|
        invariant 0 <= i <= |values|
        invariant grayCount <= grayStack.Length && (grayStack == old(grayStack) || fresh(grayStack))
        invariant store.Keys == m0.store.Keys
        invariant Marks() == MarkAll(m0, Refs(values[..i]))
      {
        MarkValue(values[i]);
        MarkValuesStep(m0, values, i);
        i := i + 1;
      }
      assert values[..i] == values;
    }

    /** The loops of _mark_roots over the call frames' closures and over the compiler's functions. */
    method MarkObjects(ids: seq<ObjId>)
      requires grayCount <= grayStack.Length && AllIn(ids, store)
      modifies this`store, this`grayStack, this`grayCount, grayStack
      ensures grayCount <= grayStack.Length && (grayStack == old(grayStack) || fresh(grayStack))
      ensures Marks() == MarkAll(old(Marks()), ids) && store.Keys == old(store).Keys
    {
      ghost var m0 := Marks();
      var i := 0;
      while i < |ids|
        invariant 0 <= i <= |ids|
        invariant grayCount <= grayStack.Length && (grayStack == old(grayStack) || fresh(grayStack))
        invariant store.Keys == m0.store.Keys
        invariant Marks() == MarkAll(m0, ids[..i])
      {
        MarkObject(Some(ids[i]));
        MarkObjectsStep(m0, ids, i);
        i := i + 1;
      }
      assert ids[..i] == ids;
    }

    /** The loop of _blacken_object over a closure's upvalue array; null slots are skipped. */
    method MarkUpvalueArray(upvalues: seq<Option<ObjId>>)
      requires grayCount <= grayStack.Length && forall i :: 0 <= i < |upvalues| && upvalues[i].Some? ==> upvalues[i].value in store
      modifies this`store, this`grayStack, this`grayCount, grayStack
      ensures grayCount <= grayStack.Length && (grayStack == old(grayStack) || fresh(grayStack))
      ensures Marks() == MarkAll(old(Marks()), Present(upvalues)) && store.Keys == old(store).Keys
    {
      ghost var m0 := Marks();
      var i := 0;
      while i < |upvalues|
        invariant 0 <= i <= |upvalues|
        invariant grayCount <= grayStack.Length && (grayStack == old(grayStack) || fresh(grayStack))
        invariant store.Keys == m0.store.Keys
        invariant Marks() == MarkAll(m0, Present(upvalues[..i]))
      {
        MarkObject(upvalues[i]);
        MarkUpvalueArrayStep(m0, upvalues, i);
        i := i + 1;
      }
      assert upvalues[..i] == upvalues;
    }

    /** The loop of _mark_roots over the open upvalues, following each upvalue's `next`. */
    method MarkUpvalues(head: Option<ObjId>, ghost chain: seq<ObjId>)
      requires grayCount <= grayStack.Length && UpvalueChain(store, head, chain)
      modifies this`store, this`grayStack, this`grayCount, grayStack
      ensures grayCount <= grayStack.Length && (grayStack == old(grayStack) || fresh(grayStack))
      ensures Marks() == MarkAll(old(Marks()), chain) && store.Keys == old(store).Keys
    {
      ghost var m0 := Marks();
      var upvalue := head;
      ghost var i := 0;
      while upvalue.Some?
        invariant 0 <= i <= |chain|
        invariant grayCount <= grayStack.Length && (grayStack == old(grayStack) || fresh(grayStack))
        invariant store.Keys == m0.store.Keys
        invariant Marks() == MarkAll(m0, chain[..i])
        invariant UpvalueChain(store, upvalue, chain[i..])
        decreases |chain| - i
      {
        ghost var before := store;
        MarkObject(upvalue);
        MarkUpvaluesStep(m0, before, store, upvalue, chain, i);
        upvalue := store[upvalue.value].body.nextUpvalue;
        i := i + 1;
      }
      assert chain[..i] == chain;
    }

    /** l_mark_table on the globals (table.c is not part of this model): each key, then its value. */
    method MarkTable(entries: seq<Entry>)
      requires grayCount <= grayStack.Length
      requires forall i :: 0 <= i < |entries| ==> entries[i].key in store && (entries[i].value.Obj? ==> entries[i].value.ref in store)
      modifies this`store, this`grayStack, this`grayCount, grayStack
      ensures grayCount <= grayStack.Length && (grayStack == old(grayStack) || fresh(grayStack))
      ensures Marks() == MarkAll(old(Marks()), TableRefs(entries)) && store.Keys == old(store).Keys
    {
      ghost var m0 := Marks();
      var i := 0;
      while i < |entries|
        invariant 0 <= i <= |entries|
        invariant grayCount <= grayStack.Length && (grayStack == old(grayStack) || fresh(grayStack))
        invariant store.Keys == m0.store.Keys
        invariant Marks() == MarkAll(m0, TableRefs(entries[..i]))
      {
        MarkObject(Some(entries[i].key));
        MarkValue(entries[i].value);
        MarkTableStep(m0, entries, i);
        i := i + 1;
      }
      assert entries[..i] == entries;
    }

    /**
     * _mark_roots: the value stack, the frames' closures, the open
     * upvalues, the globals and the compiler's functions, in this order.
     */
    method MarkRoots(roots: Roots, ghost chain: seq<ObjId>)
      requires grayCount <= grayStack.Length && RootsIn(store, roots, chain)
      modifies this`store, this`grayStack, this`grayCount, grayStack
      ensures grayCount <= grayStack.Length && (grayStack == old(grayStack) || fresh(grayStack))
      ensures Marks() == MarkAll(old(Marks()), RootIds(roots, chain)) && store.Keys == old(store).Keys
    {
      ghost var m0 := Marks();
      RootsParts(store, roots, chain);
      MarkValues(roots.stack);
      MarkObjects(roots.frames);
      UpvalueChainSameObjects(m0.store, store, roots.openUpvalues, chain);
      MarkUpvalues(roots.openUpvalues, chain);
      MarkTable(roots.globals);
      MarkObjects(roots.compiler);
      RootIdsMarked(m0, roots, chain);
    }

    /**
     * _blacken_object: mark what the object refers to. A closure marks its
     * function and then each upvalue, a function its name and then each
     * constant, an upvalue its closed-over value; natives and strings
     * refer to nothing.
     */
    method BlackenObject(id: ObjId)
      requires grayCount <= grayStack.Length && id in store && AllIn(Children(store[id].body), store)
      modifies this`store, this`grayStack, this`grayCount, grayStack
      ensures grayCount <= grayStack.Length && (grayStack == old(grayStack) || fresh(grayStack))
      ensures Marks() == MarkAll(old(Marks()), Children(old(store)[id].body)) && store.Keys == old(store).Keys
    {
      ghost var m0 := Marks();
      LeavesHaveNoChildren(store[id].body);
      match store[id].body
      case Closure(f, upvalues) =>
        MarkObject(Some(f));
        MarkUpvalueArray(upvalues);
        MarkAllAppend(m0, [f], Present(upvalues));
        assert MarkAll(m0, [f]) == MarkStep(m0, f) by {
          assert [f][..0] == [];
        }
      case Function(_, _, name, chunk) =>
        MarkObject(name);
        MarkValues(chunk.constants);
        MarkAllAppend(m0, Present([name]), Refs(chunk.constants));
        assert MarkAll(m0, Present([name])) == if name.None? then m0 else MarkStep(m0, name.value) by {
          assert [name][..0] == [];
        }
      case Upvalue(_, closed, _) =>
        MarkValue(closed);
        MarkOneValue(m0, closed);
      case Native(_) =>
      case Str(_, _) =>
    }

    /**
     * _trace_references: pop and blacken gray objects until the gray stack
     * is empty; the result is Trace of the heap it started from.
     */
    method TraceReferences()
      requires grayCount <= grayStack.Length && ChildrenIn(store) && GrayIn(Marks())
      modifies this`store, this`grayStack, this`grayCount, grayStack
      ensures grayCount <= grayStack.Length && (grayStack == old(grayStack) || fresh(grayStack))
      ensures Marks() == Trace(old(Marks())) && grayCount == 0
    {
      ghost var m0 := Marks();
      while grayCount > 0
        invariant grayCount <= grayStack.Length && (grayStack == old(grayStack) || fresh(grayStack))
        invariant TraceInv(Marks(), m0)
        decreases Measure(Marks())
      {
        TracePass(m0);
      }
      TraceDone(Marks(), m0);
    }

    /** One pass of the loop of _trace_references: pop the top gray object and blacken it. */
    method TracePass(ghost m0: Marking)
      requires 0 < grayCount <= grayStack.Length && TraceInv(Marks(), m0)
      modifies this`store, this`grayStack, this`grayCount, grayStack
      ensures grayCount <= grayStack.Length && (grayStack == old(grayStack) || fresh(grayStack))
      ensures TraceInv(Marks(), m0) && Measure(Marks()) < Measure(old(Marks()))
    {
      ghost var m := Marks();
      PopPrefix(store, grayStack[..], grayCount);
      var obj := grayStack[grayCount - 1];
      grayCount := grayCount - 1;
      TraceGuard(m);
      BlackenObject(obj);
      TraceLoopStep(m, m0, Marks());
    }

    /**
     * l_table_remove_white on the intern table (table.c is not part of this
     * model): the entries of unmarked strings are dropped.
     */
    method TableRemoveWhite()
      modifies this`strings
      ensures strings == RemoveWhite(old(strings), store)
    {
      strings := map k | k in strings && strings[k] in store && store[strings[k]].isMarked :: strings[k];
    }

    /**
     * reallocate(pointer, size, 0), as FREE and FREE_ARRAY call it: the
     * count drops by the size and no collection starts (ShrinkNeverCollects).
     */
    method Release(size: nat)
      modifies this`bytesAllocated
      ensures bytesAllocated == old(bytesAllocated) - size
    {
      bytesAllocated := bytesAllocated + 0 - size;
    }

    /**
     * _free_object: release the object's own arrays, then its struct. A
     * function's chunk is released by l_free_chunk (chunk.c), which is not
     * part of this model.
     */
    method FreeObject(id: ObjId)
      requires id in store
      modifies this`store, this`bytesAllocated
      ensures store == old(store) - {id}
      ensures bytesAllocated == old(bytesAllocated) - Footprint(sizes, old(store)[id].body)
    {
      match store[id].body {
        case Closure(_, upvalues) =>
          Release(ArrayBytes(sizes.pointer, |upvalues|));
          Release(sizes.closure);
        case Function(_, _, _, _) =>
          Release(sizes.functionSize);
        case Native(_) =>
          Release(sizes.native);
        case Str(chars, _) =>
          Release(|chars| + 1);
          Release(sizes.str);
        case Upvalue(_, _, _) =>
          Release(sizes.upvalue);
      }
      store := store - {id};
    }

    /**
     * The marking half of l_collect_garbage: _mark_roots, then
     * _trace_references. From a heap with no marks, exactly the objects
     * reachable from the roots end up marked, and every one of them has
     * its children marked.
     */
    method MarkPhase(roots: Roots, ghost chain: seq<ObjId>)
      requires grayCount <= grayStack.Length && ChildrenIn(store) && Quiescent() && RootsIn(store, roots, chain)
      modifies this`store, this`grayStack, this`grayCount, grayStack
      ensures grayCount == 0 && grayCount <= grayStack.Length && (grayStack == old(grayStack) || fresh(grayStack))
      ensures SameObjects(old(store), store) && MarkedIn(store) == Reachable(old(store), RootIds(roots, chain))
      ensures forall x :: x in store && store[x].isMarked ==> Blackened(store, x)
    {
      ghost var ids := RootIds(roots, chain);
      assert Marks() == Marking(store, []);
      MarkRoots(roots, chain);
      MarkingFindsReachable(old(store), ids);
      TraceReferences();
    }

    /**
     * l_collect_garbage: mark the roots, trace, drop the intern-table
     * entries of white strings, sweep, and set the next threshold to
     * GC_HEAP_GROW_FACTOR times what is left. The objects that remain are
     * exactly those reachable from the roots, unchanged and unmarked, and
     * the heap stays valid.
     */
    method CollectGarbage(roots: Roots, ghost chain: seq<ObjId>)
      requires Valid() && Quiescent() && RootsIn(store, roots, chain)
      modifies this`store, this`objects, this`list, this`grayStack, this`grayCount, grayStack, this`bytesAllocated, this`nextGc, this`strings
      ensures Valid() && Quiescent() && RootsIn(store, roots, chain) && (grayStack == old(grayStack) || fresh(grayStack))
      ensures nextId == old(nextId)
      ensures store.Keys == Reachable(old(store), RootIds(roots, chain))
      ensures forall x :: x in store ==> store[x].body == old(store)[x].body
      ensures list == Keep(old(list), store.Keys)
      ensures forall k :: k in strings <==> k in old(strings) && old(strings)[k] in store
      ensures forall k :: k in strings ==> strings[k] == old(strings)[k]
      ensures bytesAllocated == old(bytesAllocated) - FreedBytes(sizes, old(store), old(list), store.Keys)
      ensures nextGc == bytesAllocated * GC_HEAP_GROW_FACTOR
    {
      ghost var st0, objects0, s0, strings0, n0 := store, objects, list, strings, nextId;
      assert HeapValid(st0, objects0, s0, n0, strings0);
      MarkPhase(roots, chain);
      ghost var traced := store;
      TableRemoveWhite();
      LinkedSameObjects(st0, traced, objects, list);
      Sweep();
      assert nextId == n0;
      FreedBytesSameObjects(sizes, st0, traced, s0, MarkedIn(traced));
      Collected(st0, objects0, s0, n0, strings0, traced, strings, store, objects, list, roots, chain);
      nextGc := bytesAllocated * GC_HEAP_GROW_FACTOR;
    }

    /**
     * reallocate, for the count and the collector: the count changes by
     * newSize - oldSize, and a block that grows while the count is over
     * the threshold starts a collection first. The block itself (realloc,
     * free) is not modelled.
     */
    method Reallocate(oldSize: nat, newSize: nat, roots: Roots, ghost chain: seq<ObjId>)
      requires Valid() && Quiescent() && RootsIn(store, roots, chain)
      modifies this`store, this`objects, this`list, this`grayStack, this`grayCount, grayStack, this`bytesAllocated, this`nextGc, this`strings
      ensures Valid() && Quiescent() && RootsIn(store, roots, chain) && (grayStack == old(grayStack) || fresh(grayStack))
      ensures nextId == old(nextId)
      ensures Retained(sizes, old(store), old(list), old(bytesAllocated), old(strings), store, list, bytesAllocated, strings,
                       newSize - oldSize, RootIds(roots, chain))
      ensures Collects(old(bytesAllocated), old(nextGc), oldSize, newSize) ==>
        store.Keys == Reachable(old(store), RootIds(roots, chain)) && nextGc == bytesAllocated * GC_HEAP_GROW_FACTOR
      ensures !Collects(old(bytesAllocated), old(nextGc), oldSize, newSize) ==>
        store == old(store) && objects == old(objects) && list == old(list) && strings == old(strings)
        && bytesAllocated == old(bytesAllocated) + newSize - oldSize && nextGc == old(nextGc)
    {
      ghost var st0, s0, b0, strings0 := store, list, bytesAllocated, strings;
      bytesAllocated := bytesAllocated + newSize - oldSize;
      if newSize > oldSize && bytesAllocated > nextGc {
        CollectGarbage(roots, chain);
        CollectionRetained(sizes, st0, s0, b0, strings0, store, list, bytesAllocated, strings, newSize - oldSize, RootIds(roots, chain));
      } else {
        assert AllIn(list, store) && Interned(store, strings);
        NothingCollected(sizes, store, list, b0, strings, newSize - oldSize, RootIds(roots, chain));
      }
    }

    /**
     * l_free_objects: free every object of the allocation list, following
     * each `next` before the object is freed. The byte count drops by what
     * all of them accounted for; `vm.objects` is left pointing at the freed
     * head, as in the source.
     */
    method FreeObjects()
      requires Linked(store, objects, list)
      modifies this`store, this`bytesAllocated
      ensures store == map[]
      ensures bytesAllocated == old(bytesAllocated) - FreedBytes(sizes, old(store), old(list), {})
    {
      ghost var st0, s0, b0 := store, list, bytesAllocated;
      ghost var i: nat := 0;
      var obj := objects;
      FreeStart(sizes, store, objects, list);
      while obj != None
        invariant FreeInv(sizes, st0, s0, store, obj, i, b0 - bytesAllocated)
        decreases |s0| - i
      {
        FreeStep(sizes, st0, s0, store, obj, i, b0 - bytesAllocated);
        var next := store[obj.value].next;
        FreeObject(obj.value);
        obj := next;
        i := i + 1;
      }
      FreeDone(sizes, st0, s0, store, i, b0 - bytesAllocated);
    }

    /**
     * One pass of the loop of _sweep, at the object the cursor points to:
     * keep it with its mark cleared, or unlink and free it.
     */
    method SweepVisit(ghost st0: map<ObjId, HeapObject>, ghost s0: seq<ObjId>, ghost b0: int, previous: Option<ObjId>, obj: Option<ObjId>,
                      ghost i: nat, ghost kept: seq<ObjId>)
      returns (previous': Option<ObjId>, obj': Option<ObjId>, ghost kept': seq<ObjId>)
      requires SweepInv(sizes, st0, s0, store, objects, previous, obj, i, kept, b0 - bytesAllocated) && obj.Some? && obj.value in store
      modifies this`store, this`objects, this`bytesAllocated
      ensures SweepInv(sizes, st0, s0, store, objects, previous', obj', i + 1, kept', b0 - bytesAllocated)
    {
      var u := obj.value;
      if store[u].isMarked {
        SweepKeepStep(sizes, st0, s0, store, objects, previous, obj, i, kept, b0 - bytesAllocated);
        store := store[u := store[u].(isMarked := false)];
        previous', obj', kept' := obj, store[u].next, kept + [u];
      } else {
        SweepFreeStep(sizes, st0, s0, store, objects, previous, obj, i, kept, b0 - bytesAllocated);
        previous', obj', kept' := previous, store[u].next, kept;
        if previous != None {
          store := store[previous.value := store[previous.value].(next := obj')];
        } else {
          objects := obj';
        }
        FreeObject(u);
      }
    }

    /**
     * _sweep: walk the allocation list; a marked object stays, with its
     * mark cleared, and a white one is unlinked from `previous` (or from
     * the list head) and freed. What stays are exactly the marked objects,
     * in their old order, and the byte count drops by what the others
     * accounted for.
     */
    method Sweep()
      requires Linked(store, objects, list)
      modifies this`store, this`objects, this`list, this`bytesAllocated
      ensures list == Keep(old(list), MarkedIn(old(store))) && Linked(store, objects, list)
      ensures store.Keys == MarkedIn(old(store)) && MarkedIn(store) == {}
      ensures forall x :: x in store ==> store[x].body == old(store)[x].body
      ensures bytesAllocated == old(bytesAllocated) - FreedBytes(sizes, old(store), old(list), MarkedIn(old(store)))
    {
      ghost var st0, s0, b0 := store, list, bytesAllocated;
      ghost var i: nat, kept: seq<ObjId> := 0, [];
      var previous: Option<ObjId> := None;
      var obj := objects;
      SweepStart(sizes, store, objects, list);
      while obj != None
        invariant SweepInv(sizes, st0, s0, store, objects, previous, obj, i, kept, b0 - bytesAllocated)
        decreases |s0| - i
      {
        SweepCursor(sizes, st0, s0, store, objects, previous, obj, i, kept, b0 - bytesAllocated);
        previous, obj, kept := SweepVisit(st0, s0, b0, previous, obj, i, kept);
        i := i + 1;
      }
      SweepDone(sizes, st0, s0, store, objects, previous, i, kept, b0 - bytesAllocated);
      list := kept;
    }
  }
}
