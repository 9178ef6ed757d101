/**
 * The object constructors of object.c: every object is allocated through
 * reallocate (which may start a collection first), gets the next fresh
 * address, and is pushed on the front of the allocation list; strings are
 * hashed with 32-bit FNV-1a and interned in `vm.strings`, so that equal
 * character sequences share one string object.
 */
module Objects {
  import opened Values
  import opened Chunks
  import opened ObjectTypes
  import opened Memory

  // ---------------------------------------------------------------------
  // _hash_string: 32-bit FNV-1a.
  // ---------------------------------------------------------------------

  const FNV_OFFSET_BASIS: bv32 := 2166136261
  const FNV_PRIME: bv32 := 16777619

  /** One FNV-1a step: xor the byte into the hash, then multiply by the prime modulo 2^32 (uint32_t arithmetic). */
  function FnvStep(hash: bv32, b: bv8): bv32 {
    (hash ^ (b as bv32)) * FNV_PRIME
  }

  /** The FNV-1a hash of some bytes: one step per byte, first to last, from the offset basis. */
  function FnvHash(bytes: seq<bv8>): bv32
    decreases |bytes|
  {
    if bytes == [] then FNV_OFFSET_BASIS
    else FnvStep(FnvHash(bytes[..|bytes| - 1]), bytes[|bytes| - 1])
  }

  /** The hash of one more byte goes on from the hash of the bytes before it. */
  lemma FnvHashSnoc(bytes: seq<bv8>, b: bv8)
    ensures FnvHash(bytes + [b]) == FnvStep(FnvHash(bytes), b)
  {
    assert (bytes + [b])[..|bytes|] == bytes;
  }

  /** Published FNV-1a test vectors: "", "a" and "foobar". */
  lemma FnvHashKnownAnswers()
    ensures FnvHash([]) == 0x811c9dc5
    ensures FnvHash([0x61]) == 0xe40c292c
    ensures FnvHash([0x66, 0x6f, 0x6f, 0x62, 0x61, 0x72]) == 0xbf9cf968
  {
    FnvHashSnoc([], 0x61);
    assert [] + [0x61 as bv8] == [0x61];
    var foobar: seq<bv8> := [0x66, 0x6f, 0x6f, 0x62, 0x61, 0x72];
    FnvHashSnoc(foobar[..0], foobar[0]);
    FnvHashSnoc(foobar[..1], foobar[1]);
    FnvHashSnoc(foobar[..2], foobar[2]);
    FnvHashSnoc(foobar[..3], foobar[3]);
    FnvHashSnoc(foobar[..4], foobar[4]);
    FnvHashSnoc(foobar[..5], foobar[5]);
    assert foobar[..0] + [foobar[0]] == foobar[..1];
    assert foobar[..1] + [foobar[1]] == foobar[..2];
    assert foobar[..2] + [foobar[2]] == foobar[..3];
    assert foobar[..3] + [foobar[3]] == foobar[..4];
    assert foobar[..4] + [foobar[4]] == foobar[..5];
    assert foobar[..5] + [foobar[5]] == foobar;
  }

  /** _hash_string: the loop over the bytes computes their FNV-1a hash. */
  method HashString(key: seq<bv8>) returns (hash: bv32)
    ensures hash == FnvHash(key)
  {
    hash := FNV_OFFSET_BASIS;
    var i := 0;
    while i < |key|
      invariant 0 <= i <= |key| && hash == FnvHash(key[..i])
    {
      assert key[..i + 1] == key[..i] + [key[i]];
      FnvHashSnoc(key[..i], key[i]);
      hash := FnvStep(hash, key[i]);
      i := i + 1;
    }
    assert key[..i] == key;
  }

  // ---------------------------------------------------------------------
  // What an allocation leaves of the heap.
  // ---------------------------------------------------------------------

  /**
   * The heap (store1, objects1, list1, bytes1) is the heap (store0, list0,
   * bytes0) after allocating object id with the given body, the count
   * grown by `added` bytes: id is the fresh address nextId0, at the head
   * of the list and holding the body; the other objects are objects of
   * store0 with their bodies, among them every object reachable from the
   * roots; the rest of the list keeps its order; and the count also
   * dropped by what the collections on the way freed.
   */
  ghost predicate Allocated(sz: Sizes, store0: map<ObjId, HeapObject>, list0: seq<ObjId>, bytes0: int, nextId0: ObjId,
                            store1: map<ObjId, HeapObject>, objects1: Option<ObjId>, list1: seq<ObjId>, bytes1: int,
                            id: ObjId, body: Object, added: int, roots: seq<ObjId>) {
    AllIn(list0, store0)
    && id == nextId0 && objects1 == Some(id)
    && id in store1 && store1[id].body == body
    && (forall x :: x in store1 && x != id ==> x in store0 && store1[x].body == store0[x].body)
    && Reachable(store0, roots) <= store1.Keys
    && list1 == [id] + Keep(list0, store1.Keys)
    && bytes1 == bytes0 + added - FreedBytes(sz, store0, list0, store1.Keys)
  }

  /**
   * The intern table after l_table_set(&vm.strings, string, NIL_VAL) on a
   * table that lost the entries of freed strings: chars now names id, and
   * every other entry is an entry of strings0 whose string is still in
   * the store.
   */
  ghost predicate Interning(strings0: map<seq<bv8>, ObjId>, strings1: map<seq<bv8>, ObjId>, store: map<ObjId, HeapObject>,
                            chars: seq<bv8>, id: ObjId) {
    chars in strings1 && strings1[chars] == id
    && (forall k :: k != chars ==> (k in strings1 <==> k in strings0 && strings0[k] in store))
    && forall k :: k in strings1 && k != chars ==> strings1[k] == strings0[k]
  }

  /** The heap once an object with the given body is pushed at address nextId, unmarked. */
  function Push(store: map<ObjId, HeapObject>, objects: Option<ObjId>, nextId: ObjId, body: Object): (r: map<ObjId, HeapObject>)
    ensures nextId in r && r[nextId] == HeapObject(false, objects, body)
    ensures forall x :: x != nextId ==> (x in r <==> x in store) && (x in r ==> r[x] == store[x])
  {
    store[nextId := HeapObject(false, objects, body)]
  }

  /**
   * The push of _allocate_object as written: the type and the link are
   * set but the mark bit is not, so the new object carries whatever bit
   * the memory it reuses held (staleMark).
   */
  function PushAsWritten(store: map<ObjId, HeapObject>, objects: Option<ObjId>, nextId: ObjId, body: Object,
                         staleMark: bool): map<ObjId, HeapObject> {
    store[nextId := HeapObject(staleMark, objects, body)]
  }

  /**
   * A stale mark loses a live object: a function (0), then a closure over
   * it (1) pushed with a stale set mark, the closure a root. Marking the
   * roots skips the closure as already marked, so it never reaches the
   * gray stack, tracing has nothing to do, and the function, reachable
   * through the closure, stays white: the sweep frees it while the
   * closure still points at it.
   */
  lemma StaleMarkLosesReachable()
    ensures var store := PushAsWritten(map[0 := HeapObject(false, None, Function(0, 0, None, Chunk([], [], [])))],
                                       Some(0), 1, Closure(0, []), true);
      ChildrenIn(store)
      && MarkAll(Marking(store, []), [1]) == Marking(store, [])
      && Trace(Marking(store, [])) == Marking(store, [])
      && 0 in Reachable(store, [1]) && 0 !in MarkedIn(store)
  {
    var store := PushAsWritten(map[0 := HeapObject(false, None, Function(0, 0, None, Chunk([], [], [])))],
                               Some(0), 1, Closure(0, []), true);
    assert Children(store[0].body) == [] by {
      assert Present([None]) == [];
    }
    assert Children(store[1].body) == [0];
    assert [1][..0] == [];
    assert IsPath(store, [1, 0]) by {
      assert Edge(store, 1, 0);
    }
  }

  /** Pushing an unmarked object whose children are in the store keeps the allocation list well formed. */
  lemma PushLinked(store: map<ObjId, HeapObject>, objects: Option<ObjId>, list: seq<ObjId>, nextId: ObjId, body: Object)
    requires Linked(store, objects, list) && forall x :: x in store ==> x < nextId
    ensures Linked(Push(store, objects, nextId, body), Some(nextId), [nextId] + list)
  {
    var t := Push(store, objects, nextId, body);
    SegmentFrame(store, t, objects, list, None);
    assert ([nextId] + list)[1..] == list;
    assert Distinct([nextId] + list) by {
      forall i, j | 0 <= i < j < |[nextId] + list| ensures ([nextId] + list)[i] != ([nextId] + list)[j] {
        if i == 0 {
          assert list[j - 1] in list;
        }
      }
    }
  }

  /** Pushing an unmarked object whose children are in the store keeps the heap valid and unmarked, with its roots. */
  lemma PushValid(store: map<ObjId, HeapObject>, objects: Option<ObjId>, list: seq<ObjId>, nextId: ObjId,
                  strings: map<seq<bv8>, ObjId>, body: Object, roots: Roots, chain: seq<ObjId>)
    requires HeapValid(store, objects, list, nextId, strings) && MarkedIn(store) == {} && RootsIn(store, roots, chain)
    requires AllIn(Children(body), store)
    ensures var t := Push(store, objects, nextId, body);
      HeapValid(t, Some(nextId), [nextId] + list, nextId + 1, strings) && MarkedIn(t) == {} && RootsIn(t, roots, chain)
  {
    var t := Push(store, objects, nextId, body);
    PushLinked(store, objects, list, nextId, body);
    assert ChildrenIn(t) by {
      forall x | x in t ensures AllIn(Children(t[x].body), t) {
        if x != nextId {
          assert AllIn(Children(store[x].body), store);
        }
      }
    }
    assert MarkedIn(t) == {} by {
      forall x | x in t ensures !t[x].isMarked {
        if x != nextId {
          assert x !in MarkedIn(store);
        }
      }
    }
    forall x | x in chain ensures x in store && x in t && t[x].body == store[x].body {
      assert x in RootIds(roots, chain);
    }
    UpvalueChainKept(store, t, roots.openUpvalues, chain);
  }

  /** After a reallocate retained the heap, pushing the new object at nextId completes an allocation. */
  lemma PushAllocated(sz: Sizes, store0: map<ObjId, HeapObject>, list0: seq<ObjId>, bytes0: int, strings0: map<seq<bv8>, ObjId>,
                      store1: map<ObjId, HeapObject>, objects1: Option<ObjId>, list1: seq<ObjId>, bytes1: int, strings1: map<seq<bv8>, ObjId>,
                      nextId: ObjId, body: Object, added: int, roots: seq<ObjId>)
    requires Retained(sz, store0, list0, bytes0, strings0, store1, list1, bytes1, strings1, added, roots)
    requires forall x :: x in store0 ==> x < nextId
    requires forall k :: k in strings0 ==> strings0[k] in store0
    ensures var t := Push(store1, objects1, nextId, body);
      Allocated(sz, store0, list0, bytes0, nextId, t, Some(nextId), [nextId] + list1, bytes1, nextId, body, added, roots)
      && StringsKept(strings0, strings1, t)
  {
    var t := Push(store1, objects1, nextId, body);
    FreedSameLive(sz, store0, list0, store1.Keys, t.Keys);
  }

  /** A retaining reallocate followed by an allocation is one allocation of all the bytes together. */
  lemma RetainedThenAllocated(sz: Sizes, store0: map<ObjId, HeapObject>, list0: seq<ObjId>, bytes0: int, strings0: map<seq<bv8>, ObjId>,
                              store1: map<ObjId, HeapObject>, list1: seq<ObjId>, bytes1: int, strings1: map<seq<bv8>, ObjId>,
                              store2: map<ObjId, HeapObject>, objects2: Option<ObjId>, list2: seq<ObjId>, bytes2: int,
                              id: ObjId, body: Object, a: int, b: int, added: int, roots: seq<ObjId>)
    requires Retained(sz, store0, list0, bytes0, strings0, store1, list1, bytes1, strings1, a, roots)
    requires Allocated(sz, store1, list1, bytes1, id, store2, objects2, list2, bytes2, id, body, b, roots)
    requires forall x :: x in store0 ==> x < id
    requires added == a + b
    ensures Allocated(sz, store0, list0, bytes0, id, store2, objects2, list2, bytes2, id, body, added, roots)
  {
    ReachableKept(store0, store1, roots);
    assert forall x :: x in list0 && x in store2.Keys ==> x in store1.Keys by {
      forall x | x in list0 && x in store2.Keys ensures x in store1.Keys {
        assert x in store0;
      }
    }
    FreedTwice(sz, store0, store1, list0, store1.Keys, store2.Keys);
  }

  /** The intern table through a retaining reallocate and then an allocation that keeps it. */
  lemma KeptThenKept(strings0: map<seq<bv8>, ObjId>, strings1: map<seq<bv8>, ObjId>, strings2: map<seq<bv8>, ObjId>,
                     store1: map<ObjId, HeapObject>, store2: map<ObjId, HeapObject>, id: ObjId)
    requires StringsKept(strings0, strings1, store1) && StringsKept(strings1, strings2, store2)
    requires (forall x :: x in store2 ==> x == id || x in store1) && forall k :: k in strings0 ==> strings0[k] != id
    ensures StringsKept(strings0, strings2, store2)
  {
  }

  /** The intern table through a retaining reallocate and then an allocation that interns chars. */
  lemma KeptThenInterned(strings0: map<seq<bv8>, ObjId>, strings1: map<seq<bv8>, ObjId>, strings2: map<seq<bv8>, ObjId>,
                         store1: map<ObjId, HeapObject>, store2: map<ObjId, HeapObject>, chars: seq<bv8>, id: ObjId)
    requires StringsKept(strings0, strings1, store1) && Interning(strings1, strings2, store2, chars, id)
    requires (forall x :: x in store2 ==> x == id || x in store1) && forall k :: k in strings0 ==> strings0[k] != id
    ensures Interning(strings0, strings2, store2, chars, id)
  {
  }

  // ---------------------------------------------------------------------
  // The constructors.
  // ---------------------------------------------------------------------

  /**
   * The second half of _allocate_object: the new object, unmarked, takes
   * the fresh address and goes on the front of `vm.objects`. Its children
   * must already be in the store.
   */
  method LinkObject(h: Heap, body: Object, ghost roots: Roots, ghost chain: seq<ObjId>) returns (id: ObjId)
    requires h.Valid() && h.Quiescent() && RootsIn(h.store, roots, chain) && AllIn(Children(body), h.store)
    modifies h`store, h`objects, h`list, h`nextId
    ensures h.Valid() && h.Quiescent() && RootsIn(h.store, roots, chain)
    ensures id == old(h.nextId) && h.nextId == id + 1
    ensures h.store == Push(old(h.store), old(h.objects), id, body) && h.objects == Some(id) && h.list == [id] + old(h.list)
  {
    id := h.nextId;
    PushValid(h.store, h.objects, h.list, id, h.strings, body, roots, chain);
    h.store := Push(h.store, h.objects, id, body);
    h.objects := Some(id);
    h.list := [id] + h.list;
    h.nextId := h.nextId + 1;
  }

  /**
   * _allocate_object: reallocate `size` bytes (which may collect first),
   * then push a new unmarked object with the given body at the fresh
   * address on the front of `vm.objects`. The children of the body must
   * be roots, so that a collection on the way keeps them.
   */
  method AllocateObject(h: Heap, size: nat, body: Object, roots: Roots, ghost chain: seq<ObjId>) returns (id: ObjId)
    requires h.Valid() && h.Quiescent() && RootsIn(h.store, roots, chain)
    requires forall c :: c in Children(body) ==> c in RootIds(roots, chain)
    modifies h, h.grayStack
    ensures h.Valid() && h.Quiescent() && RootsIn(h.store, roots, chain) && h.nextId == id + 1
    ensures h.grayStack == old(h.grayStack) || fresh(h.grayStack)
    ensures Allocated(h.sizes, old(h.store), old(h.list), old(h.bytesAllocated), old(h.nextId),
                      h.store, h.objects, h.list, h.bytesAllocated, id, body, size, RootIds(roots, chain))
    ensures StringsKept(old(h.strings), h.strings, h.store)
    ensures !Collects(old(h.bytesAllocated), old(h.nextGc), 0, size) ==>
      h.store == old(h.store)[id := HeapObject(false, old(h.objects), body)] && h.strings == old(h.strings) && h.nextGc == old(h.nextGc)
    ensures Collects(old(h.bytesAllocated), old(h.nextGc), 0, size) ==>
      h.store.Keys == Reachable(old(h.store), RootIds(roots, chain)) + {id} && h.nextGc == h.bytesAllocated * GC_HEAP_GROW_FACTOR
  {
    ghost var store0, list0, bytes0, strings0 := h.store, h.list, h.bytesAllocated, h.strings;
    h.Reallocate(0, size, roots, chain);
    ghost var store1, objects1, list1 := h.store, h.objects, h.list;
    id := LinkObject(h, body, roots, chain);
    PushAllocated(h.sizes, store0, list0, bytes0, strings0, store1, objects1, list1, h.bytesAllocated, h.strings, id, body, size, RootIds(roots, chain));
  }

  /** l_new_function: a function of arity 0, without upvalues or name, over an empty chunk (l_init_chunk). */
  method NewFunction(h: Heap, roots: Roots, ghost chain: seq<ObjId>) returns (id: ObjId)
    requires h.Valid() && h.Quiescent() && RootsIn(h.store, roots, chain)
    modifies h, h.grayStack
    ensures h.Valid() && h.Quiescent() && RootsIn(h.store, roots, chain) && h.nextId == id + 1
    ensures h.grayStack == old(h.grayStack) || fresh(h.grayStack)
    ensures Allocated(h.sizes, old(h.store), old(h.list), old(h.bytesAllocated), old(h.nextId),
                      h.store, h.objects, h.list, h.bytesAllocated, id, Function(0, 0, None, Chunk([], [], [])),
                      Footprint(h.sizes, Function(0, 0, None, Chunk([], [], []))), RootIds(roots, chain))
    ensures StringsKept(old(h.strings), h.strings, h.store)
  {
    id := AllocateObject(h, h.sizes.functionSize, Function(0, 0, None, Chunk([], [], [])), roots, chain);
  }

  /** l_new_native: an object wrapping the host function. */
  method NewNative(h: Heap, native: NativeFn, roots: Roots, ghost chain: seq<ObjId>) returns (id: ObjId)
    requires h.Valid() && h.Quiescent() && RootsIn(h.store, roots, chain)
    modifies h, h.grayStack
    ensures h.Valid() && h.Quiescent() && RootsIn(h.store, roots, chain) && h.nextId == id + 1
    ensures h.grayStack == old(h.grayStack) || fresh(h.grayStack)
    ensures Allocated(h.sizes, old(h.store), old(h.list), old(h.bytesAllocated), old(h.nextId),
                      h.store, h.objects, h.list, h.bytesAllocated, id, Native(native), Footprint(h.sizes, Native(native)),
                      RootIds(roots, chain))
    ensures StringsKept(old(h.strings), h.strings, h.store)
  {
    id := AllocateObject(h, h.sizes.native, Native(native), roots, chain);
  }

  /** l_new_upvalue: an open upvalue pointing at a stack slot, with a nil closed value and no successor. */
  method NewUpvalue(h: Heap, slot: nat, roots: Roots, ghost chain: seq<ObjId>) returns (id: ObjId)
    requires h.Valid() && h.Quiescent() && RootsIn(h.store, roots, chain)
    modifies h, h.grayStack
    ensures h.Valid() && h.Quiescent() && RootsIn(h.store, roots, chain) && h.nextId == id + 1
    ensures h.grayStack == old(h.grayStack) || fresh(h.grayStack)
    ensures Allocated(h.sizes, old(h.store), old(h.list), old(h.bytesAllocated), old(h.nextId),
                      h.store, h.objects, h.list, h.bytesAllocated, id, Upvalue(slot, Nil, None),
                      Footprint(h.sizes, Upvalue(slot, Nil, None)), RootIds(roots, chain))
    ensures StringsKept(old(h.strings), h.strings, h.store)
  {
    id := AllocateObject(h, h.sizes.upvalue, Upvalue(slot, Nil, None), roots, chain);
  }

  /** `n` null upvalue pointers. */
  function Unset(n: nat): (r: seq<Option<ObjId>>)
    ensures |r| == n && forall i :: 0 <= i < n ==> r[i] == None
  {
    seq(n, _ => None)
  }

  /** A closure over fn whose upvalues are all null refers to fn alone. */
  lemma UnsetClosureChildren(fn: ObjId, n: nat)
    ensures forall c :: c in Children(Closure(fn, Unset(n))) <==> c == fn
  {
    forall c ensures c in Children(Closure(fn, Unset(n))) <==> c == fn {
      assert Some(c) !in Unset(n);
    }
  }

  /** The loop of l_new_closure over a fresh upvalue array: `count` slots, each set to NULL. */
  method NullUpvalues(count: nat) returns (upvalues: array<Option<ObjId>>)
    ensures upvalues[..] == Unset(count)
  {
    upvalues := new Option<ObjId>[count];
    for i := 0 to count
      invariant forall j :: 0 <= j < i ==> upvalues[j] == None
    {
      upvalues[i] := None;
    }
    assert upvalues[..] == Unset(count);
  }

  /**
   * The upvalue array of l_new_closure: reallocate room for `count`
   * pointers (which may collect), then set each slot to NULL.
   */
  method AllocateUpvalues(h: Heap, count: nat, roots: Roots, ghost chain: seq<ObjId>) returns (upvalues: seq<Option<ObjId>>)
    requires h.Valid() && h.Quiescent() && RootsIn(h.store, roots, chain)
    modifies h, h.grayStack
    ensures h.Valid() && h.Quiescent() && RootsIn(h.store, roots, chain) && h.nextId == old(h.nextId)
    ensures h.grayStack == old(h.grayStack) || fresh(h.grayStack)
    ensures Retained(h.sizes, old(h.store), old(h.list), old(h.bytesAllocated), old(h.strings),
                     h.store, h.list, h.bytesAllocated, h.strings, ArrayBytes(h.sizes.pointer, count), RootIds(roots, chain))
    ensures upvalues == Unset(count)
  {
    h.Reallocate(0, ArrayBytes(h.sizes.pointer, count), roots, chain);
    var slots := NullUpvalues(count);
    upvalues := slots[..];
  }

  /**
   * l_new_closure: first the upvalue array, room for one pointer per
   * upvalue of the function (this reallocate may collect too), each set
   * to NULL, then the closure object over the function. The function
   * must be a root: the source's callers keep it on the VM stack.
   */
  method NewClosure(h: Heap, fn: ObjId, roots: Roots, ghost chain: seq<ObjId>) returns (id: ObjId)
    requires h.Valid() && h.Quiescent() && RootsIn(h.store, roots, chain)
    requires fn in RootIds(roots, chain) && fn in h.store && h.store[fn].body.Function?
    modifies h, h.grayStack
    ensures h.Valid() && h.Quiescent() && RootsIn(h.store, roots, chain) && h.nextId == id + 1
    ensures h.grayStack == old(h.grayStack) || fresh(h.grayStack)
    ensures var body := Closure(fn, Unset(old(h.store)[fn].body.upvalueCount));
      Allocated(h.sizes, old(h.store), old(h.list), old(h.bytesAllocated), old(h.nextId),
                h.store, h.objects, h.list, h.bytesAllocated, id, body, Footprint(h.sizes, body), RootIds(roots, chain))
    ensures StringsKept(old(h.strings), h.strings, h.store)
  {
    var count := h.store[fn].body.upvalueCount;
    ghost var store0, list0, bytes0, strings0 := h.store, h.list, h.bytesAllocated, h.strings;
    ghost var next := h.nextId;
    assert forall x :: x in store0 ==> x < next;
    var upvalues := AllocateUpvalues(h, count, roots, chain);
    ghost var store1, list1, bytes1, strings1 := h.store, h.list, h.bytesAllocated, h.strings;
    UnsetClosureChildren(fn, count);
    id := AllocateObject(h, h.sizes.closure, Closure(fn, upvalues), roots, chain);
    RetainedThenAllocated(h.sizes, store0, list0, bytes0, strings0, store1, list1, bytes1, strings1,
                          h.store, h.objects, h.list, h.bytesAllocated, id, Closure(fn, upvalues),
                          ArrayBytes(h.sizes.pointer, count), h.sizes.closure, Footprint(h.sizes, Closure(fn, upvalues)), RootIds(roots, chain));
    KeptThenKept(strings0, strings1, h.strings, store1, h.store, id);
  }

  /** Entering a string object under its own characters keeps the intern table naming its strings. */
  lemma InternAdded(store: map<ObjId, HeapObject>, strings: map<seq<bv8>, ObjId>, chars: seq<bv8>, id: ObjId)
    requires Interned(store, strings) && id in store && store[id].body.Str? && store[id].body.chars == chars
    ensures Interned(store, strings[chars := id])
  {
  }

  /** A kept table with one more entry is the table of an interning. */
  lemma KeptThenSet(strings0: map<seq<bv8>, ObjId>, strings1: map<seq<bv8>, ObjId>, store: map<ObjId, HeapObject>,
                    chars: seq<bv8>, id: ObjId)
    requires StringsKept(strings0, strings1, store)
    ensures Interning(strings0, strings1[chars := id], store, chars, id)
  {
  }

  /**
   * l_table_set(&vm.strings, string, NIL_VAL), with the table keyed by the
   * characters: the string object id is entered under its characters.
   */
  method TableSetString(h: Heap, chars: seq<bv8>, id: ObjId)
    requires h.Valid() && id in h.store && h.store[id].body.Str? && h.store[id].body.chars == chars
    modifies h`strings
    ensures h.Valid() && h.strings == old(h.strings)[chars := id]
  {
    InternAdded(h.store, h.strings, chars, id);
    h.strings := h.strings[chars := id];
  }

  /**
   * _allocate_string: a string object over chars with the given hash,
   * then entered in the intern table.
   */
  method AllocateString(h: Heap, chars: seq<bv8>, hash: bv32, roots: Roots, ghost chain: seq<ObjId>) returns (id: ObjId)
    requires h.Valid() && h.Quiescent() && RootsIn(h.store, roots, chain)
    modifies h, h.grayStack
    ensures h.Valid() && h.Quiescent() && RootsIn(h.store, roots, chain) && h.nextId == id + 1
    ensures h.grayStack == old(h.grayStack) || fresh(h.grayStack)
    ensures Allocated(h.sizes, old(h.store), old(h.list), old(h.bytesAllocated), old(h.nextId),
                      h.store, h.objects, h.list, h.bytesAllocated, id, Str(chars, hash), h.sizes.str, RootIds(roots, chain))
    ensures Interning(old(h.strings), h.strings, h.store, chars, id)
  {
    ghost var strings0 := h.strings;
    id := AllocateObject(h, h.sizes.str, Str(chars, hash), roots, chain);
    ghost var strings1 := h.strings;
    TableSetString(h, chars, id);
    KeptThenSet(strings0, strings1, h.store, chars, id);
  }

  /**
   * l_take_string: the string over a character buffer the caller
   * allocated (its length + 1 bytes already counted). An interned string
   * with the same characters is returned and the buffer is freed;
   * otherwise a new string takes the buffer. Either way the result is the
   * one string of the intern table with these characters.
   */
  method TakeString(h: Heap, chars: seq<bv8>, roots: Roots, ghost chain: seq<ObjId>) returns (id: ObjId)
    requires h.Valid() && h.Quiescent() && RootsIn(h.store, roots, chain)
    modifies h, h.grayStack
    ensures h.Valid() && h.Quiescent() && RootsIn(h.store, roots, chain)
    ensures h.grayStack == old(h.grayStack) || fresh(h.grayStack)
    ensures chars in h.strings && h.strings[chars] == id && id in h.store && h.store[id].body.Str? && h.store[id].body.chars == chars
    ensures chars in old(h.strings) ==>
      id == old(h.strings)[chars] && h.store == old(h.store) && h.objects == old(h.objects) && h.list == old(h.list)
      && h.strings == old(h.strings) && h.nextId == old(h.nextId) && h.bytesAllocated == old(h.bytesAllocated) - (|chars| + 1)
    ensures chars !in old(h.strings) ==>
      h.nextId == id + 1 && Interning(old(h.strings), h.strings, h.store, chars, id)
      && Allocated(h.sizes, old(h.store), old(h.list), old(h.bytesAllocated), old(h.nextId),
                   h.store, h.objects, h.list, h.bytesAllocated, id, Str(chars, FnvHash(chars)), h.sizes.str, RootIds(roots, chain))
  {
    var hash := HashString(chars);
    if chars in h.strings {
      id := h.strings[chars];
      h.Release(|chars| + 1);
    } else {
      id := AllocateString(h, chars, hash, roots, chain);
    }
  }

  /**
   * The copy of l_copy_string: reallocate room for the characters and
   * their terminator (which may collect), then copy them over.
   */
  method CopyChars(h: Heap, chars: seq<bv8>, roots: Roots, ghost chain: seq<ObjId>) returns (heapChars: seq<bv8>)
    requires h.Valid() && h.Quiescent() && RootsIn(h.store, roots, chain)
    modifies h, h.grayStack
    ensures h.Valid() && h.Quiescent() && RootsIn(h.store, roots, chain) && h.nextId == old(h.nextId)
    ensures h.grayStack == old(h.grayStack) || fresh(h.grayStack)
    ensures Retained(h.sizes, old(h.store), old(h.list), old(h.bytesAllocated), old(h.strings),
                     h.store, h.list, h.bytesAllocated, h.strings, |chars| + 1, RootIds(roots, chain))
    ensures heapChars == chars
  {
    h.Reallocate(0, |chars| + 1, roots, chain);
    heapChars := chars;
  }

  /**
   * l_copy_string: the interned string with these characters if there is
   * one, with nothing changed; otherwise a copy of the characters with
   * their terminator (which may collect) and a new string over the copy.
   * Either way the result is the one string of the intern table with
   * these characters.
   */
  method CopyString(h: Heap, chars: seq<bv8>, roots: Roots, ghost chain: seq<ObjId>) returns (id: ObjId)
    requires h.Valid() && h.Quiescent() && RootsIn(h.store, roots, chain)
    modifies h, h.grayStack
    ensures h.Valid() && h.Quiescent() && RootsIn(h.store, roots, chain)
    ensures h.grayStack == old(h.grayStack) || fresh(h.grayStack)
    ensures chars in h.strings && h.strings[chars] == id && id in h.store && h.store[id].body.Str? && h.store[id].body.chars == chars
    ensures chars in old(h.strings) ==>
      id == old(h.strings)[chars] && h.store == old(h.store) && h.objects == old(h.objects) && h.list == old(h.list)
      && h.strings == old(h.strings) && h.nextId == old(h.nextId) && h.bytesAllocated == old(h.bytesAllocated)
    ensures chars !in old(h.strings) ==>
      h.nextId == id + 1 && Interning(old(h.strings), h.strings, h.store, chars, id)
      && Allocated(h.sizes, old(h.store), old(h.list), old(h.bytesAllocated), old(h.nextId),
                   h.store, h.objects, h.list, h.bytesAllocated, id, Str(chars, FnvHash(chars)),
                   Footprint(h.sizes, Str(chars, FnvHash(chars))), RootIds(roots, chain))
  {
    var hash := HashString(chars);
    if chars in h.strings {
      id := h.strings[chars];
    } else {
      ghost var store0, list0, bytes0, strings0 := h.store, h.list, h.bytesAllocated, h.strings;
      ghost var next := h.nextId;
      assert forall x :: x in store0 ==> x < next;
      assert forall k :: k in strings0 ==> strings0[k] != next;
      var heapChars := CopyChars(h, chars, roots, chain);
      ghost var store1, list1, bytes1, strings1 := h.store, h.list, h.bytesAllocated, h.strings;
      id := AllocateString(h, heapChars, hash, roots, chain);
      RetainedThenAllocated(h.sizes, store0, list0, bytes0, strings0, store1, list1, bytes1, strings1,
                            h.store, h.objects, h.list, h.bytesAllocated, id, Str(chars, hash),
                            |chars| + 1, h.sizes.str, Footprint(h.sizes, Str(chars, hash)), RootIds(roots, chain));
      KeptThenInterned(strings0, strings1, h.strings, store1, h.store, chars, id);
    }
  }

  /**
   * What interning buys: in a heap whose intern table names its strings,
   * two table entries name the same object exactly when their characters
   * are equal, so comparing string objects by address compares their
   * contents.
   */
  lemma InternedByAddress(store: map<ObjId, HeapObject>, strings: map<seq<bv8>, ObjId>, a: seq<bv8>, b: seq<bv8>)
    requires Interned(store, strings) && a in strings && b in strings
    ensures strings[a] == strings[b] <==> a == b
  {
    if strings[a] == strings[b] {
      assert store[strings[a]].body.chars == a;
    }
  }
}
