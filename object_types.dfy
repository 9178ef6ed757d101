/**
 * Heap objects (object.h, extended as object.c and lib/memory.c use them):
 * every object carries a header with its mark bit and the link to the next
 * allocated object, and one of five bodies.
 *
 * object.h declares neither `is_marked` nor OBJ_UPVALUE nor the closure's
 * upvalue array, but object.c and lib/memory.c read and write all three; the
 * model follows the code that uses them.
 */
module ObjectTypes {
  import opened Values
  import opened Chunks

  /** A C function pointer of a native function, as an opaque handle. */
  type NativeFn = nat

  datatype ObjType = ObjClosure | ObjFunction | ObjNative | ObjString | ObjUpvalue

  /** The fields that follow the obj_t header in each object struct. */
  datatype Object =
    | Closure(func: ObjId, upvalues: seq<Option<ObjId>>)
    | Function(arity: int, upvalueCount: nat, name: Option<ObjId>, chunk: Chunk)
    | Native(native: NativeFn)
    | Str(chars: seq<bv8>, hash: bv32)
    | Upvalue(location: nat, closed: Value, nextUpvalue: Option<ObjId>)

  function TypeOf(o: Object): ObjType {
    match o
    case Closure(_, _) => ObjClosure
    case Function(_, _, _, _) => ObjFunction
    case Native(_) => ObjNative
    case Str(_, _) => ObjString
    case Upvalue(_, _, _) => ObjUpvalue
  }

  /** An object with its header: the mark bit and `next`, the link of the allocation list. */
  datatype HeapObject = HeapObject(isMarked: bool, next: Option<ObjId>, body: Object)

  /** The objects among some values (IS_OBJ), in order. */
  function Refs(vs: seq<Value>): (r: seq<ObjId>)
    ensures forall x :: x in r <==> Obj(x) in vs
    decreases |vs|
  {
    if vs == [] then []
    else
      var last := vs[|vs| - 1];
      assert vs == vs[..|vs| - 1] + [last];
      Refs(vs[..|vs| - 1]) + (if last.Obj? then [last.ref] else [])
  }

  /** The non-null pointers among some possibly null ones, in order. */
  function Present(xs: seq<Option<ObjId>>): (r: seq<ObjId>)
    ensures forall x :: x in r <==> Some(x) in xs
    decreases |xs|
  {
    if xs == [] then []
    else
      var last := xs[|xs| - 1];
      assert xs == xs[..|xs| - 1] + [last];
      Present(xs[..|xs| - 1]) + (if last.Some? then [last.value] else [])
  }

  /**
   * The objects _blacken_object marks, in the order it marks them: a
   * closure's function and then its upvalues, a function's name and then its
   * constants, an upvalue's closed-over value. Natives and strings refer to
   * nothing.
   */
  function Children(o: Object): seq<ObjId> {
    match o
    case Closure(f, ups) => [f] + Present(ups)
    case Function(_, _, name, chunk) => Present([name]) + Refs(chunk.constants)
    case Upvalue(_, closed, _) => Refs([closed])
    case _ => []
  }

  /** sizeof of each object struct and of a pointer, on the host. */
  datatype Sizes = Sizes(closure: nat, functionSize: nat, native: nat, str: nat, upvalue: nat, pointer: nat)

  /** The bytes of an array of `count` elements of `elementSize` bytes each, as ALLOCATE and FREE_ARRAY compute them. */
  function ArrayBytes(elementSize: nat, count: nat): nat {
    elementSize * count
  }

  /**
   * The bytes an object accounts for in `bytes_allocated`: its struct, plus a
   * closure's upvalue array or a string's characters with their terminator.
   * A function's chunk is released by l_free_chunk (chunk.c), which is not
   * part of this model.
   */
  function Footprint(sz: Sizes, o: Object): nat {
    match o
    case Closure(_, ups) => sz.closure + ArrayBytes(sz.pointer, |ups|)
    case Function(_, _, _, _) => sz.functionSize
    case Native(_) => sz.native
    case Str(chars, _) => sz.str + |chars| + 1
    case Upvalue(_, _, _) => sz.upvalue
  }

  /** Only a closure, a function and an upvalue refer to other objects. */
  lemma LeavesHaveNoChildren(o: Object)
    ensures TypeOf(o) in {ObjNative, ObjString} ==> Children(o) == []
    ensures o.Closure? ==> forall x :: x in Children(o) <==> x == o.func || Some(x) in o.upvalues
    ensures o.Function? ==> forall x :: x in Children(o) <==> o.name == Some(x) || Obj(x) in o.chunk.constants
    ensures o.Upvalue? ==> forall x :: x in Children(o) <==> o.closed == Obj(x)
  {
    if o.Function? {
      forall x ensures x in Children(o) <==> o.name == Some(x) || Obj(x) in o.chunk.constants {
        assert x in Present([o.name]) <==> o.name == Some(x);
      }
    }
    if o.Upvalue? {
      forall x ensures x in Children(o) <==> o.closed == Obj(x) {
        assert Obj(x) in [o.closed] <==> o.closed == Obj(x);
      }
    }
  }
}
