/**
 * How much a traversal depends on the order in which `MapKeys` enumerates
 * each map. Go picks that order afresh on every call, so two calls on equal
 * arguments may see different orders.
 */
module Orders {
  import opened Wrappers
  import opened Values
  import opened Walk
  import Containers

  /** Every string map inside `v` holds only values that `render` accepts. */
  ghost predicate MapsRender(render: Renderer, v: Value)
    decreases v
  {
    match v
    case Ptr(target) => target.None? || MapsRender(render, target.value)
    case Slice(es) => forall i :: 0 <= i < |es| ==> MapsRender(render, es[i])
    case StringMap(m) => forall k :: k in m ==> render(m[k]).Rendered?
    case Struct(fs) => forall i :: 0 <= i < |fs| ==> MapsRender(render, fs[i].value)
    case _ => true
  }

  /** The error a traversal reports does not depend on the key order. */
  lemma {:induction false} ErrSameAcrossOrders(f: Proc, o1: KeyOrder, o2: KeyOrder, v: Value, acc: Access)
    requires ValidOrder(o1) && ValidOrder(o2)
    ensures Convert(f, o1, v, acc).err == Convert(f, o2, v, acc).err
    decreases v, 3, 0
  {
    match v
    case Ptr(target) =>
      if target.Some? {
        ErrSameAcrossOrders(f, o1, o2, target.value, ElemAccess(acc));
      }
    case Slice(_) =>
      Containers.ConvertSliceSteps(f, o1, v, acc);
      Containers.ConvertSliceSteps(f, o2, v, acc);
    case StringMap(m) =>
      if acc.CanSet() {
        Containers.ConvertMapSteps(f, o1, m, acc);
        Containers.ConvertMapSteps(f, o2, m, acc);
      }
    case Struct(_) => StructErrSame(f, o1, o2, v, acc, 0, v.fields, v.fields, false, false);
    case _ =>
  }

  lemma {:induction false} StructErrSame(f: Proc, o1: KeyOrder, o2: KeyOrder, v: Value, acc: Access,
                                         i: nat, fs1: seq<Field>, fs2: seq<Field>, c1: bool, c2: bool)
    requires ValidOrder(o1) && ValidOrder(o2)
    requires v.Struct? && i <= |v.fields| && |fs1| == |v.fields| && |fs2| == |v.fields|
    ensures StructFrom(f, o1, v, acc, i, fs1, c1).err == StructFrom(f, o2, v, acc, i, fs2, c2).err
    decreases v, 1, |v.fields| - i
  {
    if i < |v.fields| {
      if !Visits(f, v, i) {
        StructErrSame(f, o1, o2, v, acc, i + 1, fs1, fs2, c1, c2);
      } else {
        var fd := v.fields[i];
        var r1 := Convert(f, o1, fd.value, FieldAccess(acc, fd));
        var r2 := Convert(f, o2, fd.value, FieldAccess(acc, fd));
        ErrSameAcrossOrders(f, o1, o2, fd.value, FieldAccess(acc, fd));
        if r1.err.None? {
          StructErrSame(f, o1, o2, v, acc, i + 1, fs1[i := fd.(value := r1.value)], fs2[i := fd.(value := r2.value)],
                        r1.changed || c1, r2.changed || c2);
        }
      }
    }
  }

  /**
   * When no string map value fails to render, the key order makes no
   * difference at all: the value, `changed` and the error are the same.
   */
  lemma {:induction false} SameAcrossOrders(f: Proc, o1: KeyOrder, o2: KeyOrder, v: Value, acc: Access)
    requires ValidOrder(o1) && ValidOrder(o2) && MapsRender(f.render, v)
    ensures Convert(f, o1, v, acc) == Convert(f, o2, v, acc)
    decreases v, 3, 0
  {
    match v
    case Ptr(target) =>
      if target.Some? {
        SameAcrossOrders(f, o1, o2, target.value, ElemAccess(acc));
      }
    case Slice(_) => SliceSame(f, o1, o2, v, acc, 0, v.elems, false);
    case StringMap(m) =>
      if acc.CanSet() {
        Containers.ConvertMapWithoutError(f, o1, m, acc);
        Containers.ConvertMapWithoutError(f, o2, m, acc);
        var e1 := ConvertMap(f, o1, v, acc).value.entries;
        var e2 := ConvertMap(f, o2, v, acc).value.entries;
        assert e1 == e2;
      }
    case Struct(_) => StructSame(f, o1, o2, v, acc, 0, v.fields, false);
    case _ =>
  }

  lemma {:induction false} SliceSame(f: Proc, o1: KeyOrder, o2: KeyOrder, v: Value, acc: Access,
                                     i: nat, elems: seq<Value>, changed: bool)
    requires ValidOrder(o1) && ValidOrder(o2) && MapsRender(f.render, v)
    requires v.Slice? && i <= |v.elems| && |elems| == |v.elems|
    ensures SliceFrom(f, o1, v, acc, i, elems, changed) == SliceFrom(f, o2, v, acc, i, elems, changed)
    decreases v, 1, |v.elems| - i
  {
    if i < |v.elems| {
      SameAcrossOrders(f, o1, o2, v.elems[i], ElemAccess(acc));
      var r := Convert(f, o1, v.elems[i], ElemAccess(acc));
      if r.err.None? {
        SliceSame(f, o1, o2, v, acc, i + 1, elems[i := r.value], r.changed || changed);
      }
    }
  }

  lemma {:induction false} StructSame(f: Proc, o1: KeyOrder, o2: KeyOrder, v: Value, acc: Access,
                                      i: nat, fields: seq<Field>, changed: bool)
    requires ValidOrder(o1) && ValidOrder(o2) && MapsRender(f.render, v)
    requires v.Struct? && i <= |v.fields| && |fields| == |v.fields|
    ensures StructFrom(f, o1, v, acc, i, fields, changed) == StructFrom(f, o2, v, acc, i, fields, changed)
    decreases v, 1, |v.fields| - i
  {
    if i < |v.fields| {
      if !Visits(f, v, i) {
        StructSame(f, o1, o2, v, acc, i + 1, fields, changed);
      } else {
        var fd := v.fields[i];
        SameAcrossOrders(f, o1, o2, fd.value, FieldAccess(acc, fd));
        var r := Convert(f, o1, fd.value, FieldAccess(acc, fd));
        if r.err.None? {
          StructSame(f, o1, o2, v, acc, i + 1, fields[i := fd.(value := r.value)], r.changed || changed);
        }
      }
    }
  }
}
