/**
 * The two modes of a traversal: validate-only leaves every value as it was,
 * and reports the same (changed, error) pair as the converting run.
 */
module Modes {
  import opened Wrappers
  import opened Values
  import opened Tags
  import opened Walk
  import Orders

  /** A validate-only walk gives back the value it was handed. */
  lemma {:induction false} ValidateKeepsValue(f: Proc, order: KeyOrder, v: Value, acc: Access)
    requires ValidOrder(order) && f.validateOnly
    ensures Convert(f, order, v, acc).value == v
    decreases v, 3, 0
  {
    match v
    case Ptr(target) =>
      if target.Some? {
        ValidateKeepsValue(f, order, target.value, ElemAccess(acc));
      }
    case Slice(_) => SliceKeepsValue(f, order, v, acc, 0, false);
    case StringMap(m) =>
      if acc.CanSet() {
        assert Enumerates(order(m), m);
        MapKeepsValue(f, order(m), 0, m, false);
      }
    case Struct(_) => StructKeepsValue(f, order, v, acc, 0, false);
    case _ =>
  }

  lemma {:induction false} SliceKeepsValue(f: Proc, order: KeyOrder, v: Value, acc: Access, i: nat, changed: bool)
    requires ValidOrder(order) && f.validateOnly
    requires v.Slice? && i <= |v.elems|
    ensures SliceFrom(f, order, v, acc, i, v.elems, changed).value == v
    decreases v, 1, |v.elems| - i
  {
    if i < |v.elems| {
      var r := Convert(f, order, v.elems[i], ElemAccess(acc));
      ValidateKeepsValue(f, order, v.elems[i], ElemAccess(acc));
      assert v.elems[i := r.value] == v.elems;
      if r.err.None? {
        SliceKeepsValue(f, order, v, acc, i + 1, r.changed || changed);
      }
    }
  }

  lemma {:induction false} MapKeepsValue(f: Proc, ks: seq<Key>, i: nat, cur: map<Key, string>, changed: bool)
    requires f.validateOnly
    requires i <= |ks| && forall j :: i <= j < |ks| ==> ks[j] in cur
    ensures MapFrom(f, ks, i, cur, changed).value == StringMap(cur)
    decreases |ks| - i
  {
    if i < |ks| {
      match f.render(cur[ks[i]])
      case Failed(_) =>
      case Rendered(html) =>
        MapKeepsValue(f, ks, i + 1, cur, changed || cur[ks[i]] != html);
    }
  }

  lemma {:induction false} StructKeepsValue(f: Proc, order: KeyOrder, v: Value, acc: Access, i: nat, changed: bool)
    requires ValidOrder(order) && f.validateOnly
    requires v.Struct? && i <= |v.fields|
    ensures StructFrom(f, order, v, acc, i, v.fields, changed).value == v
    decreases v, 1, |v.fields| - i
  {
    if i < |v.fields| {
      if !Visits(f, v, i) {
        StructKeepsValue(f, order, v, acc, i + 1, changed);
      } else {
        var fd := v.fields[i];
        var r := Convert(f, order, fd.value, FieldAccess(acc, fd));
        ValidateKeepsValue(f, order, fd.value, FieldAccess(acc, fd));
        assert v.fields[i := fd.(value := r.value)] == v.fields;
        if r.err.None? {
          StructKeepsValue(f, order, v, acc, i + 1, r.changed || changed);
        }
      }
    }
  }

  /** Whether a walk mutates does not decide what it reports. */
  lemma {:induction false} ModesAgree(all: bool, render: Renderer, order: KeyOrder, v: Value, acc: Access)
    requires ValidOrder(order)
    ensures Convert(Proc(all, false, render), order, v, acc).changed == Convert(Proc(all, true, render), order, v, acc).changed
    ensures Convert(Proc(all, false, render), order, v, acc).err == Convert(Proc(all, true, render), order, v, acc).err
    decreases v, 3, 0
  {
    match v
    case Ptr(target) =>
      if target.Some? {
        ModesAgree(all, render, order, target.value, ElemAccess(acc));
      }
    case Slice(_) => SliceModesAgree(all, render, order, v, acc, 0, v.elems, v.elems, false);
    case StringMap(m) =>
      if acc.CanSet() {
        assert Enumerates(order(m), m);
        MapModesAgree(all, render, order(m), 0, m, m, false);
      }
    case Struct(_) => StructModesAgree(all, render, order, v, acc, 0, v.fields, v.fields, false);
    case _ =>
  }

  lemma {:induction false} SliceModesAgree(all: bool, render: Renderer, order: KeyOrder, v: Value, acc: Access,
                                           i: nat, e1: seq<Value>, e2: seq<Value>, changed: bool)
    requires ValidOrder(order)
    requires v.Slice? && i <= |v.elems| && |e1| == |v.elems| && |e2| == |v.elems|
    ensures SliceFrom(Proc(all, false, render), order, v, acc, i, e1, changed).changed
         == SliceFrom(Proc(all, true, render), order, v, acc, i, e2, changed).changed
    ensures SliceFrom(Proc(all, false, render), order, v, acc, i, e1, changed).err
         == SliceFrom(Proc(all, true, render), order, v, acc, i, e2, changed).err
    decreases v, 1, |v.elems| - i
  {
    if i < |v.elems| {
      var c := Convert(Proc(all, false, render), order, v.elems[i], ElemAccess(acc));
      var w := Convert(Proc(all, true, render), order, v.elems[i], ElemAccess(acc));
      ModesAgree(all, render, order, v.elems[i], ElemAccess(acc));
      if c.err.None? {
        SliceModesAgree(all, render, order, v, acc, i + 1, e1[i := c.value], e2[i := w.value], c.changed || changed);
      }
    }
  }

  lemma {:induction false} MapModesAgree(all: bool, render: Renderer, ks: seq<Key>, i: nat,
                                         cur1: map<Key, string>, cur2: map<Key, string>, changed: bool)
    requires i <= |ks|
    requires forall j :: i <= j < |ks| ==> ks[j] in cur1 && ks[j] in cur2 && cur1[ks[j]] == cur2[ks[j]]
    requires forall j, j' :: i <= j < j' < |ks| ==> ks[j] != ks[j']
    ensures MapFrom(Proc(all, false, render), ks, i, cur1, changed).changed
         == MapFrom(Proc(all, true, render), ks, i, cur2, changed).changed
    ensures MapFrom(Proc(all, false, render), ks, i, cur1, changed).err
         == MapFrom(Proc(all, true, render), ks, i, cur2, changed).err
    decreases |ks| - i
  {
    if i < |ks| {
      var raw := cur1[ks[i]];
      match render(raw)
      case Failed(_) =>
      case Rendered(html) =>
        if raw == html {
          MapModesAgree(all, render, ks, i + 1, cur1, cur2, changed);
        } else {
          MapModesAgree(all, render, ks, i + 1, cur1[ks[i] := html], cur2, true);
        }
    }
  }

  lemma {:induction false} StructModesAgree(all: bool, render: Renderer, order: KeyOrder, v: Value, acc: Access,
                                            i: nat, fs1: seq<Field>, fs2: seq<Field>, changed: bool)
    requires ValidOrder(order)
    requires v.Struct? && i <= |v.fields| && |fs1| == |v.fields| && |fs2| == |v.fields|
    ensures StructFrom(Proc(all, false, render), order, v, acc, i, fs1, changed).changed
         == StructFrom(Proc(all, true, render), order, v, acc, i, fs2, changed).changed
    ensures StructFrom(Proc(all, false, render), order, v, acc, i, fs1, changed).err
         == StructFrom(Proc(all, true, render), order, v, acc, i, fs2, changed).err
    decreases v, 1, |v.fields| - i
  {
    if i < |v.fields| {
      if !Visits(Proc(all, false, render), v, i) {
        StructModesAgree(all, render, order, v, acc, i + 1, fs1, fs2, changed);
      } else {
        var fd := v.fields[i];
        var c := Convert(Proc(all, false, render), order, fd.value, FieldAccess(acc, fd));
        var w := Convert(Proc(all, true, render), order, fd.value, FieldAccess(acc, fd));
        ModesAgree(all, render, order, fd.value, FieldAccess(acc, fd));
        if c.err.None? {
          StructModesAgree(all, render, order, v, acc, i + 1,
                           fs1[i := fd.(value := c.value)], fs2[i := fd.(value := w.value)], c.changed || changed);
        }
      }
    }
  }

  /** ValidateFields and ValidateAllFields leave the argument exactly as it was. */
  lemma ValidateNeverMutates(render: Renderer, order: KeyOrder, s: Option<Value>, all: bool)
    requires ValidOrder(order)
    ensures Process(render, order, s, all, true).root == s
  {
    if s.Some? && s.value.Ptr? && s.value.target.Some? {
      var t := s.value.target.value;
      if t.Struct? {
        StructKeepsValue(Proc(all, true, render), order, t, RootAccess, 0, false);
      }
    }
  }

  /**
   * ValidateFields reports what ConvertFields reports on the same argument,
   * and ValidateAllFields what ConvertAllFields reports.
   */
  lemma ValidateReportsLikeConvert(render: Renderer, order: KeyOrder, s: Option<Value>, all: bool)
    requires ValidOrder(order)
    ensures Process(render, order, s, all, true).changed == Process(render, order, s, all, false).changed
    ensures Process(render, order, s, all, true).err == Process(render, order, s, all, false).err
  {
    if s.Some? && s.value.Ptr? && s.value.target.Some? {
      var t := s.value.target.value;
      if t.Struct? {
        StructModesAgree(all, render, order, t, RootAccess, 0, t.fields, t.fields, false);
      }
    }
  }

  /**
   * The same comparison across two calls, which Go may give different key
   * orders: the error always agrees; `changed` agrees whenever every string
   * map value in the argument renders (`Examples.MapOrderMatters` shows it
   * need not agree otherwise).
   */
  lemma ValidateReportsLikeConvertAcrossCalls(render: Renderer, o1: KeyOrder, o2: KeyOrder, s: Option<Value>, all: bool)
    requires ValidOrder(o1) && ValidOrder(o2)
    ensures Process(render, o1, s, all, true).err == Process(render, o2, s, all, false).err
    ensures s.Some? && Orders.MapsRender(render, s.value) ==>
              Process(render, o1, s, all, true).changed == Process(render, o2, s, all, false).changed
  {
    ValidateReportsLikeConvert(render, o1, s, all);
    if s.Some? && s.value.Ptr? && s.value.target.Some? && s.value.target.value.Struct? {
      var t := s.value.target.value;
      var f := Proc(all, false, render);
      Orders.ErrSameAcrossOrders(f, o1, o2, t, RootAccess);
      if Orders.MapsRender(render, s.value) {
        Orders.SameAcrossOrders(f, o1, o2, t, RootAccess);
      }
    }
  }
}
