/**
 * The outcomes of the entry point and of the leaves, and the shapes of input
 * on which a traversal can change nothing.
 */
module Outcomes {
  import opened Wrappers
  import opened Values
  import opened Tags
  import opened Walk

  /**
   * The entry contract of `process`: a nil interface and a typed nil pointer
   * give (false, nil); anything but a pointer, and a pointer to anything but
   * a struct, give ErrInvalidType and are left alone; a pointer to a struct
   * is converted in place with the two policy flags.
   */
  lemma ProcessOutcome(render: Renderer, order: KeyOrder, s: Option<Value>, all: bool, validateOnly: bool)
    requires ValidOrder(order)
    ensures s.None? ==> Process(render, order, s, all, validateOnly) == Reply(s, false, None)
    ensures s.Some? && !s.value.Ptr? ==> Process(render, order, s, all, validateOnly) == Reply(s, false, Some(ErrInvalidType))
    ensures s == Some(Ptr(None)) ==> Process(render, order, s, all, validateOnly) == Reply(s, false, None)
    ensures s.Some? && s.value.Ptr? && s.value.target.Some? && !s.value.target.value.Struct? ==>
              Process(render, order, s, all, validateOnly) == Reply(s, false, Some(ErrInvalidType))
    ensures s.Some? && s.value.Ptr? && s.value.target.Some? && s.value.target.value.Struct? ==>
              var r := ConvertStruct(Proc(all, validateOnly, render), order, s.value.target.value, RootAccess);
              Process(render, order, s, all, validateOnly) == Reply(Some(Ptr(Some(r.value))), r.changed, r.err)
  {
  }

  /**
   * `convertString`: an unsettable location gives (false, nil); a render
   * failure gives (false, err) and keeps the text; otherwise `changed` is
   * whether the text differs from its rendering, and the location holds the
   * rendering unless validating.
   */
  lemma ConvertStringOutcome(f: Proc, s: string, acc: Access)
    ensures !acc.CanSet() ==> ConvertString(f, s, acc) == Result(Str(s), false, None)
    ensures acc.CanSet() && f.render(s).Failed? ==>
              ConvertString(f, s, acc) == Result(Str(s), false, Some(RenderError(f.render(s).message)))
    ensures acc.CanSet() && f.render(s).Rendered? ==>
              var html := f.render(s).html;
              && ConvertString(f, s, acc).changed == (s != html)
              && ConvertString(f, s, acc).err.None?
              && (ConvertString(f, s, acc).value == Str(html) <==> !f.validateOnly || s == html)
              && (ConvertString(f, s, acc).value == Str(s) <==> f.validateOnly || s == html)
  {
  }

  /**
   * A value holding no text anywhere: nil pointers at any depth, empty maps
   * with string values, and kinds the engine ignores.
   */
  predicate Inert(v: Value)
    decreases v
  {
    match v
    case Str(_) => false
    case Arr(_) => false
    case Ptr(target) => target.None? || Inert(target.value)
    case Slice(es) => forall i :: 0 <= i < |es| ==> Inert(es[i])
    case StringMap(m) => m == map[]
    case OtherMap => true
    case Struct(fs) => forall i :: 0 <= i < |fs| ==> Inert(fs[i].value)
    case Other => true
  }

  /** A key sequence drawn from a map is empty when the map is. */
  lemma KeysOfEmptyMap(ks: seq<Key>, m: map<Key, string>)
    requires forall i :: 0 <= i < |ks| ==> ks[i] in m
    ensures m == map[] ==> ks == []
  {
    if ks != [] {
      assert ks[0] in m;
    }
  }

  /** Converting an inert value gives (false, nil) and leaves it as it was, whatever the policy. */
  lemma {:induction false} InertUntouched(f: Proc, order: KeyOrder, v: Value, acc: Access)
    requires ValidOrder(order) && Inert(v)
    ensures Convert(f, order, v, acc) == Result(v, false, None)
    decreases v, 3, 0
  {
    match v
    case Ptr(target) =>
      if target.Some? {
        InertUntouched(f, order, target.value, ElemAccess(acc));
      }
    case Slice(_) => InertSliceFrom(f, order, v, acc, 0);
    case StringMap(m) =>
      assert Enumerates(order(m), m);
      KeysOfEmptyMap(order(m), m);
    case Struct(_) => InertStructFrom(f, order, v, acc, 0);
    case _ =>
  }

  lemma {:induction false} InertSliceFrom(f: Proc, order: KeyOrder, v: Value, acc: Access, i: nat)
    requires ValidOrder(order) && v.Slice? && Inert(v) && i <= |v.elems|
    ensures SliceFrom(f, order, v, acc, i, v.elems, false) == Result(v, false, None)
    decreases v, 1, |v.elems| - i
  {
    if i < |v.elems| {
      InertUntouched(f, order, v.elems[i], ElemAccess(acc));
      assert v.elems[i := v.elems[i]] == v.elems;
      InertSliceFrom(f, order, v, acc, i + 1);
    }
  }

  lemma {:induction false} InertStructFrom(f: Proc, order: KeyOrder, v: Value, acc: Access, i: nat)
    requires ValidOrder(order) && v.Struct? && Inert(v) && i <= |v.fields|
    ensures StructFrom(f, order, v, acc, i, v.fields, false) == Result(v, false, None)
    decreases v, 1, |v.fields| - i
  {
    if i < |v.fields| {
      if Visits(f, v, i) {
        var fd := v.fields[i];
        InertUntouched(f, order, fd.value, FieldAccess(acc, fd));
        assert v.fields[i := fd.(value := fd.value)] == v.fields;
      }
      InertStructFrom(f, order, v, acc, i + 1);
    }
  }

  /** A renderer that returns every text as it is. */
  ghost predicate RendersIdentically(f: Proc) {
    forall s :: f.render(s) == Rendered(s)
  }

  /**
   * Nothing can change when the location is read-only (reached through an
   * unexported field) or the renderer returns every text unchanged: the value
   * stays as it was, `changed` is false, and the only possible error is
   * ErrInvalidType (from an array).
   */
  lemma {:induction false} NothingToChange(f: Proc, order: KeyOrder, v: Value, acc: Access)
    requires ValidOrder(order) && (acc.readOnly || RendersIdentically(f))
    ensures var r := Convert(f, order, v, acc);
            r.value == v && !r.changed && (r.err.None? || r.err == Some(ErrInvalidType))
    decreases v, 3, 0
  {
    match v
    case Ptr(target) =>
      if target.Some? {
        NothingToChange(f, order, target.value, ElemAccess(acc));
      }
    case Slice(_) => UnchangedSliceFrom(f, order, v, acc, 0);
    case StringMap(m) =>
      if acc.CanSet() {
        assert Enumerates(order(m), m);
        UnchangedMapFrom(f, order(m), 0, m);
      }
    case Struct(_) => UnchangedStructFrom(f, order, v, acc, 0);
    case Str(s) =>
    case _ =>
  }

  lemma {:induction false} UnchangedSliceFrom(f: Proc, order: KeyOrder, v: Value, acc: Access, i: nat)
    requires ValidOrder(order) && (acc.readOnly || RendersIdentically(f))
    requires v.Slice? && i <= |v.elems|
    ensures SliceFrom(f, order, v, acc, i, v.elems, false) == Result(v, false, None)
    decreases v, 1, |v.elems| - i
  {
    if i < |v.elems| {
      var r := Convert(f, order, v.elems[i], ElemAccess(acc));
      NothingToChange(f, order, v.elems[i], ElemAccess(acc));
      assert v.elems[i := r.value] == v.elems;
      if r.err.None? {
        UnchangedSliceFrom(f, order, v, acc, i + 1);
      }
    }
  }

  lemma {:induction false} UnchangedMapFrom(f: Proc, ks: seq<Key>, i: nat, cur: map<Key, string>)
    requires RendersIdentically(f)
    requires i <= |ks| && forall j :: i <= j < |ks| ==> ks[j] in cur
    ensures MapFrom(f, ks, i, cur, false) == Result(StringMap(cur), false, None)
    decreases |ks| - i
  {
    if i < |ks| {
      assert f.render(cur[ks[i]]) == Rendered(cur[ks[i]]);
      UnchangedMapFrom(f, ks, i + 1, cur);
    }
  }

  lemma {:induction false} UnchangedStructFrom(f: Proc, order: KeyOrder, v: Value, acc: Access, i: nat)
    requires ValidOrder(order) && (acc.readOnly || RendersIdentically(f))
    requires v.Struct? && i <= |v.fields|
    ensures var r := StructFrom(f, order, v, acc, i, v.fields, false);
            r.value == v && !r.changed && (r.err.None? || r.err == Some(ErrInvalidType))
    decreases v, 1, |v.fields| - i
  {
    if i < |v.fields| {
      if !Visits(f, v, i) {
        UnchangedStructFrom(f, order, v, acc, i + 1);
      } else {
        var fd := v.fields[i];
        var r := Convert(f, order, fd.value, FieldAccess(acc, fd));
        NothingToChange(f, order, fd.value, FieldAccess(acc, fd));
        assert v.fields[i := fd.(value := r.value)] == v.fields;
        if r.err.None? {
          UnchangedStructFrom(f, order, v, acc, i + 1);
        }
      }
    }
  }
}
