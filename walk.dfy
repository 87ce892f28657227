/**
 * The meaning of one traversal of markstruct.go, as functions on values.
 *
 * Each Go function of the engine has a function here of the same name; each
 * Go loop is a function indexed by the loop counter (`SliceFrom`,
 * `MapFrom`, `StructFrom`) that carries the loop's accumulated state
 * (the container as rewritten so far and the `changed` flag). The methods of
 * `Markstruct.FieldProcessor` are proved to compute exactly these functions.
 */
module Walk {
  import opened Wrappers
  import opened Values
  import opened Tags

  /**
   * The `fieldProcessor` of one call: its two policy flags and the renderer
   * bound by its converter and parse options.
   */
  datatype Proc = Proc(convertAllFields: bool, validateOnly: bool, render: Renderer)

  /**
   * `Value.MapKeys`: Go returns the keys of a map in an unspecified order.
   * The model takes that order as a parameter.
   */
  type KeyOrder = map<Key, string> -> seq<Key>

  /** `ks` lists every key of `m` exactly once. */
  ghost predicate Enumerates(ks: seq<Key>, m: map<Key, string>) {
    && (forall i :: 0 <= i < |ks| ==> ks[i] in m)
    && (forall k :: k in m ==> k in ks)
    && (forall i, j :: 0 <= i < j < |ks| ==> ks[i] != ks[j])
  }

  /** An order is valid when it enumerates every map's keys. */
  ghost predicate ValidOrder(order: KeyOrder) {
    forall m :: Enumerates(order(m), m)
  }

  /**
   * markstruct.go `convert`: dispatch on the kind, following pointers level by
   * level (a nil pointer at any level gives (false, nil)).
   */
  function Convert(f: Proc, order: KeyOrder, v: Value, acc: Access): (r: Result)
    requires ValidOrder(order)
    decreases v, 3, 0
  {
    match v
    case Ptr(target) =>
      if target.None? then Result(v, false, None)   // Elem of a nil pointer is invalid
      else
        var e := Convert(f, order, target.value, ElemAccess(acc));
        Result(Ptr(Some(e.value)), e.changed, e.err)
    case Slice(_) => ConvertSlice(f, order, v, acc)
    case Arr(_) => ConvertSlice(f, order, v, acc)
    case StringMap(_) => ConvertMap(f, order, v, acc)
    case OtherMap => ConvertMap(f, order, v, acc)
    case Struct(_) => ConvertStruct(f, order, v, acc)
    case Str(s) => ConvertString(f, s, acc)
    case Other => Result(v, false, None)
  }

  /**
   * markstruct.go `convertSlice`. The error of an element is assigned to a
   * variable declared inside the loop, so it ends the loop but the error
   * returned is always the outer, nil one.
   */
  function ConvertSlice(f: Proc, order: KeyOrder, v: Value, acc: Access): (r: Result)
    requires ValidOrder(order)
    decreases v, 2, 0
  {
    if !v.Slice? then Result(v, false, Some(ErrInvalidType))
    else SliceFrom(f, order, v, acc, 0, v.elems, false)
  }

  /** The loop of `convertSlice` from index `i`, with `elems` and `changed` as they are there. */
  function SliceFrom(f: Proc, order: KeyOrder, v: Value, acc: Access,
                     i: nat, elems: seq<Value>, changed: bool): (r: Result)
    requires ValidOrder(order)
    requires v.Slice? && i <= |v.elems| && |elems| == |v.elems|
    decreases v, 1, |v.elems| - i
  {
    if i == |v.elems| then Result(Slice(elems), changed, None)
    else
      var e := Convert(f, order, v.elems[i], ElemAccess(acc));
      var elems' := elems[i := e.value];
      var changed' := e.changed || changed;
      if e.err.Some? then Result(Slice(elems'), changed', None)
      else SliceFrom(f, order, v, acc, i + 1, elems', changed')
  }

  /**
   * markstruct.go `convertMap`. As in `convertSlice`, the render error lives in
   * a loop-local variable: the loop stops, the error is dropped.
   */
  function ConvertMap(f: Proc, order: KeyOrder, v: Value, acc: Access): (r: Result)
    requires ValidOrder(order)
    decreases v, 2, 0
  {
    match v
    case StringMap(m) =>
      if !acc.CanSet() then Result(v, false, None)
      else MapFrom(f, order(m), 0, m, false)
    case OtherMap => Result(v, false, None)
    case _ => Result(v, false, Some(ErrInvalidType))
  }

  /**
   * The loop of `convertMap` over the key slice `ks`, from position `i`; `cur`
   * is the map as it is then, and each value is read from it.
   */
  function MapFrom(f: Proc, ks: seq<Key>, i: nat, cur: map<Key, string>, changed: bool): (r: Result)
    requires i <= |ks|
    requires forall j :: i <= j < |ks| ==> ks[j] in cur
    decreases |ks| - i
  {
    if i == |ks| then Result(StringMap(cur), changed, None)
    else
      var raw := cur[ks[i]];
      match f.render(raw)
      case Failed(_) => Result(StringMap(cur), changed, None)
      case Rendered(html) =>
        if raw == html then MapFrom(f, ks, i + 1, cur, changed)
        else MapFrom(f, ks, i + 1, if f.validateOnly then cur else cur[ks[i] := html], true)
  }

  /**
   * Whether the loop of `convertStruct` visits field `i` of struct `v` or
   * `continue`s past it: structs and pointers to structs always, other fields
   * under `ConvertAllFields` or an enabled tag.
   */
  predicate Visits(f: Proc, v: Value, i: int)
    requires v.Struct? && 0 <= i < |v.fields|
  {
    IsStruct(v.fields[i].value) || f.convertAllFields || IsStructFieldTagEnabled(v, i)
  }

  /** markstruct.go `convertStruct`. Unlike the two loops above, it returns the field's error. */
  function ConvertStruct(f: Proc, order: KeyOrder, v: Value, acc: Access): (r: Result)
    requires ValidOrder(order)
    decreases v, 2, 0
  {
    if !v.Struct? then Result(v, false, Some(ErrInvalidType))
    else StructFrom(f, order, v, acc, 0, v.fields, false)
  }

  /** The loop of `convertStruct` from field `i`, with `fields` and `changed` as they are there. */
  function StructFrom(f: Proc, order: KeyOrder, v: Value, acc: Access,
                      i: nat, fields: seq<Field>, changed: bool): (r: Result)
    requires ValidOrder(order)
    requires v.Struct? && i <= |v.fields| && |fields| == |v.fields|
    decreases v, 1, |v.fields| - i
  {
    if i == |v.fields| then Result(Struct(fields), changed, None)
    else if !Visits(f, v, i) then StructFrom(f, order, v, acc, i + 1, fields, changed)
    else
      var fd := v.fields[i];
      var e := Convert(f, order, fd.value, FieldAccess(acc, fd));
      var fields' := fields[i := fd.(value := e.value)];
      var changed' := e.changed || changed;
      if e.err.Some? then Result(Struct(fields'), changed', e.err)
      else StructFrom(f, order, v, acc, i + 1, fields', changed')
  }

  /** markstruct.go `convertString` on a string location holding `s`. */
  function ConvertString(f: Proc, s: string, acc: Access): (r: Result) {
    if !IsValidSettable(Some(Str(s)), acc) then Result(Str(s), false, None)
    else
      match f.render(s)
      case Failed(msg) => Result(Str(s), false, Some(RenderError(msg)))
      case Rendered(html) => Result(Str(if f.validateOnly then s else html), s != html, None)
  }

  /**
   * markstruct.go `process`: `s` is the interface argument (None when it is
   * nil). Only a non-nil pointer is followed, and its target is converted as
   * a struct.
   */
  function Process(render: Renderer, order: KeyOrder, s: Option<Value>,
                   allFields: bool, validateOnly: bool): (r: Reply)
    requires ValidOrder(order)
  {
    if s.None? then Reply(s, false, None)
    else if !s.value.Ptr? then Reply(s, false, Some(ErrInvalidType))
    else if !IsValidSettable(s.value.target, RootAccess) then Reply(s, false, None)
    else
      var e := ConvertStruct(Proc(allFields, validateOnly, render), order, s.value.target.value, RootAccess);
      Reply(Some(Ptr(Some(e.value))), e.changed, e.err)
  }
}
