/**
 * The engine of markstruct.go as it runs: a `FieldProcessor` whose loops walk
 * a value and rewrite it, and the `Converter` entry points that configure one.
 * Every method is proved to compute the function of the same name in `Walk`.
 */
module Markstruct {
  import opened Wrappers
  import opened Values
  import opened Tags
  import Walk

  /** markstruct.go `fieldProcessor`. */
  class FieldProcessor {
    var convertAllFields: bool
    var validateOnly: bool
    const render: Renderer

    /** markstruct.go `makeFieldProcessor`: both flags start out false. */
    constructor (render: Renderer)
      ensures this.render == render
      ensures !convertAllFields && !validateOnly
    {
      this.render := render;
      convertAllFields := false;
      validateOnly := false;
    }

    /** The processor as a value, as `Walk` takes it. */
    function Spec(): Walk.Proc
      reads this
    {
      Walk.Proc(convertAllFields, validateOnly, render)
    }

    method Convert(order: Walk.KeyOrder, v: Value, acc: Access) returns (r: Result)
      requires Walk.ValidOrder(order)
      ensures r == Walk.Convert(Spec(), order, v, acc)
      decreases v, 3, 0
    {
      match v
      case Ptr(target) =>
        if target.None? {
          r := Result(v, false, None);
        } else {
          var e := Convert(order, target.value, ElemAccess(acc));
          r := Result(Ptr(Some(e.value)), e.changed, e.err);
        }
      case Slice(_) => r := ConvertSlice(order, v, acc);
      case Arr(_) => r := ConvertSlice(order, v, acc);
      case StringMap(_) => r := ConvertMap(order, v, acc);
      case OtherMap => r := ConvertMap(order, v, acc);
      case Struct(_) => r := ConvertStruct(order, v, acc);
      case Str(s) => r := ConvertString(s, acc);
      case Other => r := Result(v, false, None);
    }

    method ConvertMap(order: Walk.KeyOrder, v: Value, acc: Access) returns (r: Result)
      requires Walk.ValidOrder(order)
      ensures r == Walk.ConvertMap(Spec(), order, v, acc)
      decreases v, 2, 0
    {
      if !v.StringMap? && !v.OtherMap? {
        return Result(v, false, Some(ErrInvalidType));
      }
      if v.OtherMap? {
        return Result(v, false, None);
      }
      if !acc.CanSet() {
        return Result(v, false, None);
      }
      var cur := v.entries;
      var changed := false;
      var keys := order(v.entries);
      assert Walk.Enumerates(keys, v.entries);
      for i := 0 to |keys|
        invariant cur.Keys == v.entries.Keys
        invariant Walk.MapFrom(Spec(), keys, i, cur, changed) == Walk.ConvertMap(Spec(), order, v, acc)
      {
        var raw := cur[keys[i]];
        var rendering := render(raw);
        if rendering.Failed? {
          // the error was declared inside the loop and goes no further
          break;
        }
        var html := rendering.html;
        if raw != html {
          if !validateOnly {
            cur := cur[keys[i] := html];
          }
          changed := true;
        }
      }
      return Result(StringMap(cur), changed, None);
    }

    method ConvertSlice(order: Walk.KeyOrder, v: Value, acc: Access) returns (r: Result)
      requires Walk.ValidOrder(order)
      ensures r == Walk.ConvertSlice(Spec(), order, v, acc)
      decreases v, 2, 0
    {
      if !v.Slice? {
        return Result(v, false, Some(ErrInvalidType));
      }
      var elems := v.elems;
      var changed := false;
      for i := 0 to |v.elems|
        invariant |elems| == |v.elems|
        invariant Walk.SliceFrom(Spec(), order, v, acc, i, elems, changed) == Walk.ConvertSlice(Spec(), order, v, acc)
      {
        var e := Convert(order, v.elems[i], ElemAccess(acc));
        elems := elems[i := e.value];
        changed := e.changed || changed;
        if e.err.Some? {
          // the error was declared inside the loop and goes no further
          break;
        }
      }
      return Result(Slice(elems), changed, None);
    }

    method ConvertStruct(order: Walk.KeyOrder, v: Value, acc: Access) returns (r: Result)
      requires Walk.ValidOrder(order)
      ensures r == Walk.ConvertStruct(Spec(), order, v, acc)
      decreases v, 2, 0
    {
      if !v.Struct? {
        return Result(v, false, Some(ErrInvalidType));
      }
      var fields := v.fields;
      var changed := false;
      var err: Option<Error> := None;
      for i := 0 to |v.fields|
        invariant |fields| == |v.fields| && err.None?
        invariant Walk.StructFrom(Spec(), order, v, acc, i, fields, changed) == Walk.ConvertStruct(Spec(), order, v, acc)
      {
        var fd := v.fields[i];
        if !IsStruct(fd.value) {
          if !convertAllFields && !IsStructFieldTagEnabled(v, i) {
            continue;
          }
        }
        var e := Convert(order, fd.value, FieldAccess(acc, fd));
        fields := fields[i := fd.(value := e.value)];
        changed := e.changed || changed;
        err := e.err;
        if err.Some? {
          break;
        }
      }
      return Result(Struct(fields), changed, err);
    }

    method ConvertString(s: string, acc: Access) returns (r: Result)
      ensures r == Walk.ConvertString(Spec(), s, acc)
    {
      if !IsValidSettable(Some(Str(s)), acc) {
        return Result(Str(s), false, None);
      }
      var rendering := render(s);
      if rendering.Failed? {
        return Result(Str(s), false, Some(RenderError(rendering.message)));
      }
      var rendered := rendering.html;
      var location := s;
      if !validateOnly {
        location := rendered;
      }
      return Result(Str(location), s != rendered, None);
    }
  }

  /** markstruct.go `converter`: a bound Markdown renderer. */
  class Converter {
    const render: Renderer

    /** markstruct.go `WithMarkdown`. */
    constructor (render: Renderer)
      ensures this.render == render
    {
      this.render := render;
    }

    method Process(order: Walk.KeyOrder, s: Option<Value>, allFields: bool, validateOnly: bool)
      returns (r: Reply)
      requires Walk.ValidOrder(order)
      ensures r == Walk.Process(render, order, s, allFields, validateOnly)
    {
      if s.None? {
        return Reply(s, false, None);
      }
      var objval := s.value;
      if !objval.Ptr? {
        return Reply(s, false, Some(ErrInvalidType));
      }
      if !IsValidSettable(objval.target, RootAccess) {
        return Reply(s, false, None);
      }
      var fieldproc := new FieldProcessor(render);
      fieldproc.convertAllFields := allFields;
      fieldproc.validateOnly := validateOnly;
      assert fieldproc.Spec() == Walk.Proc(allFields, validateOnly, render);
      var out := fieldproc.ConvertStruct(order, objval.target.value, RootAccess);
      return Reply(Some(Ptr(Some(out.value))), out.changed, out.err);
    }

    method ConvertFields(order: Walk.KeyOrder, s: Option<Value>) returns (r: Reply)
      requires Walk.ValidOrder(order)
      ensures r == Walk.Process(render, order, s, false, false)
    {
      r := Process(order, s, false, false);
    }

    method ConvertAllFields(order: Walk.KeyOrder, s: Option<Value>) returns (r: Reply)
      requires Walk.ValidOrder(order)
      ensures r == Walk.Process(render, order, s, true, false)
    {
      r := Process(order, s, true, false);
    }

    method ValidateFields(order: Walk.KeyOrder, s: Option<Value>) returns (r: Reply)
      requires Walk.ValidOrder(order)
      ensures r == Walk.Process(render, order, s, false, true)
    {
      r := Process(order, s, false, true);
    }

    method ValidateAllFields(order: Walk.KeyOrder, s: Option<Value>) returns (r: Reply)
      requires Walk.ValidOrder(order)
      ensures r == Walk.Process(render, order, s, true, true)
    {
      r := Process(order, s, true, true);
    }
  }
}
