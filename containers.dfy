/**
 * What each loop of the engine does, stated without the loop: the loops run
 * in order up to the first element, key or field whose conversion fails, and
 * `changed` is the disjunction over the ones they visited.
 */
module Containers {
  import opened Wrappers
  import opened Values
  import opened Tags
  import opened Walk

  // ---------------------------------------------------------------- slices

  /** The conversion of element `j` of a slice, as the loop of `convertSlice` runs it. */
  function ElemResult(f: Proc, order: KeyOrder, v: Value, acc: Access, j: int): Result
    requires ValidOrder(order) && v.Slice? && 0 <= j < |v.elems|
  {
    Convert(f, order, v.elems[j], ElemAccess(acc))
  }

  /** The first index from `i` whose element fails, or the length when none does. */
  function SliceStop(f: Proc, order: KeyOrder, v: Value, acc: Access, i: nat): (k: nat)
    requires ValidOrder(order) && v.Slice? && i <= |v.elems|
    ensures i <= k <= |v.elems|
    ensures forall j :: i <= j < k ==> ElemResult(f, order, v, acc, j).err.None?
    ensures k < |v.elems| ==> ElemResult(f, order, v, acc, k).err.Some?
    decreases |v.elems| - i
  {
    if i == |v.elems| || ElemResult(f, order, v, acc, i).err.Some? then i
    else SliceStop(f, order, v, acc, i + 1)
  }

  lemma {:induction false} SliceFromSteps(f: Proc, order: KeyOrder, v: Value, acc: Access,
                                          i: nat, elems: seq<Value>, changed: bool)
    requires ValidOrder(order)
    requires v.Slice? && i <= |v.elems| && |elems| == |v.elems|
    ensures var r := SliceFrom(f, order, v, acc, i, elems, changed);
            var k := SliceStop(f, order, v, acc, i);
            && r.value.Slice? && |r.value.elems| == |v.elems|
            && (forall j :: 0 <= j < |v.elems| ==>
                  r.value.elems[j] == if i <= j <= k then ElemResult(f, order, v, acc, j).value else elems[j])
            && (r.changed <==> changed || exists j :: i <= j <= k && j < |v.elems| && ElemResult(f, order, v, acc, j).changed)
            && r.err.None?
    decreases |v.elems| - i
  {
    if i < |v.elems| {
      var e := ElemResult(f, order, v, acc, i);
      if e.err.None? {
        SliceFromSteps(f, order, v, acc, i + 1, elems[i := e.value], e.changed || changed);
      }
    }
  }

  /**
   * `convertSlice` rejects everything but a slice. On a slice it converts the
   * elements in index order up to and including the first that fails, leaves
   * the rest and the length alone, ORs the flags of the converted ones, and
   * never reports an error.
   */
  lemma ConvertSliceSteps(f: Proc, order: KeyOrder, v: Value, acc: Access)
    requires ValidOrder(order)
    ensures !v.Slice? ==> ConvertSlice(f, order, v, acc) == Result(v, false, Some(ErrInvalidType))
    ensures v.Slice? ==>
              var r := ConvertSlice(f, order, v, acc);
              var k := SliceStop(f, order, v, acc, 0);
              && r.value.Slice? && |r.value.elems| == |v.elems|
              && (forall j :: 0 <= j < |v.elems| ==>
                    r.value.elems[j] == if j <= k then ElemResult(f, order, v, acc, j).value else v.elems[j])
              && (r.changed <==> exists j :: 0 <= j <= k && j < |v.elems| && ElemResult(f, order, v, acc, j).changed)
              && r.err.None?
  {
    if v.Slice? {
      SliceFromSteps(f, order, v, acc, 0, v.elems, false);
    }
  }

  // ---------------------------------------------------------------- maps

  /** The first position from `i` in `ks` whose value in `m` fails to render, or `|ks|`. */
  function MapStop(f: Proc, ks: seq<Key>, m: map<Key, string>, i: nat): (k: nat)
    requires i <= |ks| && forall j :: i <= j < |ks| ==> ks[j] in m
    ensures i <= k <= |ks|
    ensures forall j :: i <= j < k ==> f.render(m[ks[j]]).Rendered?
    ensures k < |ks| ==> f.render(m[ks[k]]).Failed?
    decreases |ks| - i
  {
    if i == |ks| || f.render(m[ks[i]]).Failed? then i
    else MapStop(f, ks, m, i + 1)
  }

  lemma {:induction false} MapFromSteps(f: Proc, ks: seq<Key>, m: map<Key, string>,
                                        i: nat, cur: map<Key, string>, changed: bool)
    requires i <= |ks|
    requires forall j :: i <= j < |ks| ==> ks[j] in m && ks[j] in cur && cur[ks[j]] == m[ks[j]]
    requires forall j, j' :: i <= j < j' < |ks| ==> ks[j] != ks[j']
    ensures var r := MapFrom(f, ks, i, cur, changed);
            var k := MapStop(f, ks, m, i);
            && r.value.StringMap? && r.value.entries.Keys == cur.Keys
            && (forall key :: key in cur && (forall j :: i <= j < k ==> ks[j] != key) ==>
                  r.value.entries[key] == cur[key])
            && (forall j :: i <= j < k ==>
                  r.value.entries[ks[j]] == if f.validateOnly then m[ks[j]] else f.render(m[ks[j]]).html)
            && (r.changed <==> changed || exists j :: i <= j < k && f.render(m[ks[j]]).html != m[ks[j]])
            && r.err.None?
    decreases |ks| - i
  {
    if i < |ks| && f.render(m[ks[i]]).Rendered? {
      var html := f.render(m[ks[i]]).html;
      var next := if m[ks[i]] == html || f.validateOnly then cur else cur[ks[i] := html];
      MapFromSteps(f, ks, m, i + 1, next, changed || m[ks[i]] != html);
    }
  }

  /**
   * `convertMap` on a settable map with string values: the keys stay; in
   * MapKeys order the values up to the first one that fails to render are
   * rendered, and written back unless validating; `changed` says whether one
   * of them differed from its rendering; no error is reported.
   */
  lemma ConvertMapSteps(f: Proc, order: KeyOrder, m: map<Key, string>, acc: Access)
    requires ValidOrder(order) && acc.CanSet()
    ensures var ks := order(m);
            var r := ConvertMap(f, order, StringMap(m), acc);
            var k := MapStop(f, ks, m, 0);
            && r.value.StringMap? && r.value.entries.Keys == m.Keys
            && (forall j :: 0 <= j < |ks| ==>
                  r.value.entries[ks[j]] == if j < k && !f.validateOnly then f.render(m[ks[j]]).html else m[ks[j]])
            && (r.changed <==> exists j :: 0 <= j < k && f.render(m[ks[j]]).html != m[ks[j]])
            && r.err.None?
  {
    var ks := order(m);
    assert Enumerates(ks, m);
    MapFromSteps(f, ks, m, 0, m, false);
    var r := ConvertMap(f, order, StringMap(m), acc);
    var k := MapStop(f, ks, m, 0);
    forall j | 0 <= j < |ks|
      ensures r.value.entries[ks[j]] == if j < k && !f.validateOnly then f.render(m[ks[j]]).html else m[ks[j]]
    {
      if j >= k {
        assert forall j' :: 0 <= j' < k ==> ks[j'] != ks[j];
      }
    }
  }

  /**
   * The cases of `convertMap` that render nothing: a non-map is rejected; a
   * map with non-string values, or one that cannot be set, is left as it is
   * with (false, nil). Whatever happens, a map keeps its key set.
   */
  lemma ConvertMapKinds(f: Proc, order: KeyOrder, v: Value, acc: Access)
    requires ValidOrder(order)
    ensures !v.StringMap? && !v.OtherMap? ==> ConvertMap(f, order, v, acc) == Result(v, false, Some(ErrInvalidType))
    ensures v.OtherMap? ==> ConvertMap(f, order, v, acc) == Result(v, false, None)
    ensures v.StringMap? && !acc.CanSet() ==> ConvertMap(f, order, v, acc) == Result(v, false, None)
    ensures v.StringMap? ==>
              ConvertMap(f, order, v, acc).value.StringMap?
              && ConvertMap(f, order, v, acc).value.entries.Keys == v.entries.Keys
  {
    if v.StringMap? && acc.CanSet() {
      ConvertMapSteps(f, order, v.entries, acc);
    }
  }

  /**
   * When no value of a settable string map fails to render, the outcome does
   * not depend on the iteration order: each value is replaced by its
   * rendering (or kept, when validating), and `changed` says whether some
   * value differs from its rendering.
   */
  lemma ConvertMapWithoutError(f: Proc, order: KeyOrder, m: map<Key, string>, acc: Access)
    requires ValidOrder(order) && acc.CanSet()
    requires forall key :: key in m ==> f.render(m[key]).Rendered?
    ensures var r := ConvertMap(f, order, StringMap(m), acc);
            && r.value.StringMap? && r.value.entries.Keys == m.Keys
            && (forall key :: key in m ==>
                  r.value.entries[key] == if f.validateOnly then m[key] else f.render(m[key]).html)
            && (r.changed <==> exists key :: key in m && f.render(m[key]).html != m[key])
            && r.err.None?
  {
    var ks := order(m);
    assert Enumerates(ks, m);
    ConvertMapSteps(f, order, m, acc);
    var k := MapStop(f, ks, m, 0);
    assert k == |ks|;
    var r := ConvertMap(f, order, StringMap(m), acc);
    forall key | key in m
      ensures r.value.entries[key] == if f.validateOnly then m[key] else f.render(m[key]).html
    {
      var j :| 0 <= j < |ks| && ks[j] == key;
    }
    if r.changed {
      var j :| 0 <= j < k && f.render(m[ks[j]]).html != m[ks[j]];
      assert ks[j] in m;
    }
    if exists key :: key in m && f.render(m[key]).html != m[key] {
      var key :| key in m && f.render(m[key]).html != m[key];
      var j :| 0 <= j < |ks| && ks[j] == key;
      assert f.render(m[ks[j]]).html != m[ks[j]];
    }
  }

  // ---------------------------------------------------------------- structs

  /** The conversion of field `j`, as the loop of `convertStruct` runs it when it visits it. */
  function FieldResult(f: Proc, order: KeyOrder, v: Value, acc: Access, j: int): Result
    requires ValidOrder(order) && v.Struct? && 0 <= j < |v.fields|
  {
    Convert(f, order, v.fields[j].value, FieldAccess(acc, v.fields[j]))
  }

  /** Field `j` is visited and its conversion fails. */
  predicate FailsAt(f: Proc, order: KeyOrder, v: Value, acc: Access, j: int)
    requires ValidOrder(order) && v.Struct? && 0 <= j < |v.fields|
  {
    Visits(f, v, j) && FieldResult(f, order, v, acc, j).err.Some?
  }

  /** The first field from `i` that is visited and fails, or the field count when none does. */
  function StructStop(f: Proc, order: KeyOrder, v: Value, acc: Access, i: nat): (k: nat)
    requires ValidOrder(order) && v.Struct? && i <= |v.fields|
    ensures i <= k <= |v.fields|
    ensures forall j :: i <= j < k ==> !FailsAt(f, order, v, acc, j)
    ensures k < |v.fields| ==> FailsAt(f, order, v, acc, k)
    decreases |v.fields| - i
  {
    if i == |v.fields| || FailsAt(f, order, v, acc, i) then i
    else StructStop(f, order, v, acc, i + 1)
  }

  lemma {:induction false} StructFromSteps(f: Proc, order: KeyOrder, v: Value, acc: Access,
                                           i: nat, fields: seq<Field>, changed: bool)
    requires ValidOrder(order)
    requires v.Struct? && i <= |v.fields| && |fields| == |v.fields|
    ensures var r := StructFrom(f, order, v, acc, i, fields, changed);
            var k := StructStop(f, order, v, acc, i);
            && r.value.Struct? && |r.value.fields| == |v.fields|
            && (forall j :: 0 <= j < |v.fields| ==>
                  r.value.fields[j] ==
                    if i <= j <= k && Visits(f, v, j)
                    then v.fields[j].(value := FieldResult(f, order, v, acc, j).value)
                    else fields[j])
            && (r.changed <==> changed || exists j :: i <= j <= k && j < |v.fields| && Visits(f, v, j)
                                                    && FieldResult(f, order, v, acc, j).changed)
            && r.err == if k < |v.fields| then FieldResult(f, order, v, acc, k).err else None
    decreases |v.fields| - i
  {
    if i < |v.fields| {
      if !Visits(f, v, i) {
        StructFromSteps(f, order, v, acc, i + 1, fields, changed);
      } else {
        var e := FieldResult(f, order, v, acc, i);
        if e.err.None? {
          StructFromSteps(f, order, v, acc, i + 1, fields[i := v.fields[i].(value := e.value)], e.changed || changed);
        }
      }
    }
  }

  /**
   * `convertStruct` rejects everything but a struct. On a struct it visits
   * the fields in declaration order and stops at the first visited field whose
   * conversion fails: the fields it visited up to there are converted, all
   * others are left exactly as they were, `changed` is the OR over the visited
   * ones (including the failing one) and the error is that field's error.
   */
  lemma ConvertStructSteps(f: Proc, order: KeyOrder, v: Value, acc: Access)
    requires ValidOrder(order)
    ensures !v.Struct? ==> ConvertStruct(f, order, v, acc) == Result(v, false, Some(ErrInvalidType))
    ensures v.Struct? ==>
              var r := ConvertStruct(f, order, v, acc);
              var k := StructStop(f, order, v, acc, 0);
              && r.value.Struct? && |r.value.fields| == |v.fields|
              && (forall j :: 0 <= j < |v.fields| ==>
                    r.value.fields[j] ==
                      if j <= k && Visits(f, v, j)
                      then v.fields[j].(value := FieldResult(f, order, v, acc, j).value)
                      else v.fields[j])
              && (r.changed <==> exists j :: 0 <= j <= k && j < |v.fields| && Visits(f, v, j)
                                           && FieldResult(f, order, v, acc, j).changed)
              && r.err == if k < |v.fields| then FieldResult(f, order, v, acc, k).err else None
  {
    if v.Struct? {
      StructFromSteps(f, order, v, acc, 0, v.fields, false);
    }
  }

  /**
   * Tag gating: without ConvertAllFields a field that is neither a struct nor
   * a non-nil pointer to one and whose tag is not enabled is left exactly as
   * it was; a struct or pointer-to-struct field is always converted, and so is
   * every field under ConvertAllFields, unless an earlier field failed.
   */
  lemma StructGating(f: Proc, order: KeyOrder, v: Value, acc: Access, j: nat)
    requires ValidOrder(order) && v.Struct? && j < |v.fields|
    ensures var r := ConvertStruct(f, order, v, acc);
            && r.value.Struct? && |r.value.fields| == |v.fields|
            && (!f.convertAllFields && !IsStruct(v.fields[j].value) && !IsMarkdownTagEnabled(v.fields[j].markdownTag) ==>
                  r.value.fields[j] == v.fields[j])
            && ((IsStruct(v.fields[j].value) || f.convertAllFields) && (forall i :: 0 <= i < j ==> !FailsAt(f, order, v, acc, i)) ==>
                  r.value.fields[j] == v.fields[j].(value := FieldResult(f, order, v, acc, j).value))
  {
    ConvertStructSteps(f, order, v, acc);
    var k := StructStop(f, order, v, acc, 0);
    assert k < |v.fields| ==> FailsAt(f, order, v, acc, k);
  }
}
