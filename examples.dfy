/**
 * Concrete cases of the engine: some are taken from markstruct_test.go,
 * others exhibit behaviours of markstruct.go that no test pins down. They
 * use three stand-in renderers: one that wraps plain text in a paragraph as
 * goldmark does, one that always fails like the tests' ExplodingMarkdown,
 * and one that accepts only "a".
 */
module Examples {
  import opened Wrappers
  import opened Values
  import opened Tags
  import opened Walk

  /** goldmark's rendering of text without markup. */
  function Paragraph(s: string): Rendering {
    Rendered("<p>" + s + "</p>\n")
  }

  /** A renderer that fails on every input. */
  function Exploding(s: string): Rendering {
    Failed("BOOM")
  }

  /** Renders "a" as "b" and fails on anything else. */
  function OnlyA(s: string): Rendering {
    if s == "a" then Rendered("b") else Failed("no")
  }

  /** `struct { Comment string `markdown:"<tag>"` }` holding `text`. */
  function CommentStruct(tag: string, text: string): Value {
    Struct([Field(tag, true, Str(text))])
  }

  function PointerTo(v: Value): Option<Value> {
    Some(Ptr(Some(v)))
  }

  /** The three tag values the examples use. */
  lemma OnOff()
    ensures IsMarkdownTagEnabled("on")
    ensures !IsMarkdownTagEnabled("off") && !IsMarkdownTagEnabled("")
  {
    EnabledTagExamples();
    DisabledTagExamples();
  }

  /** A struct of one field is converted exactly as that field is, when the field is visited. */
  lemma SingleField(f: Proc, order: KeyOrder, fd: Field)
    requires ValidOrder(order)
    ensures var v := Struct([fd]);
            var r := Convert(f, order, fd.value, FieldAccess(RootAccess, fd));
            Process(f.render, order, PointerTo(v), f.convertAllFields, f.validateOnly)
              == if Visits(f, v, 0) then Reply(PointerTo(Struct([fd.(value := r.value)])), r.changed, r.err)
                 else Reply(PointerTo(v), false, None)
  {
    var v := Struct([fd]);
    assert f == Proc(f.convertAllFields, f.validateOnly, f.render);
    if Visits(f, v, 0) {
      var r := Convert(f, order, fd.value, FieldAccess(RootAccess, fd));
      assert v.fields[0 := fd.(value := r.value)] == [fd.(value := r.value)];
      if r.err.None? {
        assert StructFrom(f, order, v, RootAccess, 0, v.fields, false)
            == StructFrom(f, order, v, RootAccess, 1, [fd.(value := r.value)], r.changed);
      }
      assert ConvertStruct(f, order, v, RootAccess) == Result(Struct([fd.(value := r.value)]), r.changed, r.err);
    } else {
      assert StructFrom(f, order, v, RootAccess, 0, v.fields, false)
          == StructFrom(f, order, v, RootAccess, 1, v.fields, false);
    }
  }

  /** An enabled string field is rendered; a disabled one is left alone unless all fields are converted. */
  lemma StringFieldExamples(order: KeyOrder)
    requires ValidOrder(order)
    ensures Process(Paragraph, order, PointerTo(CommentStruct("on", "nothing")), false, false)
         == Reply(PointerTo(CommentStruct("on", "<p>nothing</p>\n")), true, None)
    ensures Process(Paragraph, order, PointerTo(CommentStruct("off", "nothing")), false, false)
         == Reply(PointerTo(CommentStruct("off", "nothing")), false, None)
    ensures Process(Paragraph, order, PointerTo(CommentStruct("off", "nothing")), true, false)
         == Reply(PointerTo(CommentStruct("off", "<p>nothing</p>\n")), true, None)
    ensures Process(Paragraph, order, PointerTo(CommentStruct("on", "nothing")), false, true)
         == Reply(PointerTo(CommentStruct("on", "nothing")), true, None)
  {
    OnOff();
    assert Paragraph("nothing") == Rendered("<p>nothing</p>\n");
    assert "nothing" != "<p>nothing</p>\n";
    SingleField(Proc(false, false, Paragraph), order, Field("on", true, Str("nothing")));
    SingleField(Proc(false, false, Paragraph), order, Field("off", true, Str("nothing")));
    SingleField(Proc(true, false, Paragraph), order, Field("off", true, Str("nothing")));
    SingleField(Proc(false, true, Paragraph), order, Field("on", true, Str("nothing")));
  }

  /**
   * A failing renderer, under each of the four entry points: the enabled
   * field fails every call, and the disabled one fails exactly the calls that
   * convert all fields. No call reports a change or alters the struct.
   */
  lemma RenderFailureExamples(order: KeyOrder, all: bool, validateOnly: bool)
    requires ValidOrder(order)
    ensures Process(Exploding, order, PointerTo(CommentStruct("on", "Hello World")), all, validateOnly)
         == Reply(PointerTo(CommentStruct("on", "Hello World")), false, Some(RenderError("BOOM")))
    ensures Process(Exploding, order, PointerTo(CommentStruct("off", "Hello World")), all, validateOnly)
         == Reply(PointerTo(CommentStruct("off", "Hello World")), false, if all then Some(RenderError("BOOM")) else None)
  {
    OnOff();
    SingleField(Proc(all, validateOnly, Exploding), order, Field("on", true, Str("Hello World")));
    SingleField(Proc(all, validateOnly, Exploding), order, Field("off", true, Str("Hello World")));
  }

  /** An unexported field is never settable, even when tagged or under ConvertAllFields. */
  lemma UnexportedFieldExample(order: KeyOrder)
    requires ValidOrder(order)
    ensures var v := Struct([Field("on", false, Str("x"))]);
            Process(Paragraph, order, PointerTo(v), true, false) == Reply(PointerTo(v), false, None)
  {
    var fd := Field("on", false, Str("x"));
    SingleField(Proc(true, false, Paragraph), order, fd);
    assert [fd.(value := Str("x"))] == [fd];
  }

  /** Nil, non-pointer and pointer-to-non-struct arguments. */
  lemma EntryExamples(render: Renderer, order: KeyOrder)
    requires ValidOrder(order)
    ensures Process(render, order, None, false, false) == Reply(None, false, None)
    ensures Process(render, order, Some(Ptr(None)), true, false) == Reply(Some(Ptr(None)), false, None)
    ensures Process(render, order, Some(Str("")), false, false).err == Some(ErrInvalidType)
    ensures Process(render, order, PointerTo(Str("")), false, false).err == Some(ErrInvalidType)
    ensures Process(render, order, Some(Slice([])), false, false).err == Some(ErrInvalidType)
    ensures Process(render, order, PointerTo(Slice([])), false, false).err == Some(ErrInvalidType)
    ensures Process(render, order, Some(CommentStruct("", "")), false, false)
         == Reply(Some(CommentStruct("", "")), false, Some(ErrInvalidType))
  {
  }

  /**
   * `convertMap` and `convertSlice` called on `reflect.ValueOf(x)` directly:
   * the map is not settable and stays; the slice's elements are addressable
   * and are converted; each rejects the other's kind.
   */
  lemma DirectValueExamples(order: KeyOrder)
    requires ValidOrder(order)
    ensures var m := map[StringKey("description") := "Hello *World*!"];
            ConvertMap(Proc(false, false, Paragraph), order, StringMap(m), DirectAccess) == Result(StringMap(m), false, None)
    ensures ConvertSlice(Proc(false, false, Paragraph), order, Slice([Str("one")]), DirectAccess)
         == Result(Slice([Str("<p>one</p>\n")]), true, None)
    ensures ConvertSlice(Proc(false, false, Paragraph), order, StringMap(map[]), DirectAccess).err == Some(ErrInvalidType)
    ensures ConvertMap(Proc(false, false, Paragraph), order, Slice([]), DirectAccess).err == Some(ErrInvalidType)
  {
    var f := Proc(false, false, Paragraph);
    var v := Slice([Str("one")]);
    assert Paragraph("one") == Rendered("<p>one</p>\n");
    assert "one" != "<p>one</p>\n";
    assert Convert(f, order, Str("one"), ElemAccess(DirectAccess)) == Result(Str("<p>one</p>\n"), true, None);
    assert v.elems[0 := Str("<p>one</p>\n")] == [Str("<p>one</p>\n")];
    assert SliceFrom(f, order, v, DirectAccess, 0, v.elems, false)
        == SliceFrom(f, order, v, DirectAccess, 1, [Str("<p>one</p>\n")], true);
  }

  /** `PersonalDetails{FullName, Description `markdown:"on"`}` of the nested-struct test. */
  function Details(name: string, description: string): Value {
    Struct([Field("", true, Str(name)), Field("on", true, Str(description))])
  }

  /** `Employee{ID int, Details PersonalDetails, Manager *Employee}`, none of them tagged. */
  function Employee(details: Value, manager: Value): Value {
    Struct([Field("", true, Other), Field("", true, details), Field("", true, manager)])
  }

  /** The untagged name stays, the tagged description is rendered. */
  lemma DetailsConverted(order: KeyOrder, name: string, description: string)
    requires ValidOrder(order)
    ensures Convert(Proc(false, false, Paragraph), order, Details(name, description), RootAccess)
         == Result(Details(name, "<p>" + description + "</p>\n"), true, None)
  {
    OnOff();
    var f := Proc(false, false, Paragraph);
    var html := "<p>" + description + "</p>\n";
    var v := Details(name, description);
    var fs' := [Field("", true, Str(name)), Field("on", true, Str(html))];
    assert !Visits(f, v, 0) && Visits(f, v, 1);
    assert |html| > |description|;
    assert Convert(f, order, Str(description), FieldAccess(RootAccess, v.fields[1])) == Result(Str(html), true, None);
    assert v.fields[1 := v.fields[1].(value := Str(html))] == fs';
    assert StructFrom(f, order, v, RootAccess, 0, v.fields, false)
        == StructFrom(f, order, v, RootAccess, 2, fs', true);
  }

  /**
   * An employee is converted by descending its details struct and, when its
   * manager pointer is not nil, the manager it points to; the ID is ignored.
   */
  lemma EmployeeConverted(order: KeyOrder, details: Value, details': Value, manager: Value, manager': Value, c: bool)
    requires ValidOrder(order) && details.Struct?
    requires IsStruct(manager) || manager == Ptr(None)
    requires Convert(Proc(false, false, Paragraph), order, details, RootAccess) == Result(details', true, None)
    requires Convert(Proc(false, false, Paragraph), order, manager, RootAccess) == Result(manager', c, None)
    ensures Convert(Proc(false, false, Paragraph), order, Employee(details, manager), RootAccess)
         == Result(Employee(details', manager'), true, None)
  {
    OnOff();
    var f := Proc(false, false, Paragraph);
    var v := Employee(details, manager);
    var fs1 := [Field("", true, Other), Field("", true, details'), Field("", true, manager)];
    var fs2 := [Field("", true, Other), Field("", true, details'), Field("", true, manager')];
    assert FieldAccess(RootAccess, v.fields[1]) == RootAccess && FieldAccess(RootAccess, v.fields[2]) == RootAccess;
    assert !Visits(f, v, 0) && Visits(f, v, 1);
    assert v.fields[1 := v.fields[1].(value := details')] == fs1;
    assert StructFrom(f, order, v, RootAccess, 0, v.fields, false)
        == StructFrom(f, order, v, RootAccess, 2, fs1, true);
    if IsStruct(manager) {
      assert fs1[2 := v.fields[2].(value := manager')] == fs2;
      assert StructFrom(f, order, v, RootAccess, 2, fs1, true)
          == StructFrom(f, order, v, RootAccess, 3, fs2, true);
    } else {
      assert !Visits(f, v, 2) && manager' == manager;
      assert StructFrom(f, order, v, RootAccess, 2, fs1, true)
          == StructFrom(f, order, v, RootAccess, 3, fs1, true);
    }
  }

  /**
   * The nested-struct test: an employee whose manager is another employee
   * with no manager. Both untagged details structs are descended and their
   * tagged descriptions rendered, through the non-nil manager pointer too,
   * while the names and the nil pointer stay.
   */
  lemma NestedStructExample(order: KeyOrder)
    requires ValidOrder(order)
    ensures var manager := Employee(Details("Gordon Gecko", "Team Lead"), Ptr(None));
            var manager' := Employee(Details("Gordon Gecko", "<p>Team Lead</p>\n"), Ptr(None));
            Process(Paragraph, order, PointerTo(Employee(Details("Al Choholic", "Sales"), Ptr(Some(manager)))), false, false)
              == Reply(PointerTo(Employee(Details("Al Choholic", "<p>Sales</p>\n"), Ptr(Some(manager')))), true, None)
  {
    var f := Proc(false, false, Paragraph);
    var manager := Employee(Details("Gordon Gecko", "Team Lead"), Ptr(None));
    var manager' := Employee(Details("Gordon Gecko", "<p>Team Lead</p>\n"), Ptr(None));
    assert "<p>" + "Team Lead" + "</p>\n" == "<p>Team Lead</p>\n";
    assert "<p>" + "Sales" + "</p>\n" == "<p>Sales</p>\n";
    DetailsConverted(order, "Gordon Gecko", "Team Lead");
    EmployeeConverted(order, Details("Gordon Gecko", "Team Lead"), Details("Gordon Gecko", "<p>Team Lead</p>\n"),
                      Ptr(None), Ptr(None), false);
    assert ElemAccess(RootAccess) == RootAccess;
    assert Convert(f, order, Ptr(Some(manager)), RootAccess) == Result(Ptr(Some(manager')), true, None);
    DetailsConverted(order, "Al Choholic", "Sales");
    EmployeeConverted(order, Details("Al Choholic", "Sales"), Details("Al Choholic", "<p>Sales</p>\n"),
                      Ptr(Some(manager)), Ptr(Some(manager')), true);
  }

  /**
   * `convertStruct` keeps the flag of the fields before the failing one:
   * the call reports an error together with changed = true, and the first
   * field stays rewritten.
   */
  lemma ChangedWithError(order: KeyOrder)
    requires ValidOrder(order)
    ensures var before := Struct([Field("on", true, Str("a")), Field("on", true, Str("c"))]);
            var after := Struct([Field("on", true, Str("b")), Field("on", true, Str("c"))]);
            Process(OnlyA, order, PointerTo(before), false, false) == Reply(PointerTo(after), true, Some(RenderError("no")))
  {
    OnOff();
    var f := Proc(false, false, OnlyA);
    var v := Struct([Field("on", true, Str("a")), Field("on", true, Str("c"))]);
    var fs1 := [Field("on", true, Str("b")), Field("on", true, Str("c"))];
    assert Visits(f, v, 0) && Visits(f, v, 1);
    assert Convert(f, order, Str("a"), FieldAccess(RootAccess, v.fields[0])) == Result(Str("b"), true, None);
    assert v.fields[0 := v.fields[0].(value := Str("b"))] == fs1;
    assert Convert(f, order, Str("c"), FieldAccess(RootAccess, v.fields[1])) == Result(Str("c"), false, Some(RenderError("no")));
    assert fs1[1 := v.fields[1].(value := Str("c"))] == fs1;
    assert StructFrom(f, order, v, RootAccess, 0, v.fields, false)
        == StructFrom(f, order, v, RootAccess, 1, fs1, true);
  }

  /**
   * A render error inside a slice ends that slice's loop but is not
   * reported: the struct goes on to its next field and the call succeeds.
   */
  lemma SliceErrorDropped(order: KeyOrder)
    requires ValidOrder(order)
    ensures var before := Struct([Field("on", true, Slice([Str("c"), Str("a")])), Field("on", true, Str("a"))]);
            var after := Struct([Field("on", true, Slice([Str("c"), Str("a")])), Field("on", true, Str("b"))]);
            Process(OnlyA, order, PointerTo(before), false, false) == Reply(PointerTo(after), true, None)
  {
    OnOff();
    var f := Proc(false, false, OnlyA);
    var sl := Slice([Str("c"), Str("a")]);
    var v := Struct([Field("on", true, sl), Field("on", true, Str("a"))]);
    var acc := FieldAccess(RootAccess, v.fields[0]);
    assert Convert(f, order, Str("c"), ElemAccess(acc)) == Result(Str("c"), false, Some(RenderError("no")));
    assert sl.elems[0 := Str("c")] == sl.elems;
    assert Convert(f, order, sl, acc) == Result(sl, false, None);
    assert Visits(f, v, 0) && Visits(f, v, 1);
    assert v.fields[0 := v.fields[0].(value := sl)] == v.fields;
    var fs1 := [Field("on", true, sl), Field("on", true, Str("b"))];
    assert Convert(f, order, Str("a"), FieldAccess(RootAccess, v.fields[1])) == Result(Str("b"), true, None);
    assert v.fields[1 := v.fields[1].(value := Str("b"))] == fs1;
    assert StructFrom(f, order, v, RootAccess, 0, v.fields, false)
        == StructFrom(f, order, v, RootAccess, 1, v.fields, false);
    assert StructFrom(f, order, v, RootAccess, 1, v.fields, false)
        == StructFrom(f, order, v, RootAccess, 2, fs1, true);
  }

  /** An array field is dispatched to `convertSlice`, which rejects it, so the call fails. */
  lemma NestedArrayRejected(order: KeyOrder)
    requires ValidOrder(order)
    ensures var v := Struct([Field("on", true, Arr([Str("a")])), Field("on", true, Str("a"))]);
            Process(OnlyA, order, PointerTo(v), false, false) == Reply(PointerTo(v), false, Some(ErrInvalidType))
  {
    OnOff();
    var f := Proc(false, false, OnlyA);
    var v := Struct([Field("on", true, Arr([Str("a")])), Field("on", true, Str("a"))]);
    assert Visits(f, v, 0);
    assert v.fields[0 := v.fields[0].(value := Arr([Str("a")]))] == v.fields;
  }

  /**
   * With one value that renders differently and one that fails, the map's
   * `changed` depends on which key `MapKeys` returns first.
   */
  lemma MapOrderMatters()
    ensures var m := map[IntKey(1) := "a", IntKey(2) := "c"];
            && MapFrom(Proc(false, false, OnlyA), [IntKey(1), IntKey(2)], 0, m, false).changed
            && !MapFrom(Proc(false, false, OnlyA), [IntKey(2), IntKey(1)], 0, m, false).changed
  {
    var m := map[IntKey(1) := "a", IntKey(2) := "c"];
    var f := Proc(false, false, OnlyA);
    assert m[IntKey(1)] == "a" && m[IntKey(2)] == "c";
    var m' := m[IntKey(1) := "b"];
    assert m'[IntKey(2)] == "c";
    assert MapFrom(f, [IntKey(1), IntKey(2)], 0, m, false) == MapFrom(f, [IntKey(1), IntKey(2)], 1, m', true);
  }
}
