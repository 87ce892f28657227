/**
 * A closed stand-in for the Go `reflect` values the traversal in markstruct.go
 * walks. Every reflect kind the engine distinguishes has a constructor; every
 * other kind (bool, int, interface, chan, func, ...) is `Other`.
 *
 * Values here are trees: a pointer owns its target, so aliasing and cyclic
 * pointer graphs cannot be written down.
 */
module Values {
  import opened Wrappers

  /**
   * A map key: an integer or a string. The engine only uses a key to look up
   * and write back its own value, which is exact for these kinds (a float
   * key holding NaN, for which both would miss, is not modelled).
   */
  datatype Key = IntKey(n: int) | StringKey(s: string)

  datatype Value =
    | Str(s: string)                          // kind String
    | Ptr(target: Option<Value>)              // kind Ptr; None is a nil pointer
    | Slice(elems: seq<Value>)                // kind Slice (a nil slice is empty)
    | Arr(elems: seq<Value>)                  // kind Array
    | StringMap(entries: map<Key, string>)    // kind Map whose element kind is String
    | OtherMap                                // kind Map with any other element kind
    | Struct(fields: seq<Field>)              // kind Struct, fields in declaration order
    | Other                                   // every kind the engine ignores

  /**
   * One struct field: the value of its `markdown` tag key as `StructTag.Get`
   * returns it ("" when the key is absent), whether the field is exported,
   * and its current value.
   */
  datatype Field = Field(markdownTag: string, exported: bool, value: Value)

  /**
   * The two reflect flags behind `CanSet`: a value is settable when it is
   * addressable and was not reached through an unexported field.
   */
  datatype Access = Access(addressable: bool, readOnly: bool) {
    predicate CanSet() {
      addressable && !readOnly
    }
  }

  /** `Value.Field(i)`: addressable when the struct is; read-only once unexported. */
  function FieldAccess(parent: Access, fd: Field): Access {
    Access(parent.addressable, parent.readOnly || !fd.exported)
  }

  /** `Value.Elem()` of a pointer and `Value.Index(i)` of a slice: always addressable. */
  function ElemAccess(parent: Access): Access {
    Access(true, parent.readOnly)
  }

  /** The target of the pointer handed to `process`. */
  const RootAccess := Access(true, false)

  /** A value obtained by `reflect.ValueOf(x)` directly: neither addressable nor read-only. */
  const DirectAccess := Access(false, false)

  datatype Error =
    | ErrInvalidType           // the package's sentinel, possibly wrapped by fmt.Errorf
    | RenderError(message: string)

  /** What the Markdown renderer gives back for one string. */
  datatype Rendering = Rendered(html: string) | Failed(message: string)

  /** The goldmark converter together with the parse options of one call. */
  type Renderer = string -> Rendering

  /** The (changed, error) pair of a conversion, with the value as it is afterwards. */
  datatype Result = Result(value: Value, changed: bool, err: Option<Error>)

  /** What `process` reports: the root (None for a nil interface) as it is afterwards. */
  datatype Reply = Reply(root: Option<Value>, changed: bool, err: Option<Error>)

  /** markstruct.go `isStruct`: a struct, or a non-nil pointer to a struct. */
  function IsStruct(v: Value): bool {
    match v
    case Struct(_) => true
    case Ptr(target) => target.Some? && target.value.Struct?
    case _ => false
  }

  /** markstruct.go `isValidSettable`; `None` stands for the invalid zero Value. */
  function IsValidSettable(target: Option<Value>, acc: Access): bool {
    target.Some? && acc.CanSet()
  }
}
