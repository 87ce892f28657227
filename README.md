# markstruct in Dafny

markstruct walks a Go value through reflection and rewrites its Markdown
text as HTML in place. The value is a pointer to a struct. Among its fields,
the ones tagged `markdown:"on"` (or "yes", "1", "y", "enable", in any letter
case) are converted: strings, pointers to strings, slices and maps with
string values. Under `ConvertAllFields` every field is converted. Nested
structs, and non-nil pointers to structs, are always descended. The
`Validate*` variants report what would change without writing anything.
Each entry point returns `(changed, err)`.

This project models that engine, `markstruct.go`, and proves properties of
the model.

- `values.dfy` (module `Values`) gives the reflect values the engine
  distinguishes as a closed datatype.
  - Settability is two flags. A value is addressable once it is reached
    through a pointer or a slice element. It becomes read-only once it is
    reached through an unexported field.
  - The Markdown renderer is a parameter: a function from text to
    `Rendered(html)` or `Failed(message)`.
  - The predicates `IsStruct` (markstruct.go:326-348) and `IsValidSettable`
    (markstruct.go:369-371) are defined here. `Tags.IsMarkdownTagEnabled`
    and `Tags.IsStructFieldTagEnabled` (markstruct.go:350-367) are in
    `tags.dfy`. All four are used by the walk, and the lemmas below state
    what they decide.
- `walk.dfy` (module `Walk`) gives the meaning of the traversal as
  functions.
  - There is one function per Go function:
    - `Convert` (markstruct.go:192-208)
    - `ConvertMap` (210-246)
    - `ConvertSlice` (248-267)
    - `ConvertStruct` (269-296)
    - `ConvertString` (298-314)
    - `Process` (168-190)
  - There is one function per Go loop, indexed by the loop counter and
    carrying the loop's state:
    - `MapFrom` (markstruct.go:227-243)
    - `SliceFrom` (256-264)
    - `StructFrom` (277-293)
  - The order in which `MapKeys` returns keys is a parameter. It may be any
    enumeration of the keys (`ValidOrder`).
- `markstruct.dfy` (module `Markstruct`) holds the engine in its imperative form.
  - The class `FieldProcessor` has the two policy fields, and its loop
    methods rewrite the value they walk.
  - The class `Converter` has the entry points.
  - Each `FieldProcessor` method, and `Converter.Process`, is proved to
    compute the `Walk` function of the same name.
  - The four wrappers `ConvertFields`, `ConvertAllFields`, `ValidateFields`
    and `ValidateAllFields` are proved to compute `Walk.Process` with the
    flags markstruct.go:153-165 passes: (false, false), (true, false),
    (false, true) and (true, true).
- `tags.dfy` covers the tag test. `containers.dfy` describes each loop
  without the loop. `modes.dfy` covers validate-only against converting.
  `orders.dfy` covers how far the outcome depends on the key order.
  `outcomes.dfy` covers entry and leaf outcomes and inputs that cannot
  change. `examples.dfy` holds concrete cases. Some are taken from
  markstruct_test.go. Others exhibit behaviours of markstruct.go that no
  test pins down. They use three stand-in renderers.

Four behaviours of the code are easy to miss, and the model keeps them as
written:

- In `convertSlice` and `convertMap`, the `err` of an element is declared
  inside the loop and shadows the outer one (markstruct.go:231 and :258).
  - A failing element ends the loop, but the function reports no error.
    The doc comment at markstruct.go:88-89 ("as well as any error
    encountered") is contradicted only here.
  - The elements before it stay converted.
- `convertStruct` returns the accumulated `changed` together with a field's
  error (markstruct.go:287-295). So an error can come with
  `changed == true`, and the rewritten earlier fields stay.
- Arrays are dispatched to `convertSlice`, which rejects them with
  `ErrInvalidType` (markstruct.go:197-198 and :249-251).
  - A tagged array field fails the call, and so does an array reached
    only through struct fields and pointers.
  - Under a slice, that error is dropped like any other element error.
- The order of `MapKeys` can change what a call reports.
  - If a string map holds one value that renders differently and one that
    fails, `changed` depends on which key comes first.
  - Go draws a fresh order on every call. So in that case `ValidateFields`
    can report a different `changed` from `ConvertFields` on an equal
    argument, although markstruct.go:112-114 promises the same values.
  - The error never depends on the order, and nothing does when every map
    value renders (`Orders.ErrSameAcrossOrders`,
    `Orders.SameAcrossOrders`).
- `Examples.SliceErrorDropped`, `Examples.ChangedWithError`,
  `Examples.NestedArrayRejected` and `Examples.MapOrderMatters` exhibit
  these four behaviours.

## Model

| member | source | states |
|---|---|---|
| Tags.ToLower | markstruct.go:352 | lower-casing keeps the length and lowers each character on its own |
| Tags.MarkdownTagEnabledIff | markstruct.go:350-357 | a tag is enabled if and only if it equals one of on/yes/1/y/enable up to the case of its letters |
| Tags.EnabledTagExamples | markstruct.go:353 | "on", "ON", "Yes", "1", "Y" and "Enable" are enabled |
| Tags.DisabledTagExamples | markstruct_test.go:453-465 | an absent tag (""), "off", "OFF", "true" and "enabled" are not |
| Markstruct.FieldProcessor.constructor | markstruct.go:373-378 | a new processor has both policy flags off and holds the converter's renderer |
| Markstruct.FieldProcessor.Convert | markstruct.go:192-208 | follows pointers level by level (a nil pointer at any level gives (false, nil)), dispatches slices and arrays, maps, structs and strings, and ignores every other kind; the result is `Walk.Convert` |
| Markstruct.FieldProcessor.ConvertMap | markstruct.go:210-246 | the for loop over the keys, reading each value from the map as rewritten so far, stopping silently at the first render failure; the result is `Walk.ConvertMap` |
| Markstruct.FieldProcessor.ConvertSlice | markstruct.go:248-267 | the for loop over the elements, OR-ing their flags and stopping, without reporting, at the first failing element; the result is `Walk.ConvertSlice` |
| Markstruct.FieldProcessor.ConvertStruct | markstruct.go:269-296 | the for loop over the fields, skipping fields that are not structs and not enabled, returning the first field error with the flag so far; the result is `Walk.ConvertStruct` |
| Markstruct.FieldProcessor.ConvertString | markstruct.go:298-314 | an unsettable location, a render failure, and a rendering stored unless validating; the result is `Walk.ConvertString` |
| Markstruct.Converter.constructor | markstruct.go:146-150 | a converter holds the renderer it is given |
| Markstruct.Converter.Process | markstruct.go:168-190 | the entry checks, then a fresh processor with the two flags set converts the pointer's target as a struct; the result is `Walk.Process` |
| Markstruct.Converter.ConvertFields | markstruct.go:152-154 | is the walk with tags honoured and writing on |
| Markstruct.Converter.ConvertAllFields | markstruct.go:156-158 | is the walk with tags ignored and writing on |
| Markstruct.Converter.ValidateFields | markstruct.go:160-162 | is the walk with tags honoured and writing off |
| Markstruct.Converter.ValidateAllFields | markstruct.go:164-166 | is the walk with tags ignored and writing off |
| Outcomes.ProcessOutcome | markstruct.go:168-190 | a nil interface and a nil pointer give (false, nil) and change nothing; a non-pointer and a pointer to a non-struct give ErrInvalidType and change nothing; a pointer to a struct gives what converting the struct gives |
| Outcomes.ConvertStringOutcome | markstruct.go:298-314 | unsettable gives (false, nil); failure gives (false, err) and keeps the text; otherwise changed says whether the text differs from its rendering, and the location holds the rendering exactly when writing or when the two are equal |
| Outcomes.InertUntouched | markstruct_test.go:414-441 | a value with no text in it (nil pointers, empty string maps, ignored kinds, structs and slices of those) gives (false, nil) and stays as it was, under every policy |
| Outcomes.NothingToChange | markstruct.go:369-371 | below an unexported field, or with a renderer that returns every text as it is, the value stays as it was, changed is false and the only possible error is ErrInvalidType |
| Containers.SliceStop | markstruct.go:256-264 | the position where the slice loop stops: every earlier element converts without error, and the one there fails |
| Containers.ConvertSliceSteps | markstruct.go:248-267 | a non-slice gives ErrInvalidType; on a slice, the elements up to and including the first failing one are converted and the rest kept, the length stays, changed is the OR over the converted ones, and no error is reported |
| Containers.MapStop | markstruct.go:227-234 | the position in the key order where the map loop stops: every earlier value renders, and the one there fails |
| Containers.ConvertMapSteps | markstruct.go:224-245 | on a settable string map, the key set stays; values before the first failing one in key order hold their rendering unless validating; later ones are kept; changed says whether one of the rendered values differed; no error is reported |
| Containers.ConvertMapKinds | markstruct.go:210-222 | a non-map gives ErrInvalidType; a map with non-string values, or one that cannot be set, is kept with (false, nil); a string map always keeps its keys |
| Containers.ConvertMapWithoutError | markstruct.go:227-243 | when every value renders, the outcome is independent of key order: each value holds its rendering (kept when validating), and changed says whether some value differs from its rendering |
| Containers.StructStop | markstruct.go:277-293 | the first visited field whose conversion fails: every earlier field is skipped or succeeds |
| Containers.ConvertStructSteps | markstruct.go:269-296 | a non-struct gives ErrInvalidType; on a struct, the visited fields up to the first failing one are converted and all others kept, changed is the OR over those visited (the failing one included), and the error is that field's error |
| Containers.StructGating | markstruct.go:277-285 | without ConvertAllFields, a field that is not a struct (or a pointer to one) and is not enabled stays as it was; a struct field, and any field under ConvertAllFields, is converted unless an earlier field failed |
| Modes.ValidateKeepsValue | markstruct.go:237-239 | with validate-only on, converting any value gives that value back |
| Modes.ModesAgree | markstruct.go:309-313 | at any value, validate-only and converting report the same changed flag and the same error |
| Modes.ValidateNeverMutates | markstruct.go:109-117 | ValidateFields and ValidateAllFields leave their argument exactly as it was |
| Modes.ValidateReportsLikeConvert | markstruct.go:135-141 | under one key order, ValidateFields reports the (changed, err) of ConvertFields, and ValidateAllFields that of ConvertAllFields |
| Modes.ValidateReportsLikeConvertAcrossCalls | markstruct.go:109-117 | for two calls under any two key orders, the Validate variant reports the error of the Convert variant, and the same changed whenever every string map value in the argument renders |
| Orders.ErrSameAcrossOrders | markstruct.go:227-245 | the error a traversal reports is the same under any two key orders |
| Orders.SameAcrossOrders | markstruct.go:227-243 | when no string map value fails to render, any two key orders give the same value, changed and error |
| Examples.StringFieldExamples | markstruct_test.go:109-170 | an "on" string field is rendered, an "off" one is kept unless all fields are converted, and validating reports the change without making it |
| Examples.RenderFailureExamples | markstruct_test.go:538-616 | with a failing renderer, under each of the four entry points: the enabled field fails every call; the disabled one fails exactly under ConvertAllFields and ValidateAllFields and gives (false, nil) otherwise; no call reports a change or alters the struct |
| Examples.EntryExamples | markstruct_test.go:46-107 | nil arguments give (false, nil); strings, slices, pointers to them and structs passed by value give ErrInvalidType |
| Examples.DirectValueExamples | markstruct_test.go:652-707 | a map passed directly cannot be set and stays; a slice passed directly has addressable elements and is converted; each function rejects the other's kind |
| Examples.NestedStructExample | markstruct_test.go:367-412 | an employee whose manager is a non-nil pointer to another employee with a nil manager: both untagged details structs are descended and their tagged descriptions rendered, while the names, the ignored ID and the nil pointer stay; changed is true and there is no error |
| Examples.UnexportedFieldExample | markstruct.go:369-371 | an unexported tagged field is kept, even under ConvertAllFields |
| Examples.ChangedWithError | markstruct.go:287-295 | a struct whose first field renders and whose second fails gives an error together with changed = true, with the first field rewritten |
| Examples.SliceErrorDropped | markstruct.go:256-266 | a slice element that fails ends that slice's loop without an error, and the next field is still converted |
| Examples.NestedArrayRejected | markstruct.go:249-251 | a tagged array field makes the call give ErrInvalidType and change nothing |
| Examples.MapOrderMatters | markstruct.go:227-242 | on the map {1: "a", 2: "c"}, with a renderer that accepts only "a", the key order [1, 2] gives changed = true and the order [2, 1] gives changed = false |

## Left out

- Rendering is not modelled. goldmark, its parse options (the
  `...parser.ParseOption` arguments) and the `strings.Builder` in
  `renderString`/`writeMarkdown` (markstruct.go:316-324) become the
  `Renderer` parameter. The examples use stand-in renderers.
  - The renderer is one pure function, bound once to the `Converter`.
    So a renderer whose output depends on earlier calls is outside the
    model.
  - Two calls compared by a lemma, such as the pair in
    `Modes.ValidateReportsLikeConvertAcrossCalls`, use the same renderer
    and the same parse options. In Go, each call may pass its own
    options (markstruct.go:152-166).
- The `FieldConverter` interface is not modelled, nor the package-level
  functions that forward to `defaultConverter` (markstruct.go:105-141).
  They only delegate to the `converter` methods, which are modelled.
- Rendered error texts are not modelled. The `fmt.Errorf` wrapping around
  `ErrInvalidType` and the renderer's own error texts are reduced to the
  sentinel and a message; `errors.Is` against the sentinel holds for every
  `ErrInvalidType` here.
- The reflect internals are reduced to the two settability flags.
  - Go's exception that an unexported *embedded* struct still lets its
    exported fields be set is not modelled (every unexported field makes
    what is below it read-only).
  - Interfaces, channels, funcs and numbers are all `Other`.
  - A map whose values are of a named string type is treated as a string
    map. The model ignores that Go's `SetMapIndex` with a plain string
    would panic there.
- Pointers are owned trees. The model returns the rewritten value instead
  of mutating memory, so aliasing (two fields pointing at the same string)
  and cyclic pointer graphs are out of scope.
- Values.Key: map keys are integers or strings. Float keys are not
  modelled. In Go a NaN key defeats both `MapIndex` (markstruct.go:228),
  which returns the zero Value so that "<invalid Value>" is rendered
  instead of the stored text, and `SetMapIndex` (markstruct.go:238), which
  adds a new entry instead of replacing one. So such a map does not keep
  its key set, whereas `Containers.ConvertMapSteps` and
  `Containers.ConvertMapKinds` prove that a map of this model always does.
- Walk.KeyOrder: the map iteration order is a function of the map's
  contents. So two equal maps met in one call are enumerated in the same
  order, whereas Go may randomise each `MapKeys` call.
- Modes.ModesAgree: agreement is stated for a validate-only run and a
  converting run that share one key order. Two separate Go calls may not
  share one. The case of two orders is
  `Modes.ValidateReportsLikeConvertAcrossCalls`, where `changed` is
  promised only when every string map value renders, as
  `Examples.MapOrderMatters` shows it must be.
- Modes.ValidateReportsLikeConvert: the same shared key order as
  `Modes.ModesAgree`; the two-order version is
  `Modes.ValidateReportsLikeConvertAcrossCalls`.
- Tags.ToLower: covers only ASCII letters, while `strings.ToLower` also
  lowers other Unicode letters. The verdict of `IsMarkdownTagEnabled` is
  unaffected. Every non-ASCII letter lowers to a non-ASCII letter, except
  the Kelvin sign (to "k") and capital I with dot (to "i"), and neither
  "k" nor "i" occurs in an enabled word.
- Concurrency is not modelled: a value shared with another goroutine
  during a call is outside the model.
