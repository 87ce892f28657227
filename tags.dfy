/** The `markdown` struct tag: which values switch a field on. */
module Tags {
  import opened Values

  /** The tag values `isMarkdownTagEnabled` accepts, after lower-casing. */
  const EnabledWords: set<string> := {"on", "yes", "1", "y", "enable"}

  /** ASCII lower-casing of one character. */
  function LowerChar(c: char): char {
    if 'A' <= c <= 'Z' then (c as int + 32) as char else c
  }

  /** `strings.ToLower`, restricted to ASCII letters. */
  function ToLower(s: string): (r: string)
    ensures |r| == |s|
    ensures forall i :: 0 <= i < |s| ==> r[i] == LowerChar(s[i])
  {
    if s == [] then [] else [LowerChar(s[0])] + ToLower(s[1..])
  }

  /** markstruct.go `isMarkdownTagEnabled`, given the tag value already looked up. */
  function IsMarkdownTagEnabled(tag: string): bool {
    ToLower(tag) in EnabledWords
  }

  /**
   * markstruct.go `isStructFieldTagEnabled`: false for a non-struct, otherwise
   * the tag of field `i` (Go panics when `i` is out of range).
   */
  function IsStructFieldTagEnabled(structval: Value, i: int): bool
    requires structval.Struct? ==> 0 <= i < |structval.fields|
  {
    if !structval.Struct? then false
    else IsMarkdownTagEnabled(structval.fields[i].markdownTag)
  }

  /** Two strings that are equal up to the case of ASCII letters. */
  predicate EqualFold(a: string, b: string) {
    |a| == |b| && forall i :: 0 <= i < |a| ==> LowerChar(a[i]) == LowerChar(b[i])
  }

  /** A string that lower-casing leaves alone. */
  predicate IsLower(w: string) {
    forall i :: 0 <= i < |w| ==> LowerChar(w[i]) == w[i]
  }

  lemma LowerIffEqualFold(tag: string, w: string)
    requires IsLower(w)
    ensures ToLower(tag) == w <==> EqualFold(tag, w)
  {
    if EqualFold(tag, w) {
      assert forall i :: 0 <= i < |w| ==> ToLower(tag)[i] == w[i];
    }
  }

  /**
   * A tag is enabled exactly when it spells one of the enabled words,
   * ignoring the case of its letters.
   */
  lemma MarkdownTagEnabledIff(tag: string)
    ensures IsMarkdownTagEnabled(tag) <==> exists w :: w in EnabledWords && EqualFold(tag, w)
  {
    forall w | w in EnabledWords
      ensures ToLower(tag) == w <==> EqualFold(tag, w)
    {
      LowerIffEqualFold(tag, w);
    }
  }

  /** Tag values that leave a field off (markstruct_test.go uses "" and "off"). */
  lemma DisabledTagExamples()
    ensures !IsMarkdownTagEnabled("")
    ensures !IsMarkdownTagEnabled("off")
    ensures !IsMarkdownTagEnabled("OFF")
    ensures !IsMarkdownTagEnabled("true")
    ensures !IsMarkdownTagEnabled("enabled")
  {
    assert ToLower("off") == "off";
    assert ToLower("OFF") == "off";
  }

  /** Tag values that switch a field on, in any letter case. */
  lemma EnabledTagExamples()
    ensures IsMarkdownTagEnabled("on")
    ensures IsMarkdownTagEnabled("ON")
    ensures IsMarkdownTagEnabled("Yes")
    ensures IsMarkdownTagEnabled("1")
    ensures IsMarkdownTagEnabled("Y")
    ensures IsMarkdownTagEnabled("Enable")
  {
    assert ToLower("on") == "on";
    assert ToLower("ON") == "on";
    assert ToLower("Yes") == "yes";
    assert ToLower("1") == "1";
    assert ToLower("Y") == "y";
    assert ToLower("Enable") == "enable";
  }
}
