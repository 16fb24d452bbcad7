/** Required-field validation of every form (js/main.js, initFormValidation).
    On submit each `[required]` field whose trimmed value is empty is marked
    `invalid` and gets a visible error message (created after the field when
    none follows it); every other required field loses `invalid` and has its
    message hidden. Submission is blocked when some required field is blank.
    Typing into a field clears its mark and hides its message. */
module Validation {

  /** The characters String.prototype.trim removes: the WhiteSpace and
      LineTerminator code points of ECMAScript (section 12.2 and 12.3 of
      ECMA-262), the Zs category listed in full. */
  predicate IsJsWhitespace(c: char)
  {
    c == '\t' || c == '\n' || c == '\U{000B}' || c == '\U{000C}' || c == '\r' ||
    c == ' ' || c == '\U{00A0}' || c == '\U{1680}' ||
    ('\U{2000}' <= c <= '\U{200A}') ||
    c == '\U{2028}' || c == '\U{2029}' || c == '\U{202F}' || c == '\U{205F}' ||
    c == '\U{3000}' || c == '\U{FEFF}'
  }

  function TrimStart(s: string): (r: string)
    ensures |r| <= |s| && r == s[|s| - |r|..]
    ensures r != [] ==> !IsJsWhitespace(r[0])
  {
    if s != [] && IsJsWhitespace(s[0]) then TrimStart(s[1..]) else s
  }

  function TrimEnd(s: string): (r: string)
    ensures |r| <= |s| && r == s[..|r|]
    ensures r != [] ==> !IsJsWhitespace(r[|r| - 1])
  {
    if s != [] && IsJsWhitespace(s[|s| - 1]) then TrimEnd(s[..|s| - 1]) else s
  }

  /** TrimStart removes whitespace and nothing else: every character it
      drops is whitespace. */
  lemma {:induction false} TrimStartDropsWhitespace(s: string)
    ensures forall i :: 0 <= i < |s| - |TrimStart(s)| ==> IsJsWhitespace(s[i])
  {
    if s != [] && IsJsWhitespace(s[0]) {
      TrimStartDropsWhitespace(s[1..]);
      assert forall i :: 0 < i < |s| ==> s[i] == s[1..][i - 1];
    }
  }

  /** TrimEnd removes whitespace and nothing else: every character it drops
      is whitespace. */
  lemma {:induction false} TrimEndDropsWhitespace(s: string)
    ensures forall i :: |TrimEnd(s)| <= i < |s| ==> IsJsWhitespace(s[i])
  {
    if s != [] && IsJsWhitespace(s[|s| - 1]) {
      var init := s[..|s| - 1];
      TrimEndDropsWhitespace(init);
      assert forall i :: 0 <= i < |init| ==> s[i] == init[i];
    }
  }

  /** `value.trim()`. */
  function Trim(s: string): string
  {
    TrimEnd(TrimStart(s))
  }

  /** A value is blank when every character is whitespace. */
  predicate Blank(s: string)
  {
    forall i :: 0 <= i < |s| ==> IsJsWhitespace(s[i])
  }

  lemma {:induction false} TrimStartBlank(s: string)
    ensures TrimStart(s) == [] <==> Blank(s)
  {
    if s != [] && IsJsWhitespace(s[0]) {
      TrimStartBlank(s[1..]);
      assert Blank(s) <==> Blank(s[1..]) by {
        assert forall i :: 0 < i < |s| ==> s[i] == s[1..][i - 1];
      }
    }
  }

  lemma {:induction false} TrimEndEmpty(s: string)
    ensures TrimEnd(s) == [] <==> s == [] || Blank(s)
  {
    if s != [] && IsJsWhitespace(s[|s| - 1]) {
      var init := s[..|s| - 1];
      TrimEndEmpty(init);
      assert Blank(s) <==> Blank(init) by {
        assert forall i :: 0 <= i < |init| ==> s[i] == init[i];
      }
    }
  }

  /** `!field.value.trim()` holds exactly of blank values. */
  lemma TrimEmptyIffBlank(s: string)
    ensures Trim(s) == [] <==> Blank(s)
  {
    TrimStartBlank(s);
    TrimEndEmpty(TrimStart(s));
    if TrimStart(s) != [] {
      assert !Blank(TrimStart(s));
    }
  }

  /** Where the field's `.error-message` sibling stands. */
  datatype ErrorMessage = NoMessage | MessageShown | MessageHidden

  datatype Field = Field(value: string, required: bool, invalid: bool, error: ErrorMessage)

  /** One iteration of the submit handler's loop over the required fields
      (only `[required]` fields are visited). */
  function Checked(f: Field): Field
  {
    if !f.required then f
    else if Trim(f.value) == [] then f.(invalid := true, error := MessageShown)
    else Cleared(f)
  }

  /** The input handler's effect on a field, and the check's effect on a
      required field that is filled in: the mark goes and an existing message
      is hidden. */
  function Cleared(f: Field): Field
  {
    f.(invalid := false, error := if f.error == NoMessage then NoMessage else MessageHidden)
  }

  /** A field passes the check when it is not required or its value is not
      blank. */
  predicate Passes(f: Field)
  {
    !f.required || !Blank(f.value)
  }

  /** After the check a field is marked invalid, with its message showing,
      exactly when it fails; the value and kind of the field never change. */
  lemma CheckedMarksFailures(f: Field)
    ensures Checked(f).value == f.value && Checked(f).required == f.required
    ensures f.required ==> (Checked(f).invalid <==> !Passes(f))
    ensures f.required ==> (Checked(f).error == MessageShown <==> !Passes(f))
    ensures !f.required ==> Checked(f) == f
  {
    TrimEmptyIffBlank(f.value);
  }

  /** Checking twice checks once; typing after a check leaves no mark. */
  lemma CheckedIdempotent(f: Field)
    ensures Checked(Checked(f)) == Checked(f)
    ensures !Cleared(Checked(f)).invalid && Cleared(Checked(f)).error != MessageShown
  {
  }

  class Form {
    var fields: seq<Field>

    constructor (fields: seq<Field>)
      ensures this.fields == fields
    {
      this.fields := fields;
    }

    /** The submit handler; `valid` false means submission is prevented. */
    method Submit() returns (valid: bool)
      modifies this
      ensures |fields| == |old(fields)|
      ensures forall i :: 0 <= i < |fields| ==> fields[i] == Checked(old(fields)[i])
      ensures valid <==> forall i :: 0 <= i < |fields| ==> Passes(old(fields)[i])
    {
      valid := true;
      var i := 0;
      while i < |fields|
        invariant 0 <= i <= |fields| == |old(fields)|
        invariant forall j :: 0 <= j < i ==> fields[j] == Checked(old(fields)[j])
        invariant forall j :: i <= j < |fields| ==> fields[j] == old(fields)[j]
        invariant valid <==> forall j :: 0 <= j < i ==> Passes(old(fields)[j])
      {
        var checked, passes := CheckField(fields[i]);
        fields := fields[i := checked];
        valid := valid && passes;
        i := i + 1;
      }
    }

    /** One visit of the submit loop: `passes` is false when the field is
        marked. */
    static method CheckField(f: Field) returns (checked: Field, passes: bool)
      ensures checked == Checked(f) && passes == Passes(f)
    {
      checked, passes := f, true;
      if f.required {
        TrimEmptyIffBlank(f.value);
        if Trim(f.value) == [] {
          checked := f.(invalid := true, error := MessageShown);
          passes := false;
        } else {
          var error := if f.error == NoMessage then NoMessage else MessageHidden;
          checked := f.(invalid := false, error := error);
        }
      }
    }

    /** The input handler of field i. */
    method Input(i: nat)
      requires i < |fields|
      modifies this
      ensures fields == old(fields)[i := Cleared(old(fields)[i])]
    {
      var f := fields[i];
      fields := fields[i := f.(invalid := false, error := if f.error == NoMessage then NoMessage else MessageHidden)];
    }
  }
}
