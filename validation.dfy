/** Form-field validation: the required check on the trimmed value, the
    email pattern `^[^\s@]+@[^\s@]+\.[^\s@]+$`, and the ten-digit phone
    pattern `^[0-9]{10}$` applied after deleting all whitespace; and form
    validation, which checks every required field of a form. */
module Validation {

  /** The characters JavaScript's `\s` class and `String.prototype.trim`
      treat as whitespace: the ASCII blanks and line breaks, no-break space,
      the Unicode space separators, the line and paragraph separators and
      the byte-order mark. */
  predicate IsWhitespace(c: char) {
    || c == '\t' || c == '\n' || c == '\U{B}' || c == '\U{C}' || c == '\r' || c == ' '
    || c == '\U{A0}' || c == '\U{1680}' || ('\U{2000}' <= c <= '\U{200A}')
    || c == '\U{2028}' || c == '\U{2029}' || c == '\U{202F}' || c == '\U{205F}'
    || c == '\U{3000}' || c == '\U{FEFF}'
  }

  predicate AllWhitespace(s: string) {
    forall k :: 0 <= k < |s| ==> IsWhitespace(s[k])
  }

  /** Two runs of whitespace joined are one. */
  lemma AllWhitespaceJoin(x: string, y: string)
    requires AllWhitespace(x) && AllWhitespace(y)
    ensures AllWhitespace(x + y)
  {
    forall k | 0 <= k < |x + y| ensures IsWhitespace((x + y)[k]) {
      if k < |x| {
        assert (x + y)[k] == x[k];
      } else {
        assert (x + y)[k] == y[k - |x|];
      }
    }
  }

  /** `s` without its leading whitespace. */
  function TrimStart(s: string): (r: string)
    decreases |s|
  {
    if s != [] && IsWhitespace(s[0]) then TrimStart(s[1..]) else s
  }

  /** `s` without its trailing whitespace. */
  function TrimEnd(s: string): (r: string)
    decreases |s|
  {
    if s != [] && IsWhitespace(s[|s| - 1]) then TrimEnd(s[..|s| - 1]) else s
  }

  /** `String.prototype.trim`. */
  function Trim(s: string): (r: string) {
    TrimEnd(TrimStart(s))
  }

  /** `TrimStart` keeps a suffix of `s`: what it removes is all whitespace,
      and what it keeps does not start with whitespace. */
  lemma {:induction false} TrimStartSuffix(s: string)
    ensures |TrimStart(s)| <= |s| && TrimStart(s) == s[|s| - |TrimStart(s)|..]
    ensures AllWhitespace(s[..|s| - |TrimStart(s)|])
    ensures TrimStart(s) == [] || !IsWhitespace(TrimStart(s)[0])
    decreases |s|
  {
    if s != [] && IsWhitespace(s[0]) {
      var tail := s[1..];
      var r := TrimStart(tail);
      TrimStartSuffix(tail);
      assert r == tail[|tail| - |r|..] == s[|s| - |r|..];
      assert s[..|s| - |r|] == [s[0]] + tail[..|tail| - |r|];
      AllWhitespaceJoin([s[0]], tail[..|tail| - |r|]);
    }
  }

  /** `TrimEnd` keeps a prefix of `s`: what it removes is all whitespace,
      and what it keeps does not end with whitespace. */
  lemma {:induction false} TrimEndPrefix(s: string)
    ensures |TrimEnd(s)| <= |s| && TrimEnd(s) == s[..|TrimEnd(s)|]
    ensures AllWhitespace(s[|TrimEnd(s)|..])
    ensures TrimEnd(s) == [] || !IsWhitespace(TrimEnd(s)[|TrimEnd(s)| - 1])
    decreases |s|
  {
    if s != [] && IsWhitespace(s[|s| - 1]) {
      var init := s[..|s| - 1];
      var r := TrimEnd(init);
      TrimEndPrefix(init);
      assert r == init[..|r|] == s[..|r|];
      assert s[|r|..] == init[|r|..] + [s[|s| - 1]];
      AllWhitespaceJoin(init[|r|..], [s[|s| - 1]]);
    }
  }

  /** The trimmed value is empty exactly when the value is all whitespace;
      a non-empty trimmed value starts and ends with a non-whitespace
      character. */
  lemma TrimEmptyIffBlank(s: string)
    ensures Trim(s) == [] <==> AllWhitespace(s)
    ensures Trim(s) != [] ==> !IsWhitespace(Trim(s)[0]) && !IsWhitespace(Trim(s)[|Trim(s)| - 1])
  {
    var a := TrimStart(s);
    var t := TrimEnd(a);
    TrimStartSuffix(s);
    TrimEndPrefix(a);
    if t == [] {
      assert s[..|s| - |a|] == s;
    } else {
      assert t[0] == a[0];
    }
  }

  /** Trimming twice is trimming once. */
  lemma TrimIdempotent(s: string)
    ensures Trim(Trim(s)) == Trim(s)
  {
    TrimEmptyIffBlank(s);
  }

  /** `s.replace(/\s+/g, '')`: `s` with every whitespace character deleted. */
  function RemoveWhitespace(s: string): (r: string)
    decreases |s|
  {
    if s == [] then []
    else if IsWhitespace(s[0]) then RemoveWhitespace(s[1..])
    else [s[0]] + RemoveWhitespace(s[1..])
  }

  /** Deleting whitespace leaves no whitespace, and leaves a string without
      whitespace as it is. */
  lemma {:induction false} RemoveWhitespaceSpec(s: string)
    ensures |RemoveWhitespace(s)| <= |s|
    ensures forall k :: 0 <= k < |RemoveWhitespace(s)| ==> !IsWhitespace(RemoveWhitespace(s)[k])
    ensures (forall k :: 0 <= k < |s| ==> !IsWhitespace(s[k])) ==> RemoveWhitespace(s) == s
    decreases |s|
  {
    if s != [] {
      RemoveWhitespaceSpec(s[1..]);
      if !IsWhitespace(s[0]) {
        assert forall k :: 1 <= k < |s| ==> s[1..][k - 1] == s[k];
        assert s == [s[0]] + s[1..];
      }
    }
  }

  /** Deleting whitespace works piecewise, so the non-whitespace characters
      keep their order. */
  lemma {:induction false} RemoveWhitespaceAppend(a: string, b: string)
    ensures RemoveWhitespace(a + b) == RemoveWhitespace(a) + RemoveWhitespace(b)
    decreases |a|
  {
    if a == [] {
      assert a + b == b;
    } else {
      assert (a + b)[0] == a[0];
      assert (a + b)[1..] == a[1..] + b;
      RemoveWhitespaceAppend(a[1..], b);
    }
  }

  predicate IsAsciiDigit(c: char) {
    '0' <= c <= '9'
  }

  /** `/^[0-9]{10}$/`: exactly ten ASCII digits. */
  predicate PhoneShaped(s: string) {
    |s| == 10 && forall k :: 0 <= k < |s| ==> IsAsciiDigit(s[k])
  }

  /** A character that `[^\s@]` accepts. */
  predicate EmailChar(c: char) {
    !IsWhitespace(c) && c != '@'
  }

  predicate AllEmailChars(s: string) {
    forall k :: 0 <= k < |s| ==> EmailChar(s[k])
  }

  /** The email pattern read as a split: some `@` at `at` and a `.` at `dot`
      cut `s` into three non-empty runs of characters that are neither
      whitespace nor `@`. */
  ghost predicate MatchesEmailPattern(s: string) {
    exists at, dot ::
      && 0 < at && at + 1 < dot && dot + 1 < |s|
      && s[at] == '@' && s[dot] == '.'
      && AllEmailChars(s[..at]) && AllEmailChars(s[at + 1..dot]) && AllEmailChars(s[dot + 1..])
  }

  /** The decision procedure for the email pattern: apart from exactly one
      `@`, no whitespace or `@` anywhere; at least one character before the
      `@`; and after it, a `.` that is neither first nor last. */
  predicate EmailShaped(s: string) {
    exists at :: 0 < at < |s| && s[at] == '@' && EmailShapedAt(s, at)
  }

  /** `EmailShaped` with the `@` at `at`: email characters on both sides,
      and a `.` in the domain with a character on either side of it. */
  predicate EmailShapedAt(s: string, at: nat)
    requires at < |s|
  {
    && AllEmailChars(s[..at]) && AllEmailChars(s[at + 1..])
    && exists dot :: at + 1 < dot < |s| - 1 && s[dot] == '.'
  }

  /** A run of email characters stays one when cut. */
  lemma EmailCharsSlice(s: string, lo: nat, mid: nat, hi: nat)
    requires lo <= mid <= hi <= |s| && AllEmailChars(s[lo..hi])
    ensures AllEmailChars(s[mid..hi]) && AllEmailChars(s[lo..mid])
  {
    forall m | 0 <= m < hi - mid ensures EmailChar(s[mid..hi][m]) {
      assert s[mid..hi][m] == s[lo..hi][mid - lo + m];
    }
    forall m | 0 <= m < mid - lo ensures EmailChar(s[lo..mid][m]) {
      assert s[lo..mid][m] == s[lo..hi][m];
    }
  }

  /** Two runs of email characters around one more stay one. */
  lemma EmailCharsJoin(s: string, lo: nat, mid: nat)
    requires lo <= mid < |s|
    requires AllEmailChars(s[lo..mid]) && EmailChar(s[mid]) && AllEmailChars(s[mid + 1..])
    ensures AllEmailChars(s[lo..])
  {
    forall m | 0 <= m < |s| - lo ensures EmailChar(s[lo..][m]) {
      if lo + m < mid {
        assert s[lo..][m] == s[lo..mid][m];
      } else if lo + m > mid {
        assert s[lo..][m] == s[mid + 1..][lo + m - mid - 1];
      }
    }
  }

  /** A string the decision procedure accepts matches the pattern. */
  lemma EmailShapedMatches(s: string)
    requires EmailShaped(s)
    ensures MatchesEmailPattern(s)
  {
    var at :| 0 < at < |s| && s[at] == '@' && EmailShapedAt(s, at);
    var dot :| at + 1 < dot < |s| - 1 && s[dot] == '.';
    assert s[at + 1..] == s[at + 1..|s|];
    EmailCharsSlice(s, at + 1, dot, |s|);
    EmailCharsSlice(s, at + 1, dot + 1, |s|);
    assert s[dot + 1..|s|] == s[dot + 1..];
  }

  /** A string that matches the pattern is accepted by the decision procedure. */
  lemma PatternIsEmailShaped(s: string)
    requires MatchesEmailPattern(s)
    ensures EmailShaped(s)
  {
    var at, dot :|
      && 0 < at && at + 1 < dot && dot + 1 < |s|
      && s[at] == '@' && s[dot] == '.'
      && AllEmailChars(s[..at]) && AllEmailChars(s[at + 1..dot]) && AllEmailChars(s[dot + 1..]);
    EmailCharsJoin(s, at + 1, dot);
    assert EmailShapedAt(s, at);
  }

  /** The decision procedure agrees with the pattern on every string. */
  lemma EmailShapedIffPattern(s: string)
    ensures EmailShaped(s) <==> MatchesEmailPattern(s)
  {
    if EmailShaped(s) {
      EmailShapedMatches(s);
    }
    if MatchesEmailPattern(s) {
      PatternIsEmailShaped(s);
    }
  }

  /** The `type` attribute as far as validation cares. */
  datatype InputType = EmailInput | TelInput | OtherInput

  /** A form control: its raw `value`, whether it has the `required`
      attribute, and its type. */
  datatype Field = Field(value: string, required: bool, inputType: InputType)

  const RequiredMessage: string := "This field is required"
  const EmailMessage: string := "Please enter a valid email address"
  const PhoneMessage: string := "Please enter a valid 10-digit phone number"

  /** The required check fails: required, and blank once trimmed. */
  predicate RequiredFails(f: Field) {
    f.required && Trim(f.value) == ""
  }

  /** The email check fails: an email field whose trimmed value is
      non-empty and does not match the email pattern. */
  predicate EmailFails(f: Field) {
    f.inputType == EmailInput && Trim(f.value) != "" && !EmailShaped(Trim(f.value))
  }

  /** The phone check fails: a tel field whose trimmed value is non-empty
      and is not ten digits once its whitespace is deleted. */
  predicate PhoneFails(f: Field) {
    f.inputType == TelInput && Trim(f.value) != "" && !PhoneShaped(RemoveWhitespace(Trim(f.value)))
  }

  /** The field passes all three checks. */
  predicate FieldValid(f: Field) {
    !RequiredFails(f) && !EmailFails(f) && !PhoneFails(f)
  }

  /** The three checks exclude each other: the required check needs an
      empty trimmed value and the other two a non-empty one, and a field has
      one type. So the message overwriting in `validateField` never has two
      failures to choose between. */
  lemma AtMostOneCheckFails(f: Field)
    ensures !(RequiredFails(f) && EmailFails(f))
    ensures !(RequiredFails(f) && PhoneFails(f))
    ensures !(EmailFails(f) && PhoneFails(f))
  {
  }

  /** A field that is not required and left blank is valid whatever its type. */
  lemma BlankOptionalFieldValid(f: Field)
    requires !f.required && AllWhitespace(f.value)
    ensures FieldValid(f)
  {
    TrimEmptyIffBlank(f.value);
  }

  /** For a tel field with a non-blank value: invalid exactly when the value
      does not hold ten digits and otherwise only whitespace. */
  lemma PhoneFailsIff(f: Field)
    requires f.inputType == TelInput && !AllWhitespace(f.value)
    ensures PhoneFails(f) <==> !PhoneShaped(RemoveWhitespace(f.value))
  {
    TrimEmptyIffBlank(f.value);
    TrimKeepsNonWhitespace(f.value);
  }

  /** Trimming deletes only whitespace, so it does not change what deleting
      all whitespace leaves. */
  lemma TrimKeepsNonWhitespace(s: string)
    ensures RemoveWhitespace(Trim(s)) == RemoveWhitespace(s)
  {
    var a := TrimStart(s);
    TrimStartSuffix(s);
    TrimEndPrefix(a);
    BlankPrefixRemoved(s[..|s| - |a|], a);
    assert s == s[..|s| - |a|] + a;
    var t := TrimEnd(a);
    BlankSuffixRemoved(t, a[|t|..]);
    assert a == t + a[|t|..];
  }

  /** Leading whitespace disappears when whitespace is deleted. */
  lemma BlankPrefixRemoved(blank: string, x: string)
    requires AllWhitespace(blank)
    ensures RemoveWhitespace(blank + x) == RemoveWhitespace(x)
  {
    RemoveWhitespaceAppend(blank, x);
    AllWhitespaceRemoved(blank);
  }

  /** Trailing whitespace disappears when whitespace is deleted. */
  lemma BlankSuffixRemoved(x: string, blank: string)
    requires AllWhitespace(blank)
    ensures RemoveWhitespace(x + blank) == RemoveWhitespace(x)
  {
    RemoveWhitespaceAppend(x, blank);
    AllWhitespaceRemoved(blank);
    assert RemoveWhitespace(x) + [] == RemoveWhitespace(x);
  }

  /** Deleting the whitespace of an all-whitespace string leaves nothing. */
  lemma {:induction false} AllWhitespaceRemoved(s: string)
    requires AllWhitespace(s)
    ensures RemoveWhitespace(s) == []
    decreases |s|
  {
    if s != [] {
      AllWhitespaceRemoved(s[1..]);
    }
  }

  /** `validateField`: run the required, email and phone checks in that
      order, each failing check setting `isValid` to false and overwriting
      the message. The field gets the error mark exactly when the result is
      false, and then shows `errorMessage`. */
  method ValidateField(f: Field) returns (isValid: bool, errorMessage: string)
    ensures isValid <==> FieldValid(f)
    ensures isValid ==> errorMessage == ""
    ensures RequiredFails(f) ==> errorMessage == RequiredMessage
    ensures EmailFails(f) ==> errorMessage == EmailMessage
    ensures PhoneFails(f) ==> errorMessage == PhoneMessage
  {
    var value := Trim(f.value);
    isValid := true;
    errorMessage := "";
    if f.required && value == "" {
      isValid := false;
      errorMessage := RequiredMessage;
    }
    if f.inputType == EmailInput && value != "" {
      if !EmailShaped(value) {
        isValid := false;
        errorMessage := EmailMessage;
      }
    }
    if f.inputType == TelInput && value != "" {
      if !PhoneShaped(RemoveWhitespace(value)) {
        isValid := false;
        errorMessage := PhoneMessage;
      }
    }
  }

  /** The fields `validateForm` selects: those with the `required`
      attribute, in document order. */
  function RequiredFields(form: seq<Field>): (r: seq<Field>)
    ensures |r| <= |form|
    ensures forall k :: 0 <= k < |r| ==> r[k].required
    ensures forall x :: x in r <==> x in form && x.required
    decreases |form|
  {
    if form == [] then []
    else
      var last := |form| - 1;
      assert form == form[..last] + [form[last]];
      RequiredFields(form[..last]) + (if form[last].required then [form[last]] else [])
  }

  /** Every required field of the form passes. */
  predicate FormValid(form: seq<Field>)
    decreases |form|
  {
    form == [] || (FormValid(form[..|form| - 1]) && (form[|form| - 1].required ==> FieldValid(form[|form| - 1])))
  }

  /** `FormValid` read field by field. */
  lemma {:induction false} FormValidIff(form: seq<Field>)
    ensures FormValid(form) <==> forall k :: 0 <= k < |form| && form[k].required ==> FieldValid(form[k])
    decreases |form|
  {
    if form != [] {
      var init := form[..|form| - 1];
      FormValidIff(init);
      assert forall k :: 0 <= k < |init| ==> init[k] == form[k];
    }
  }

  /** `validateForm`: validate every required field, without stopping at
      the first failure, and report whether all passed. `marks[k]` is the
      error mark left on the `k`-th required field. */
  method ValidateForm(form: seq<Field>) returns (isValid: bool, marks: seq<bool>)
    ensures |marks| == |RequiredFields(form)|
    ensures forall k :: 0 <= k < |marks| ==> (marks[k] <==> !FieldValid(RequiredFields(form)[k]))
    ensures isValid <==> FormValid(form)
  {
    isValid := true;
    marks := [];
    var i := 0;
    while i < |form|
      invariant 0 <= i <= |form|
      invariant marks == ErrorMarks(RequiredFields(form[..i]))
      invariant isValid <==> FormValid(form[..i])
    {
      var field := form[i];
      RequiredFieldsStep(form, i);
      FormValidStep(form, i);
      if field.required {
        var ok, _ := ValidateField(field);
        if !ok {
          isValid := false;
        }
        ErrorMarksStep(RequiredFields(form[..i]), field);
        marks := marks + [!ok];
      } else {
        assert RequiredFields(form[..i]) + [] == RequiredFields(form[..i]);
      }
      i := i + 1;
    }
    assert form[..|form|] == form;
    ErrorMarksMeaning(RequiredFields(form));
  }

  /** The error mark of each field in `fields`: set exactly when it fails. */
  function ErrorMarks(fields: seq<Field>): (marks: seq<bool>)
    ensures |marks| == |fields|
    decreases |fields|
  {
    if fields == [] then []
    else ErrorMarks(fields[..|fields| - 1]) + [!FieldValid(fields[|fields| - 1])]
  }

  /** Selecting the required fields of one more field. */
  lemma RequiredFieldsStep(form: seq<Field>, i: nat)
    requires i < |form|
    ensures RequiredFields(form[..i + 1]) == RequiredFields(form[..i]) + (if form[i].required then [form[i]] else [])
  {
    assert form[..i + 1][..i] == form[..i];
  }

  /** One more field is valid-or-optional, on top of the ones before it. */
  lemma FormValidStep(form: seq<Field>, i: nat)
    requires i < |form|
    ensures FormValid(form[..i + 1]) <==> FormValid(form[..i]) && (form[i].required ==> FieldValid(form[i]))
  {
    assert form[..i + 1][..i] == form[..i];
  }

  /** Mark `k` is set exactly when field `k` fails. */
  lemma {:induction false} ErrorMarksMeaning(fields: seq<Field>)
    ensures forall k :: 0 <= k < |fields| ==> (ErrorMarks(fields)[k] <==> !FieldValid(fields[k]))
    decreases |fields|
  {
    if fields != [] {
      var init := fields[..|fields| - 1];
      ErrorMarksMeaning(init);
      assert forall k :: 0 <= k < |init| ==> init[k] == fields[k];
    }
  }

  /** The marks of one more field. */
  lemma ErrorMarksStep(fields: seq<Field>, f: Field)
    ensures ErrorMarks(fields + [f]) == ErrorMarks(fields) + [!FieldValid(f)]
  {
    assert (fields + [f])[..|fields|] == fields;
  }

  /** Fields without the `required` attribute never affect the form's
      result, even when they hold a malformed email or phone number. */
  lemma OptionalFieldIgnored(form: seq<Field>, f: Field)
    requires !f.required
    ensures FormValid(form + [f]) <==> FormValid(form)
  {
    assert (form + [f])[..|form|] == form;
  }
}
