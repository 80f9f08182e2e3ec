/**
 * The contact form (Contact.jsx): the field validator, the field updater, and the
 * gate that lets a submission go out only when every field is valid.
 */
module Contact {

  /** The four form fields (the inputs' `name` attributes). */
  datatype Field = Name | Email | ProjectType | Message

  /** The form's values. */
  datatype FormData = FormData(name: string, email: string, projectType: string, message: string)
  {
    function Get(f: Field): string
    {
      match f
      case Name => name
      case Email => email
      case ProjectType => projectType
      case Message => message
    }

    /** `{ ...prev, [f]: v }`. */
    function With(f: Field, v: string): FormData
    {
      match f
      case Name => this.(name := v)
      case Email => this.(email := v)
      case ProjectType => this.(projectType := v)
      case Message => this.(message := v)
    }
  }

  const EmptyForm := FormData("", "", "", "")

  /** The options of the project-type select, after its empty "Select project type" option. */
  const ProjectTypes: seq<string> := [
    "Commission Artwork", "Gallery Exhibition", "Speed Painting Live Performance",
    "Commercial Project", "Portrait Session", "Consultation", "Other"]

  /** The minimum trimmed message length, in UTF-16 code units. */
  const MinMessageLength: nat := 20

  function ErrorMessage(f: Field): string
  {
    match f
    case Name => "Enter a valid name"
    case Email => "Enter a valid email"
    case ProjectType => "Select a project type"
    case Message => "Minimum 20 characters required"
  }

  // ---------------------------------------------------------------------------
  // Strings as JavaScript sees them.

  /**
   * ECMAScript white space and line terminators: the characters `\s` matches and
   * `String.prototype.trim` removes.
   */
  predicate IsJsSpace(c: char)
  {
    var n := c as int;
    (0x09 <= n <= 0x0D) || n == 0x20 || n == 0xA0 || n == 0x1680 || (0x2000 <= n <= 0x200A)
    || n == 0x2028 || n == 0x2029 || n == 0x202F || n == 0x205F || n == 0x3000 || n == 0xFEFF
  }

  function TrimStart(s: string): string
    decreases |s|
  {
    if s != [] && IsJsSpace(s[0]) then TrimStart(s[1..]) else s
  }

  function TrimEnd(s: string): string
    decreases |s|
  {
    if s != [] && IsJsSpace(s[|s| - 1]) then TrimEnd(s[..|s| - 1]) else s
  }

  /** `String.prototype.trim`. */
  function Trim(s: string): string
  {
    TrimStart(TrimEnd(s))
  }

  /** `length` counts UTF-16 code units: characters outside the Basic Multilingual Plane count twice. */
  function Utf16Length(s: string): nat
    decreases |s|
  {
    if s == [] then 0 else (if s[0] as int >= 0x1_0000 then 2 else 1) + Utf16Length(s[1..])
  }

  predicate IsAsciiLetter(c: char)
  {
    'A' <= c <= 'Z' || 'a' <= c <= 'z'
  }

  predicate AllSpace(s: string)
  {
    forall k :: 0 <= k < |s| ==> IsJsSpace(s[k])
  }

  /** `/^[A-Za-z\s]{2,50}$/`: 2 to 50 characters, each an ASCII letter or white space. */
  predicate NameMatches(t: string)
  {
    2 <= |t| <= 50 && forall k :: 0 <= k < |t| ==> IsAsciiLetter(t[k]) || IsJsSpace(t[k])
  }

  /** The `[^\s@]+` runs of the email pattern consist of such characters. */
  predicate NoSpaceOrAt(s: string)
  {
    forall k :: 0 <= k < |s| ==> !IsJsSpace(s[k]) && s[k] != '@'
  }

  /**
   * `/^[^\s@]+@[^\s@]+\.[^\s@]+$/` read as a pattern: the string splits at an '@'
   * (position i) and a later '.' (position j) into three non-empty runs without
   * white space or '@'.
   */
  ghost predicate EmailPattern(s: string)
  {
    exists i, j :: 0 < i && i + 1 < j && j + 1 < |s| && s[i] == '@' && s[j] == '.'
      && NoSpaceOrAt(s[..i]) && NoSpaceOrAt(s[i + 1..j]) && NoSpaceOrAt(s[j + 1..])
  }

  /** The position of the first '@' in s, or |s| when there is none. */
  function AtIndex(s: string): (p: nat)
    ensures p <= |s| && (p < |s| ==> s[p] == '@') && forall k :: 0 <= k < p ==> s[k] != '@'
    decreases |s|
  {
    if s == [] then 0 else if s[0] == '@' then 0 else 1 + AtIndex(s[1..])
  }

  /**
   * The email check as a computation: no white space, exactly one '@' with text
   * before it, and a '.' after it that is neither the first character after the
   * '@' nor the last character.
   */
  predicate EmailMatches(s: string)
  {
    var p := AtIndex(s);
    && (forall k :: 0 <= k < |s| ==> !IsJsSpace(s[k]))
    && 0 < p < |s|
    && (forall k :: p < k < |s| ==> s[k] != '@')
    && exists k :: p + 1 < k < |s| - 1 && s[k] == '.'
  }

  // ---------------------------------------------------------------------------
  // Validation (Contact.jsx validate).

  /** Whether one field passes its check. */
  predicate FieldValid(form: FormData, f: Field)
  {
    match f
    case Name => NameMatches(Trim(form.name))
    case Email => EmailMatches(Trim(form.email))
    case ProjectType => form.projectType != ""
    case Message => Utf16Length(Trim(form.message)) >= MinMessageLength
  }

  /** Reference definition of the error map: one entry, with its message, per failing field. */
  function ValidationErrors(form: FormData): map<Field, string>
  {
    map f | f in {Name, Email, ProjectType, Message} && !FieldValid(form, f) :: ErrorMessage(f)
  }

  /** The validator builds the error map one check at a time. */
  method Validate(form: FormData) returns (newErrors: map<Field, string>)
    ensures newErrors == ValidationErrors(form)
    ensures forall f :: f in newErrors <==> !FieldValid(form, f)
    ensures forall f :: f in newErrors ==> newErrors[f] == ErrorMessage(f) && newErrors[f] != ""
  {
    newErrors := map[];
    if !NameMatches(Trim(form.name)) {
      newErrors := newErrors[Name := ErrorMessage(Name)];
    }
    if !EmailMatches(Trim(form.email)) {
      newErrors := newErrors[Email := ErrorMessage(Email)];
    }
    if form.projectType == "" {
      newErrors := newErrors[ProjectType := ErrorMessage(ProjectType)];
    }
    if Utf16Length(Trim(form.message)) < MinMessageLength {
      newErrors := newErrors[Message := ErrorMessage(Message)];
    }
  }

  /** An entry of the error map is shown only when its message is non-empty. */
  predicate ShowsError(errors: map<Field, string>, f: Field)
  {
    f in errors && errors[f] != ""
  }

  // ---------------------------------------------------------------------------
  // Properties.

  /** Trimming removes exactly a run of white space at each end and keeps the middle. */
  lemma {:induction false} TrimBounds(s: string) returns (i: nat, j: nat)
    ensures i <= j <= |s| && Trim(s) == s[i..j]
    ensures AllSpace(s[..i]) && AllSpace(s[j..])
    ensures Trim(s) != [] ==> !IsJsSpace(Trim(s)[0]) && !IsJsSpace(Trim(s)[|Trim(s)| - 1])
  {
    var e := TrimEndBounds(s);
    var t := s[..e];
    var b := TrimStartBounds(t);
    i, j := b, e;
    assert Trim(s) == t[b..];
    assert t[b..] == s[b..e];
    assert t[..b] == s[..b];
    if b < e {
      assert Trim(s)[0] == t[b];
      assert Trim(s)[|Trim(s)| - 1] == s[e - 1];
    }
  }

  lemma {:induction false} TrimEndBounds(s: string) returns (j: nat)
    ensures j <= |s| && TrimEnd(s) == s[..j] && AllSpace(s[j..])
    ensures j > 0 ==> !IsJsSpace(s[j - 1])
    decreases |s|
  {
    if s != [] && IsJsSpace(s[|s| - 1]) {
      j := TrimEndBounds(s[..|s| - 1]);
      assert s[..|s| - 1][..j] == s[..j];
      assert s[j..] == s[..|s| - 1][j..] + [s[|s| - 1]];
    } else {
      j := |s|;
    }
  }

  lemma {:induction false} TrimStartBounds(s: string) returns (i: nat)
    ensures i <= |s| && TrimStart(s) == s[i..] && AllSpace(s[..i])
    ensures i < |s| ==> !IsJsSpace(s[i])
    decreases |s|
  {
    if s != [] && IsJsSpace(s[0]) {
      var i' := TrimStartBounds(s[1..]);
      i := i' + 1;
      assert s[1..][i'..] == s[i..];
      assert s[..i] == [s[0]] + s[1..][..i'];
    } else {
      i := 0;
    }
  }

  /** Trimming twice is trimming once. */
  lemma TrimIdempotent(s: string)
    ensures Trim(Trim(s)) == Trim(s)
  {
    var t := Trim(s);
    var _, _ := TrimBounds(s);
    if t != [] {
      assert TrimEnd(t) == t;
      assert TrimStart(t) == t;
    }
  }

  /** An accepted name begins and ends with a letter (the validator sees the trimmed value). */
  lemma ValidNameEndsInLetters(name: string)
    requires NameMatches(Trim(name))
    ensures IsAsciiLetter(Trim(name)[0]) && IsAsciiLetter(Trim(name)[|Trim(name)| - 1])
  {
    var _, _ := TrimBounds(name);
  }

  /** The email computation accepts exactly the strings of the email pattern. */
  lemma EmailMatchesIffPattern(s: string)
    ensures EmailMatches(s) <==> EmailPattern(s)
  {
    if EmailMatches(s) {
      var p := AtIndex(s);
      var k :| p + 1 < k < |s| - 1 && s[k] == '.';
      assert NoSpaceOrAt(s[..p]);
      assert NoSpaceOrAt(s[p + 1..k]);
      assert NoSpaceOrAt(s[k + 1..]);
    }
    if EmailPattern(s) {
      var i, j :| 0 < i && i + 1 < j && j + 1 < |s| && s[i] == '@' && s[j] == '.'
        && NoSpaceOrAt(s[..i]) && NoSpaceOrAt(s[i + 1..j]) && NoSpaceOrAt(s[j + 1..]);
      PatternParts(s, i, j);
    }
  }

  lemma PatternParts(s: string, i: nat, j: nat)
    requires 0 < i && i + 1 < j && j + 1 < |s| && s[i] == '@' && s[j] == '.'
    requires NoSpaceOrAt(s[..i]) && NoSpaceOrAt(s[i + 1..j]) && NoSpaceOrAt(s[j + 1..])
    ensures EmailMatches(s)
  {
    forall k | 0 <= k < |s| ensures !IsJsSpace(s[k]) && (k != i ==> s[k] != '@') {
      if k < i {
        assert s[k] == s[..i][k];
      } else if i < k < j {
        assert s[k] == s[i + 1..j][k - i - 1];
      } else if j < k {
        assert s[k] == s[j + 1..][k - j - 1];
      }
    }
    assert AtIndex(s) == i;
  }

  /** A field is flagged exactly when its check fails, and the project type fails exactly when none is chosen. */
  lemma ErrorsPerField(form: FormData)
    ensures Name in ValidationErrors(form) <==> !NameMatches(Trim(form.name))
    ensures Email in ValidationErrors(form) <==> !EmailPattern(Trim(form.email))
    ensures ProjectType in ValidationErrors(form) <==> form.projectType == ""
    ensures Message in ValidationErrors(form) <==> Utf16Length(Trim(form.message)) < MinMessageLength
  {
    EmailMatchesIffPattern(Trim(form.email));
  }

  /** The form may be sent exactly when every field passes its check. */
  lemma SubmissionGate(form: FormData)
    ensures ValidationErrors(form) == map[] <==> forall f :: FieldValid(form, f)
  {
    if ValidationErrors(form) == map[] {
      forall f ensures FieldValid(form, f) {
        assert f !in ValidationErrors(form);
      }
    }
  }

  /** Every option of the project-type select passes the project-type check; the empty placeholder does not. */
  lemma ProjectTypeOptions(form: FormData)
    ensures forall t :: t in ProjectTypes ==> FieldValid(form.With(ProjectType, t), ProjectType)
    ensures !FieldValid(form.With(ProjectType, ""), ProjectType)
  {
  }

  /** Setting a field changes that field and no other. */
  lemma WithChangesOneField(form: FormData, f: Field, v: string, g: Field)
    ensures form.With(f, v).Get(g) == if g == f then v else form.Get(g)
  {
  }

  /** White space added before and after a value, in any amounts, never changes what the validator sees of it. */
  lemma TrimIgnoresPadding(m: string, pre: string, post: string)
    requires AllSpace(pre) && AllSpace(post)
    ensures Trim(pre + m + post) == Trim(m)
  {
    var s := pre + m + post;
    var i, j := TrimBounds(m);
    PaddedBounds(m, pre, post, i, j);
    var i2, j2 := TrimBounds(s);
    TrimUnique(s, |pre| + i, |pre| + j, i2, j2);
    assert Trim(s) == s[i2..j2];
    assert s[|pre| + i..|pre| + j] == m[i..j];
  }

  lemma PaddedBounds(m: string, pre: string, post: string, i: nat, j: nat)
    requires AllSpace(pre) && AllSpace(post) && i <= j <= |m| && AllSpace(m[..i]) && AllSpace(m[j..])
    requires i < j ==> !IsJsSpace(m[i]) && !IsJsSpace(m[j - 1])
    ensures var s := pre + m + post;
      && |pre| + j <= |s| && s[|pre| + i..|pre| + j] == m[i..j]
      && AllSpace(s[..|pre| + i]) && AllSpace(s[|pre| + j..])
      && (i < j ==> !IsJsSpace(s[|pre| + i]) && !IsJsSpace(s[|pre| + j - 1]))
  {
    var s := pre + m + post;
    assert s[..|pre| + i] == pre + m[..i];
    assert s[|pre| + j..] == m[j..] + post;
    AllSpaceAppend(pre, m[..i]);
    AllSpaceAppend(m[j..], post);
    if i < j {
      assert s[|pre| + i] == m[i] && s[|pre| + j - 1] == m[j - 1];
    }
  }

  lemma AllSpaceAppend(a: string, b: string)
    requires AllSpace(a) && AllSpace(b)
    ensures AllSpace(a + b)
  {
    forall k | 0 <= k < |a + b| ensures IsJsSpace((a + b)[k]) {
      if k < |a| { assert (a + b)[k] == a[k]; } else { assert (a + b)[k] == b[k - |a|]; }
    }
  }

  /** The boundaries of a trim are determined: any split into space, a non-space-bounded middle and space is it. */
  lemma TrimUnique(s: string, i: nat, j: nat, i2: nat, j2: nat)
    requires i <= j <= |s| && AllSpace(s[..i]) && AllSpace(s[j..])
    requires i < j ==> !IsJsSpace(s[i]) && !IsJsSpace(s[j - 1])
    requires i2 <= j2 <= |s| && AllSpace(s[..i2]) && AllSpace(s[j2..])
    requires i2 < j2 ==> !IsJsSpace(s[i2]) && !IsJsSpace(s[j2 - 1])
    ensures s[i..j] == s[i2..j2]
  {
    assert forall k :: 0 <= k < i ==> IsJsSpace(s[k]) by {
      forall k | 0 <= k < i ensures IsJsSpace(s[k]) { assert s[k] == s[..i][k]; }
    }
    assert forall k :: j <= k < |s| ==> IsJsSpace(s[k]) by {
      forall k | j <= k < |s| ensures IsJsSpace(s[k]) { assert s[k] == s[j..][k - j]; }
    }
    assert forall k :: 0 <= k < i2 ==> IsJsSpace(s[k]) by {
      forall k | 0 <= k < i2 ensures IsJsSpace(s[k]) { assert s[k] == s[..i2][k]; }
    }
    assert forall k :: j2 <= k < |s| ==> IsJsSpace(s[k]) by {
      forall k | j2 <= k < |s| ensures IsJsSpace(s[k]) { assert s[k] == s[j2..][k - j2]; }
    }
  }

  // ---------------------------------------------------------------------------
  // The form component.

  class ContactForm {
    var formData: FormData
    var errors: map<Field, string>
    var isSubmitting: bool
    var isSubmitted: bool

    constructor ()
      ensures formData == EmptyForm && errors == map[] && !isSubmitting && !isSubmitted
    {
      formData, errors, isSubmitting, isSubmitted := EmptyForm, map[], false, false;
    }

    /** An input changed: store the value; a shown error of that field is blanked. */
    method HandleChange(f: Field, value: string)
      modifies this
      ensures formData == old(formData).With(f, value)
      ensures errors == if ShowsError(old(errors), f) then old(errors)[f := ""] else old(errors)
      ensures !ShowsError(errors, f)
      ensures forall g :: g != f ==> (g in errors <==> g in old(errors)) && (g in errors ==> errors[g] == old(errors)[g])
      ensures isSubmitting == old(isSubmitting) && isSubmitted == old(isSubmitted)
    {
      formData := formData.With(f, value);
      if f in errors && errors[f] != "" {
        errors := errors[f := ""];
      }
    }

    /**
     * The form is submitted (the button is disabled while a submission is in flight).
     * With any failing field the new error map replaces the old one and nothing is
     * sent; otherwise the submission starts. `sent` says whether the request goes out.
     */
    method HandleSubmit() returns (sent: bool)
      requires !isSubmitting
      modifies this
      ensures sent <==> ValidationErrors(old(formData)) == map[]
      ensures !sent ==> errors == ValidationErrors(old(formData)) && !isSubmitting
      ensures sent ==> errors == old(errors) && isSubmitting
      ensures formData == old(formData) && isSubmitted == old(isSubmitted)
    {
      var validationErrors := Validate(formData);
      if |validationErrors| > 0 {
        errors := validationErrors;
        return false;
      }
      isSubmitting := true;
      sent := true;
    }

    /** The request settled; `succeeded` says whether a JSON reply came back. */
    method SubmissionSettled(succeeded: bool)
      modifies this
      ensures !isSubmitting
      ensures succeeded ==> isSubmitted && formData == EmptyForm
      ensures !succeeded ==> isSubmitted == old(isSubmitted) && formData == old(formData)
      ensures errors == old(errors)
    {
      if succeeded {
        isSubmitted := true;
        formData := EmptyForm;
      }
      isSubmitting := false;
    }

    /** The thank-you notice times out. */
    method ThankYouExpired()
      modifies this
      ensures !isSubmitted
      ensures formData == old(formData) && errors == old(errors) && isSubmitting == old(isSubmitting)
    {
      isSubmitted := false;
    }
  }
}
