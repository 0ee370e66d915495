/**
 * The contact form of the Contact section: four text fields, a validator
 * that reports every failing field at once, a change handler that edits one
 * field, and a submit handler driving the "submitting" and "submitted"
 * flags. The send itself is a simulation made of two timers; their firings
 * are the events CompleteSubmission and ResetSuccessMessage.
 */
module Contact {
  import opened Options
  import opened JsString

  datatype Field = Name | Email | Subject | Message

  const AllFields: set<Field> := {Name, Email, Subject, Message}

  /** The `formData` record: one string per field. */
  datatype FormData = FormData(name: string, email: string, subject: string, message: string) {

    function Get(f: Field): string {
      match f
      case Name => name
      case Email => email
      case Subject => subject
      case Message => message
    }

    /** `{ ...prev, [f]: v }`: field `f` becomes `v`, the other three are kept. */
    function With(f: Field, v: string): (r: FormData)
      ensures r.Get(f) == v
      ensures forall g :: g != f ==> r.Get(g) == Get(g)
    {
      match f
      case Name => this.(name := v)
      case Email => this.(email := v)
      case Subject => this.(subject := v)
      case Message => this.(message := v)
    }
  }

  const EmptyForm: FormData := FormData("", "", "", "")

  const NameRequired: string := "Name is required"
  const EmailRequired: string := "Email is required"
  const EmailInvalid: string := "Email is invalid"
  const SubjectRequired: string := "Subject is required"
  const MessageRequired: string := "Message is required"
  const MessageTooShort: string := "Message must be at least 10 characters"
  const MinMessageLength: nat := 10

  /** A non-empty run of non-white-space characters: the language of `\S+`. */
  ghost predicate NonWhiteRun(w: string) {
    w != [] && forall i :: 0 <= i < |w| ==> !IsWhiteSpace(w[i])
  }

  /**
   * What `/\S+@\S+\.\S+/.test(s)` means: the pattern is not anchored, so some
   * substring of `s` has the shape x@y.z with x, y and z non-empty runs of
   * non-white-space characters.
   */
  ghost predicate MatchesEmailPattern(s: string) {
    exists pre, x, y, z, post ::
      s == pre + x + "@" + y + "." + z + post && NonWhiteRun(x) && NonWhiteRun(y) && NonWhiteRun(z)
  }

  /**
   * The `@` of the match at `p` and its `.` at `q`: a non-white-space
   * character before `p`, at least one character strictly between them and
   * all of those non-white-space, and a non-white-space character after `q`.
   */
  predicate MarksAt(s: string, p: int, q: int) {
    0 < p && p + 1 < q && q + 1 < |s|
    && s[p] == '@' && s[q] == '.' && !IsWhiteSpace(s[p - 1]) && !IsWhiteSpace(s[q + 1])
    && NoWhiteSpaceBetween(s, p, q)
  }

  predicate NoWhiteSpaceBetween(s: string, p: int, q: int)
    requires 0 <= p <= q <= |s|
  {
    forall k :: p < k < q ==> !IsWhiteSpace(s[k])
  }

  /**
   * The same test as the regular expression, stated on positions; a string
   * it accepts has at least five characters, among them an `@` and a `.`.
   */
  predicate EmailShaped(s: string): (b: bool)
    ensures b ==> |s| >= 5 && '@' in s && '.' in s
  {
    exists p, q | 0 <= p < |s| && 0 <= q < |s| :: MarksAt(s, p, q)
  }

  /** The positional test accepts exactly the strings the regular expression matches. */
  lemma EmailShapedIffPattern(s: string)
    ensures EmailShaped(s) <==> MatchesEmailPattern(s)
  {
    if EmailShaped(s) {
      var p, q :| 0 <= p < |s| && 0 <= q < |s| && MarksAt(s, p, q);
      MarksGiveMatch(s, p, q);
    }
    if MatchesEmailPattern(s) {
      var pre, x, y, z, post :|
        s == pre + x + "@" + y + "." + z + post && NonWhiteRun(x) && NonWhiteRun(y) && NonWhiteRun(z);
      MatchGivesMarks(s, pre, x, y, z, post);
    }
  }

  lemma MarksGiveMatch(s: string, p: int, q: int)
    requires MarksAt(s, p, q)
    ensures MatchesEmailPattern(s)
  {
    var pre, x, y, z, post := s[..p - 1], s[p - 1..p], s[p + 1..q], s[q + 1..q + 2], s[q + 2..];
    assert s[p..p + 1] == "@" && s[q..q + 1] == ".";
    assert s == pre + x + "@" + y + "." + z + post by {
      assert s == s[..p - 1] + s[p - 1..p] + s[p..p + 1] + s[p + 1..q] + s[q..q + 1] + s[q + 1..q + 2] + s[q + 2..];
    }
    assert NonWhiteRun(y) by {
      forall i | 0 <= i < |y| ensures !IsWhiteSpace(y[i]) {
        assert y[i] == s[p + 1 + i];
      }
    }
  }

  lemma MatchGivesMarks(s: string, pre: string, x: string, y: string, z: string, post: string)
    requires s == pre + x + "@" + y + "." + z + post
    requires NonWhiteRun(x) && NonWhiteRun(y) && NonWhiteRun(z)
    ensures EmailShaped(s)
  {
    var p := |pre| + |x|;
    var q := p + 1 + |y|;
    assert s[p] == '@' && s[q] == '.';
    assert s[p - 1] == x[|x| - 1];
    assert s[q + 1] == z[0];
    forall k | p < k < q ensures !IsWhiteSpace(s[k]) {
      assert s[k] == y[k - p - 1];
    }
    assert MarksAt(s, p, q);
  }

  /**
   * The message `validateForm` records for field `f`, if any. Emptiness is
   * judged after `trim()`; the message length rule counts the raw string in
   * UTF-16 code units, as `length` does.
   */
  function FieldError(form: FormData, f: Field): (r: Option<string>)
    ensures r.Some? <==> Trim(form.Get(f)) == ""
                         || (f == Email && !EmailShaped(form.Get(f)))
                         || (f == Message && Utf16Length(form.Get(f)) < MinMessageLength)
    ensures r.Some? ==> r.value != ""
  {
    match f
    case Name =>
      if Trim(form.name) == "" then Some(NameRequired) else None
    case Email =>
      if Trim(form.email) == "" then Some(EmailRequired)
      else if !EmailShaped(form.email) then Some(EmailInvalid)
      else None
    case Subject =>
      if Trim(form.subject) == "" then Some(SubjectRequired) else None
    case Message =>
      if Trim(form.message) == "" then Some(MessageRequired)
      else if Utf16Length(form.message) < MinMessageLength then Some(MessageTooShort)
      else None
  }

  /** Records `error` under `f` when there is one: one `newErrors.f = ...` assignment. */
  function WithError(m: map<Field, string>, f: Field, error: Option<string>): map<Field, string> {
    match error
    case Some(e) => m[f := e]
    case None => m
  }

  /** `errors` has an entry for `f` exactly when `f` fails, and the entry is the message for `f`. */
  predicate Reports(errors: map<Field, string>, form: FormData, f: Field) {
    (f in errors <==> FieldError(form, f).Some?)
    && (f in errors ==> errors[f] == FieldError(form, f).value)
  }

  /**
   * The `newErrors` object that `validateForm` builds, field by field in the
   * order of the source: each field has an entry exactly when it fails, and
   * the entry is that field's message.
   */
  function FormErrors(form: FormData): (errors: map<Field, string>)
    ensures Reports(errors, form, Name) && Reports(errors, form, Email)
    ensures Reports(errors, form, Subject) && Reports(errors, form, Message)
  {
    var afterName := WithError(map[], Name, FieldError(form, Name));
    var afterEmail := WithError(afterName, Email, FieldError(form, Email));
    var afterSubject := WithError(afterEmail, Subject, FieldError(form, Subject));
    WithError(afterSubject, Message, FieldError(form, Message))
  }

  /** A blank name, and only a blank name, is reported, as "Name is required". */
  lemma NameRule(form: FormData)
    ensures Name in FormErrors(form) <==> Blank(form.name)
    ensures Name in FormErrors(form) ==> FormErrors(form)[Name] == NameRequired
  {
    TrimEmptyIffBlank(form.name);
  }

  /**
   * A blank email is "required"; a non-blank one that the pattern rejects is
   * "invalid"; one that the pattern accepts has no error. The first case wins
   * over the second, so the two messages never meet.
   */
  lemma EmailRule(form: FormData)
    ensures Blank(form.email) ==> Email in FormErrors(form) && FormErrors(form)[Email] == EmailRequired
    ensures !Blank(form.email) && !MatchesEmailPattern(form.email) ==>
              Email in FormErrors(form) && FormErrors(form)[Email] == EmailInvalid
    ensures !Blank(form.email) && MatchesEmailPattern(form.email) ==> Email !in FormErrors(form)
  {
    TrimEmptyIffBlank(form.email);
    EmailShapedIffPattern(form.email);
  }

  /** A blank subject, and only a blank subject, is reported, as "Subject is required". */
  lemma SubjectRule(form: FormData)
    ensures Subject in FormErrors(form) <==> Blank(form.subject)
    ensures Subject in FormErrors(form) ==> FormErrors(form)[Subject] == SubjectRequired
  {
    TrimEmptyIffBlank(form.subject);
  }

  /**
   * A blank message is "required"; a non-blank one shorter than ten UTF-16
   * code units, counted before trimming, is "too short"; anything else passes.
   */
  lemma MessageRule(form: FormData)
    ensures Blank(form.message) ==> Message in FormErrors(form) && FormErrors(form)[Message] == MessageRequired
    ensures !Blank(form.message) && Utf16Length(form.message) < MinMessageLength ==>
              Message in FormErrors(form) && FormErrors(form)[Message] == MessageTooShort
    ensures !Blank(form.message) && Utf16Length(form.message) >= MinMessageLength ==> Message !in FormErrors(form)
  {
    TrimEmptyIffBlank(form.message);
  }

  /**
   * Because the length rule counts untrimmed characters, a short non-blank
   * message padded with white space up to ten characters is accepted.
   */
  lemma PaddingSatisfiesLength(form: FormData, pad: string)
    requires !Blank(form.message) && Blank(pad)
    requires |form.message| + |pad| >= MinMessageLength
    ensures Message !in FormErrors(form.With(Message, form.message + pad))
  {
    var m := form.message + pad;
    var i :| 0 <= i < |form.message| && !IsWhiteSpace(form.message[i]);
    assert m[i] == form.message[i];
    MessageRule(form.With(Message, m));
  }

  /** The error map has a key for failing fields only, hence at most four keys. */
  lemma AtMostFourErrors(form: FormData)
    ensures FormErrors(form).Keys <= AllFields
    ensures |FormErrors(form)| <= 4
  {
    FieldKeysAtMostFour(FormErrors(form));
  }

  /** Any map keyed by fields has its keys among the four fields. */
  lemma FieldKeysAtMostFour(m: map<Field, string>)
    ensures m.Keys <= AllFields && |m| <= 4
  {
    assert |AllFields| == 4;
    forall f | f in m.Keys ensures f in AllFields {
      assert f.Name? || f.Email? || f.Subject? || f.Message?;
    }
    SubsetCardinality(m.Keys, AllFields);
  }

  lemma SubsetCardinality<T>(a: set<T>, b: set<T>)
    requires a <= b
    ensures |a| <= |b|
  {
    assert b == a + (b - a);
  }

  /**
   * Validation is not fail-fast: whether field `f` is reported depends on
   * that field's value alone, whatever the other fields hold.
   */
  lemma ErrorsAreIndependent(form: FormData, other: FormData, f: Field)
    requires form.Get(f) == other.Get(f)
    ensures (f in FormErrors(form)) == (f in FormErrors(other))
    ensures f in FormErrors(form) ==> FormErrors(form)[f] == FormErrors(other)[f]
  {
  }

  /** The untouched form reports all four fields together. */
  lemma EmptyFormReportsEveryField()
    ensures FormErrors(EmptyForm) ==
      map[Name := NameRequired, Email := EmailRequired, Subject := SubjectRequired, Message := MessageRequired]
  {
    var e := FormErrors(EmptyForm);
    assert Name in e && Email in e && Subject in e && Message in e;
  }

  /** "not-an-email" has no `@`, so a form carrying it is told "Email is invalid". */
  lemma NotAnEmailIsInvalid(form: FormData)
    requires form.email == "not-an-email"
    ensures Email in FormErrors(form) && FormErrors(form)[Email] == EmailInvalid
  {
    assert !IsWhiteSpace(form.email[0]);
    TrimEmptyIffBlank(form.email);
    assert forall i :: 0 <= i < |form.email| ==> form.email[i] != '@';
  }

  /** A non-blank message of nine code units is told that it is too short. */
  lemma NineCharacterMessageIsTooShort(form: FormData)
    requires Utf16Length(form.message) == 9 && !Blank(form.message)
    ensures Message in FormErrors(form) && FormErrors(form)[Message] == MessageTooShort
  {
    MessageRule(form);
  }

  /**
   * Five emoji outside the Basic Multilingual Plane are ten code units, so
   * such a message passes the length rule although it has five characters.
   */
  lemma FiveEmojiMessageIsLongEnough(form: FormData)
    requires form.message == "\U{1F600}\U{1F600}\U{1F600}\U{1F600}\U{1F600}"
    ensures |form.message| == 5
    ensures Message !in FormErrors(form)
  {
    var m := form.message;
    assert !InBmp(m[0]) && !InBmp(m[1]) && !InBmp(m[2]) && !InBmp(m[3]) && !InBmp(m[4]);
    assert Utf16Length(m[4..]) == 2;
    assert Utf16Length(m[3..]) == 4;
    assert Utf16Length(m[2..]) == 6;
    assert Utf16Length(m[1..]) == 8;
    assert Utf16Length(m) == 10;
    assert !IsWhiteSpace(m[0]);
    MessageRule(form);
  }

  const SampleForm: FormData := FormData("Ada", "ada@example.com", "Hello", "Nice to meet you")

  /** A form with four acceptable values has no errors. */
  lemma ValidExampleHasNoErrors()
    ensures FormErrors(SampleForm) == map[]
  {
    SampleFieldPasses(Name);
    SampleFieldPasses(Email);
    SampleFieldPasses(Subject);
    SampleFieldPasses(Message);
    assert FormErrors(SampleForm).Keys == {};
  }

  lemma SampleFieldPasses(f: Field)
    ensures FieldError(SampleForm, f).None?
  {
    match f
    case Name =>
      var v := SampleForm.name;
      TrimEmptyIffBlank(v);
      assert !IsWhiteSpace(v[0]);
    case Email =>
      var v := SampleForm.email;
      TrimEmptyIffBlank(v);
      assert !IsWhiteSpace(v[0]);
      assert v[3] == '@' && v[11] == '.';
      assert forall k :: 3 < k < 11 ==> !IsWhiteSpace(v[k]);
      assert MarksAt(v, 3, 11);
    case Subject =>
      var v := SampleForm.subject;
      TrimEmptyIffBlank(v);
      assert !IsWhiteSpace(v[0]);
    case Message =>
      var v := SampleForm.message;
      TrimEmptyIffBlank(v);
      assert !IsWhiteSpace(v[0]);
  }

  /**
   * The component's state. `pendingCompletions` and `pendingResets` count the
   * simulated-send timer (2000 ms) and the success-message timer (5000 ms)
   * that have been started and have not yet fired.
   */
  class ContactForm {
    var formData: FormData
    var errors: map<Field, string>
    var isSubmitting: bool
    var isSubmitted: bool
    var pendingCompletions: nat
    var pendingResets: nat

    /**
     * At most one send is in flight (the submit button is disabled while one
     * is), `isSubmitting` shows exactly that, and a shown success message
     * always has a timer that will hide it.
     */
    ghost predicate Valid()
      reads this
    {
      pendingCompletions <= 1
      && (isSubmitting <==> pendingCompletions == 1)
      && (isSubmitted ==> pendingResets > 0)
    }

    constructor ()
      ensures Valid()
      ensures formData == EmptyForm && errors == map[]
      ensures !isSubmitting && !isSubmitted && pendingCompletions == 0 && pendingResets == 0
    {
      formData := EmptyForm;
      errors := map[];
      isSubmitting, isSubmitted := false, false;
      pendingCompletions, pendingResets := 0, 0;
    }

    /** `validateForm`: stores the errors of the current form and reports whether there are none. */
    method ValidateForm() returns (ok: bool)
      modifies this`errors
      ensures errors == FormErrors(formData)
      ensures ok <==> |errors| == 0
    {
      var form := formData;
      var newErrors: map<Field, string> := map[];
      if Trim(form.name) == "" {
        newErrors := newErrors[Name := NameRequired];
      }
      ghost var afterName := newErrors;
      assert afterName == WithError(map[], Name, FieldError(form, Name));
      if Trim(form.email) == "" {
        newErrors := newErrors[Email := EmailRequired];
      } else if !EmailShaped(form.email) {
        newErrors := newErrors[Email := EmailInvalid];
      }
      ghost var afterEmail := newErrors;
      assert afterEmail == WithError(afterName, Email, FieldError(form, Email));
      if Trim(form.subject) == "" {
        newErrors := newErrors[Subject := SubjectRequired];
      }
      ghost var afterSubject := newErrors;
      assert afterSubject == WithError(afterEmail, Subject, FieldError(form, Subject));
      if Trim(form.message) == "" {
        newErrors := newErrors[Message := MessageRequired];
      } else if Utf16Length(form.message) < MinMessageLength {
        newErrors := newErrors[Message := MessageTooShort];
      }
      assert newErrors == WithError(afterSubject, Message, FieldError(form, Message));
      errors := newErrors;
      ok := |newErrors| == 0;
    }

    /**
     * `handleSubmit`: an invalid form only gets its errors shown; a valid one
     * starts the simulated send. The form is never touched here.
     */
    method HandleSubmit() returns (accepted: bool)
      requires Valid() && !isSubmitting
      modifies this
      ensures Valid()
      ensures errors == FormErrors(formData) && (accepted <==> errors == map[])
      ensures formData == old(formData)
      ensures isSubmitted == old(isSubmitted) && pendingResets == old(pendingResets)
      ensures accepted ==> isSubmitting && pendingCompletions == 1
      ensures !accepted ==> !isSubmitting && pendingCompletions == 0
    {
      accepted := ValidateForm();
      ghost var shown := errors;
      assert shown == FormErrors(formData);
      if !accepted {
        return;
      }
      isSubmitting := true;
      pendingCompletions := pendingCompletions + 1;
    }

    /** The send timer fires: the send is over, the success message shows and the form is cleared. */
    method CompleteSubmission()
      requires Valid() && pendingCompletions > 0
      modifies this
      ensures Valid()
      ensures !isSubmitting && isSubmitted && formData == EmptyForm
      ensures pendingCompletions == old(pendingCompletions) - 1 && pendingResets == old(pendingResets) + 1
      ensures errors == old(errors)
    {
      isSubmitting := false;
      isSubmitted := true;
      formData := EmptyForm;
      pendingCompletions := pendingCompletions - 1;
      pendingResets := pendingResets + 1;
    }

    /** The success-message timer fires: the message is hidden. */
    method ResetSuccessMessage()
      requires Valid() && pendingResets > 0
      modifies this
      ensures Valid()
      ensures !isSubmitted
      ensures pendingResets == old(pendingResets) - 1
      ensures formData == old(formData) && errors == old(errors)
      ensures isSubmitting == old(isSubmitting) && pendingCompletions == old(pendingCompletions)
    {
      isSubmitted := false;
      pendingResets := pendingResets - 1;
    }

    /**
     * `handleChange`: field `f` takes the typed value; its error, if one is
     * shown, is blanked (the key stays, with an empty message); nothing else changes.
     */
    method HandleChange(f: Field, value: string)
      requires Valid()
      modifies this
      ensures Valid()
      ensures formData == old(formData).With(f, value)
      ensures errors == if f in old(errors) && old(errors)[f] != "" then old(errors)[f := ""] else old(errors)
      ensures isSubmitting == old(isSubmitting) && isSubmitted == old(isSubmitted)
      ensures pendingCompletions == old(pendingCompletions) && pendingResets == old(pendingResets)
    {
      formData := formData.With(f, value);
      if f in errors && errors[f] != "" {
        errors := errors[f := ""];
      }
    }
  }

  /** Two fields' edits commute, and re-editing a field keeps only the last value. */
  lemma WithOnlyTouchesItsField(form: FormData, f: Field, g: Field, v: string, w: string)
    ensures f != g ==> form.With(f, v).With(g, w) == form.With(g, w).With(f, v)
    ensures form.With(f, v).With(f, w) == form.With(f, w)
    ensures form.With(f, form.Get(f)) == form
  {
  }
}
