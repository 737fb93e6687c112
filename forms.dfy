/** The contact form: the constraints on its four fields and the extra
    minimum-length rule on the message. */
module Forms {
  import opened Text

  datatype Result<T, E> = Ok(value: T) | Err(error: E)

  datatype Field = Name | Email | Subject | Message

  datatype ErrorCode = Required | MaxLength(limit: nat) | InvalidEmail | NullCharacter | TooShort(minimum: nat)

  datatype FieldError = FieldError(field: Field, code: ErrorCode)

  /** The posted fields as text; a field that was not posted arrives as "". */
  datatype Submission = Submission(name: string, email: string, subject: string, message: string)

  /** form.cleaned_data of a valid submission. */
  datatype Cleaned = Cleaned(name: string, email: string, subject: string, message: string)

  const NameMaxLength: nat := 100
  const SubjectMaxLength: nat := 200
  const MessageMinLength: nat := 10

  /** ContactForm.clean_message: a message shorter than 10 characters is
      refused, any other is returned unchanged. */
  function CleanMessage(message: string): (r: Result<string, seq<ErrorCode>>)
    ensures r.Err? <==> |message| < MessageMinLength
    ensures r.Ok? ==> r.value == message
    ensures r.Err? ==> r.error == [TooShort(MessageMinLength)]
  {
    if |message| < MessageMinLength then Err([TooShort(MessageMinLength)]) else Ok(message)
  }

  // Each field is cleaned by its form field first: the value is stripped,
  // an empty value of a required field is refused, and a non-empty value is
  // passed to every validator of the field (the length limit or the email
  // check, then the null-character check), all of whose errors are kept.
  // clean_message runs only on a message that passed its field.

  /** The error of a validator that refuses when ok is false. */
  function Check(ok: bool, code: ErrorCode): seq<ErrorCode> {
    if ok then [] else [code]
  }

  /** The stripped value, or the errors of the field's validators. */
  function RunValidators(v: string, errors: seq<ErrorCode>): Result<string, seq<ErrorCode>> {
    if errors == [] then Ok(v) else Err(errors)
  }

  function CleanName(raw: string): Result<string, seq<ErrorCode>> {
    var v := Strip(raw);
    if v == "" then Err([Required])
    else RunValidators(v, Check(|v| <= NameMaxLength, MaxLength(NameMaxLength)) + Check('\0' !in v, NullCharacter))
  }

  function CleanEmail(raw: string, isEmail: string -> bool): Result<string, seq<ErrorCode>> {
    var v := Strip(raw);
    if v == "" then Err([Required])
    else RunValidators(v, Check(isEmail(v), InvalidEmail) + Check('\0' !in v, NullCharacter))
  }

  function CleanSubject(raw: string): Result<string, seq<ErrorCode>> {
    var v := Strip(raw);
    if v == "" then Ok(v)
    else RunValidators(v, Check(|v| <= SubjectMaxLength, MaxLength(SubjectMaxLength)) + Check('\0' !in v, NullCharacter))
  }

  function CleanMessageField(raw: string): Result<string, seq<ErrorCode>> {
    var v := Strip(raw);
    if v == "" then Err([Required])
    else if '\0' in v then Err([NullCharacter])
    else CleanMessage(v)
  }

  /** The entries of form.errors for one field. */
  function ErrorsOf(field: Field, r: Result<string, seq<ErrorCode>>): (es: seq<FieldError>)
    ensures forall e :: e in es <==> r.Err? && e.field == field && e.code in r.error
  {
    if r.Err? then Entries(field, r.error) else []
  }

  function Entries(field: Field, codes: seq<ErrorCode>): (es: seq<FieldError>)
    ensures forall e :: e in es <==> e.field == field && e.code in codes
  {
    if codes == [] then [] else [FieldError(field, codes[0])] + Entries(field, codes[1..])
  }

  /** Whether a field of the submission satisfies its rules, stated on the
      stripped value: name 1..100 characters, email non-empty and well formed,
      subject at most 200 characters, message at least 10 characters, and no
      field holding a null character. */
  predicate FieldAccepted(f: Field, s: Submission, isEmail: string -> bool) {
    var v := Strip(Raw(f, s));
    && '\0' !in v
    && match f
       case Name => 1 <= |v| <= NameMaxLength
       case Email => v != "" && isEmail(v)
       case Subject => |v| <= SubjectMaxLength
       case Message => |v| >= MessageMinLength
  }

  /** Whether the field's rules raise the given error, stated on the
      stripped value: an empty required field is only "required"; a
      non-empty one gets every limit it breaks, the null-character error
      when it holds one, and a message gets "too short" only once it passed
      its field's own validators. */
  predicate Raises(f: Field, s: Submission, isEmail: string -> bool, code: ErrorCode) {
    var v := Strip(Raw(f, s));
    match code
    case Required => v == "" && f != Subject
    case MaxLength(n) =>
      v != "" && ((f == Name && n == NameMaxLength && |v| > n) || (f == Subject && n == SubjectMaxLength && |v| > n))
    case InvalidEmail => f == Email && v != "" && !isEmail(v)
    case NullCharacter => '\0' in v
    case TooShort(n) => f == Message && n == MessageMinLength && v != "" && '\0' !in v && |v| < n
  }

  /** The cleaning step of one field. */
  function Clean(f: Field, s: Submission, isEmail: string -> bool): Result<string, seq<ErrorCode>> {
    match f
    case Name => CleanName(s.name)
    case Email => CleanEmail(s.email, isEmail)
    case Subject => CleanSubject(s.subject)
    case Message => CleanMessageField(s.message)
  }

  function Raw(f: Field, s: Submission): string {
    match f
    case Name => s.name
    case Email => s.email
    case Subject => s.subject
    case Message => s.message
  }

  /** A field cleans without error exactly when it satisfies its rules, and
      then its cleaned value is the stripped text. */
  lemma CleanAccepted(f: Field, s: Submission, isEmail: string -> bool)
    ensures Clean(f, s, isEmail).Ok? <==> FieldAccepted(f, s, isEmail)
    ensures Clean(f, s, isEmail).Ok? ==> Clean(f, s, isEmail).value == Strip(Raw(f, s))
  {
    match f
    case Name => NameAccepted(s, isEmail);
    case Email => EmailAccepted(s, isEmail);
    case Subject => SubjectAccepted(s, isEmail);
    case Message => MessageAccepted(s, isEmail);
  }

  lemma NameAccepted(s: Submission, isEmail: string -> bool)
    ensures Clean(Name, s, isEmail).Ok? <==> FieldAccepted(Name, s, isEmail)
    ensures Clean(Name, s, isEmail).Ok? ==> Clean(Name, s, isEmail).value == Strip(s.name)
  {
    assert Raw(Name, s) == s.name;
  }

  lemma EmailAccepted(s: Submission, isEmail: string -> bool)
    ensures Clean(Email, s, isEmail).Ok? <==> FieldAccepted(Email, s, isEmail)
    ensures Clean(Email, s, isEmail).Ok? ==> Clean(Email, s, isEmail).value == Strip(s.email)
  {
    assert Raw(Email, s) == s.email;
  }

  lemma SubjectAccepted(s: Submission, isEmail: string -> bool)
    ensures Clean(Subject, s, isEmail).Ok? <==> FieldAccepted(Subject, s, isEmail)
    ensures Clean(Subject, s, isEmail).Ok? ==> Clean(Subject, s, isEmail).value == Strip(s.subject)
  {
    assert Raw(Subject, s) == s.subject;
  }

  lemma MessageAccepted(s: Submission, isEmail: string -> bool)
    ensures Clean(Message, s, isEmail).Ok? <==> FieldAccepted(Message, s, isEmail)
    ensures Clean(Message, s, isEmail).Ok? ==> Clean(Message, s, isEmail).value == Strip(s.message)
  {
    assert Raw(Message, s) == s.message;
  }

  /** The errors a field's cleaning reports are exactly the errors its rules
      raise. */
  lemma CleanRaises(f: Field, s: Submission, isEmail: string -> bool, code: ErrorCode)
    ensures Clean(f, s, isEmail).Err? && code in Clean(f, s, isEmail).error <==> Raises(f, s, isEmail, code)
  {
    match f
    case Name => NameRaises(s, isEmail, code);
    case Email => EmailRaises(s, isEmail, code);
    case Subject => SubjectRaises(s, isEmail, code);
    case Message => MessageRaises(s, isEmail, code);
  }

  lemma NameRaises(s: Submission, isEmail: string -> bool, code: ErrorCode)
    ensures Clean(Name, s, isEmail).Err? && code in Clean(Name, s, isEmail).error <==> Raises(Name, s, isEmail, code)
  {
    assert Raw(Name, s) == s.name;
  }

  lemma EmailRaises(s: Submission, isEmail: string -> bool, code: ErrorCode)
    ensures Clean(Email, s, isEmail).Err? && code in Clean(Email, s, isEmail).error <==> Raises(Email, s, isEmail, code)
  {
    assert Raw(Email, s) == s.email;
  }

  lemma SubjectRaises(s: Submission, isEmail: string -> bool, code: ErrorCode)
    ensures Clean(Subject, s, isEmail).Err? && code in Clean(Subject, s, isEmail).error <==> Raises(Subject, s, isEmail, code)
  {
    assert Raw(Subject, s) == s.subject;
  }

  lemma MessageRaises(s: Submission, isEmail: string -> bool, code: ErrorCode)
    ensures Clean(Message, s, isEmail).Err? && code in Clean(Message, s, isEmail).error <==> Raises(Message, s, isEmail, code)
  {
    assert Raw(Message, s) == s.message;
  }

  /** form.errors: the entries of each field, in the field order of the form. */
  function Errors(s: Submission, isEmail: string -> bool): seq<FieldError> {
    ErrorsOf(Name, Clean(Name, s, isEmail)) + ErrorsOf(Email, Clean(Email, s, isEmail))
      + ErrorsOf(Subject, Clean(Subject, s, isEmail)) + ErrorsOf(Message, Clean(Message, s, isEmail))
  }

  /** A field's entries in the error list are the errors its cleaning step
      raised, and there are none when it cleaned without error. */
  lemma ErrorsOfField(s: Submission, isEmail: string -> bool, f: Field, code: ErrorCode)
    ensures FieldError(f, code) in Errors(s, isEmail) <==> Clean(f, s, isEmail).Err? && code in Clean(f, s, isEmail).error
  {
    var es := Errors(s, isEmail);
    var a, b, c, d := ErrorsOf(Name, Clean(Name, s, isEmail)), ErrorsOf(Email, Clean(Email, s, isEmail)),
      ErrorsOf(Subject, Clean(Subject, s, isEmail)), ErrorsOf(Message, Clean(Message, s, isEmail));
    assert es == a + b + c + d;
    var e := FieldError(f, code);
    assert e in es <==> e in a || e in b || e in c || e in d;
  }

  /** form.is_valid() with form.cleaned_data or form.errors. */
  function Validate(s: Submission, isEmail: string -> bool): (r: Result<Cleaned, seq<FieldError>>)
  {
    var name, email, subject, message :=
      Clean(Name, s, isEmail), Clean(Email, s, isEmail), Clean(Subject, s, isEmail), Clean(Message, s, isEmail);
    if name.Ok? && email.Ok? && subject.Ok? && message.Ok? then
      Ok(Cleaned(name.value, email.value, subject.value, message.value))
    else
      Err(Errors(s, isEmail))
  }

  /** The submission is valid exactly when every field satisfies its rules;
      a valid one yields the stripped fields, an invalid one exactly the
      errors the rules raise, field by field. */
  lemma ValidateSpec(s: Submission, isEmail: string -> bool)
    ensures Validate(s, isEmail).Ok? <==> forall f :: FieldAccepted(f, s, isEmail)
    ensures Validate(s, isEmail).Ok? ==>
      Validate(s, isEmail).value == Cleaned(Strip(s.name), Strip(s.email), Strip(s.subject), Strip(s.message))
    ensures Validate(s, isEmail).Err? ==>
      forall f, code :: FieldError(f, code) in Validate(s, isEmail).error <==> Raises(f, s, isEmail, code)
  {
    ValidateAccepts(s, isEmail);
    ErrorsRaised(s, isEmail);
  }

  /** Validation succeeds exactly when every field is accepted, and then
      yields the stripped fields. */
  lemma ValidateAccepts(s: Submission, isEmail: string -> bool)
    ensures Validate(s, isEmail).Ok? <==> forall f :: FieldAccepted(f, s, isEmail)
    ensures Validate(s, isEmail).Ok? ==>
      Validate(s, isEmail).value == Cleaned(Strip(s.name), Strip(s.email), Strip(s.subject), Strip(s.message))
  {
    ValidateOkWhenAllClean(s, isEmail);
    NameAccepted(s, isEmail);
    EmailAccepted(s, isEmail);
    SubjectAccepted(s, isEmail);
    MessageAccepted(s, isEmail);
    AllFieldsAccepted(s, isEmail);
  }

  /** Validation succeeds exactly when all four cleaning steps do, and then
      collects their values. */
  lemma ValidateOkWhenAllClean(s: Submission, isEmail: string -> bool)
    ensures Validate(s, isEmail).Ok? <==>
      Clean(Name, s, isEmail).Ok? && Clean(Email, s, isEmail).Ok? && Clean(Subject, s, isEmail).Ok? && Clean(Message, s, isEmail).Ok?
    ensures Validate(s, isEmail).Ok? ==>
      (Validate(s, isEmail).value
         == Cleaned(Clean(Name, s, isEmail).value, Clean(Email, s, isEmail).value,
                    Clean(Subject, s, isEmail).value, Clean(Message, s, isEmail).value))
  {
  }

  lemma AllFieldsAccepted(s: Submission, isEmail: string -> bool)
    ensures (forall f :: FieldAccepted(f, s, isEmail)) <==>
      FieldAccepted(Name, s, isEmail) && FieldAccepted(Email, s, isEmail) && FieldAccepted(Subject, s, isEmail) && FieldAccepted(Message, s, isEmail)
  {
    forall f | FieldAccepted(Name, s, isEmail) && FieldAccepted(Email, s, isEmail) && FieldAccepted(Subject, s, isEmail) && FieldAccepted(Message, s, isEmail)
      ensures FieldAccepted(f, s, isEmail)
    {
      match f
      case Name =>
      case Email =>
      case Subject =>
      case Message =>
    }
  }

  /** The error list holds exactly the errors the rules raise. */
  lemma ErrorsRaised(s: Submission, isEmail: string -> bool)
    ensures forall f, code :: FieldError(f, code) in Errors(s, isEmail) <==> Raises(f, s, isEmail, code)
  {
    forall f, code ensures FieldError(f, code) in Errors(s, isEmail) <==> Raises(f, s, isEmail, code) {
      ErrorsOfField(s, isEmail, f, code);
      CleanRaises(f, s, isEmail, code);
    }
  }

  /** A message of fewer than 10 characters (after stripping) is refused with
      an error on the message field: "required" when nothing is left, the
      null-character error when it holds one, the length error otherwise. */
  lemma ShortMessageRejected(s: Submission, isEmail: string -> bool)
    requires |Strip(s.message)| < MessageMinLength
    ensures Validate(s, isEmail).Err?
    ensures var v := Strip(s.message);
      FieldError(Message, if v == "" then Required else if '\0' in v then NullCharacter else TooShort(MessageMinLength))
        in Validate(s, isEmail).error
  {
    var v := Strip(s.message);
    var code := if v == "" then Required else if '\0' in v then NullCharacter else TooShort(MessageMinLength);
    assert Raw(Message, s) == s.message;
    assert Raises(Message, s, isEmail, code);
    MessageRaises(s, isEmail, code);
    ValidateOkWhenAllClean(s, isEmail);
    ErrorsOfField(s, isEmail, Message, code);
  }

  /** A name of more than 100 characters that also holds a null character
      gets both errors. */
  lemma LongNullNameGetsBothErrors(s: Submission, isEmail: string -> bool)
    requires |Strip(s.name)| > NameMaxLength && '\0' in Strip(s.name)
    ensures Validate(s, isEmail).Err?
    ensures FieldError(Name, MaxLength(NameMaxLength)) in Validate(s, isEmail).error
    ensures FieldError(Name, NullCharacter) in Validate(s, isEmail).error
  {
    ErrorsOfField(s, isEmail, Name, MaxLength(NameMaxLength));
    ErrorsOfField(s, isEmail, Name, NullCharacter);
  }

  function FieldIndex(f: Field): nat {
    match f
    case Name => 0
    case Email => 1
    case Subject => 2
    case Message => 3
  }

  /** Entries of one field stay together, and the fields come in form order. */
  predicate InFieldOrder(es: seq<FieldError>) {
    forall i, j :: 0 <= i < j < |es| ==> FieldIndex(es[i].field) <= FieldIndex(es[j].field)
  }

  lemma OrderedAppend(x: seq<FieldError>, y: seq<FieldError>)
    requires InFieldOrder(x) && InFieldOrder(y)
    requires forall e, g :: e in x && g in y ==> FieldIndex(e.field) < FieldIndex(g.field)
    ensures InFieldOrder(x + y)
  {
    forall i, j | 0 <= i < j < |x + y| ensures FieldIndex((x + y)[i].field) <= FieldIndex((x + y)[j].field) {
      if j >= |x| && i < |x| {
        assert (x + y)[i] in x && (x + y)[j] in y;
      }
    }
  }

  lemma {:induction false} OrderedErrors(a: Result<string, seq<ErrorCode>>, b: Result<string, seq<ErrorCode>>,
                                         c: Result<string, seq<ErrorCode>>, d: Result<string, seq<ErrorCode>>)
    ensures InFieldOrder(ErrorsOf(Name, a) + ErrorsOf(Email, b) + ErrorsOf(Subject, c) + ErrorsOf(Message, d))
  {
    var x, y, z, w := ErrorsOf(Name, a), ErrorsOf(Email, b), ErrorsOf(Subject, c), ErrorsOf(Message, d);
    SingleFieldOrdered(Name, a);
    SingleFieldOrdered(Email, b);
    SingleFieldOrdered(Subject, c);
    SingleFieldOrdered(Message, d);
    OrderedAppend(x, y);
    OrderedAppend(x + y, z);
    OrderedAppend(x + y + z, w);
  }

  lemma SingleFieldOrdered(field: Field, r: Result<string, seq<ErrorCode>>)
    ensures InFieldOrder(ErrorsOf(field, r))
  {
    var es := ErrorsOf(field, r);
    forall i, j | 0 <= i < j < |es| ensures FieldIndex(es[i].field) <= FieldIndex(es[j].field) {
      assert es[i] in es && es[j] in es;
    }
  }

  /** The errors are grouped by field, in the field order of the form. */
  lemma ErrorsInFieldOrder(s: Submission, isEmail: string -> bool)
    ensures InFieldOrder(Errors(s, isEmail))
  {
    OrderedErrors(Clean(Name, s, isEmail), Clean(Email, s, isEmail), Clean(Subject, s, isEmail), Clean(Message, s, isEmail));
  }
}
