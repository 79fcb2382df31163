/**
 * The two public form schemas: the agent application form and the contact form.
 * Each field is a `Schema.Field`; the lemmas give each field's rule in closed form.
 */
module Validations {
  import opened Wrappers
  import opened Ascii
  import opened Regex
  import opened Schema

  // ---------------------------------------------------------------- rules in closed form

  /** Name on the application form: 2 to 50 ASCII letters or whitespace characters. */
  predicate NameRule(s: string)
  {
    2 <= |s| <= 50 && forall i :: 0 <= i < |s| ==> IsLetter(s[i]) || IsSpace(s[i])
  }

  /** Ten digits, the first of them 6, 7, 8 or 9. */
  predicate MobileRule(s: string)
  {
    |s| == 10 && '6' <= s[0] <= '9' && forall i :: 1 <= i < |s| ==> IsDigit(s[i])
  }

  // ---------------------------------------------------------------- application form

  const Occupations: seq<string> := ["employed", "self-employed", "homemaker", "student", "retired"]
  const EducationLevels: seq<string> := ["10th", "12th", "graduate", "post-graduate"]
  const YesNo: seq<string> := ["yes", "no"]

  const FullNameField: Field := Field(false, [MinLength(2), MaxLength(50), Matches(LettersAndSpaces)])
  const MobileField: Field := Field(false, [Matches(MobileNumber)])
  const EmailField: Field := Field(false, [EmailFormat, MaxLength(100)])
  const CityField: Field := Field(false, [MinLength(2), MaxLength(50)])
  const OccupationField: Field := Field(false, [OneOf(Occupations)])
  const ReasonField: Field := Field(false, [MinLength(10), MaxLength(500)])
  const EducationField: Field := Field(false, [OneOf(EducationLevels)])
  const SalesExperienceField: Field := Field(false, [OneOf(YesNo)])

  /** The JSON body of an application; a field the client left out is `None`. */
  datatype ApplicationPayload = ApplicationPayload(
    fullName: Option<string>,
    mobile: Option<string>,
    email: Option<string>,
    city: Option<string>,
    occupation: Option<string>,
    reason: Option<string>,
    education: Option<string>,
    salesExperience: Option<string>)

  /** The fields of the application form, in schema order. */
  datatype ApplicationField =
    FullName | Mobile | Email | City | Occupation | Reason | Education | SalesExperience

  predicate AcceptsApplicationField(p: ApplicationPayload, f: ApplicationField, emailOk: string -> bool)
  {
    match f
    case FullName => Accepts(FullNameField, p.fullName, emailOk)
    case Mobile => Accepts(MobileField, p.mobile, emailOk)
    case Email => Accepts(EmailField, p.email, emailOk)
    case City => Accepts(CityField, p.city, emailOk)
    case Occupation => Accepts(OccupationField, p.occupation, emailOk)
    case Reason => Accepts(ReasonField, p.reason, emailOk)
    case Education => Accepts(EducationField, p.education, emailOk)
    case SalesExperience => Accepts(SalesExperienceField, p.salesExperience, emailOk)
  }

  const ApplicationFields: seq<ApplicationField> :=
    [FullName, Mobile, Email, City, Occupation, Reason, Education, SalesExperience]

  /** `applicationFormSchema.parse` succeeds. */
  predicate ValidApplication(p: ApplicationPayload, emailOk: string -> bool)
  {
    && Accepts(FullNameField, p.fullName, emailOk)
    && Accepts(MobileField, p.mobile, emailOk)
    && Accepts(EmailField, p.email, emailOk)
    && Accepts(CityField, p.city, emailOk)
    && Accepts(OccupationField, p.occupation, emailOk)
    && Accepts(ReasonField, p.reason, emailOk)
    && Accepts(EducationField, p.education, emailOk)
    && Accepts(SalesExperienceField, p.salesExperience, emailOk)
  }

  /** The payload is valid exactly when no field is refused. */
  lemma ValidIffEveryField(p: ApplicationPayload, emailOk: string -> bool)
    ensures ValidApplication(p, emailOk) <==> forall f :: AcceptsApplicationField(p, f, emailOk)
  {
    if ValidApplication(p, emailOk) {
      forall f
        ensures AcceptsApplicationField(p, f, emailOk)
      {
        match f
        case _ =>
      }
    }
    if forall f :: AcceptsApplicationField(p, f, emailOk) {
      assert AcceptsApplicationField(p, FullName, emailOk);
      assert AcceptsApplicationField(p, Mobile, emailOk);
      assert AcceptsApplicationField(p, Email, emailOk);
      assert AcceptsApplicationField(p, City, emailOk);
      assert AcceptsApplicationField(p, Occupation, emailOk);
      assert AcceptsApplicationField(p, Reason, emailOk);
      assert AcceptsApplicationField(p, Education, emailOk);
      assert AcceptsApplicationField(p, SalesExperience, emailOk);
    }
  }

  lemma EveryApplicationFieldListed(f: ApplicationField)
    ensures f in ApplicationFields
  {
    match f
    case FullName => assert ApplicationFields[0] == f;
    case Mobile => assert ApplicationFields[1] == f;
    case Email => assert ApplicationFields[2] == f;
    case City => assert ApplicationFields[3] == f;
    case Occupation => assert ApplicationFields[4] == f;
    case Reason => assert ApplicationFields[5] == f;
    case Education => assert ApplicationFields[6] == f;
    case SalesExperience => assert ApplicationFields[7] == f;
  }

  /** The fields zod reports an issue for, in schema order. */
  function ApplicationIssues(p: ApplicationPayload, emailOk: string -> bool): (r: seq<ApplicationField>)
    ensures forall f :: f in r <==> !AcceptsApplicationField(p, f, emailOk)
    ensures r == [] <==> ValidApplication(p, emailOk)
  {
    forall f
      ensures f in ApplicationFields
    {
      EveryApplicationFieldListed(f);
    }
    ValidIffEveryField(p, emailOk);
    var r := FailingFields(p, ApplicationFields, emailOk);
    assert r != [] ==> r[0] in r;
    r
  }

  function FailingFields(p: ApplicationPayload, fs: seq<ApplicationField>, emailOk: string -> bool)
    : (r: seq<ApplicationField>)
    ensures forall f :: f in r <==> f in fs && !AcceptsApplicationField(p, f, emailOk)
  {
    if fs == [] then []
    else
      var rest := FailingFields(p, fs[1..], emailOk);
      if AcceptsApplicationField(p, fs[0], emailOk) then rest else [fs[0]] + rest
  }

  /** The application schema field by field: every field is required, and each
      present value is judged by its rule. */
  lemma ApplicationRules(p: ApplicationPayload, emailOk: string -> bool)
    ensures ValidApplication(p, emailOk) <==>
      && p.fullName.Some? && NameRule(p.fullName.value)
      && p.mobile.Some? && MobileRule(p.mobile.value)
      && p.email.Some? && emailOk(p.email.value) && |p.email.value| <= 100
      && p.city.Some? && 2 <= |p.city.value| <= 50
      && p.occupation.Some? && p.occupation.value in Occupations
      && p.reason.Some? && 10 <= |p.reason.value| <= 500
      && p.education.Some? && p.education.value in EducationLevels
      && p.salesExperience.Some? && p.salesExperience.value in YesNo
  {
    FullNameAccepts(p.fullName, emailOk);
    MobileAccepts(p.mobile, emailOk);
    EmailAccepts(p.email, emailOk);
    LengthRange(2, 50, p.city, emailOk);
    LengthRange(10, 500, p.reason, emailOk);
    Enumeration(Occupations, p.occupation, emailOk);
    Enumeration(EducationLevels, p.education, emailOk);
    Enumeration(YesNo, p.salesExperience, emailOk);
  }

  lemma FullNameAccepts(v: Option<string>, emailOk: string -> bool)
    ensures Accepts(FullNameField, v, emailOk) <==> v.Some? && NameRule(v.value)
  {
    if v.Some? {
      var s := v.value;
      var cs := FullNameField.checks;
      LettersAndSpacesMatch(s);
      if PassesAll(cs, s, emailOk) {
        assert Passes(cs[0], s, emailOk) && Passes(cs[1], s, emailOk) && Passes(cs[2], s, emailOk);
      }
      if NameRule(s) {
        forall i | 0 <= i < |cs|
          ensures Passes(cs[i], s, emailOk)
        {
        }
      }
    }
  }

  lemma MobileAccepts(v: Option<string>, emailOk: string -> bool)
    ensures Accepts(MobileField, v, emailOk) <==> v.Some? && MobileRule(v.value)
  {
    if v.Some? {
      MobileNumberMatch(v.value);
      assert PassesAll(MobileField.checks, v.value, emailOk) <==> Passes(MobileField.checks[0], v.value, emailOk);
    }
  }

  lemma EmailAccepts(v: Option<string>, emailOk: string -> bool)
    ensures Accepts(EmailField, v, emailOk) <==> v.Some? && emailOk(v.value) && |v.value| <= 100
  {
    if v.Some? {
      var cs := EmailField.checks;
      assert PassesAll(cs, v.value, emailOk) <==> Passes(cs[0], v.value, emailOk) && Passes(cs[1], v.value, emailOk);
    }
  }

  /** A number starting with 5 is not a mobile number, so the whole application is refused. */
  lemma MobileStartingWithFiveRejected(p: ApplicationPayload, emailOk: string -> bool)
    requires p.mobile == Some("5123456789")
    ensures !ValidApplication(p, emailOk)
    ensures Mobile in ApplicationIssues(p, emailOk)
  {
    MobileAccepts(p.mobile, emailOk);
    EveryApplicationFieldListed(Mobile);
  }

  // ---------------------------------------------------------------- contact form

  const ContactNameField: Field := Field(false, [MinLength(2), MaxLength(50)])
  const ContactEmailField: Field := Field(false, [EmailFormat])
  const PhoneField: Field := Field(true, [Matches(MobileNumber)])
  const SubjectField: Field := Field(false, [MinLength(5), MaxLength(100)])
  const MessageField: Field := Field(false, [MinLength(10), MaxLength(1000)])

  /** The JSON body of a contact message; `phone` may be left out. */
  datatype ContactPayload = ContactPayload(
    name: Option<string>,
    email: Option<string>,
    phone: Option<string>,
    subject: Option<string>,
    message: Option<string>)

  /** `contactFormSchema.parse` succeeds. */
  predicate ValidContact(p: ContactPayload, emailOk: string -> bool)
  {
    && Accepts(ContactNameField, p.name, emailOk)
    && Accepts(ContactEmailField, p.email, emailOk)
    && Accepts(PhoneField, p.phone, emailOk)
    && Accepts(SubjectField, p.subject, emailOk)
    && Accepts(MessageField, p.message, emailOk)
  }

  /** The contact schema field by field: the phone may be absent, but a phone that is
      present (even an empty one) must be a mobile number. */
  lemma ContactRules(p: ContactPayload, emailOk: string -> bool)
    ensures ValidContact(p, emailOk) <==>
      && p.name.Some? && 2 <= |p.name.value| <= 50
      && p.email.Some? && emailOk(p.email.value)
      && (p.phone.Some? ==> MobileRule(p.phone.value))
      && p.subject.Some? && 5 <= |p.subject.value| <= 100
      && p.message.Some? && 10 <= |p.message.value| <= 1000
  {
    LengthRange(2, 50, p.name, emailOk);
    LengthRange(5, 100, p.subject, emailOk);
    LengthRange(10, 1000, p.message, emailOk);
    if p.email.Some? {
      assert PassesAll(ContactEmailField.checks, p.email.value, emailOk)
        <==> Passes(ContactEmailField.checks[0], p.email.value, emailOk);
    }
    if p.phone.Some? {
      MobileNumberMatch(p.phone.value);
      assert PassesAll(PhoneField.checks, p.phone.value, emailOk)
        <==> Passes(PhoneField.checks[0], p.phone.value, emailOk);
    }
  }
}
