/**
 * Agent applications as the `ApplicationForm` collection stores them: the
 * setters trim every string and lower-case the email, every path is required,
 * education is an enum, sales experience a boolean, and a unique index allows
 * one application per stored email.
 */
module ApplicationModel {
  import opened Wrappers
  import opened Ascii
  import Validations

  datatype Education = Tenth | Twelfth | Graduate | PostGraduate

  function EducationName(e: Education): string
  {
    match e
    case Tenth => "10th"
    case Twelfth => "12th"
    case Graduate => "graduate"
    case PostGraduate => "post-graduate"
  }

  /** The enum validator of the `education` path. */
  function ParseEducation(s: string): (r: Option<Education>)
    ensures r.Some? ==> EducationName(r.value) == s
  {
    if s == "10th" then Some(Tenth)
    else if s == "12th" then Some(Twelfth)
    else if s == "graduate" then Some(Graduate)
    else if s == "post-graduate" then Some(PostGraduate)
    else None
  }

  /** The stored enum and the form's list of education levels agree: a value
      passes one exactly when it passes the other, and names parse back. */
  lemma {:induction false} EducationAgreesWithForm(s: string, e: Education)
    ensures ParseEducation(s).Some? <==> s in Validations.EducationLevels
    ensures ParseEducation(EducationName(e)) == Some(e)
  {
  }

  /** The values handed to the constructor. */
  datatype Submission = Submission(
    fullName: string,
    email: string,
    mobile: string,
    city: string,
    occupation: string,
    education: string,
    salesExperience: bool,
    reason: string)

  /** A stored application. */
  datatype Application = Application(
    id: nat,
    fullName: string,
    email: string,
    mobile: string,
    city: string,
    occupation: string,
    education: Education,
    salesExperience: bool,
    reason: string)

  /** The email as stored: trimmed and lower-cased. */
  function NormalEmail(email: string): string
  {
    Lower(Trim(email))
  }

  /** What the `required` validators demand of the values after the setters:
      every string non-empty and the education an enum value. */
  predicate Storable(s: Submission)
  {
    && Trim(s.fullName) != ""
    && NormalEmail(s.email) != ""
    && Trim(s.mobile) != ""
    && Trim(s.city) != ""
    && Trim(s.occupation) != ""
    && ParseEducation(s.education).Some?
    && Trim(s.reason) != ""
  }

  /** The document the setters build from a storable submission. */
  function Record(s: Submission, id: nat): (a: Application)
    requires Storable(s)
    ensures a.email == NormalEmail(s.email)
    ensures a.fullName == Trim(s.fullName) && a.mobile == Trim(s.mobile) && a.city == Trim(s.city)
    ensures a.occupation == Trim(s.occupation) && a.reason == Trim(s.reason)
    ensures EducationName(a.education) == s.education
    ensures a.salesExperience == s.salesExperience && a.id == id
  {
    Application(id, Trim(s.fullName), NormalEmail(s.email), Trim(s.mobile), Trim(s.city),
                Trim(s.occupation), ParseEducation(s.education).value, s.salesExperience,
                Trim(s.reason))
  }

  /** A stored record satisfies the schema: every string is non-empty and
      trimmed, the email lower-case. */
  predicate RecordValid(a: Application)
  {
    && a.fullName != "" && IsTrimmed(a.fullName)
    && a.email != "" && IsTrimmed(a.email) && Lower(a.email) == a.email
    && a.mobile != "" && IsTrimmed(a.mobile)
    && a.city != "" && IsTrimmed(a.city)
    && a.occupation != "" && IsTrimmed(a.occupation)
    && a.reason != "" && IsTrimmed(a.reason)
  }

  predicate EmailsUnique(store: seq<Application>)
  {
    forall i, j :: 0 <= i < j < |store| ==> store[i].email != store[j].email
  }

  predicate StoreValid(store: seq<Application>)
  {
    (forall i :: 0 <= i < |store| ==> RecordValid(store[i])) && EmailsUnique(store)
  }

  predicate EmailTaken(store: seq<Application>, email: string)
  {
    exists i :: 0 <= i < |store| && store[i].email == email
  }

  datatype SaveError = ValidationFailed | DuplicateKey

  /** The result of `save()` and the collection after it. */
  datatype SaveResult = SaveResult(outcome: Result<Application, SaveError>, store: seq<Application>)

  /** `save()` of a new application with id `id`. */
  function Save(store: seq<Application>, s: Submission, id: nat): (r: SaveResult)
    ensures r.outcome.Err? ==> r.store == store
    ensures r.outcome.Ok? ==> Storable(s)
    ensures r.outcome.Ok? ==> (r.store == store + [r.outcome.value]
      && r.outcome.value == Record(s, id) && !EmailTaken(store, r.outcome.value.email))
    ensures r.outcome == Err(ValidationFailed) <==> !Storable(s)
    ensures r.outcome == Err(DuplicateKey) <==> Storable(s) && EmailTaken(store, NormalEmail(s.email))
  {
    if !Storable(s) then SaveResult(Err(ValidationFailed), store)
    else
      var a := Record(s, id);
      if EmailTaken(store, a.email) then SaveResult(Err(DuplicateKey), store)
      else SaveResult(Ok(a), store + [a])
  }

  /** Lower-casing an ASCII string keeps it trimmed. */
  lemma {:induction false} LowerKeepsTrimmed(s: string)
    requires IsTrimmed(s)
    ensures IsTrimmed(Lower(s))
  {
  }

  /** A record built by the setters satisfies the schema. */
  lemma {:induction false} RecordIsValid(s: Submission, id: nat)
    requires Storable(s)
    ensures RecordValid(Record(s, id))
  {
    TrimIsTrimmed(s.fullName);
    TrimIsTrimmed(s.email);
    TrimIsTrimmed(s.mobile);
    TrimIsTrimmed(s.city);
    TrimIsTrimmed(s.occupation);
    TrimIsTrimmed(s.reason);
    LowerKeepsTrimmed(Trim(s.email));
    LowerIdempotent(Trim(s.email));
  }

  /** Appending a valid record whose email is new keeps the collection valid. */
  lemma {:induction false} AppendKeepsStoreValid(store: seq<Application>, a: Application)
    requires StoreValid(store) && RecordValid(a) && !EmailTaken(store, a.email)
    ensures StoreValid(store + [a])
  {
    var t := store + [a];
    forall i, j | 0 <= i < j < |t| ensures t[i].email != t[j].email
    {
      assert t[i] == store[i];
      if j < |store| {
        assert t[j] == store[j];
      }
    }
    forall i | 0 <= i < |t| ensures RecordValid(t[i])
    {
      if i < |store| {
        assert t[i] == store[i];
      }
    }
  }

  /** Saving keeps the collection valid: one record per email. */
  lemma {:induction false} SaveKeepsStoreValid(store: seq<Application>, s: Submission, id: nat)
    requires StoreValid(store)
    ensures StoreValid(Save(store, s, id).store)
  {
    var r := Save(store, s, id);
    if r.outcome.Ok? {
      RecordIsValid(s, id);
      AppendKeepsStoreValid(store, r.outcome.value);
    }
  }

  /** A second application whose email normalises to a stored one is refused
      and the stored record stays as it was; emails differing only in case or
      surrounding whitespace collide. */
  lemma {:induction false} SecondSaveFails(store: seq<Application>, s1: Submission, s2: Submission,
                                          id1: nat, id2: nat)
    requires Save(store, s1, id1).outcome.Ok?
    requires Storable(s2) && NormalEmail(s2.email) == NormalEmail(s1.email)
    ensures var first := Save(store, s1, id1);
      Save(first.store, s2, id2) == SaveResult(Err(DuplicateKey), first.store)
  {
    var first := Save(store, s1, id1);
    assert first.store[|store|].email == NormalEmail(s2.email);
  }
}
