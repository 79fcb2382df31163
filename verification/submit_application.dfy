/**
 * `POST /api/submit-application`: validate the form, save it on a best-effort
 * basis, send the notification emails, and answer. Every database failure is
 * caught and logged, so a duplicate application is still answered 200, only
 * without an id.
 */
module SubmitApplication {
  import opened Wrappers
  import opened Schema
  import opened Validations
  import opened ApplicationModel
  import opened Mail

  /** What the handler reads from its environment. `dbConfigured`: a database
      URI is set; `connected`: the connection succeeds; `mail`: the mail setup. */
  datatype Env = Env(dbConfigured: bool, connected: bool, mail: MailEnv)

  datatype Response = Response(
    status: int,
    applicationId: Option<nat>,
    store: seq<Application>,
    messages: seq<Message>)

  const ConfirmationSubject: string := "Welcome to LIC Career - Application Received!"

  function AdminSubject(fullName: string): string
  {
    "New LIC Agent Application - " + fullName
  }

  /** The values passed to the constructor from a validated payload. */
  function ToSubmission(p: ApplicationPayload, emailOk: string -> bool): (s: Submission)
    requires ValidApplication(p, emailOk)
    ensures s.salesExperience <==> p.salesExperience == Some("yes")
  {
    Submission(p.fullName.value, p.email.value, p.mobile.value, p.city.value,
               p.occupation.value, p.education.value, p.salesExperience.value == "yes",
               p.reason.value)
  }

  /** The emails sent for an application: to the admin when an address is
      set, then the confirmation to the applicant at the address typed in the form. */
  function Notifications(env: Env, p: ApplicationPayload): seq<Message>
    requires p.fullName.Some? && p.email.Some?
  {
    FanOut(env.mail, AdminSubject(p.fullName.value), p.email.value, ConfirmationSubject)
  }

  /** The save attempt: `None` when none is made, without a database URI or
      when the connection fails. */
  function Persist(store: seq<Application>, env: Env, s: Submission, newId: nat): (r: Option<SaveResult>)
    ensures r.Some? <==> env.dbConfigured && env.connected
  {
    if env.dbConfigured && env.connected then Some(Save(store, s, newId)) else None
  }

  /** The handler. `body` is `None` when the request body is not JSON;
      `newId` is the id a saved document receives. */
  function Submit(store: seq<Application>, env: Env, body: Option<ApplicationPayload>,
                  emailOk: string -> bool, newId: nat): (r: Response)
    ensures r.status in {200, 400, 500}
    ensures body.Some? && !ValidApplication(body.value, emailOk) ==>
      r == Response(400, None, store, [])
    ensures r.status == 200 ==> body.Some? && ValidApplication(body.value, emailOk)
    ensures r.applicationId.Some? ==> r.status == 200 && r.applicationId == Some(newId) && |r.store| == |store| + 1
    ensures r.applicationId.None? && r.status == 200 ==> r.store == store
    ensures body.Some? && ValidApplication(body.value, emailOk)
      && env.dbConfigured && env.connected
      && Storable(ToSubmission(body.value, emailOk))
      && !EmailTaken(store, NormalEmail(body.value.email.value))
      && !(env.mail.configured && env.mail.fails)
      ==> r.status == 200 && r.applicationId == Some(newId)
  {
    if body.None? then Response(500, None, store, [])
    else if !ValidApplication(body.value, emailOk) then Response(400, None, store, [])
    else
      var p := body.value;
      var s := ToSubmission(p, emailOk);
      var saved := Persist(store, env, s, newId);
      var after := if saved.Some? then saved.value.store else store;
      var id := if saved.Some? && saved.value.outcome.Ok? then Some(newId) else None;
      var ms := Notifications(env, p);
      if env.mail.configured && env.mail.fails then Response(500, None, after, ms)
      else Response(200, id, after, ms)
  }

  /** The stored sales experience is true exactly when the form said "yes". */
  lemma {:induction false} SalesExperienceIsYes(store: seq<Application>, env: Env,
                                               p: ApplicationPayload, emailOk: string -> bool, newId: nat)
    requires Submit(store, env, Some(p), emailOk, newId).applicationId.Some?
    ensures var r := Submit(store, env, Some(p), emailOk, newId);
      r.store[|store|].salesExperience <==> p.salesExperience == Some("yes")
  {
  }

  /** Without a database URI, or when the connection fails, nothing is saved
      and a valid form is still answered 200 with a null id, provided the
      mail does not fail. */
  lemma {:induction false} NoDatabaseStillSucceeds(store: seq<Application>, env: Env,
                                                  p: ApplicationPayload, emailOk: string -> bool, newId: nat)
    requires ValidApplication(p, emailOk)
    requires !env.dbConfigured || !env.connected
    requires !(env.mail.configured && env.mail.fails)
    ensures Submit(store, env, Some(p), emailOk, newId).status == 200
    ensures Submit(store, env, Some(p), emailOk, newId).applicationId.None?
    ensures Submit(store, env, Some(p), emailOk, newId).store == store
  {
  }

  /** A failed save is swallowed: the answer is the same as with no database
      at all, 200 with a null id. */
  lemma {:induction false} SaveFailureSwallowed(store: seq<Application>, env: Env,
                                               p: ApplicationPayload, emailOk: string -> bool, newId: nat)
    requires ValidApplication(p, emailOk)
    requires env.dbConfigured && env.connected
    requires Save(store, ToSubmission(p, emailOk), newId).outcome.Err?
    requires !(env.mail.configured && env.mail.fails)
    ensures Submit(store, env, Some(p), emailOk, newId) ==
      Submit(store, env.(dbConfigured := false), Some(p), emailOk, newId)
    ensures Submit(store, env, Some(p), emailOk, newId).status == 200
  {
  }

  /** Submitting the same valid form twice: the second save hits the unique
      email index, is swallowed, and the answer is 200 with a null id and no
      second record. */
  lemma {:induction false} DuplicateSubmission(store: seq<Application>, env: Env,
                                              p: ApplicationPayload, emailOk: string -> bool,
                                              id1: nat, id2: nat)
    requires env.dbConfigured && env.connected && !(env.mail.configured && env.mail.fails)
    requires Submit(store, env, Some(p), emailOk, id1).applicationId.Some?
    ensures var first := Submit(store, env, Some(p), emailOk, id1);
      var second := Submit(first.store, env, Some(p), emailOk, id2);
      second.status == 200 && second.applicationId.None? && second.store == first.store
  {
    var s := ToSubmission(p, emailOk);
    SecondSaveFails(store, s, s, id1, id2);
  }

  /** A successful save answers with the saved record's id, and the record is
      the normalised form. */
  lemma {:induction false} SavedRecordIsNormalised(store: seq<Application>, env: Env,
                                                  p: ApplicationPayload, emailOk: string -> bool, newId: nat)
    requires Submit(store, env, Some(p), emailOk, newId).applicationId.Some?
    ensures var r := Submit(store, env, Some(p), emailOk, newId);
      && r.store == store + [Record(ToSubmission(p, emailOk), newId)]
      && r.store[|store|].id == newId
      && r.store[|store|].email == NormalEmail(p.email.value)
  {
    var s := ToSubmission(p, emailOk);
    var saved := Persist(store, env, s, newId);
    var r := Submit(store, env, Some(p), emailOk, newId);
    assert saved.Some? && r.store == saved.value.store && saved.value.outcome.Ok?;
    var a := Record(s, newId);
    assert saved.value.store == store + [a];
    assert r.store[|store|] == a;
  }

  /** Message fan-out: with mail configured the applicant gets exactly one
      confirmation at the address typed in the form, and the admin gets one
      exactly when an address is set; without it nothing is sent. Invalid
      forms send nothing. */
  lemma {:induction false} MessagesSent(store: seq<Application>, env: Env,
                                       p: ApplicationPayload, emailOk: string -> bool, newId: nat)
    ensures var r := Submit(store, env, Some(p), emailOk, newId);
      && (!ValidApplication(p, emailOk) ==> r.messages == [])
      && (ValidApplication(p, emailOk) && !env.mail.configured ==> r.messages == [])
      && (ValidApplication(p, emailOk) && env.mail.configured ==>
            && |r.messages| == (if env.mail.adminEmail != "" then 2 else 1)
            && r.messages[|r.messages| - 1] == Message(p.email.value, ConfirmationSubject)
            && (env.mail.adminEmail != "" ==>
                  r.messages[0] == Message(env.mail.adminEmail, AdminSubject(p.fullName.value))))
  {
  }
}
