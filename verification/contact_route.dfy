/**
 * `POST /api/contact`: validate the contact form, mail the admin a notice and
 * the sender an auto-reply, and answer. The auto-reply quotes the message,
 * cut to 150 characters with an ellipsis; the admin notice lists the sender's
 * details, with a phone line only when a phone number was given.
 */
module ContactRoute {
  import opened Wrappers
  import opened Validations
  import opened Mail

  const SummaryLength: nat := 150
  const Ellipsis: string := "..."
  const AutoReplySubject: string := "Thank you for contacting LIC Career!"

  /** `message.substring(0, 150)`, plus "..." when the message is longer. */
  function Summary(message: string): (r: string)
    ensures |r| <= SummaryLength + |Ellipsis|
    ensures |message| <= SummaryLength ==> r == message
    ensures |message| > SummaryLength ==> r == message[..SummaryLength] + Ellipsis
  {
    message[..if |message| <= SummaryLength then |message| else SummaryLength]
      + (if |message| > SummaryLength then Ellipsis else "")
  }

  /** Two messages get the same summary exactly when they are equal or both
      run past 150 characters and agree on the first 150: the summary forgets
      precisely what lies beyond the cut. */
  lemma {:induction false} SummaryForgetsOnlyTheTail(m1: string, m2: string)
    ensures Summary(m1) == Summary(m2) <==>
      m1 == m2 || (|m1| > SummaryLength && |m2| > SummaryLength && m1[..SummaryLength] == m2[..SummaryLength])
  {
    var r1, r2 := Summary(m1), Summary(m2);
    if r1 == r2 {
      if |m1| > SummaryLength && |m2| > SummaryLength {
        assert m1[..SummaryLength] == r1[..SummaryLength];
        assert m2[..SummaryLength] == r2[..SummaryLength];
      }
    }
  }

  function AdminSubject(subject: string, name: string): string
  {
    "Contact Form: " + subject + " - " + name
  }

  /** The sender's details in the admin notice, one entry per line. */
  function DetailLines(p: ContactPayload): (lines: seq<string>)
    requires p.name.Some? && p.email.Some? && p.subject.Some?
    ensures |lines| == (if p.phone.Some? && p.phone.value != "" then 4 else 3)
  {
    ["Name: " + p.name.value, "Email: " + p.email.value]
      + (if p.phone.Some? && p.phone.value != "" then ["Phone: " + p.phone.value] else [])
      + ["Subject: " + p.subject.value]
  }

  predicate StartsWith(s: string, prefix: string)
  {
    |prefix| <= |s| && s[..|prefix|] == prefix
  }

  const PhoneLabel: string := "Phone: "

  /** On a valid form, the phone line is there exactly when a phone number
      was given, and it carries that number. */
  lemma {:induction false} PhoneLineIffPhone(p: ContactPayload, emailOk: string -> bool)
    requires ValidContact(p, emailOk)
    ensures p.phone.Some? ==> DetailLines(p)[2] == PhoneLabel + p.phone.value
    ensures p.phone.Some? <==> exists i :: 0 <= i < |DetailLines(p)| && StartsWith(DetailLines(p)[i], PhoneLabel)
  {
    ContactRules(p, emailOk);
    var lines := DetailLines(p);
    if p.phone.Some? {
      assert StartsWith(lines[2], PhoneLabel);
    } else {
      forall i | 0 <= i < |lines| ensures !StartsWith(lines[i], PhoneLabel)
      {
        assert lines[i][0] in "NES";
      }
    }
  }

  datatype Response = Response(status: int, messages: seq<Message>, summary: Option<string>)

  /** The handler. `body` is `None` when the request body is not JSON. */
  function Contact(env: MailEnv, body: Option<ContactPayload>, emailOk: string -> bool): (r: Response)
    ensures r.status in {200, 400, 500}
    ensures body.Some? && !ValidContact(body.value, emailOk) ==> r == Response(400, [], None)
    ensures r.status == 200 <==> body.Some? && ValidContact(body.value, emailOk) && !(env.configured && env.fails)
    ensures r.status == 200 && !env.configured ==> r.messages == []
  {
    if body.None? then Response(500, [], None)
    else if !ValidContact(body.value, emailOk) then Response(400, [], None)
    else
      var p := body.value;
      var ms := FanOut(env, AdminSubject(p.subject.value, p.name.value), p.email.value, AutoReplySubject);
      Response(if env.configured && env.fails then 500 else 200, ms, Some(Summary(p.message.value)))
  }

  /** A valid form with working mail: the admin notice, when an admin address
      is set, has subject "Contact Form: <subject> - <name>"; the sender gets
      one auto-reply; the reply quotes the summary of the message. */
  lemma {:induction false} ContactMessages(env: MailEnv, p: ContactPayload, emailOk: string -> bool)
    requires ValidContact(p, emailOk) && env.configured && !env.fails
    ensures var r := Contact(env, Some(p), emailOk);
      && r.status == 200
      && |r.messages| == (if env.adminEmail != "" then 2 else 1)
      && r.messages[|r.messages| - 1] == Message(p.email.value, AutoReplySubject)
      && (env.adminEmail != "" ==>
            r.messages[0].subject == "Contact Form: " + p.subject.value + " - " + p.name.value)
      && r.summary == Some(Summary(p.message.value))
      && |r.summary.value| <= 153
  {
  }
}
