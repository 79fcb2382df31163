/**
 * Outgoing email as both form endpoints send it: a notice to the admin when an
 * admin address is set, then a reply to the person who filled in the form,
 * and nothing at all when no mail API key is configured. Bodies, the sender
 * address and the send time are not modelled.
 */
module Mail {

  /** An email: recipient and subject. */
  datatype Message = Message(to: string, subject: string)

  /** `configured`: a mail API key is set; `adminEmail`: the admin address,
      "" when unset; `fails`: one of the sends rejects. */
  datatype MailEnv = MailEnv(configured: bool, adminEmail: string, fails: bool)

  /** The messages sent for one form: the admin notice first, if any, then the
      reply. */
  function FanOut(env: MailEnv, adminSubject: string, sender: string, replySubject: string)
    : (ms: seq<Message>)
    ensures !env.configured ==> ms == []
    ensures env.configured ==> |ms| == (if env.adminEmail != "" then 2 else 1)
    ensures env.configured ==> ms[|ms| - 1] == Message(sender, replySubject)
    ensures env.configured && env.adminEmail != "" ==> ms[0] == Message(env.adminEmail, adminSubject)
  {
    if !env.configured then []
    else (if env.adminEmail != "" then [Message(env.adminEmail, adminSubject)] else [])
         + [Message(sender, replySubject)]
  }

  /** The number of messages sent to `to`. */
  function CountTo(ms: seq<Message>, to: string): nat
  {
    if ms == [] then 0 else (if ms[0].to == to then 1 else 0) + CountTo(ms[1..], to)
  }

  lemma {:induction false} CountToAppend(a: seq<Message>, b: seq<Message>, to: string)
    ensures CountTo(a + b, to) == CountTo(a, to) + CountTo(b, to)
  {
    if a != [] {
      assert (a + b)[1..] == a[1..] + b;
      CountToAppend(a[1..], b, to);
    } else {
      assert a + b == b;
    }
  }

  /** The sender gets exactly one message, or two when the admin address is
      the sender's own; a distinct admin address gets one exactly when it is
      set; without a mail key nobody gets anything. */
  lemma {:induction false} OneEach(env: MailEnv, adminSubject: string, sender: string, replySubject: string)
    ensures var ms := FanOut(env, adminSubject, sender, replySubject);
      && CountTo(ms, sender) ==
           (if !env.configured then 0 else if env.adminEmail != "" && env.adminEmail == sender then 2 else 1)
      && (env.adminEmail != "" && env.adminEmail != sender ==>
            CountTo(ms, env.adminEmail) == (if env.configured then 1 else 0))
  {
    if env.configured {
      var head := if env.adminEmail != "" then [Message(env.adminEmail, adminSubject)] else [];
      CountToAppend(head, [Message(sender, replySubject)], sender);
      CountToAppend(head, [Message(sender, replySubject)], env.adminEmail);
    }
  }
}
