/** What the two subscriber registries share: the busy-state values, the fixed status
    answers, the unique-email table and the notification mails. */
module Subscriptions {

  /** The values `self.state` takes. */
  datatype State = Idle | AddingSubscriber | RemovingSubscriber | SendingNotifications

  const Busy: string := "System is busy with another operation"
  const Added: string := "Subscriber added successfully"
  const AlreadyExists: string := "Failed to add subscriber: Email already exists"
  const NotFound: string := "No such subscriber found"
  const Removed: string := "Subscriber removed successfully"

  /** The `email` column is `UNIQUE`: no address is stored twice. */
  predicate NoDuplicates(emails: seq<string>) {
    forall i, j :: 0 <= i < j < |emails| ==> emails[i] != emails[j]
  }

  /** The table after `DELETE FROM subscribers WHERE email = ?`, other rows in their order. */
  function Without(emails: seq<string>, email: string): (r: seq<string>)
    ensures forall x :: x in r <==> x in emails && x != email
    ensures email !in emails ==> r == emails
  {
    if emails == [] then []
    else (if emails[0] == email then [] else [emails[0]]) + Without(emails[1..], email)
  }

  /** Deleting an address keeps the others unique, and removes exactly one row when the
      address is stored, none otherwise. */
  lemma {:induction false} WithoutMeaning(emails: seq<string>, email: string)
    requires NoDuplicates(emails)
    ensures NoDuplicates(Without(emails, email))
    ensures |emails| - |Without(emails, email)| == if email in emails then 1 else 0
  {
    if emails != [] {
      var rest := emails[1..];
      assert NoDuplicates(rest) by {
        forall i, j | 0 <= i < j < |rest| ensures rest[i] != rest[j] {
          assert rest[i] == emails[i + 1] && rest[j] == emails[j + 1];
        }
      }
      WithoutMeaning(rest, email);
      assert emails[0] !in rest by {
        forall i | 0 <= i < |rest| ensures rest[i] != emails[0] {
          assert rest[i] == emails[i + 1];
        }
      }
      assert email in emails <==> email == emails[0] || email in rest;
      var r := Without(emails, email);
      if emails[0] != email {
        forall i, j | 0 <= i < j < |r| ensures r[i] != r[j] {
          if i == 0 {
            assert r[j] == Without(rest, email)[j - 1];
          } else {
            assert r[i] == Without(rest, email)[i - 1] && r[j] == Without(rest, email)[j - 1];
          }
        }
      }
    }
  }

  /** Appending an address not yet stored keeps the addresses unique. */
  lemma AppendKeepsNoDuplicates(emails: seq<string>, email: string)
    requires NoDuplicates(emails) && email !in emails
    ensures NoDuplicates(emails + [email])
  {
    var r := emails + [email];
    forall i, j | 0 <= i < j < |r| ensures r[i] != r[j] {
      if j == |emails| {
        assert r[i] == emails[i];
      } else {
        assert r[i] == emails[i] && r[j] == emails[j];
      }
    }
  }

  // ---------------------------------------------------------------------------
  // Notification mails

  const Subject: string := "Urgent Notification"

  /** One `server.sendmail(from_address, email, text)`: the envelope recipient and the
      message's `From`, `To` headers, subject and plain-text body. */
  datatype Mail = Mail(fromAddress: string, recipient: string, toHeaders: seq<string>, subject: string, body: string)

  /** `send_emails` as written: the one message object is reused, and `msg['To'] = email`
      adds a `To` header instead of replacing the previous one, so the `k`-th mail names
      the first `k` recipients. */
  method SendEmailsAsWritten(fromAddress: string, emails: seq<string>, message: string) returns (sent: seq<Mail>)
    ensures |sent| == |emails|
    ensures forall i :: 0 <= i < |sent| ==> sent[i] == Mail(fromAddress, emails[i], emails[..i + 1], Subject, message)
  {
    var toHeaders: seq<string> := [];
    sent := [];
    for i := 0 to |emails|
      invariant toHeaders == emails[..i] && |sent| == i
      invariant forall j :: 0 <= j < i ==> sent[j] == Mail(fromAddress, emails[j], emails[..j + 1], Subject, message)
    {
      toHeaders := toHeaders + [emails[i]];
      assert toHeaders == emails[..i + 1];
      sent := sent + [Mail(fromAddress, emails[i], toHeaders, Subject, message)];
    }
  }

  /** Two subscribers notified in turn: the second one's mail shows the first one's address. */
  method SecondMailShowsFirstAddress(fromAddress: string, a: string, b: string, message: string) returns (sent: seq<Mail>)
    requires a != b
    ensures |sent| == 2 && sent[1].recipient == b && a in sent[1].toHeaders
  {
    sent := SendEmailsAsWritten(fromAddress, [a, b], message);
    assert sent[1].toHeaders == [a, b];
  }

  /** `send_emails` with the `To` header set afresh for each recipient: one mail per address,
      in list order, each addressed to that recipient alone, so with unique addresses no
      mail shows another subscriber's address. */
  method SendEmails(fromAddress: string, emails: seq<string>, message: string) returns (sent: seq<Mail>)
    ensures |sent| == |emails|
    ensures forall i :: 0 <= i < |sent| ==>
      && sent[i].recipient == emails[i] && sent[i].toHeaders == [emails[i]]
      && sent[i].fromAddress == fromAddress && sent[i].subject == Subject && sent[i].body == message
    ensures NoDuplicates(emails) ==> forall i, j :: 0 <= i < |sent| && 0 <= j < |emails| && i != j ==> emails[j] !in sent[i].toHeaders
  {
    sent := [];
    for i := 0 to |emails|
      invariant |sent| == i
      invariant forall j :: 0 <= j < i ==> sent[j] == Mail(fromAddress, emails[j], [emails[j]], Subject, message)
    {
      sent := sent + [Mail(fromAddress, emails[i], [emails[i]], Subject, message)];
    }
  }
}
