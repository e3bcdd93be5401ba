/** The SQLite-backed subscriber registry of SubscriptionSystem.py: the `subscribers`
    table with its unique `email` column, the busy-state guard, and the mail loop of
    `send_emails`. */
module SubscriptionSqlite {
  import opened Subscriptions

  class SubscriptionSystem {
    var state: State
    /** `email_username`, the sender of every notification. */
    var fromAddress: string
    /** The `email` column of `subscribers`, in insertion order. */
    var emails: seq<string>

    predicate Valid()
      reads this
    {
      NoDuplicates(emails)
    }

    /** `__init__` with `initialize_db`: the table keeps the subscribers already stored. */
    constructor(username: string, stored: seq<string>)
      requires NoDuplicates(stored)
      ensures Valid() && state == Idle && fromAddress == username && emails == stored
    {
      state := Idle;
      fromAddress := username;
      emails := stored;
    }

    /** `add_subscriber`: refused while busy; otherwise the `INSERT` either adds the address
        or violates `UNIQUE` and changes nothing, and the system is `Idle` again. */
    method AddSubscriber(email: string) returns (status: string)
      requires Valid()
      modifies this`state, this`emails
      ensures Valid()
      ensures old(state) != Idle ==> status == Busy && state == old(state) && emails == old(emails)
      ensures old(state) == Idle && email !in old(emails) ==>
        status == Added && state == Idle && emails == old(emails) + [email]
      ensures old(state) == Idle && email in old(emails) ==>
        status == AlreadyExists && state == Idle && emails == old(emails)
    {
      if state != Idle {
        return Busy;
      }
      state := AddingSubscriber;
      if email in emails {
        // `sqlite3.IntegrityError`
        state := Idle;
        return AlreadyExists;
      }
      AppendKeepsNoDuplicates(emails, email);
      emails := emails + [email];
      state := Idle;
      return Added;
    }

    /** `remove_subscriber`: refused while busy; otherwise the `DELETE` removes that address
        and no other, and `rowcount` decides the answer. */
    method RemoveSubscriber(email: string) returns (status: string)
      requires Valid()
      modifies this`state, this`emails
      ensures Valid()
      ensures old(state) != Idle ==> status == Busy && state == old(state) && emails == old(emails)
      ensures old(state) == Idle && email !in old(emails) ==>
        status == NotFound && state == Idle && emails == old(emails)
      ensures old(state) == Idle && email in old(emails) ==>
        status == Removed && state == Idle && emails == Without(old(emails), email)
    {
      if state != Idle {
        return Busy;
      }
      state := RemovingSubscriber;
      WithoutMeaning(emails, email);
      var remaining := Without(emails, email);
      var rowcount := |emails| - |remaining|;
      if rowcount == 0 {
        state := Idle;
        return NotFound;
      }
      emails := remaining;
      state := Idle;
      return Removed;
    }

    /** `get_all_subscribers`: `SELECT email FROM subscribers`. */
    method GetAllSubscribers() returns (r: seq<string>)
      ensures r == emails
    {
      r := emails;
    }

    /** `notify_subscribers` as written: each stored subscriber in turn gets a mail, but the
        `To` headers pile up on the shared message. */
    method NotifySubscribersAsWritten(message: string) returns (sent: seq<Mail>)
      modifies this`state
      ensures state == Idle
      ensures |sent| == |emails|
      ensures forall i :: 0 <= i < |sent| ==> sent[i] == Mail(fromAddress, emails[i], emails[..i + 1], Subject, message)
    {
      state := SendingNotifications;
      var subscribers := GetAllSubscribers();
      sent := SendEmailsAsWritten(fromAddress, subscribers, message);
      state := Idle;
    }

    /** `notify_subscribers` with each mail addressed to its recipient alone: exactly the
        stored subscribers, in order, and no mail shows another subscriber's address. */
    method NotifySubscribers(message: string) returns (sent: seq<Mail>)
      requires Valid()
      modifies this`state
      ensures state == Idle
      ensures |sent| == |emails|
      ensures forall i :: 0 <= i < |sent| ==>
        && sent[i].recipient == emails[i] && sent[i].toHeaders == [emails[i]]
        && sent[i].fromAddress == fromAddress && sent[i].body == message
      ensures forall i, j :: 0 <= i < |sent| && 0 <= j < |emails| && i != j ==> emails[j] !in sent[i].toHeaders
    {
      state := SendingNotifications;
      var subscribers := GetAllSubscribers();
      sent := SendEmails(fromAddress, subscribers, message);
      state := Idle;
    }
  }
}
