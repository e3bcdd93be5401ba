/** The SQLAlchemy-backed subscriber registry of class_SubscriptionSystem.py: a busy-state
    guard around adding, removing and listing subscribers, and the notification entry
    point. */
module SubscriptionOrm {
  import opened Subscriptions

  class SubscriptionSystem {
    var state: State
    /** `email_username`. */
    var fromAddress: string
    /** The `Subscriber` table's emails, in row order. */
    var emails: seq<string>

    predicate Valid()
      reads this
    {
      NoDuplicates(emails)
    }

    /** A new system over the stored subscribers starts `Idle`. */
    constructor(username: string, stored: seq<string>)
      requires NoDuplicates(stored)
      ensures Valid() && state == Idle && fromAddress == username && emails == stored
    {
      state := Idle;
      fromAddress := username;
      emails := stored;
    }

    /** `add_subscriber`: refused while busy; otherwise the insert either succeeds or hits the
        unique email and is rolled back, and the system is `Idle` again. */
    method AddSubscriber(email: string) returns (status: string)
      requires Valid()
      modifies this`state, this`emails
      ensures Valid()
      ensures old(state) != Idle ==> status == Busy && state == old(state) && emails == old(emails)
      ensures old(state) == Idle && email !in old(emails) ==>
        status == Added && state == Idle && emails == old(emails) + [email]
      ensures old(state) == Idle && email in old(emails) ==>
        status == AlreadyExists && state == Idle && emails == old(emails)
    {
      if state != Idle {
        return Busy;
      }
      state := AddingSubscriber;
      if email in emails {
        // the commit raises `IntegrityError`; the session is rolled back
        state := Idle;
        return AlreadyExists;
      }
      AppendKeepsNoDuplicates(emails, email);
      emails := emails + [email];
      state := Idle;
      return Added;
    }

    /** `remove_subscriber`: refused while busy; otherwise the rows with that email are
        deleted, and the answer says whether there was one. */
    method RemoveSubscriber(email: string) returns (status: string)
      requires Valid()
      modifies this`state, this`emails
      ensures Valid()
      ensures old(state) != Idle ==> status == Busy && state == old(state) && emails == old(emails)
      ensures old(state) == Idle ==>
        && state == Idle && emails == Without(old(emails), email)
        && (status == if email in old(emails) then Removed else NotFound)
    {
      if state != Idle {
        return Busy;
      }
      state := RemovingSubscriber;
      WithoutMeaning(emails, email);
      var remaining := Without(emails, email);
      var result := |emails| - |remaining|;
      emails := remaining;
      if result == 0 {
        state := Idle;
        return NotFound;
      }
      state := Idle;
      return Removed;
    }

    /** `get_all_subscribers`: every stored email, in row order. */
    method GetAllSubscribers() returns (r: seq<string>)
      ensures r == emails
    {
      r := emails;
    }

    /** `notify_subscribers` as written. The class has no `send_emails`, so the call raises
        `AttributeError` after the state was set, and the state is never set back. */
    method NotifySubscribersAsWritten(message: string) returns (raised: bool)
      modifies this`state
      ensures raised && state == SendingNotifications
    {
      state := SendingNotifications;
      var subscribers := GetAllSubscribers();
      raised := true;
    }

    /** `notify_subscribers` with the missing sending step supplied by the corrected
        `SendEmails`: every stored subscriber, in row order, gets one mail addressed to it
        alone, and the system is `Idle` again. */
    method NotifySubscribers(message: string) returns (sent: seq<Mail>)
      modifies this`state
      ensures state == Idle
      ensures |sent| == |emails|
      ensures forall i :: 0 <= i < |sent| ==> sent[i].recipient == emails[i] && sent[i].toHeaders == [emails[i]]
    {
      state := SendingNotifications;
      var subscribers := GetAllSubscribers();
      sent := SendEmails(fromAddress, subscribers, message);
      state := Idle;
    }
  }

  /** After the notification as written, every later add is refused as busy. */
  method AddAfterNotifyIsBusy(stored: seq<string>, message: string, email: string) returns (status: string)
    requires NoDuplicates(stored)
    ensures status == Busy
  {
    var system := new SubscriptionSystem("", stored);
    var raised := system.NotifySubscribersAsWritten(message);
    status := system.AddSubscriber(email);
  }

  /** After the corrected notification, a new address is added again. */
  method AddAfterNotifySucceeds(stored: seq<string>, message: string, email: string) returns (status: string)
    requires NoDuplicates(stored) && email !in stored
    ensures status == Added
  {
    var system := new SubscriptionSystem("", stored);
    var sent := system.NotifySubscribers(message);
    status := system.AddSubscriber(email);
  }
}
