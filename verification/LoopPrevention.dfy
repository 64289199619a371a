// Loop prevention in AddChange: which changes it withholds from their recipient's device.
module LoopPrevention {
  import opened Prelude
  import opened Models
  import opened Database
  import opened ChangeTracking
  import opened EnrollmentRuns

  // Withholding is exact for a change and a device of its recipient: it happens if and only if the
  // recipient is itself the new sender or, for an UPDATE, the old sender.
  ghost predicate WithheldExactly(users: Users, c: WALChange, device: string) {
    Routable(c) && Holds(users, Recipient(c).text, device) ==>
      (!Delivers(users, c, device) <==> Recipient(c).text == NewSender(c) || Recipient(c).text == OldSender(c))
  }

  // No two users share a non-empty device.
  ghost predicate NoSharedDevice(users: Users) {
    forall a, b, d :: Holds(users, a, d) && Holds(users, b, d) ==> a == b
  }

  lemma UniqueIsExact(users: Users, c: WALChange, device: string)
    requires NoSharedDevice(users) && "" !in users
    ensures WithheldExactly(users, c, device)
  {
    if Routable(c) && Holds(users, Recipient(c).text, device) {
      var r := Recipient(c).text;
      if r == NewSender(c) || r == OldSender(c) {
        assert IsSender(c, r) && Holds(users, r, device);
      }
    }
  }

  // An INSERT from one user to another.
  function InsertFrom(sender: string, recipient: string): WALChange {
    var none := Columns(Absent, Absent, Absent, Absent, Absent, Absent, Absent, Absent, Absent);
    WALChange(1, "messages", INSERT, none.(senderId := Text(sender), recipientId := Text(recipient)), none, 0)
  }

  // A message between two users who share a device is withheld from its recipient.
  lemma SharedLosesMessage(users: Users, a: string, b: string, device: string)
    requires Holds(users, a, device) && Holds(users, b, device) && a != b && a != "" && b != ""
    ensures var c := InsertFrom(a, b);
      Routable(c) && Recipient(c).text == b && !Delivers(users, c, device) && !WithheldExactly(users, c, device)
  {
    var c := InsertFrom(a, b);
    assert IsSender(c, a);
  }

  // Loop prevention loses no legitimate message exactly when no two users share a device.
  lemma LoopPreventionExact(users: Users)
    requires "" !in users
    ensures NoSharedDevice(users) <==> forall c, device :: WithheldExactly(users, c, device)
  {
    if NoSharedDevice(users) {
      forall c, device
        ensures WithheldExactly(users, c, device)
      {
        UniqueIsExact(users, c, device);
      }
    } else {
      var a, b, d :| Holds(users, a, d) && Holds(users, b, d) && a != b;
      SharedLosesMessage(users, a, b, d);
    }
  }

  // And the enrollment invariant gives that: in every run whose write-backs still own their devices, loop
  // prevention withholds a change from its recipient's device if and only if the recipient sent it.
  lemma EnrolledLoopPrevention(s: Registry, es: seq<Event>, c: WALChange, device: string)
    requires Sound(s) && AllLegal(s, es) && AllClean(s, es)
    ensures WithheldExactly(Run(s, es).users, c, device)
  {
    EnrollmentInvariant(s, es);
    UniqueIsExact(Run(s, es).users, c, device);
  }
}
