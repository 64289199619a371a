// Which devices a change reaches, read off the columns it carries, with no reference to the tracker's own
// helper predicates.
module Routing {
  import opened Prelude
  import opened Models
  import opened Database
  import opened ChangeTracking
  import opened Convergence

  // The change names this user as recipient: an INSERT or UPDATE of messages that carries the column, or an
  // UPDATE that leaves it out and had it before.
  ghost predicate SentTo(c: WALChange, user: string) {
    && c.table == "messages"
    && match c.operation
       case INSERT => c.columns.recipientId == Text(user)
       case UPDATE => c.columns.recipientId == Text(user)
                      || (c.columns.recipientId == Absent && c.oldColumns.recipientId == Text(user))
       case _ => false
  }

  // ... and this one as sender, now or, for an UPDATE, before.
  ghost predicate SentBy(c: WALChange, user: string) {
    user != "" && (c.columns.senderId == Text(user) || (c.operation == UPDATE && c.oldColumns.senderId == Text(user)))
  }

  lemma SenderIsSentBy(c: WALChange)
    requires Supported(c)
    ensures forall s :: IsSender(c, s) <==> SentBy(c, s)
    ensures (NewSender(c) != "" || OldSender(c) != "") <==> exists s :: SentBy(c, s)
  {
    if NewSender(c) != "" {
      assert SentBy(c, NewSender(c));
    } else if OldSender(c) != "" {
      assert SentBy(c, OldSender(c));
    }
  }

  // A change reaches a device if and only if it has a sender and a recipient, the recipient is enrolled on the
  // device, and none of its senders is.
  lemma RoutingExact(users: Users, c: WALChange, device: string)
    ensures Delivers(users, c, device) <==>
      && (exists r :: SentTo(c, r) && Holds(users, r, device))
      && (exists s :: SentBy(c, s))
      && (forall s :: SentBy(c, s) ==> !Holds(users, s, device))
  {
    if Supported(c) {
      SenderIsSentBy(c);
    }
    if Routable(c) {
      assert SentTo(c, Recipient(c).text);
    }
  }

  // A failing user lookup fails AddChange exactly if it is one of those the change calls for.
  lemma LookupsExact(c: WALChange, f: LookupFaults)
    ensures LookupFails(c, f) <==>
      && (exists r :: SentTo(c, r)) && (exists s :: SentBy(c, s))
      && (|| f.recipient
          || (f.sender && c.columns.senderId.Text? && c.columns.senderId.text != "")
          || (f.oldSender && c.operation == UPDATE && c.oldColumns.senderId.Text? && c.oldColumns.senderId.text != ""
              && c.oldColumns.senderId != c.columns.senderId))
  {
    if Supported(c) {
      SenderIsSentBy(c);
    }
    if Routable(c) {
      assert SentTo(c, Recipient(c).text);
    }
  }

  // An INSERT or UPDATE that carries the whole row of a message, whose sender has not changed, reaches exactly
  // the recipient's device, unless the sender is on it too.
  lemma WholeRowRouted(users: Users, c: WALChange, m: Message, device: string)
    requires c.table == "messages" && (c.operation == INSERT || c.operation == UPDATE) && c.columns == WholeRow(m)
    requires m.senderId != ""
    requires c.operation == UPDATE ==> c.oldColumns.senderId == Text(m.senderId) || !c.oldColumns.senderId.Text?
    ensures Delivers(users, c, device) <==> Holds(users, m.recipientId, device) && !Holds(users, m.senderId, device)
  {
    RoutingExact(users, c, device);
    assert SentBy(c, m.senderId) && SentTo(c, m.recipientId);
  }

  // An UPDATE that takes a message over from another sender is kept from both senders' devices.
  lemma NewSenderRouted(users: Users, c: WALChange, m: Message, former: string, device: string)
    requires c.table == "messages" && c.operation == UPDATE && c.columns == WholeRow(m)
    requires c.oldColumns.senderId == Text(former) && (m.senderId != "" || former != "")
    ensures Delivers(users, c, device) <==>
      && Holds(users, m.recipientId, device)
      && (m.senderId != "" ==> !Holds(users, m.senderId, device)) && (former != "" ==> !Holds(users, former, device))
  {
    RoutingExact(users, c, device);
    assert SentTo(c, m.recipientId) && SentBy(c, if m.senderId != "" then m.senderId else former);
    assert m.senderId != "" ==> SentBy(c, m.senderId);
    assert former != "" ==> SentBy(c, former);
  }

  // An UPDATE that leaves out the recipient goes to the recipient of the old row.
  lemma OldRecipientRouted(users: Users, c: WALChange, sender: string, recipient: string, device: string)
    requires c.table == "messages" && c.operation == UPDATE && c.columns.recipientId == Absent
    requires c.oldColumns.recipientId == Text(recipient)
    requires c.columns.senderId == Text(sender) && c.oldColumns.senderId == Text(sender) && sender != ""
    ensures Delivers(users, c, device) <==> Holds(users, recipient, device) && !Holds(users, sender, device)
  {
    RoutingExact(users, c, device);
    assert SentBy(c, sender) && SentTo(c, recipient);
  }

  // Changes of other tables, other operations, a recipient that is no text, or no sender reach nobody and look
  // nobody up.
  lemma NeverRouted(users: Users, c: WALChange, device: string, f: LookupFaults)
    requires
      || c.table != "messages" || (c.operation != INSERT && c.operation != UPDATE)
      || (c.columns.recipientId != Absent && !c.columns.recipientId.Text?)
      || (c.columns.recipientId == Absent && (c.operation == UPDATE ==> !c.oldColumns.recipientId.Text?))
      || (TextOr(c.columns.senderId, "") == "" && (c.operation == UPDATE ==> TextOr(c.oldColumns.senderId, "") == ""))
    ensures !Delivers(users, c, device) && !LookupFails(c, f)
  {
    RoutingExact(users, c, device);
    LookupsExact(c, f);
  }
}
