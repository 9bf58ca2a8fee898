/** The envelope every outgoing message carries: the sender, the recipients
    with their kinds, and the time stamp. The submission takes the sender's
    and the recipients' SMTP mailboxes from it. */
module Outgoing {
  import opened Addresses
  import ResentHeaders

  /** The SMTP mailboxes of the recipients, in order, whatever their kind. */
  function Mailboxes(rs: seq<Recipient>): seq<string>
    decreases |rs|
  {
    if rs == [] then [] else Mailboxes(rs[..|rs| - 1]) + [rs[|rs| - 1].address.smtpMailbox]
  }

  /** One mailbox per recipient, at the recipient's own position. */
  lemma {:induction false} MailboxesAt(rs: seq<Recipient>)
    ensures |Mailboxes(rs)| == |rs|
    ensures forall i :: 0 <= i < |rs| ==> Mailboxes(rs)[i] == rs[i].address.smtpMailbox
    decreases |rs|
  {
    if rs != [] {
      MailboxesAt(rs[..|rs| - 1]);
    }
  }

  /** A blind copy is left out of the resent headers but its mailbox is in
      the envelope, so the server still delivers to it. */
  lemma BccInEnvelopeOnly(from: MailAddress, before: seq<Recipient>, bcc: MailAddress, after: seq<Recipient>,
                          stamp: DateTime, idField: string, messageId: string, version: string, platform: string)
    ensures bcc.smtpMailbox in Mailboxes(before + [Recipient(Bcc, bcc)] + after)
    ensures ResentHeaders.ResentFields(from, before + [Recipient(Bcc, bcc)] + after, stamp, idField, messageId, version, platform) ==
            ResentHeaders.ResentFields(from, before + after, stamp, idField, messageId, version, platform)
  {
    var rs := before + [Recipient(Bcc, bcc)] + after;
    MailboxesAt(rs);
    assert rs[|before|] == Recipient(Bcc, bcc);
    assert Mailboxes(rs)[|before|] == bcc.smtpMailbox;
    ResentHeaders.BccNotWritten(from, before, bcc, after, stamp, idField, messageId, version, platform);
  }

  class OutgoingMessage {
    var from: MailAddress
    var recipients: seq<Recipient>
    var timestamp: DateTime

    /** An envelope with empty addresses, no recipients and no time. */
    constructor ()
      ensures from == MailAddress("", "", "") && recipients == [] && timestamp == DateTime("")
    {
      from := MailAddress("", "", "");
      recipients := [];
      timestamp := DateTime("");
    }

    method SetFrom(address: MailAddress)
      modifies this
      ensures from == address && recipients == old(recipients) && timestamp == old(timestamp)
    {
      from := address;
    }

    /** Replaces the whole list of recipients. */
    method SetRecipients(rs: seq<Recipient>)
      modifies this
      ensures recipients == rs && from == old(from) && timestamp == old(timestamp)
    {
      recipients := rs;
    }

    method SetTimestamp(stamp: DateTime)
      modifies this
      ensures timestamp == stamp && from == old(from) && recipients == old(recipients)
    {
      timestamp := stamp;
    }

    /** The time stamp last set. */
    function Timestamp(): (stamp: DateTime)
      reads this
      ensures stamp == timestamp
    {
      timestamp
    }

    /** The envelope sender: the sender's SMTP mailbox. */
    function RawFromAddress(): (mailbox: string)
      reads this
      ensures mailbox == from.smtpMailbox
    {
      from.smtpMailbox
    }

    /** The envelope recipients, collected one recipient at a time. */
    method RawRecipientAddresses() returns (res: seq<string>)
      ensures res == Mailboxes(recipients)
    {
      res := [];
      var i := 0;
      while i < |recipients|
        invariant 0 <= i <= |recipients|
        invariant res == Mailboxes(recipients[..i])
      {
        assert recipients[..i + 1][..i] == recipients[..i];
        res := res + [recipients[i].address.smtpMailbox];
        i := i + 1;
      }
      assert recipients[..i] == recipients;
    }
  }
}
