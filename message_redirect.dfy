/** The older redirect object: it starts fetching the original as soon as
    it is made, takes the envelope in one call that also fixes the message
    id, and writes its id as a plain Message-ID header. */
module MessageRedirecting {
  import opened Outcomes
  import opened Addresses
  import opened ResentHeaders

  class MessageRedirect {
    var from: MailAddress
    var recipients: seq<Recipient>
    var timestamp: DateTime
    var messageId: string
    var messageAvailable: bool
    /** The original message as the combiner delivers it. */
    var original: string

    /** Creates the combiner and starts loading: the original is available
      at once when the model already holds it. */
    constructor (loaded: bool, text: string)
      ensures messageAvailable == loaded && original == text
      ensures from == MailAddress("", "", "") && recipients == [] && timestamp == DateTime("") && messageId == ""
    {
      from := MailAddress("", "", "");
      recipients := [];
      timestamp := DateTime("");
      messageId := "";
      messageAvailable := loaded;
      original := text;
    }

    method SlotMessageAvailable(text: string)
      modifies this
      ensures messageAvailable && original == text
      ensures from == old(from) && recipients == old(recipients) && timestamp == old(timestamp) && messageId == old(messageId)
    {
      messageAvailable := true;
      original := text;
    }

    /** Stores the envelope and generates the message id once, from `uuid`
      and the sender's host. */
    method SetData(f: MailAddress, rs: seq<Recipient>, stamp: DateTime, uuid: string)
      modifies this
      ensures from == f && recipients == rs && timestamp == stamp
      ensures messageId == GenerateMessageId(f, uuid)
      ensures messageAvailable == old(messageAvailable) && original == old(original)
    {
      from := f;
      recipients := rs;
      timestamp := stamp;
      messageId := GenerateMessageId(from, uuid);
    }

    /** Writes the resent block with the stored id under "Message-ID: ",
      then the original when it is available. */
    method AsRawMessage(version: string, platform: string) returns (written: string, outcome: Outcome<RedirectFailure>)
      ensures (written, outcome) ==
        Redirected(from, recipients, timestamp, "Message-ID: ", messageId, version, platform, messageAvailable, original)
    {
      var block, headers := WriteResentFields(from, recipients, timestamp, "Message-ID: ", messageId, version, platform);
      written := block;
      if headers.Fail? {
        return written, Fail(UnexpectedRecipient);
      }
      if messageAvailable {
        written := written + original;
        outcome := Pass;
      } else {
        outcome := Fail(NotAvailable);
      }
    }
  }

  /** A sender without a host gets an empty id, and writing succeeds
      exactly when the recipients have the expected kinds and the original
      is available. */
  lemma IdFixedBySetData(f: MailAddress, rs: seq<Recipient>, stamp: DateTime, uuid: string, version: string, platform: string,
                         available: bool, original: string)
    ensures var id := GenerateMessageId(f, uuid);
      (f.host == [] ==> id == []) &&
      Redirected(f, rs, stamp, "Message-ID: ", id, version, platform, available, original).1.Pass? == (AllExpected(rs) && available)
  {
    RedirectedMeans(f, rs, stamp, "Message-ID: ", GenerateMessageId(f, uuid), version, platform, available, original);
  }
}
