/** The composer that redirects (bounces) an existing message: it writes
    the Resent-* block for its envelope and then the original message as
    fetched from the IMAP model. Fetching is left to a combiner created on
    `PrepareMessage`; here the combiner is its load state and the text it
    delivers. */
module RedirectComposer {
  import opened Outcomes
  import opened Addresses
  import opened ResentHeaders
  import Outgoing

  class RedirectMessageComposer {
    /** The envelope the composer shares with every outgoing message. */
    const envelope: Outgoing.OutgoingMessage
    var shouldPreload: bool
    var isMessageAvailable: bool
    /** Whether `PrepareMessage` created the combiner. */
    var hasCombiner: bool
    /** The original message as the combiner delivers it. */
    var original: string

    /** The message only becomes available through the combiner. */
    predicate Valid()
      reads this
    {
      isMessageAvailable ==> hasCombiner
    }

    constructor ()
      ensures fresh(envelope) && envelope.recipients == []
      ensures !shouldPreload && !isMessageAvailable && !hasCombiner && original == ""
      ensures Valid()
    {
      envelope := new Outgoing.OutgoingMessage();
      shouldPreload := false;
      isMessageAvailable := false;
      hasCombiner := false;
      original := "";
    }

    /** Starts fetching the original; it is available at once when the
      model already holds it. */
    method PrepareMessage(loaded: bool, text: string)
      modifies this
      ensures hasCombiner && isMessageAvailable == loaded && original == text
      ensures shouldPreload == old(shouldPreload)
      ensures Valid()
    {
      hasCombiner := true;
      original := text;
      isMessageAvailable := loaded;
    }

    /** The combiner finished: the original is available. */
    method SlotMessageCombinerCompleted(text: string)
      requires hasCombiner
      modifies this
      ensures isMessageAvailable && original == text
      ensures hasCombiner && shouldPreload == old(shouldPreload)
      ensures Valid()
    {
      isMessageAvailable := true;
      original := text;
    }

    method SetPreloadEnabled(preload: bool)
      modifies this
      ensures shouldPreload == preload
      ensures isMessageAvailable == old(isMessageAvailable) && hasCombiner == old(hasCombiner) && original == old(original)
    {
      shouldPreload := preload;
    }

    /** Ready unless the composer must preload and the original has not
      arrived yet. */
    function IsReadyForSerialization(): (ready: bool)
      reads this
      ensures ready <==> !shouldPreload || isMessageAvailable
    {
      !shouldPreload || isMessageAvailable
    }

    /** Writes the resent block with a fresh Resent-Message-ID built from
      `uuid` and the sender's host, then the original when it is
      available. Nothing of the composer changes. */
    method AsRawMessage(uuid: string, version: string, platform: string) returns (written: string, outcome: Outcome<RedirectFailure>)
      ensures (written, outcome) ==
        Redirected(envelope.from, envelope.recipients, envelope.timestamp, "Resent-Message-ID: ",
                   GenerateMessageId(envelope.from, uuid), version, platform, isMessageAvailable, original)
    {
      var id := GenerateMessageId(envelope.from, uuid);
      var block, headers := WriteResentFields(envelope.from, envelope.recipients, envelope.timestamp, "Resent-Message-ID: ", id, version, platform);
      written := block;
      if headers.Fail? {
        return written, Fail(UnexpectedRecipient);
      }
      if isMessageAvailable {
        written := written + original;
        outcome := Pass;
      } else {
        outcome := Fail(NotAvailable);
      }
    }

    /** A redirect cannot be uploaded piecewise: this always fails and adds
      nothing to `target`. */
    method AsCatenateData<T>(target: seq<T>) returns (result: seq<T>, outcome: Outcome<RedirectFailure>)
      ensures result == target && outcome == Fail(NoCatenate)
    {
      result := target;
      outcome := Fail(NoCatenate);
    }
  }

  /** A composer that preloads and is ready writes the whole message when
      its recipients have the expected kinds; one that does not preload is
      ready even while serializing fails for want of the original. */
  lemma ReadyMeansAvailable(c: RedirectMessageComposer, uuid: string, version: string, platform: string)
    requires AllExpected(c.envelope.recipients)
    ensures var out := Redirected(c.envelope.from, c.envelope.recipients, c.envelope.timestamp, "Resent-Message-ID: ",
                                  GenerateMessageId(c.envelope.from, uuid), version, platform, c.isMessageAvailable, c.original);
      (c.shouldPreload && c.IsReadyForSerialization() ==> out.1 == Pass) &&
      (!c.shouldPreload && !c.isMessageAvailable ==> c.IsReadyForSerialization() && out.1 == Fail(NotAvailable))
  {
    RedirectedMeans(c.envelope.from, c.envelope.recipients, c.envelope.timestamp, "Resent-Message-ID: ",
                    GenerateMessageId(c.envelope.from, uuid), version, platform, c.isMessageAvailable, c.original);
  }
}
