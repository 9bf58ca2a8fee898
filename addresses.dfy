/** The composer's address types. The renderings of an address
    (`asMailHeader`, `asSMTPMailbox`) belong to the IMAP library, which is
    not part of this model: an address carries both renderings as given
    strings, with the host part the message id is built from. A time stamp
    likewise carries its RFC 2822 rendering. */
module Addresses {
  datatype RecipientKind = To | Cc | Bcc | From | Sender | ReplyTo

  datatype MailAddress = MailAddress(host: string, header: string, smtpMailbox: string)

  datatype DateTime = DateTime(rfc2822: string)

  /** A recipient of an outgoing message: its kind and its address. */
  datatype Recipient = Recipient(kind: RecipientKind, address: MailAddress)
}
