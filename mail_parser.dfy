/** What the `mail_parser` crate yields for a message file, reduced to the parts the
    mail reader reads: the first From and To addresses, subject, date (already in
    RFC 3339 text), message id, the first text and HTML bodies, and the attachment
    parts. How raw bytes become such a message is not modelled. */
module MailParser {
  import opened Wrappers

  datatype Address = Address(name: Option<string>, address: Option<string>)

  datatype ContentType = ContentType(cType: string, subtype: Option<string>)

  datatype Part = Part(attachmentName: Option<string>, contentType: Option<ContentType>, len: nat)

  datatype Message = Message(
    from: seq<Address>,
    to: seq<Address>,
    subject: Option<string>,
    date: Option<string>,
    messageId: Option<string>,
    bodyText: Option<string>,
    bodyHtml: Option<string>,
    attachments: seq<Part>)
}
