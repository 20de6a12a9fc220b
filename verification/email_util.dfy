/** The mail helper. The SMTP transport is outside the model: its outcome is a
    parameter, and the helper catches and logs every transport failure. */
module EmailUtil {

  /** What the mail transport does with one message. */
  datatype Delivery = Delivered | TransportError(reason: string)

  /** `sendVerificationEmail`: whether an exception escapes to the caller.
      The transport's failures are caught, so none ever does. */
  function SendVerificationEmail(transport: Delivery, to: string, subject: string, body: string): (raised: bool)
    ensures !raised
  {
    match transport
    case Delivered => false
    case TransportError(_) => false
  }
}
