/** The message record that travels in the header table of every message,
    and the tagged message types. */
module Messages {

  datatype Option<+T> = None | Some(value: T)

  /** The enumerators of `message_type_t` in declaration order. A number outside the
      enumeration can arrive from the wire; it is kept as `Unlisted`. */
  datatype MessageType =
    | Request
    | TemporaryResponse
    | FinalResponse
    | Notification
    | Report
    | Topic
    | Broadcast
    | EchoTest
    | Unlisted(code: int)

  /** `int_props_st`. The untyped argument is kept as the number it travels as; null is 0. */
  datatype IntProps = IntProps(
    sender: string,
    receiver: string,
    msgtype: MessageType,
    msgname: string,
    rid: int,
    inarg: int,
    timestamp: int,
    rspcode: string,
    rspdesc: string,
    trans: string)

  const NULL_ARG := 0

  datatype ExchangeType = P2PType | TopicType | BroadcastType

  /** Integer division that truncates toward zero, as the source language divides. */
  function TruncDiv(a: int, b: int): (q: int)
    requires b > 0
    ensures a >= 0 ==> b * q <= a < b * q + b
    ensures a <= 0 ==> b * q - b < a <= b * q
  {
    if a >= 0 then a / b else -((-a) / b)
  }
}
