/** The local message model of models.py. */
module Messages {
  import opened Common

  datatype Urgency = Low | Normal | High | Critical

  /** `content_type` is the type's string value; "ack" marks an acknowledgment. */
  datatype Payload = Payload(content: string, content_type: string, encrypted: bool, compressed: bool,
                             signature: Option<string>)

  datatype Message = Message(
    envelope_id: string,
    sender: string,
    recipient: string,
    payload: Payload,
    mode: string,
    ttl: int,
    ack_requested: bool,
    thread_id: Option<string>,
    in_reply_to: Option<string>,
    urgency: Urgency,
    created_at: real,
    delivered_via: Option<string>)
  {
    predicate IsAck() { payload.content_type == "ack" }

    function Priority(): int {
      match urgency
      case Critical => 0
      case High => 1
      case Normal => 2
      case Low => 3
    }
  }

  const DEFAULT_TTL := 86400
}
