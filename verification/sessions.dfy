/**
 The per-event session: one trigger event's journey from intake to the
 completion callback.
 */
module Sessions {

  /** A field value; `Opaque` stands for any value other than text. */
  datatype Value = Text(text: string) | Opaque(id: nat)

  type Fields = map<string, Value>

  /** What a trigger hands to the invoker. */
  datatype TriggerEvent = TriggerEvent(topic: string, data: Fields)

  /** Captured at creation and never changed. */
  datatype Inbound = Inbound(topic: string, data: Fields)

  /** The result fields the stages accumulate for the completion callback. */
  datatype Outbound = Outbound(topic: string, data: Fields)

  datatype Session = Session(topic: string, attributes: Fields, inbound: Inbound, outbound: Outbound)

  /** The key and value an interceptor drop records in the outbound data. */
  const ErrorKey: string := "error"
  const DroppedMarker: Value := Text("InterceptorDropped")

  /** The invoker's session construction for an incoming trigger event. */
  function NewSession(event: TriggerEvent): (s: Session)
    ensures s.topic == event.topic
    ensures s.inbound.topic == event.topic && s.outbound.topic == event.topic
    ensures s.inbound.data == event.data
    ensures s.outbound.data == map[] && s.attributes == map[]
  {
    Session(event.topic, map[], Inbound(event.topic, event.data), Outbound(event.topic, map[]))
  }

  /** Adds (or overwrites) outbound data fields; nothing else changes. */
  function AddDataFields(s: Session, fields: Fields): Session {
    s.(outbound := s.outbound.(data := s.outbound.data + fields))
  }

  /** A stage may only add outbound fields: topics and inbound data stay as they were. */
  ghost predicate Evolves(s: Session, t: Session) {
    && t.topic == s.topic
    && t.inbound == s.inbound
    && t.outbound.topic == s.outbound.topic
    && t.attributes == s.attributes
    && s.outbound.data.Keys <= t.outbound.data.Keys
  }

  lemma EvolvesTransitive(s: Session, t: Session, u: Session)
    requires Evolves(s, t) && Evolves(t, u)
    ensures Evolves(s, u)
  {
  }
}
