/**
 The two order events and their JSON payloads.

 A payload is a JSON object. Reading an event looks up the fields it declares and
 ignores any other, so the reserved trace context does not reach the reader.
 */
module Events {
  import opened Wrappers
  import opened Uuids
  import opened Tables
  import opened Json

  datatype Event =
    | OrderRequested(eventId: string, eventVersion: int, occurredAt: int, orderId: string, riderId: string, trip: Trip)
    | OrderAccepted(eventId: string, eventVersion: int, occurredAt: int, orderId: string, driverId: string)

  function Marshal(e: Event): Value {
    match e
    case OrderRequested(eventId, version, at, orderId, riderId, t) =>
      Obj(map["eventId" := Str(eventId), "eventVersion" := Num(version as real), "occurredAt" := Num(at as real),
              "orderId" := Str(orderId), "riderId" := Str(riderId),
              "pickupLatitude" := Num(t.pickupLatitude), "pickupLongitude" := Num(t.pickupLongitude),
              "destinationLatitude" := Num(t.destinationLatitude),
              "destinationLongitude" := Num(t.destinationLongitude)])
    case OrderAccepted(eventId, version, at, orderId, driverId) =>
      Obj(map["eventId" := Str(eventId), "eventVersion" := Num(version as real), "occurredAt" := Num(at as real),
              "orderId" := Str(orderId), "driverId" := Str(driverId)])
  }

  // A missing field is left at its zero value.
  function TextField(fields: map<string, Value>, name: string): string {
    if name in fields && fields[name].Str? then fields[name].s else ""
  }

  function NumberField(fields: map<string, Value>, name: string): real {
    if name in fields && fields[name].Num? then fields[name].n else 0.0
  }

  // Of the two events only an acceptance names a driver.
  function Unmarshal(payload: Value): Option<Event> {
    if !payload.Obj? then None
    else
      var f := payload.fields;
      var eventId, orderId := TextField(f, "eventId"), TextField(f, "orderId");
      var version, at := NumberField(f, "eventVersion").Floor, NumberField(f, "occurredAt").Floor;
      if "driverId" in f then
        Some(OrderAccepted(eventId, version, at, orderId, TextField(f, "driverId")))
      else
        Some(OrderRequested(eventId, version, at, orderId, TextField(f, "riderId"),
                            Trip(NumberField(f, "pickupLatitude"), NumberField(f, "pickupLongitude"),
                                 NumberField(f, "destinationLatitude"), NumberField(f, "destinationLongitude"))))
  }

  lemma RequestedRoundTrip(e: Event)
    requires e.OrderRequested?
    ensures Unmarshal(Marshal(e)) == Some(e)
  {
    assert "driverId" !in Marshal(e).fields;
  }

  lemma RoundTrip(e: Event)
    ensures Unmarshal(Marshal(e)) == Some(e)
  {
    if e.OrderRequested? {
      RequestedRoundTrip(e);
    }
  }

  predicate Declared(name: string) {
    name in ["eventId", "eventVersion", "occurredAt", "orderId", "riderId", "driverId",
             "pickupLatitude", "pickupLongitude", "destinationLatitude", "destinationLongitude"]
  }

  lemma IgnoresOtherFields(f: map<string, Value>, name: string, v: Value)
    requires !Declared(name)
    ensures Unmarshal(Obj(f[name := v])) == Unmarshal(Obj(f))
  {
    var names := ["eventId", "eventVersion", "occurredAt", "orderId", "riderId", "driverId",
                  "pickupLatitude", "pickupLongitude", "destinationLatitude", "destinationLongitude"];
    forall i | 0 <= i < |names|
      ensures names[i] != name
    {
      assert names[i] in names;
    }
    assert names[0] == "eventId" && names[1] == "eventVersion" && names[2] == "occurredAt" && names[3] == "orderId";
    assert names[4] == "riderId" && names[5] == "driverId";
    assert names[6] == "pickupLatitude" && names[7] == "pickupLongitude";
    assert names[8] == "destinationLatitude" && names[9] == "destinationLongitude";
  }
}
