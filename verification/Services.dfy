/** A registered service as the table, the clients and the message queue see it:
    Service.h and the factory of Service.cpp.  Floats are their four bytes. */
module Services {
  import opened Wrappers

  const ANALOG_IN: Byte := 0x00
  const ANALOG_OUT: Byte := 0x01
  const DIGITAL_IN: Byte := 0x02
  const DIGITAL_OUT: Byte := 0x03

  type Float = f: seq<Byte> | |f| == 4 witness [0, 0, 0, 0]

  datatype Service = Service(id: Byte, kind: Byte, name: seq<Byte>, unit: seq<Byte>, min: Float, max: Float) {
    predicate IsInput() {
      kind == ANALOG_IN || kind == DIGITAL_IN
    }

    predicate IsOutput() {
      kind == ANALOG_OUT || kind == DIGITAL_OUT
    }
  }

  /** The source returns a null pointer for a class it does not know. */
  function ServiceFactory(id: Byte, kind: Byte, name: seq<Byte>, unit: seq<Byte>, min: Float, max: Float): (s: Option<Service>)
    ensures s.None? <==> kind > 3
    ensures s.Some? ==> s.value.id == id && (s.value.IsInput() != s.value.IsOutput())
    ensures s.Some? ==> (s.value.IsInput() <==> kind == 0 || kind == 2) && (s.value.IsOutput() <==> kind == 1 || kind == 3)
    ensures s.Some? ==> s.value.kind == kind && s.value.name == name && s.value.unit == unit
    ensures s.Some? ==> s.value.min == min && s.value.max == max
  {
    if kind == ANALOG_IN || kind == DIGITAL_IN || kind == ANALOG_OUT || kind == DIGITAL_OUT
    then Some(Service(id, kind, name, unit, min, max))
    else None
  }
}
