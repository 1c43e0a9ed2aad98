/** The record a dissector writes into: the raw field values it can read and
    the sequence of dissections it has been handed so far. */
module Record {

  datatype Option<T> = None | Some(value: T)

  /** One `addDissection(inputname, type, name, value)` call; a Java `null`
      value is `None`. */
  datatype Dissection = Dissection(inputName: string, typ: string, name: string, value: Option<string>)

  class Parsable {
    /** The raw value of each (type, name) field; a field whose value is
        `null` is simply absent. */
    const values: map<(string, string), string>
    /** Every dissection added so far, in the order it was added. */
    var dissections: seq<Dissection>

    constructor (values: map<(string, string), string>)
      ensures this.values == values && dissections == []
    {
      this.values := values;
      dissections := [];
    }

    /** The text of field (typ, name), or None where the framework would give null. */
    function FieldValue(typ: string, name: string): Option<string>
    {
      if (typ, name) in values then Some(values[(typ, name)]) else None
    }

    method AddDissection(inputName: string, typ: string, name: string, value: Option<string>)
      modifies this
      ensures dissections == old(dissections) + [Dissection(inputName, typ, name, value)]
    {
      dissections := dissections + [Dissection(inputName, typ, name, value)];
    }
  }
}
