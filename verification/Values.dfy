/** Parameter values as the decoders deliver them, and which of them are numbers. */
module Values {
  import opened Options

  /** `Compound` stands for arrays, objects and null. */
  datatype Value = Number(n: real) | Flag(b: bool) | Text(s: string) | Compound

  type Params = map<string, Value>

  function ToFloat(v: Value): Option<real> {
    match v
    case Number(n) => Some(n)
    case Flag(b) => Some(if b then 1.0 else 0.0)
    case Text(_) => None
    case Compound => None
  }

  /** A Go map: a reference, changed in place by everyone who holds it. */
  class ParamMap {
    var entries: Params

    constructor (entries: Params)
      ensures this.entries == entries
    {
      this.entries := entries;
    }
  }
}
