/** The Python values that flow through parameter sets and experiment logs. */
module Values {

  /** A Python value. Lists, dicts, booleans and any other literal a configuration can carry are
      kept opaque as OtherV: nothing in the modelled code looks inside them. */
  datatype Value =
    | NoneV               // Python None
    | IntV(i: int)        // a Python int (unbounded)
    | FloatV(x: real)     // a Python float, as an opaque number
    | StrV(s: string)     // a Python str
    | OtherV(repr: string)
}
