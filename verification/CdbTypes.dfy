/** Column types of a table. */
module CdbTypes {
  datatype CdbType =
    | CdbBool | CdbInt | CdbFloat | CdbString | CdbDouble | CdbLongLong
    | CdbArrayBool | CdbArrayFloat | CdbArrayInt | CdbArrayString | CdbArrayDouble | CdbArrayLongLong

  predicate IsArray(t: CdbType) {
    t in {CdbArrayBool, CdbArrayFloat, CdbArrayInt, CdbArrayString, CdbArrayDouble, CdbArrayLongLong}
  }

  predicate IsIntegerArray(t: CdbType) {
    t in {CdbArrayBool, CdbArrayInt, CdbArrayLongLong}
  }

  /** Width of one element of an integer array. */
  function Bits(t: CdbType): nat
    requires IsIntegerArray(t)
  {
    if t == CdbArrayBool then 16 else if t == CdbArrayInt then 32 else 64
  }
}
