/** The scalar types of PLY properties and the table of their byte widths and
    header names (PlyHelper.PropertyTable, PlyHelper.PropertyTypeFromString). */
module PlyTypes {

  datatype PlyType = INVALID | INT8 | UINT8 | INT16 | UINT16 | INT32 | UINT32 | FLOAT32 | FLOAT64

  datatype PropertyInfo = PropertyInfo(stride: nat, str: string)

  /** Byte width and the name the writer puts in the header. UINT32 is written
      as "int", the same name as INT32. */
  function PropertyTable(t: PlyType): PropertyInfo
  {
    match t
    case INT8 => PropertyInfo(1, "char")
    case UINT8 => PropertyInfo(1, "uchar")
    case INT16 => PropertyInfo(2, "short")
    case UINT16 => PropertyInfo(2, "ushort")
    case INT32 => PropertyInfo(4, "int")
    case UINT32 => PropertyInfo(4, "int")
    case FLOAT32 => PropertyInfo(4, "float")
    case FLOAT64 => PropertyInfo(8, "double")
    case INVALID => PropertyInfo(0, "INVALID")
  }

  function Stride(t: PlyType): nat { PropertyTable(t).stride }

  /** The long name and the C alias of every type; any other string is INVALID. */
  function PropertyTypeFromString(t: string): PlyType
  {
    if t == "int8" || t == "char" then INT8
    else if t == "uint8" || t == "uchar" then UINT8
    else if t == "int16" || t == "short" then INT16
    else if t == "uint16" || t == "ushort" then UINT16
    else if t == "int32" || t == "int" then INT32
    else if t == "uint32" || t == "uint" then UINT32
    else if t == "float32" || t == "float" then FLOAT32
    else if t == "float64" || t == "double" then FLOAT64
    else INVALID
  }

  /** The sixteen type names the header parser recognises. */
  const TypeNames: set<string> :=
    {"int8", "char", "uint8", "uchar", "int16", "short", "uint16", "ushort",
     "int32", "int", "uint32", "uint", "float32", "float", "float64", "double"}

  /** The type a header name written by PropertyTable reads back as. */
  function ReadBack(t: PlyType): PlyType
  {
    if t == UINT32 then INT32 else t
  }

  predicate IsIntegerType(t: PlyType)
  {
    t in {INT8, UINT8, INT16, UINT16, INT32, UINT32}
  }

  /** Each long name and its alias denote the same type. */
  lemma AliasesAgree()
    ensures PropertyTypeFromString("int8") == PropertyTypeFromString("char") == INT8
    ensures PropertyTypeFromString("uint8") == PropertyTypeFromString("uchar") == UINT8
    ensures PropertyTypeFromString("int16") == PropertyTypeFromString("short") == INT16
    ensures PropertyTypeFromString("uint16") == PropertyTypeFromString("ushort") == UINT16
    ensures PropertyTypeFromString("int32") == PropertyTypeFromString("int") == INT32
    ensures PropertyTypeFromString("uint32") == PropertyTypeFromString("uint") == UINT32
    ensures PropertyTypeFromString("float32") == PropertyTypeFromString("float") == FLOAT32
    ensures PropertyTypeFromString("float64") == PropertyTypeFromString("double") == FLOAT64
  {
    SignedAliases();
    UnsignedAliases();
    FloatAliases();
  }

  lemma SignedAliases()
    ensures PropertyTypeFromString("int8") == PropertyTypeFromString("char") == INT8
    ensures PropertyTypeFromString("int16") == PropertyTypeFromString("short") == INT16
    ensures PropertyTypeFromString("int32") == PropertyTypeFromString("int") == INT32
  {
  }

  lemma UnsignedAliases()
    ensures PropertyTypeFromString("uint8") == PropertyTypeFromString("uchar") == UINT8
    ensures PropertyTypeFromString("uint16") == PropertyTypeFromString("ushort") == UINT16
    ensures PropertyTypeFromString("uint32") == PropertyTypeFromString("uint") == UINT32
  {
  }

  lemma FloatAliases()
    ensures PropertyTypeFromString("float32") == PropertyTypeFromString("float") == FLOAT32
    ensures PropertyTypeFromString("float64") == PropertyTypeFromString("double") == FLOAT64
  {
  }

  /** A string is a valid type name exactly when it is one of the sixteen names. */
  lemma InvalidExactlyForUnknownNames(s: string)
    ensures PropertyTypeFromString(s) != INVALID <==> s in TypeNames
  {
  }

  /** The widths are 1, 1, 2, 2, 4, 4, 4, 8, and 0 for INVALID. */
  lemma Strides()
    ensures Stride(INT8) == 1 && Stride(UINT8) == 1
    ensures Stride(INT16) == 2 && Stride(UINT16) == 2
    ensures Stride(INT32) == 4 && Stride(UINT32) == 4 && Stride(FLOAT32) == 4
    ensures Stride(FLOAT64) == 8 && Stride(INVALID) == 0
    ensures forall t :: Stride(t) == 0 <==> t == INVALID
  {
  }

  /** Every name the table writes reads back as its own type, except that
      UINT32's name "int" reads back as INT32. */
  lemma NameRoundTrip(t: PlyType)
    ensures PropertyTypeFromString(PropertyTable(t).str) == ReadBack(t)
    ensures Stride(ReadBack(t)) == Stride(t)
  {
  }
}
