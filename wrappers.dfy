/** Failure-compatible result types and the errors of the PLY codec.
    Every exception the C# code can throw on a modelled path becomes one
    `PlyError` value; nothing is thrown or caught. */
module Wrappers {
  import opened Bytes

  datatype Option<+T> = None | Some(value: T)

  /** The exceptions of the codec, one constructor per distinct cause. */
  datatype PlyError =
    | NoElements                          // request on a document whose header had no element
    | EmptyElementKey                     // request with an empty element name
    | EmptyPropertyKeys                   // request with an empty list of property names
    | ElementNotFound(element: string)    // request for an element the header does not declare
    | PropertiesNotFound(keys: seq<string>) // every requested name the element lacks, in request order
    | DuplicateKey(key: uint32)             // Dictionary.Add of a binding key already present
    | MixedTypes                          // grouped request over properties of different types
    | PropertyBeforeElement               // a `property` header line before any `element` line
    | TextTooShort                        // Substring past the end of a comment/obj_info line
    | BadNumber(text: string)             // Convert.ToXxx: not a number, or out of the type's range
    | InvalidType                         // encoding or decoding a property of type INVALID
    | OutOfRange                          // Array.Copy / BitConverter / indexer outside an array
    | NegativeLength                      // ReadBytes or new byte[] with a negative length
    | NullBuffer                          // a bound helper whose PlyData has no buffer

  datatype Result<+T> = Ok(value: T) | Err(error: PlyError) {
    predicate IsFailure() { Err? }

    function PropagateFailure<U>(): Result<U>
      requires Err?
    {
      Err(error)
    }

    function Extract(): T
      requires Ok?
    {
      value
    }
  }
}
