/** PlyFileImpl as an object: its fields, and the public operations that update
    them in place, each proved to leave the object in the state the value-level
    model of that operation computes. */
module PlyFile {
  import opened Wrappers
  import opened Bytes
  import opened Text
  import opened PlyTypes
  import opened Floats
  import opened Schema
  import Header
  import Registry
  import PlyRead
  import PlyWrite

  class PlyFileImpl {
    var elements: seq<Element>
    var comments: seq<string>
    var objInfo: seq<string>
    var isBinary: bool
    var isBigEndian: bool
    var userData: seq<Entry>
    var helpers: seq<Helper>

    /** The object's fields as one value. */
    function Model(): Impl
      reads this
    {
      Impl(elements, comments, objInfo, isBinary, isBigEndian, userData, helpers)
    }

    /** A new PlyFileImpl: no elements, comments, bindings or helpers, ascii. */
    constructor ()
      ensures Model() == EmptyImpl() && WellFormed(Model())
    {
      elements, comments, objInfo := [], [], [];
      isBinary, isBigEndian := false, false;
      userData, helpers := [], [];
    }

    /** Overwrites every field with the corresponding part of `m`. */
    method Assign(m: Impl)
      modifies this
      ensures Model() == m
    {
      elements, comments, objInfo := m.elements, m.comments, m.objInfo;
      isBinary, isBigEndian := m.isBinary, m.isBigEndian;
      userData, helpers := m.userData, m.helpers;
    }

    /** ParseHeader's loop: read a line, let its first word decide, go on until
        the text ends, an end_header line is read or a line throws. `pos` is where
        the stream stands afterwards. */
    method ParseHeader(text: string) returns (result: Result<bool>, pos: nat)
      modifies this
      ensures (Model(), result, pos) == Header.ParseHeader(old(Model()), text, 0)
      ensures WellFormed(old(Model())) ==> WellFormed(Model())
    {
      ghost var goal := Header.ParseHeader(Model(), text, 0);
      Header.HeaderFromKeepsBindings(text, 0, Model(), true);
      var success := true;
      pos := 0;
      while true
        invariant pos <= |text|
        invariant Header.HeaderFrom(text, pos, Model(), success) == goal
        decreases |text| - pos
      {
        var line, next := ReadLine(text, pos);
        if line.None? {
          return Ok(success), pos;
        }
        var (m', step) := Header.HeaderLine(Model(), line.value);
        Assign(m');
        pos := next;
        match step
        case Continue(ok) =>
          success := success && ok;
        case EndHeader =>
          return Ok(success), pos;
        case Abort(e) =>
          return Err(e), pos;
      }
    }

    /** RequestPropertiesFromElement: binds `keys` of element `elementKey` to one
        new helper, or throws; the result is the helper's index. */
    method RequestPropertiesFromElement(elementKey: string, keys: seq<string>, listSizeHint: int) returns (r: Result<nat>)
      modifies this
      ensures (Model(), r) == Registry.Request(old(Model()), elementKey, keys, listSizeHint)
      ensures WellFormed(old(Model())) ==> WellFormed(Model())
    {
      if WellFormed(Model()) {
        Registry.RequestKeepsWellFormed(Model(), elementKey, keys, listSizeHint);
      }
      var (m', res) := Registry.Request(Model(), elementKey, keys, listSizeHint);
      Assign(m');
      r := res;
    }

    /** AddPropertiesToElement: declares `keys` on element `elementKey` (created
        when missing) and binds each to a new helper over `data`. */
    method AddPropertiesToElement(elementKey: string, keys: seq<string>, t: PlyType, count: int,
                                  data: Option<seq<byte>>, listType: PlyType, listCount: int)
      returns (failure: Option<PlyError>)
      modifies this
      ensures (Model(), failure) == Registry.AddPropertiesUniform(old(Model()), elementKey, keys, t, count, data, listType, listCount)
      ensures WellFormed(old(Model())) ==> WellFormed(Model())
    {
      if WellFormed(Model()) {
        Registry.AddPropertiesKeepsWellFormed(Model(), elementKey, keys, t, count, data, listType,
                                              Registry.UniformCounts(count, listCount));
      }
      var (m', f) := Registry.AddPropertiesUniform(Model(), elementKey, keys, t, count, data, listType, listCount);
      Assign(m');
      failure := f;
    }

    /** Read on the data section that starts at `pos`; what an exception leaves
        behind is not specified. */
    method Read(data: seq<byte>, pos: nat, floats: FloatText) returns (failure: Option<PlyError>)
      requires WellFormed(Model()) && pos <= |data|
      modifies this
      ensures match PlyRead.Read(old(Model()), data, pos, floats)
              case Ok(m') => Model() == m' && failure.None?
              case Err(e) => failure == Some(e)
      ensures WellFormed(Model())
    {
      match PlyRead.Read(Model(), data, pos, floats)
      case Ok(m') =>
        Assign(m');
        failure := None;
      case Err(e) =>
        failure := Some(e);
    }

    /** Write in the chosen format: the bytes the stream receives; what an
        exception leaves behind is not specified. */
    method Write(toBinary: bool, floats: FloatText) returns (out: Result<seq<byte>>)
      requires WellFormed(Model())
      modifies this
      ensures match PlyWrite.Write(old(Model()), toBinary, floats)
              case Ok((m', bytes)) => Model() == m' && out == Ok(bytes)
              case Err(e) => out == Err(e)
      ensures WellFormed(Model())
    {
      match PlyWrite.Write(Model(), toBinary, floats)
      case Ok((m', bytes)) =>
        Assign(m');
        out := Ok(bytes);
      case Err(e) =>
        out := Err(e);
    }
  }
}
