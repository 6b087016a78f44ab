/** `PersistedState` of `cli/src/state.rs`: a value cached in memory and saved to a file. */
module StateFile {
  import opened Common

  /** How writing the file goes: completely, not at all, or cut off after it was truncated. */
  datatype WriteResult = Written | NotOpened | CutOff

  class PersistedState<T> {
    const default: T
    /** The cached value. */
    var state: Option<T>
    /** What the file holds, if it exists and can be parsed, and whether it exists. */
    var file: Option<T>
    var present: bool

    constructor (default: T, file: Option<T>, present: bool)
      ensures this.default == default && this.file == file && this.present == present && state == None
    {
      this.default, this.file, this.present := default, file, present;
      state := None;
    }

    /** What `load` returns. */
    function Current(): T
      reads this
    {
      if state.Some? then state.value else if file.Some? then file.value else default
    }

    method LoadOrGet() returns (r: T)
      modifies this`state
      ensures r == old(Current()) && state == Some(r) && Current() == r
    {
      if state.Some? {
        return state.value;
      }
      r := if file.Some? then file.value else default;
      state := Some(r);
    }

    /** The cached value changes even when the write fails. */
    method Save(value: T, w: WriteResult) returns (ok: bool)
      modifies this
      ensures state == Some(value) && Current() == value
      ensures ok <==> w == Written
      ensures file == AfterWrite(old(file), value, w)
      ensures present <==> old(present) || w != NotOpened
    {
      state := Some(value);
      file := AfterWrite(file, value, w);
      present := present || w != NotOpened;
      ok := w == Written;
    }
  }

  function AfterWrite<T>(file: Option<T>, value: T, w: WriteResult): Option<T> {
    match w
    case Written => Some(value)
    case NotOpened => file
    case CutOff => None
  }
}
