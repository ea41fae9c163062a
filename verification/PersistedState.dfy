/** A value kept in memory and in a file; the memory copy wins once it has been loaded. */
module PersistedState {
  import opened Common

  /** The file: absent, holding a value, or left unreadable by an interrupted write. */
  datatype FileContents<+T> = Absent | Json(value: T) | Garbled

  /** How a write goes: all of it, not even opened, or broken off after truncating the file. */
  datatype WriteOutcome = Written | NotOpened | BrokenOff

  function Decode<T>(file: FileContents<T>, default: T): T {
    if file.Json? then file.value else default
  }

  function Write<T>(file: FileContents<T>, value: T, w: WriteOutcome): FileContents<T> {
    match w
    case Written => Json(value)
    case NotOpened => file
    case BrokenOff => Garbled
  }

  class Container<T(==)> {
    const default: T
    var state: Option<T>
    var file: FileContents<T>

    constructor (default: T, file: FileContents<T>)
      ensures this.default == default && state == None && this.file == file
    {
      this.default := default;
      state := None;
      this.file := file;
    }

    /** The value a load returns. */
    function Value(): T
      reads this
    {
      if state.Some? then state.value else Decode(file, default)
    }

    method LoadOrGet() returns (r: T)
      modifies this
      ensures r == old(Value()) && Value() == r && state == Some(r)
      ensures file == old(file)
    {
      if state.Some? {
        return state.value;
      }
      r := match file case Json(v) => v case _ => default;
      state := Some(r);
    }

    /** The memory copy changes even when the write fails. */
    method Save(value: T, w: WriteOutcome) returns (ok: bool)
      modifies this
      ensures state == Some(value) && Value() == value
      ensures file == Write(old(file), value, w)
      ensures ok <==> w.Written?
    {
      state := Some(value);
      match w {
        case Written => file := Json(value);
        case NotOpened =>
        case BrokenOff => file := Garbled;
      }
      ok := w.Written?;
    }
  }
}
