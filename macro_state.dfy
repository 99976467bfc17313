/** The compile-time key-value store of `macro_state`: one file per key and epoch, inside a
    shared state directory, written and read by successive macro expansions in one process. */
module MacroState {
  import opened IoResult
  import opened StatePath
  import opened ListCodec

  /** What a key holding the list `items` looks like: absent while nothing has been
      appended, otherwise the encoding of the items. */
  function ListValue(items: seq<string>): Result<string> {
    if items == [] then Err(NotFound) else Ok(Encode(items))
  }

  /** No item of the list holds the two characters backslash, `n`. */
  predicate NoEscapeSequences(items: seq<string>) {
    forall k :: 0 <= k < |items| ==> !HoldsEscapeSequence(items[k])
  }

  /** The state directory as seen by one process. The directory itself is a map from path to
      file contents; the process-wide constants `STATE_DIR` and `COMPILE_TIME` are fixed
      when the store is made. */
  class StateStore {
    /** `STATE_DIR`: where the state files live, fixed when the crate is built. */
    const stateDir: string
    /** `COMPILE_TIME`: the process's epoch, the clock in nanoseconds since the Unix epoch,
        read at its first use. */
    const compileTime: U128
    /** Whether the directory accepts changes: creating, truncating, appending to and
        removing files. When it does not, each of those fails and changes nothing. */
    const canWrite: bool
    /** The files of the state directory, under this epoch and under every other one. */
    var files: map<string, string>

    constructor (stateDir: string, compileTime: U128, canWrite: bool, files: map<string, string>)
      ensures this.stateDir == stateDir && this.compileTime == compileTime
      ensures this.canWrite == canWrite && this.files == files
    {
      this.stateDir := stateDir;
      this.compileTime := compileTime;
      this.canWrite := canWrite;
      this.files := files;
    }

    /** `state_file_path`: the file that holds `key` under this store's epoch. */
    function PathOf(key: string): string {
      StateFilePath(stateDir, key, compileTime)
    }

    /** What reading `key` gives now: its file's contents, or `NotFound`. */
    function Lookup(key: string): Result<string>
      reads this
    {
      if PathOf(key) in files then Ok(files[PathOf(key)]) else Err(NotFound)
    }

    /** Distinct keys of one store (one directory, one epoch) never share a file. */
    lemma DistinctKeysDistinctPaths(k1: string, k2: string)
      requires k1 != k2
      ensures PathOf(k1) != PathOf(k2)
    {
      if PathOf(k1) == PathOf(k2) {
        StateFilePathInjective(stateDir, k1, compileTime, k2, compileTime);
      }
    }

    // Primitives of the file system that the operations use.

    /** `fs::read_to_string`. */
    method ReadToString(path: string) returns (r: Result<string>)
      ensures r == if path in files then Ok(files[path]) else Err(NotFound)
    {
      if path in files {
        r := Ok(files[path]);
      } else {
        r := Err(NotFound);
      }
    }

    /** `File::create` then `write_all`: the file is created or truncated, then filled. */
    method CreateAndWrite(path: string, contents: string) returns (r: Result<()>)
      modifies this
      ensures r == if canWrite then Ok(()) else Err(PermissionDenied)
      ensures files == if canWrite then old(files)[path := contents] else old(files)
    {
      if canWrite {
        files := files[path := contents];
        r := Ok(());
      } else {
        r := Err(PermissionDenied);
      }
    }

    /** Opening with `append(true).create(true)` then `write_all`: the file keeps what it
        had (nothing, when it did not exist) and gets `contents` at its end. */
    method AppendOrCreate(path: string, contents: string) returns (r: Result<()>)
      modifies this
      ensures r == if canWrite then Ok(()) else Err(PermissionDenied)
      ensures files == if canWrite
                       then old(files)[path := (if path in old(files) then old(files)[path] else "") + contents]
                       else old(files)
    {
      if canWrite {
        var existing := if path in files then files[path] else "";
        files := files[path := existing + contents];
        r := Ok(());
      } else {
        r := Err(PermissionDenied);
      }
    }

    /** `fs::remove_file`. */
    method RemoveFile(path: string) returns (r: Result<()>)
      modifies this
      ensures r == if path !in old(files) then Err(NotFound)
                   else if canWrite then Ok(()) else Err(PermissionDenied)
      ensures files == if r.Ok? then old(files) - {path} else old(files)
    {
      if path !in files {
        r := Err(NotFound);
      } else if canWrite {
        files := files - {path};
        r := Ok(());
      } else {
        r := Err(PermissionDenied);
      }
    }

    // The operations of the store.

    /** `proc_write_state`: the key's value becomes `value`, whatever it was; nothing else
        changes. */
    method Write(key: string, value: string) returns (r: Result<()>)
      modifies this
      ensures r == if canWrite then Ok(()) else Err(PermissionDenied)
      ensures files == if canWrite then old(files)[PathOf(key) := value] else old(files)
      ensures r.Ok? ==> Lookup(key) == Ok(value)
      ensures r.Err? ==> Lookup(key) == old(Lookup(key))
      ensures forall k :: k != key ==> Lookup(k) == old(Lookup(k))
    {
      r := CreateAndWrite(PathOf(key), value);
      forall k | k != key
        ensures Lookup(k) == old(Lookup(k))
      {
        DistinctKeysDistinctPaths(k, key);
      }
    }

    /** `proc_read_state`: the key's value exactly as stored, or `NotFound`. */
    method Read(key: string) returns (r: Result<string>)
      ensures r.Ok? <==> PathOf(key) in files
      ensures r.Ok? ==> r.value == files[PathOf(key)]
      ensures r.Err? ==> r.error == NotFound
    {
      r := ReadToString(PathOf(key));
    }

    /** `proc_has_state`: whether reading the key succeeds. */
    method Has(key: string) returns (present: bool)
      ensures present <==> Lookup(key).Ok?
    {
      var r := Read(key);
      match r {
        case Ok(_) => present := true;
        case Err(_) => present := false;
      }
    }

    /** `proc_clear_state`: removes the key's file when reading it succeeds; an absent key is
        no error, but a failed removal is returned. */
    method Clear(key: string) returns (r: Result<()>)
      modifies this
      ensures old(Lookup(key)).Err? ==> r == Ok(()) && files == old(files)
      ensures old(Lookup(key)).Ok? ==> r == if canWrite then Ok(()) else Err(PermissionDenied)
      ensures files == if r.Ok? then old(files) - {PathOf(key)} else old(files)
      ensures r.Ok? ==> Lookup(key) == Err(NotFound)
      ensures forall k :: k != key ==> Lookup(k) == old(Lookup(k))
    {
      var stateFile := PathOf(key);
      var present := Has(key);
      if present {
        r := RemoveFile(stateFile);
      } else {
        r := Ok(());
      }
      forall k | k != key
        ensures Lookup(k) == old(Lookup(k))
      {
        DistinctKeysDistinctPaths(k, key);
      }
    }

    /** `proc_init_state`: the existing value when reading succeeds, with nothing changed;
        otherwise `defaultValue` is written and returned. */
    method Init(key: string, defaultValue: string) returns (r: Result<string>)
      modifies this
      ensures old(Lookup(key)).Ok? ==> r == old(Lookup(key)) && files == old(files)
      ensures old(Lookup(key)).Err? ==>
                r == (if canWrite then Ok(defaultValue) else Err(PermissionDenied)) &&
                files == (if canWrite then old(files)[PathOf(key) := defaultValue] else old(files))
      ensures r.Ok? ==> Lookup(key) == r
      ensures forall k :: k != key ==> Lookup(k) == old(Lookup(k))
    {
      var existing := Read(key);
      match existing {
        case Ok(value) =>
          r := Ok(value);
        case Err(_) =>
          var written := Write(key, defaultValue);
          match written {
            case Ok(_) => r := Ok(defaultValue);
            case Err(err) => r := Err(err);
          }
      }
    }

    /** `proc_append_state`: the escaped value and a newline go at the end of the key's file,
        which is created when absent and never truncated. On a key that holds a list, the
        key then holds that list with `value` at its end. */
    method Append(key: string, value: string) returns (r: Result<()>)
      modifies this
      ensures r == if canWrite then Ok(()) else Err(PermissionDenied)
      ensures r.Ok? ==> Lookup(key) == Ok(old(Lookup(key)).ValueOr("") + EncodeItem(value))
      ensures r.Ok? ==> forall items :: old(Lookup(key)) == ListValue(items) ==>
                          Lookup(key) == Ok(Encode(items + [value]))
      ensures files == if r.Ok? then old(files)[PathOf(key) := old(Lookup(key)).ValueOr("") + EncodeItem(value)]
                       else old(files)
      ensures forall k :: k != key ==> Lookup(k) == old(Lookup(k))
    {
      var line := Escape(value) + [NEWLINE];
      var stateFile := PathOf(key);
      r := AppendOrCreate(stateFile, line);
      forall items | r.Ok? && old(Lookup(key)) == ListValue(items)
        ensures Lookup(key) == Ok(Encode(items + [value]))
      {
        EncodeSnoc(items, value);
      }
      forall k | k != key
        ensures Lookup(k) == old(Lookup(k))
      {
        DistinctKeysDistinctPaths(k, key);
      }
    }

    /** `proc_read_state_vec`: the decoded list of the key's value, and the empty list when
        reading fails. A key holding a list of items without backslash-`n` gives that list
        back. */
    method ReadVec(key: string) returns (items: seq<string>)
      ensures items == match Lookup(key) case Ok(content) => Decode(content) case Err(_) => []
      ensures items == [] <==> Lookup(key).Err?
      ensures forall xs :: Lookup(key) == ListValue(xs) && NoEscapeSequences(xs) ==> items == xs
    {
      var read := ReadToString(PathOf(key));
      match read {
        case Ok(value) =>
          items := Decode(value);
        case Err(_) =>
          items := [];
      }
      forall xs | Lookup(key) == ListValue(xs) && NoEscapeSequences(xs)
        ensures items == xs
      {
        if xs != [] {
          ListRoundTrip(xs);
        }
      }
    }
  }
}
