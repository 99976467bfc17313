# macro_state: a compile-time key-value store, in Dafny

`macro_state` lets successive macro expansions of one build share values. Each key has its
own file in a shared state directory. The file is named `macro_state_<key>_<epoch>`, where
the epoch is the clock in nanoseconds, read the first time a process needs it and then kept.
So one process sees its own earlier writes, and never the files of a process whose epoch
differs. On top of the scalar
operations (write, read, has, clear, init), `proc_append_state` and `proc_read_state_vec`
store a list of strings in one value. Each item has its newlines escaped to backslash-`n`,
and a newline follows each item.

This project models that core (`src/macro_state.rs`) and proves its properties:

- `io_result.dfy` (module `IoResult`): the `std::io::Result` of the operations. There are
  two error kinds: `NotFound` (no file) and `PermissionDenied` (the directory refuses a
  change).
- `state_path.dfy` (module `StatePath`): key addressing. This covers the decimal rendering
  of the `u128` epoch, `PathBuf::push` as on Unix, the file name and the file path. The
  main result: within one state directory, the path determines both the key and the epoch.
  The last `_` of a file name is the one before the epoch, because digits hold no `_`. So
  distinct keys never share a file, and no key can reach a file made under a different epoch,
  whatever the keys.
- `list_codec.dfy` (module `ListCodec`): the list encoding as pure functions. `Escape` is
  `replace("\n", "\\n")`. `Unescape` is `replace("\\n", "\n")`, scanning left to right.
  `Split` is `split("\n")`. `StripTrailingNewline` and `Decode` are the pipeline of
  `proc_read_state_vec`. `EncodeItem` and `Encode` are what appends leave behind. The
  round trip is proved in both directions: a non-empty list decodes back to itself exactly
  when none of its items holds the two characters backslash, `n`.
- `macro_state.dfy` (module `MacroState`): class `StateStore`. Its field `files` maps paths
  to contents and stands for the state directory. Its constants stand for `STATE_DIR`,
  `COMPILE_TIME`, and whether the directory accepts changes. The methods `Write`, `Read`,
  `Has`, `Clear`, `Init`, `Append` and `ReadVec` are the `proc_*` functions. They call
  primitives that stand for `fs::read_to_string`, `File::create` + `write_all`, the
  append-or-create open + `write_all`, and `fs::remove_file`. Each method states its whole
  new state, what it returns, and that no other key changes. `Append` and `ReadVec` also
  state the list view: a key holding an encoded list holds the longer list after an append,
  and reads back as that list when none of its items holds backslash-`n`.
- `scenarios.dfy` (module `Scenarios`): the crate's tests and doc examples, as sequences of
  calls whose observations are proved. Their items are parameters, not fixed strings.

Where the code and its descriptions differ, the model follows the code:

- The doc comment at src/macro_state.rs:214-216 says that initialising a key with `"\n"`
  gives an empty list. The code strips the newline and splits the empty string, which gives
  one empty item. `ListCodec.DecodeNewlineOnly` and `Scenarios.InitNewlineThenReadVec`
  prove the code's result, `[""]`.
- `proc_clear_state` is not infallible. When the key is present, it returns the result of
  `fs::remove_file` (src/macro_state.rs:137), so a failed removal reaches the caller.
  `StateStore.Clear` returns it.
- The list round trip is not the identity for every item. An item that holds backslash-`n`
  comes back with a newline in its place (`ListCodec.EscapeSequenceAmbiguity`), and
  `ListCodec.UnescapeEscape` states exactly which items survive.

## Model

| member | source | states |
|---|---|---|
| `StatePath.Decimal` | src/macro_state.rs:33-34 | the epoch's rendering in the file name is a non-empty run of decimal digits without a leading zero |
| `StatePath.DecimalRoundTrip` | src/macro_state.rs:34 | reading the rendered epoch as a decimal number gives the epoch back |
| `StatePath.Push` | src/macro_state.rs:35-37 | `PathBuf::push` as on Unix; its contract is stated by `StatePath.PushShape` |
| `StatePath.DecimalInjective` | src/macro_state.rs:34 | distinct epochs are rendered differently |
| `StatePath.PushShape` | src/macro_state.rs:35-37 | pushing a relative component keeps the path as a prefix and ends with the component; an absolute one replaces the path |
| `StatePath.StateFilePathShape` | src/macro_state.rs:32-39 | the state file of a key lies under the state directory and ends with `macro_state_<key>_<epoch>` |
| `StatePath.FileName` | src/macro_state.rs:34 | `macro_state_`, the key, `_` and the decimal epoch; what the name determines is stated by `StatePath.FileNameInjective` |
| `StatePath.StateFilePath` | src/macro_state.rs:32-39 | the state directory pushed onto an empty path, then the file name; its contract is stated by `StatePath.StateFilePathShape` and `StatePath.StateFilePathInjective` |
| `StatePath.FileNameInjective` | src/macro_state.rs:34 | the file name determines both the key and the epoch |
| `StatePath.StateFilePathInjective` | src/macro_state.rs:32-39 | in one state directory, equal paths mean equal keys and equal epochs: keys of one process never collide, and processes with different epochs never see each other's files |
| `MacroState.StateStore.PathOf` | src/macro_state.rs:62 | the state file of a key under the store's directory and epoch (also at lines 88, 135, 194 and 230); `MacroState.StateStore.DistinctKeysDistinctPaths` states that keys do not share it |
| `MacroState.StateStore.DistinctKeysDistinctPaths` | src/macro_state.rs:32-39 | two distinct keys of one store (one directory, one epoch) have distinct state files |
| `ListCodec.Escape` | src/macro_state.rs:193 | the escaped item holds no newline and is at least as long as the item |
| `ListCodec.Unescape` | src/macro_state.rs:240 | un-escaping never lengthens a piece |
| `ListCodec.EscapeWithoutNewline` | src/macro_state.rs:186-189 | an item without newlines is stored as it is |
| `ListCodec.HoldsEscapeSequenceAt` | src/macro_state.rs:193-240 | an item holds backslash-`n` exactly when some position holds a backslash followed by `n` |
| `ListCodec.EscapeRoundTrip` | src/macro_state.rs:193-240 | un-escaping the escaped item gives the item back when it holds no backslash-`n`, and a shorter string when it does |
| `ListCodec.UnescapeEscape` | src/macro_state.rs:193-240 | the escape is undone if and only if the item holds no backslash-`n` |
| `ListCodec.EscapeSequenceAmbiguity` | src/macro_state.rs:193-240 | the item backslash-`n` reads back as a newline |
| `ListCodec.FirstNewline` | src/macro_state.rs:239 | the position found is the first newline, or the end when there is none |
| `ListCodec.Split` | src/macro_state.rs:238-239 | splitting gives at least one piece and no piece holds a newline |
| `ListCodec.SplitJoinLines` | src/macro_state.rs:238-239 | splitting newline-free pieces joined by newlines gives the pieces back |
| `ListCodec.JoinLinesSplit` | src/macro_state.rs:238-239 | joining the pieces of a split with newlines gives the string back |
| `ListCodec.StripTrailingNewline` | src/macro_state.rs:233-237 | exactly one trailing newline is removed when there is one, and nothing otherwise |
| `ListCodec.Decode` | src/macro_state.rs:233-241 | a present value decodes to at least one item, one per piece of the stripped value |
| `ListCodec.EncodeItem` | src/macro_state.rs:193 | the escaped item followed by a newline; `ListCodec.EncodeSnoc` states that it extends an encoded list by one item |
| `ListCodec.EncodeSnoc` | src/macro_state.rs:195-200 | appending one item to an encoded list gives the encoding of the longer list |
| `ListCodec.EncodeIsJoinedLines` | src/macro_state.rs:192-203 | a non-empty encoded list is its escaped items joined by newlines, followed by one newline |
| `ListCodec.DecodeEncode` | src/macro_state.rs:229-245 | decoding an encoded non-empty list gives, item by item, the un-escaped escape |
| `ListCodec.ListRoundTrip` | src/macro_state.rs:229-245 | a non-empty list decodes back to itself if and only if none of its items holds backslash-`n` |
| `ListCodec.BackslashFreeRoundTrip` | src/macro_state.rs:193-240 | a non-empty list whose items hold no backslash decodes back to itself, newlines in the items included |
| `ListCodec.DecodeNewlineOnly` | src/macro_state.rs:214-216 | a value of one newline decodes to one empty item, not to the empty list |
| `MacroState.StateStore.ReadToString` | src/macro_state.rs:89 | `fs::read_to_string` (also at line 231): the file's contents when it exists, otherwise NotFound |
| `MacroState.StateStore.CreateAndWrite` | src/macro_state.rs:62-63 | `File::create` and `write_all`: the file holds exactly the contents, or, when the directory refuses, PermissionDenied and nothing changes |
| `MacroState.StateStore.AppendOrCreate` | src/macro_state.rs:195-200 | open for append, creating if absent, then `write_all`: the file holds its old contents (empty when absent) followed by the new ones, or PermissionDenied and nothing changes |
| `MacroState.StateStore.RemoveFile` | src/macro_state.rs:137 | `fs::remove_file`: NotFound for an absent file; otherwise the file is gone, or PermissionDenied and nothing changes |
| `MacroState.StateStore.Write` | src/macro_state.rs:61-64 | the key's file becomes exactly the value (last write wins) or, on failure, nothing changes; other keys keep their values |
| `MacroState.StateStore.Read` | src/macro_state.rs:87-90 | read succeeds exactly when the key's file exists and then gives its contents verbatim; otherwise NotFound |
| `MacroState.StateStore.Has` | src/macro_state.rs:110-115 | has is true exactly when read succeeds; it changes nothing |
| `MacroState.StateStore.Clear` | src/macro_state.rs:134-140 | an absent key gives Ok with nothing changed; a present key is removed, or the removal's error is returned with nothing changed; after Ok the key is absent; other keys keep their values |
| `MacroState.StateStore.Init` | src/macro_state.rs:155-163 | a present key returns its value with nothing changed; an absent key gets the default written and returned, or the write's error; after Ok, read gives the returned value |
| `MacroState.StateStore.Append` | src/macro_state.rs:192-203 | the key's file keeps its contents (empty when absent) followed by the escaped value and a newline; a key holding a list then holds the list extended by the value; other keys keep their values |
| `MacroState.StateStore.ReadVec` | src/macro_state.rs:229-245 | an absent key gives the empty list, a present one its decoded value (never empty); a key holding a list without backslash-`n` items gives that list |
| `Scenarios.RewriteThenRead` | src/macro_state.rs:259-265 | each read after a write sees the latest write |
| `Scenarios.ClearThenHas` | src/macro_state.rs:276-281 | after a successful clear the key is not present; clearing an absent key succeeds |
| `Scenarios.InitTwice` | src/macro_state.rs:284-290 | two inits of one key return the same result: the existing value, or else the first default |
| `Scenarios.AppendThenRead` | src/macro_state.rs:309-325 | appends accumulate `item\n` lines and a write of `""` restarts them |
| `Scenarios.AppendThenReadVec` | src/macro_state.rs:347-361 | appending to a key holding a list and reading it back gives the list with the item at its end |
| `Scenarios.BuildList` | src/macro_state.rs:377-388 | three appends to an absent key read back as the three items, newlines and empty items included; an absent key reads as the empty list |
| `Scenarios.WriteEmptyThenAppend` | src/macro_state.rs:322-324 | the calls of the test (a write of `""`, then one append) followed by a list read, which by the code at lines 233-241 gives the one-item list; the test's own scalar read is `Scenarios.AppendThenRead`'s last observation |
| `Scenarios.ProcStateFunctions` | src/macro_state.rs:391-407 | every observation of the test of all scalar operations on two fresh keys: has, read, init and clear results before and after each write, and both keys absent at the end |
| `Scenarios.InitNewlineThenReadVec` | src/macro_state.rs:214-216 | initialising an absent key with a single newline gives the one-item list `[""]` |

## Left out

- The clock: `COMPILE_TIME` (src/macro_state.rs:16-21) is a constant of the store, an
  arbitrary `u128`. Reading it once per process (`lazy_static`) is not modelled.
- Epoch collisions: the model has one store, so one epoch. Two processes that read the same
  clock value share every state file; nothing here proves that epochs differ, only that a
  file determines the epoch it was made under.
- `STATE_DIR` comes from `env!` (src/macro_state.rs:27). It is a constant string of the
  store.
- Real file-system behaviour: the directory is a map from path to contents. Paths are
  plain strings: `..`, a `/` inside a key, and Windows path rules are not interpreted.
- I/O failures other than a missing file, and a directory that refuses every change, are
  not modelled. This includes a full disk, a partial `write_all`, and `File::create`
  truncating before a failed write.
- Non-UTF-8 contents are not modelled: contents are strings. So a read fails only when the
  file is absent, and `has` cannot be false for a file that exists but is unreadable.
- Concurrent builds and races between writers are not modelled: the code has no locking,
  and the model is sequential.
- `macros/src/macros.rs`, the procedural-macro front end, is not part of this model. It
  parses macro arguments, reports errors as `compile_error!`, and repeats
  `state_file_path`.
- `src/lib.rs` and `tests/src/lib.rs` are not part of this model. The first is a stub; the
  second is macro-level tests, which the scenarios follow.
- MacroState.StateStore.Clear: a failed removal is modelled only as the directory refusing
  changes. A file that disappears between the presence check and the removal is not
  modelled, because the model is sequential.
