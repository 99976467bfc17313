/** Sequences of store operations, as the crate's own tests and examples run them, with what
    each observation must be. */
module Scenarios {
  import opened IoResult
  import opened ListCodec
  import opened MacroState

  /** Two `init`s of one key return the same result; on an absent key in a writable
      directory that is the first default, and the second default is ignored. */
  method InitTwice(s: StateStore, key: string, d1: string, d2: string) returns (r1: Result<string>, r2: Result<string>)
    modifies s
    ensures r1 == r2
    ensures old(s.Lookup(key)).Ok? ==> r1 == old(s.Lookup(key))
    ensures old(s.Lookup(key)).Err? && s.canWrite ==> r1 == Ok(d1)
  {
    r1 := s.Init(key, d1);
    r2 := s.Init(key, d2);
  }

  /** After a successful `clear`, the key is not present, whether or not it was before. */
  method ClearThenHas(s: StateStore, key: string) returns (r: Result<()>, present: bool)
    modifies s
    ensures r.Ok? ==> !present
    ensures old(s.Lookup(key)).Err? ==> r.Ok?
  {
    r := s.Clear(key);
    present := s.Has(key);
  }

  /** Writing twice: each read sees the latest write. */
  method RewriteThenRead(s: StateStore, key: string, v1: string, v2: string) returns (first: Result<string>, second: Result<string>)
    requires s.canWrite
    modifies s
    ensures first == Ok(v1) && second == Ok(v2)
  {
    var w := s.Write(key, v1);
    first := s.Read(key);
    w := s.Write(key, v2);
    second := s.Read(key);
  }

  /** The steps of the test of all scalar operations on two fresh keys, with every
      observation the test makes. */
  method ProcStateFunctions(s: StateStore)
    returns (hasA: bool, readB: Result<string>, hasA1: bool, readA: Result<string>, initA: Result<string>,
             initB: Result<string>, readB2: Result<string>, hasB1: bool, cB: Result<()>, cA: Result<()>,
             hasA2: bool, hasB2: bool)
    requires s.canWrite && s.Lookup("proc A").Err? && s.Lookup("proc B").Err?
    modifies s
    ensures !hasA && readB.Err?
    ensures hasA1 && readA == Ok("val A") && initA == Ok("val A")
    ensures initB.Ok? && readB2 == Ok("val B") && hasB1
    ensures cB.Ok? && cA.Ok? && !hasA2 && !hasB2
    ensures s.Lookup("proc A").Err? && s.Lookup("proc B").Err?
  {
    hasA := s.Has("proc A");
    readB := s.Read("proc B");
    var w := s.Write("proc A", "val A");
    hasA1 := s.Has("proc A");
    readA := s.Read("proc A");
    initA := s.Init("proc A", "val B");
    initB := s.Init("proc B", "val B");
    readB2 := s.Read("proc B");
    hasB1 := s.Has("proc B");
    cB := s.Clear("proc B");
    cA := s.Clear("proc A");
    hasA2 := s.Has("proc A");
    hasB2 := s.Has("proc B");
  }

  /** The contents that appending `x`, then `y`, leaves in a file that starts empty. */
  lemma AppendedLines(x: string, y: string)
    requires NEWLINE !in x && NEWLINE !in y
    ensures "" + EncodeItem(x) == x + "\n"
    ensures (x + "\n") + EncodeItem(y) == x + "\n" + y + "\n"
  {
    EscapeWithoutNewline(x);
    EscapeWithoutNewline(y);
  }

  /** The steps of the append test: appends never truncate, and a write of the empty string
      in between resets the value that later appends build on. Items without a newline are
      stored as they are, each followed by a newline. */
  method AppendThenRead(s: StateStore, key: string, x: string, y: string)
    returns (v1: Result<string>, v2: Result<string>, v3: Result<string>)
    requires s.canWrite && s.Lookup(key).Err?
    requires NEWLINE !in x && NEWLINE !in y
    modifies s
    ensures v1 == Ok(x + "\n") && v2 == Ok(x + "\n" + y + "\n")
    ensures v3 == Ok(x + "\n")
  {
    AppendedLines(x, y);
    var a := s.Append(key, x);
    v1 := s.Read(key);
    a := s.Append(key, y);
    v2 := s.Read(key);
    var w := s.Write(key, "");
    a := s.Append(key, x);
    v3 := s.Read(key);
  }

  /** One step of building a list: on a key that holds the list `items`, appending `x` and
      reading the list back gives `items` with `x` at its end, provided no item holds
      backslash-`n`; no other key changes. */
  method AppendThenReadVec(s: StateStore, key: string, ghost items: seq<string>, x: string)
    returns (r: Result<()>, list: seq<string>)
    requires s.canWrite && s.Lookup(key) == ListValue(items)
    requires NoEscapeSequences(items + [x])
    modifies s
    ensures r.Ok? && list == items + [x]
    ensures s.Lookup(key) == ListValue(items + [x])
    ensures forall k :: k != key ==> s.Lookup(k) == old(s.Lookup(k))
  {
    r := s.Append(key, x);
    list := s.ReadVec(key);
  }

  /** The steps of the list tests: items come back in order, an item may hold newlines or be
      empty, and an absent key is the empty list. */
  method BuildList(s: StateStore, key: string, other: string, x: string, y: string, z: string)
    returns (l1: seq<string>, l2: seq<string>, l3: seq<string>, absent: seq<string>)
    requires s.canWrite && s.Lookup(key).Err? && s.Lookup(other).Err? && key != other
    requires NoEscapeSequences([x, y, z])
    modifies s
    ensures l1 == [x] && l2 == [x, y] && l3 == [x, y, z]
    ensures absent == []
  {
    assert [x, y] == [x, y, z][..2] && [x] == [x, y, z][..1];
    assert s.Lookup(key) == ListValue([]);
    var r;
    r, l1 := AppendThenReadVec(s, key, [], x);
    assert [] + [x] == [x] && [x] + [y] == [x, y];
    r, l2 := AppendThenReadVec(s, key, [x], y);
    assert [x, y] + [z] == [x, y, z];
    r, l3 := AppendThenReadVec(s, key, [x, y], z);
    absent := s.ReadVec(other);
  }

  /** The file that holds the empty string and then gets one item appended holds the
      one-item list. */
  lemma OneItemList(x: string)
    requires !HoldsEscapeSequence(x)
    ensures Ok("" + EncodeItem(x)) == ListValue([x])
    ensures NoEscapeSequences([x])
  {
    EncodeSnoc([], x);
    assert [] + [x] == [x];
  }

  /** A write of the empty string discards the list a key held: the next append starts a
      one-item list. */
  method WriteEmptyThenAppend(s: StateStore, key: string, x: string) returns (list: seq<string>)
    requires s.canWrite && !HoldsEscapeSequence(x)
    modifies s
    ensures list == [x]
  {
    OneItemList(x);
    var w := s.Write(key, "");
    var r := s.Append(key, x);
    list := s.ReadVec(key);
  }

  /** Initialising an absent key with a single newline, the way the documentation of
      `proc_read_state_vec` gives for starting an empty list, makes the list read back as one
      empty item, not as the empty list. */
  method InitNewlineThenReadVec(s: StateStore, key: string) returns (list: seq<string>)
    requires s.canWrite && s.Lookup(key).Err?
    modifies s
    ensures list == [""]
  {
    var r := s.Init(key, "\n");
    list := s.ReadVec(key);
    DecodeNewlineOnly();
  }
}
