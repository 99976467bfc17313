/** The list encoding behind `proc_append_state` and `proc_read_state_vec`: a list of strings
    is stored as one state value, each item with its newlines escaped to backslash-`n` and
    followed by one newline. */
module ListCodec {

  const NEWLINE: char := '\n'
  const BACKSLASH: char := '\\'

  /** The escape `value.replace("\n", "\\n")`: every newline becomes backslash, `n`. */
  function Escape(s: string): (r: string)
    ensures NEWLINE !in r
    ensures |r| >= |s|
  {
    if s == [] then []
    else (if s[0] == NEWLINE then [BACKSLASH, 'n'] else [s[0]]) + Escape(s[1..])
  }

  /** The un-escape `item.replace("\\n", "\n")`: scanning left to right, each backslash
      directly followed by `n` becomes one newline; everything else is kept. */
  function Unescape(s: string): (r: string)
    ensures |r| <= |s|
  {
    if |s| >= 2 && s[0] == BACKSLASH && s[1] == 'n' then [NEWLINE] + Unescape(s[2..])
    else if s == [] then []
    else [s[0]] + Unescape(s[1..])
  }

  /** `s` holds the two characters backslash, `n` next to each other, which decoding
      cannot tell apart from an escaped newline. */
  predicate HoldsEscapeSequence(s: string) {
    |s| >= 2 && ((s[0] == BACKSLASH && s[1] == 'n') || HoldsEscapeSequence(s[1..]))
  }

  /** `HoldsEscapeSequence` means: some backslash of `s` is directly followed by `n`. */
  lemma {:induction false} HoldsEscapeSequenceAt(s: string)
    ensures HoldsEscapeSequence(s) <==>
            exists i :: 0 <= i < |s| - 1 && s[i] == BACKSLASH && s[i + 1] == 'n'
  {
    if |s| >= 2 {
      HoldsEscapeSequenceAt(s[1..]);
      if HoldsEscapeSequence(s[1..]) {
        var i :| 0 <= i < |s| - 2 && s[1..][i] == BACKSLASH && s[1..][i + 1] == 'n';
        assert s[i + 1] == BACKSLASH && s[i + 2] == 'n';
      }
      if exists i :: 0 <= i < |s| - 1 && s[i] == BACKSLASH && s[i + 1] == 'n' {
        var i :| 0 <= i < |s| - 1 && s[i] == BACKSLASH && s[i + 1] == 'n';
        if i > 0 {
          assert s[1..][i - 1] == BACKSLASH && s[1..][i] == 'n';
        }
      }
    }
  }

  /** A leading backslash-`n` un-escapes to a newline. */
  lemma UnescapePair(t: string)
    ensures Unescape([BACKSLASH, 'n'] + t) == [NEWLINE] + Unescape(t)
  {
    assert ([BACKSLASH, 'n'] + t)[2..] == t;
  }

  /** A first character that does not start backslash-`n` is kept. */
  lemma UnescapeKeep(c: char, t: string)
    requires !(c == BACKSLASH && t != [] && t[0] == 'n')
    ensures Unescape([c] + t) == [c] + Unescape(t)
  {
    assert ([c] + t)[1..] == t;
  }

  /** Escaping works character by character. */
  lemma EscapeCons(c: char, t: string)
    ensures Escape([c] + t) == (if c == NEWLINE then [BACKSLASH, 'n'] else [c]) + Escape(t)
  {
    assert ([c] + t)[1..] == t;
  }

  /** Backslash and `n` are both kept by escaping. */
  lemma EscapeBackslashN(t: string)
    ensures Escape([BACKSLASH, 'n'] + t) == [BACKSLASH, 'n'] + Escape(t)
  {
    var u := ['n'] + t;
    EscapeCons('n', t);
    assert [BACKSLASH, 'n'] + t == [BACKSLASH] + u;
    EscapeCons(BACKSLASH, u);
    assert [BACKSLASH] + (['n'] + Escape(t)) == [BACKSLASH, 'n'] + Escape(t);
  }

  /** An item starting with backslash-`n` un-escapes, after escaping, to a newline first. */
  lemma UnescapeEscapePair(t: string)
    ensures Unescape(Escape([BACKSLASH, 'n'] + t)) == [NEWLINE] + Unescape(Escape(t))
  {
    EscapeBackslashN(t);
    UnescapePair(Escape(t));
  }

  /** An escape starts with `n` only when the item does. */
  lemma EscapeHead(t: string)
    requires t != []
    ensures Escape(t) != [] && (Escape(t)[0] == 'n' <==> t[0] == 'n')
  {
    assert t == [t[0]] + t[1..];
    EscapeCons(t[0], t[1..]);
  }

  /** Any other first character is kept through escaping and un-escaping. */
  lemma UnescapeEscapeKeep(c: char, t: string)
    requires !(c == BACKSLASH && t != [] && t[0] == 'n')
    ensures Unescape(Escape([c] + t)) == [c] + Unescape(Escape(t))
  {
    EscapeCons(c, t);
    if c == NEWLINE {
      UnescapePair(Escape(t));
    } else {
      if t != [] {
        EscapeHead(t);
      }
      UnescapeKeep(c, Escape(t));
    }
  }

  /** Escaping then un-escaping never lengthens an item; it gives the item back when the item
      holds no backslash-`n`, and otherwise shortens it. */
  lemma {:induction false} EscapeRoundTrip(x: string)
    ensures |Unescape(Escape(x))| <= |x|
    ensures !HoldsEscapeSequence(x) ==> Unescape(Escape(x)) == x
    ensures HoldsEscapeSequence(x) ==> |Unescape(Escape(x))| < |x|
  {
    if x != [] {
      if x[0] == BACKSLASH && |x| >= 2 && x[1] == 'n' {
        assert x == [BACKSLASH, 'n'] + x[2..];
        UnescapeEscapePair(x[2..]);
        EscapeRoundTrip(x[2..]);
      } else {
        assert x == [x[0]] + x[1..];
        UnescapeEscapeKeep(x[0], x[1..]);
        EscapeRoundTrip(x[1..]);
      }
    }
  }

  /** An item without a newline is stored as it is. */
  lemma {:induction false} EscapeWithoutNewline(s: string)
    requires NEWLINE !in s
    ensures Escape(s) == s
  {
    if s != [] {
      assert NEWLINE !in s[1..] by {
        assert forall j :: 0 <= j < |s| - 1 ==> s[1..][j] == s[j + 1];
      }
      EscapeWithoutNewline(s[1..]);
    }
  }

  /** Only a backslash can start the escape sequence. */
  lemma {:induction false} NoBackslashNoEscapeSequence(s: string)
    requires BACKSLASH !in s
    ensures !HoldsEscapeSequence(s)
  {
    if |s| >= 2 {
      assert BACKSLASH !in s[1..] by {
        assert forall j :: 0 <= j < |s| - 1 ==> s[1..][j] == s[j + 1];
      }
      NoBackslashNoEscapeSequence(s[1..]);
    }
  }

  /** The escape is undone exactly for the items that hold no backslash-`n`. */
  lemma UnescapeEscape(x: string)
    ensures Unescape(Escape(x)) == x <==> !HoldsEscapeSequence(x)
  {
    EscapeRoundTrip(x);
  }

  /** Position of the first newline of `s`, or `|s|` when there is none. */
  function FirstNewline(s: string): (i: nat)
    ensures i <= |s|
    ensures i < |s| ==> s[i] == NEWLINE
    ensures forall j :: 0 <= j < i ==> s[j] != NEWLINE
  {
    if s == [] || s[0] == NEWLINE then 0 else 1 + FirstNewline(s[1..])
  }

  /** The pieces `s.split("\n")` yields: the text between consecutive newlines, so an empty
      string gives one empty piece and a trailing newline gives a trailing empty piece. */
  function Split(s: string): (pieces: seq<string>)
    ensures |pieces| >= 1
    ensures forall k :: 0 <= k < |pieces| ==> NEWLINE !in pieces[k]
    decreases |s|
  {
    var i := FirstNewline(s);
    if i == |s| then [s] else [s[..i]] + Split(s[i + 1..])
  }

  /** The pieces of a non-empty list written one after another with a newline between two
      neighbours: the reference reading of `Split`. */
  function JoinLines(pieces: seq<string>): string
    requires |pieces| >= 1
  {
    if |pieces| == 1 then pieces[0] else pieces[0] + [NEWLINE] + JoinLines(pieces[1..])
  }

  /** Splitting undoes joining, for pieces that hold no newline. */
  lemma {:induction false} SplitJoinLines(pieces: seq<string>)
    requires |pieces| >= 1
    requires forall k :: 0 <= k < |pieces| ==> NEWLINE !in pieces[k]
    ensures Split(JoinLines(pieces)) == pieces
  {
    var p := pieces[0];
    if |pieces| == 1 {
      assert FirstNewline(p) == |p|;
    } else {
      var rest := JoinLines(pieces[1..]);
      var s := p + [NEWLINE] + rest;
      assert JoinLines(pieces) == s;
      FirstNewlineAfter(p, rest);
      assert s[..|p|] == p && s[|p| + 1..] == rest;
      assert Split(s) == [p] + Split(rest);
      SplitJoinLines(pieces[1..]);
    }
  }

  /** The first newline of a newline-free line followed by a newline is that newline. */
  lemma FirstNewlineAfter(line: string, rest: string)
    requires NEWLINE !in line
    ensures FirstNewline(line + [NEWLINE] + rest) == |line|
  {
    var s := line + [NEWLINE] + rest;
    var i := FirstNewline(s);
    assert s[|line|] == NEWLINE;
    if i < |line| {
      assert false;
    }
  }

  /** Joining undoes splitting, for every string. */
  lemma {:induction false} JoinLinesSplit(s: string)
    ensures JoinLines(Split(s)) == s
    decreases |s|
  {
    var i := FirstNewline(s);
    if i == |s| {
      assert Split(s) == [s];
    } else {
      var line, rest := s[..i], s[i + 1..];
      var pieces := Split(s);
      assert pieces == [line] + Split(rest);
      assert |pieces| >= 2 && pieces[0] == line && pieces[1..] == Split(rest);
      JoinLinesSplit(rest);
      assert JoinLines(pieces) == line + [NEWLINE] + rest;
      RejoinAt(s, i);
    }
  }

  /** A string is its part before a newline, the newline and its part after. */
  lemma RejoinAt(s: string, i: nat)
    requires i < |s| && s[i] == NEWLINE
    ensures s == s[..i] + [NEWLINE] + s[i + 1..]
  {
  }

  lemma {:induction false} JoinLinesSnoc(pieces: seq<string>, p: string)
    requires |pieces| >= 1
    ensures JoinLines(pieces + [p]) == JoinLines(pieces) + [NEWLINE] + p
  {
    if |pieces| > 1 {
      assert (pieces + [p])[1..] == pieces[1..] + [p];
      JoinLinesSnoc(pieces[1..], p);
    }
  }

  /** The strip in `proc_read_state_vec`: one trailing newline, if there is one, is dropped. */
  function StripTrailingNewline(s: string): (r: string)
    ensures s == r || s == r + [NEWLINE]
    ensures s == r <==> s == [] || s[|s| - 1] != NEWLINE
  {
    if s != [] && s[|s| - 1] == NEWLINE then s[..|s| - 1] else s
  }

  /** The decoding of a present state value by `proc_read_state_vec`: strip one trailing
      newline, split on newlines, un-escape each piece. */
  function Decode(content: string): (items: seq<string>)
    ensures |items| >= 1
    ensures |items| == |Split(StripTrailingNewline(content))|
  {
    var pieces := Split(StripTrailingNewline(content));
    seq(|pieces|, k requires 0 <= k < |pieces| => Unescape(pieces[k]))
  }

  /** What one `proc_append_state` adds to the state value: the escaped item and a newline. */
  function EncodeItem(x: string): string {
    Escape(x) + [NEWLINE]
  }

  /** The state value that appending `items` in order to an absent key leaves behind. */
  function Encode(items: seq<string>): string {
    if items == [] then [] else Encode(items[..|items| - 1]) + EncodeItem(items[|items| - 1])
  }

  /** The escaped items of a list, in order. */
  function EscapeAll(items: seq<string>): (r: seq<string>)
    ensures |r| == |items|
    ensures forall k :: 0 <= k < |r| ==> r[k] == Escape(items[k])
  {
    if items == [] then [] else EscapeAll(items[..|items| - 1]) + [Escape(items[|items| - 1])]
  }

  /** A non-empty encoded list is its escaped items joined by newlines, plus one newline. */
  lemma {:induction false} EncodeIsJoinedLines(items: seq<string>)
    requires |items| >= 1
    ensures Encode(items) == JoinLines(EscapeAll(items)) + [NEWLINE]
  {
    var init, last := items[..|items| - 1], items[|items| - 1];
    assert Encode(items) == Encode(init) + EncodeItem(last);
    assert EscapeAll(items) == EscapeAll(init) + [Escape(last)];
    if |items| > 1 {
      EncodeIsJoinedLines(init);
      JoinLinesSnoc(EscapeAll(init), Escape(last));
    } else {
      assert Encode(init) == [];
    }
  }

  /** Decoding an encoded non-empty list gives, item by item, the un-escaped escape. */
  lemma DecodeEncode(items: seq<string>)
    requires |items| >= 1
    ensures |Decode(Encode(items))| == |items|
    ensures forall k :: 0 <= k < |items| ==> Decode(Encode(items))[k] == Unescape(Escape(items[k]))
  {
    var escaped := EscapeAll(items);
    EncodeIsJoinedLines(items);
    var body := JoinLines(escaped);
    assert StripTrailingNewline(body + [NEWLINE]) == body;
    SplitJoinLines(escaped);
    var pieces := Split(StripTrailingNewline(Encode(items)));
    assert pieces == escaped;
    var decoded := Decode(Encode(items));
    assert |decoded| == |pieces|;
    forall k | 0 <= k < |items|
      ensures decoded[k] == Unescape(Escape(items[k]))
    {
      assert decoded[k] == Unescape(pieces[k]);
    }
  }

  /** The list round trip: a non-empty list decodes back to itself exactly when none of its
      items holds backslash-`n`. */
  lemma ListRoundTrip(items: seq<string>)
    requires |items| >= 1
    ensures Decode(Encode(items)) == items <==>
            forall k :: 0 <= k < |items| ==> !HoldsEscapeSequence(items[k])
  {
    var decoded := Decode(Encode(items));
    DecodeEncode(items);
    if forall k :: 0 <= k < |items| ==> !HoldsEscapeSequence(items[k]) {
      forall k | 0 <= k < |items|
        ensures decoded[k] == items[k]
      {
        UnescapeEscape(items[k]);
      }
      assert decoded == items;
    }
    if decoded == items {
      forall k | 0 <= k < |items|
        ensures !HoldsEscapeSequence(items[k])
      {
        UnescapeEscape(items[k]);
      }
    }
  }

  /** Items without any backslash always survive the list round trip, whatever newlines they
      hold. */
  lemma BackslashFreeRoundTrip(items: seq<string>)
    requires |items| >= 1
    requires forall k :: 0 <= k < |items| ==> BACKSLASH !in items[k]
    ensures Decode(Encode(items)) == items
  {
    forall k | 0 <= k < |items|
      ensures !HoldsEscapeSequence(items[k])
    {
      NoBackslashNoEscapeSequence(items[k]);
    }
    ListRoundTrip(items);
  }

  /** Appending one item to an encoded list encodes the longer list. */
  lemma EncodeSnoc(items: seq<string>, x: string)
    ensures Encode(items + [x]) == Encode(items) + EncodeItem(x)
  {
    assert (items + [x])[..|items|] == items;
  }

  /** A value of just one newline, the documented way to start an empty list, decodes to a
      list holding one empty item. */
  lemma DecodeNewlineOnly()
    ensures Decode([NEWLINE]) == [""]
  {
    assert StripTrailingNewline([NEWLINE]) == "";
    assert Split("") == [""];
  }

  /** An item that is exactly backslash, `n` comes back as a newline. */
  lemma EscapeSequenceAmbiguity()
    ensures Decode(Encode([[BACKSLASH, 'n']])) == [[NEWLINE]]
  {
    DecodeEncode([[BACKSLASH, 'n']]);
    assert Escape([BACKSLASH, 'n']) == [BACKSLASH, 'n'] by {
      assert Escape(['n']) == ['n'];
    }
    assert Unescape([BACKSLASH, 'n']) == [NEWLINE];
  }
}
