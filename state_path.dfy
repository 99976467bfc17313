/** Key addressing: where the state of a key lives for the current process's epoch.
    The file name is `macro_state_<key>_<epoch>` inside the state directory, with the
    epoch (the clock in nanoseconds at its first use in the process, a `u128`) written in
    decimal. */
module StatePath {

  /** One more than the largest value of Rust's `u128`. */
  const U128_LIMIT: int := 0x1_0000_0000_0000_0000_0000_0000_0000_0000

  /** The type of the compile-time epoch. */
  type U128 = n: nat | n < U128_LIMIT

  const FILE_PREFIX: string := "macro_state_"

  predicate IsDigit(c: char) {
    '0' <= c <= '9'
  }

  function DigitChar(d: nat): (c: char)
    requires d < 10
    ensures IsDigit(c) && c as int - '0' as int == d
  {
    ('0' as int + d) as char
  }

  /** The decimal rendering `format!("{}", n)` gives an unsigned integer: no sign,
      no leading zero, at least one digit. */
  function Decimal(n: nat): (s: string)
    ensures |s| >= 1
    ensures forall i :: 0 <= i < |s| ==> IsDigit(s[i])
    ensures n > 0 ==> s[0] != '0'
    decreases n
  {
    if n < 10 then [DigitChar(n)] else Decimal(n / 10) + [DigitChar(n % 10)]
  }

  function DigitValue(c: char): (d: nat)
    requires IsDigit(c)
    ensures d < 10 && DigitChar(d) == c
  {
    c as int - '0' as int
  }

  /** The number a string of decimal digits denotes: the reference reading of `Decimal`. */
  function DigitsValue(s: string): nat
    requires forall i :: 0 <= i < |s| ==> IsDigit(s[i])
  {
    if s == [] then 0
    else DigitsValue(s[..|s| - 1]) * 10 + DigitValue(s[|s| - 1])
  }

  /** Reading the decimal rendering of `n` gives `n` back. */
  lemma {:induction false} DecimalRoundTrip(n: nat)
    ensures DigitsValue(Decimal(n)) == n
    decreases n
  {
    if n >= 10 {
      var s := Decimal(n);
      assert s[..|s| - 1] == Decimal(n / 10);
      DecimalRoundTrip(n / 10);
    }
  }

  /** Distinct epochs are rendered differently. */
  lemma DecimalInjective(a: nat, b: nat)
    requires Decimal(a) == Decimal(b)
    ensures a == b
  {
    DecimalRoundTrip(a);
    DecimalRoundTrip(b);
  }

  /** `PathBuf::push` on Unix: an absolute component replaces the path, otherwise it is
      appended after a `/` unless the path is empty or already ends in one. */
  function Push(base: string, component: string): string {
    if component != [] && component[0] == '/' then component
    else if base == [] || base[|base| - 1] == '/' then base + component
    else base + "/" + component
  }

  /** Pushing a relative component keeps the path as a prefix and ends with the component;
      an absolute component replaces the path. */
  lemma PushShape(base: string, component: string)
    ensures component != [] && component[0] == '/' ==> Push(base, component) == component
    ensures (component == [] || component[0] != '/') ==>
              var p := Push(base, component);
              |p| >= |base| + |component| && p[..|base|] == base &&
              p[|p| - |component|..] == component
  {
  }

  /** `format!("macro_state_{}_{}", key, ctime)` */
  function FileName(key: string, epoch: U128): string {
    FILE_PREFIX + key + "_" + Decimal(epoch)
  }

  /** `state_file_path`: an empty `PathBuf`, pushed the state directory, then the file name. */
  function StateFilePath(stateDir: string, key: string, epoch: U128): string {
    Push(Push([], stateDir), FileName(key, epoch))
  }

  /** The state file of a key lies under the state directory and its name is the file name
      of the key and the epoch. */
  lemma StateFilePathShape(stateDir: string, key: string, epoch: U128)
    ensures var p := StateFilePath(stateDir, key, epoch);
            |p| > |stateDir| && p[..|stateDir|] == stateDir &&
            p[|p| - |FileName(key, epoch)|..] == FileName(key, epoch)
  {
    var name := FileName(key, epoch);
    assert name[0] == 'm';
    PushShape([], stateDir);
    PushShape(Push([], stateDir), name);
  }

  /** In `a + "_" + d` with `d` all digits, the `_` sits just before `d` and every later
      character is a digit. */
  lemma UnderscoreBeforeDigits(a: string, d: string)
    requires forall i :: 0 <= i < |d| ==> IsDigit(d[i])
    ensures (a + "_" + d)[|a|] == '_'
    ensures forall j :: |a| < j < |a| + 1 + |d| ==> IsDigit((a + "_" + d)[j])
  {
    var n := a + "_" + d;
    forall j | |a| < j < |n|
      ensures IsDigit(n[j])
    {
      assert n[j] == d[j - |a| - 1];
    }
  }

  /** The file name determines both the key and the epoch: the last `_` of the name is
      the one before the epoch, because a decimal rendering holds no `_`. */
  lemma FileNameInjective(k1: string, e1: U128, k2: string, e2: U128)
    requires FileName(k1, e1) == FileName(k2, e2)
    ensures k1 == k2 && e1 == e2
  {
    var a1, a2 := FILE_PREFIX + k1, FILE_PREFIX + k2;
    var d1, d2 := Decimal(e1), Decimal(e2);
    var n := a1 + "_" + d1;
    assert n == a2 + "_" + d2;
    UnderscoreBeforeDigits(a1, d1);
    UnderscoreBeforeDigits(a2, d2);
    if |d1| < |d2| {
      assert false;
    } else if |d2| < |d1| {
      assert false;
    }
    assert d1 == n[|a1| + 1..] == d2;
    assert k1 == n[|FILE_PREFIX|..|a1|] == k2;
    DecimalInjective(e1, e2);
  }

  /** Within one state directory, two (key, epoch) pairs share a state file only when they
      are the same pair: distinct keys never collide under one epoch, and a file made under
      one epoch is never the file of a different epoch, whatever the keys. Nothing here makes
      two processes read different epochs. */
  lemma StateFilePathInjective(stateDir: string, k1: string, e1: U128, k2: string, e2: U128)
    requires StateFilePath(stateDir, k1, e1) == StateFilePath(stateDir, k2, e2)
    ensures k1 == k2 && e1 == e2
  {
    var base := Push([], stateDir);
    var n1, n2 := FileName(k1, e1), FileName(k2, e2);
    assert n1[0] == 'm' && n2[0] == 'm';
    if base == [] || base[|base| - 1] == '/' {
      assert n1 == (base + n1)[|base|..] == (base + n2)[|base|..] == n2;
    } else {
      assert n1 == (base + "/" + n1)[|base| + 1..] == (base + "/" + n2)[|base| + 1..] == n2;
    }
    FileNameInjective(k1, e1, k2, e2);
  }
}
