/** crates/grader_lib/src/sandbox.rs: the allocation-free decimal printer and the write loop that run
    between fork and exec. */
module Sandbox {
  import opened Wrappers

  newtype byte = x: int | 0 <= x < 256
  newtype int32 = x: int | -0x8000_0000 <= x < 0x8000_0000

  const BUFFER: nat := 24
  const ZERO: byte := 48
  const NEWLINE: byte := 10

  function Digit(d: nat): byte
    requires d < 10
  {
    ZERO + d as byte
  }

  /** The decimal digits of a positive number, most significant first. */
  function Digits(n: nat): seq<byte> {
    if n == 0 then [] else Digits(n / 10) + [Digit(n % 10)]
  }

  /** What `itoa_pid` renders. */
  function Rendered(pid: int): seq<byte> {
    (if pid <= 0 then [ZERO] else Digits(pid)) + [NEWLINE]
  }

  predicate AreDigits(s: seq<byte>) {
    forall i :: 0 <= i < |s| ==> 48 <= s[i] <= 57
  }

  /** Decimal digits without a leading zero. */
  predicate Canonical(s: seq<byte>) {
    s != [] && s[0] != 48 && AreDigits(s)
  }

  /** Reading decimal digits. */
  function ValueOf(s: seq<byte>): nat
    requires AreDigits(s)
  {
    if s == [] then 0 else 10 * ValueOf(s[..|s| - 1]) + (s[|s| - 1] - 48) as nat
  }

  lemma {:induction false} DigitsAreDigits(n: nat)
    ensures AreDigits(Digits(n))
    ensures n > 0 ==> Canonical(Digits(n))
    decreases n
  {
    if n > 0 { DigitsAreDigits(n / 10); }
  }

  /** The rendering reads back as the number. */
  lemma {:induction false} DigitsReadBack(n: nat)
    ensures AreDigits(Digits(n)) && ValueOf(Digits(n)) == n
    decreases n
  {
    DigitsAreDigits(n);
    if n > 0 {
      DigitsReadBack(n / 10);
      assert Digits(n)[..|Digits(n)| - 1] == Digits(n / 10);
    }
  }

  /** No other canonical digits read as that number. */
  lemma {:induction false} DigitsAreUnique(s: seq<byte>)
    requires Canonical(s)
    ensures Digits(ValueOf(s)) == s
    decreases |s|
  {
    var front, d := s[..|s| - 1], s[|s| - 1];
    assert s == front + [d];
    var low := (d - 48) as nat;
    if front == [] {
      assert ValueOf(s) == low && low / 10 == 0 && low % 10 == low;
      assert Digits(low / 10) == [];
      assert Digits(low) == [] + [Digit(low)];
    } else {
      DigitsAreUnique(front);
      assert ValueOf(s) / 10 == ValueOf(front) && ValueOf(s) % 10 == low;
      assert Digits(0) == [];
    }
  }

  lemma {:induction false} DigitsLength(n: nat, k: nat, bound: nat)
    requires n < bound && bound == Pow10(k)
    ensures |Digits(n)| <= k
    decreases k
  {
    if n > 0 {
      assert k > 0;
      DigitsLength(n / 10, k - 1, Pow10(k - 1));
    }
  }

  function Pow10(k: nat): nat {
    if k == 0 then 1 else 10 * Pow10(k - 1)
  }

  lemma PidFits(pid: int32)
    ensures |Rendered(pid as int)| <= 11
  {
    assert Pow10(10) == 10000000000 by {
      assert Pow10(5) == 100000;
      assert Pow10(8) == 1000 * Pow10(5);
    }
    if pid > 0 { DigitsLength(pid as nat, 10, Pow10(10)); }
  }

  function Reversed(s: seq<byte>): seq<byte> {
    if s == [] then [] else [s[|s| - 1]] + Reversed(s[..|s| - 1])
  }

  lemma {:induction false} ReversedLength(s: seq<byte>)
    ensures |Reversed(s)| == |s|
    decreases |s|
  {
    if s != [] { ReversedLength(s[..|s| - 1]); }
  }

  /** The first loop of `itoa_pid`: the digits from the last to the first. */
  method FillReversed(rev: array<byte>, getpid: int32) returns (revLen: nat)
    requires rev.Length == BUFFER
    modifies rev
    ensures revLen <= 10 && Reversed(rev[..revLen]) == if getpid <= 0 then [] else Digits(getpid as nat)
  {
    var pid := getpid;
    revLen := 0;
    ghost var target := if getpid <= 0 then [] else Digits(getpid as nat);
    PidFits(getpid);
    while pid > 0
      invariant 0 <= revLen <= |target| <= 10
      invariant target == (if pid <= 0 then [] else Digits(pid as nat)) + Reversed(rev[..revLen])
      decreases pid
    {
      ghost var before, p := rev[..revLen], pid as nat;
      ReversedLength(before);
      assert Digits(p) == Digits(p / 10) + [Digit(p % 10)];
      assert target == Digits(p / 10) + ([Digit(p % 10)] + Reversed(before));
      assert |target| == |Digits(p)| + revLen;
      rev[revLen] := ZERO + (pid % 10) as byte;
      pid := pid / 10;
      revLen := revLen + 1;
      assert rev[..revLen][..revLen - 1] == before;
      assert Reversed(rev[..revLen]) == [rev[revLen - 1]] + Reversed(before);
      assert pid as nat == p / 10 && rev[revLen - 1] == Digit(p % 10);
      assert pid == 0 ==> Digits(p / 10) == [];
    }
    assert [] + Reversed(rev[..revLen]) == Reversed(rev[..revLen]);
  }

  /** The second loop: the digits in reading order behind what `digits` has already. */
  method CopyBack(digits: array<byte>, len0: nat, rev: array<byte>, revLen0: nat) returns (len: nat)
    requires digits != rev && revLen0 <= rev.Length && len0 + revLen0 <= digits.Length
    modifies digits
    ensures len == len0 + revLen0
    ensures digits[..len] == old(digits[..len0]) + Reversed(rev[..revLen0])
  {
    len := len0;
    var revLen := revLen0;
    ghost var target := digits[..len0] + Reversed(rev[..revLen0]);
    while revLen > 0
      invariant 0 <= revLen <= revLen0 && len + revLen == len0 + revLen0
      invariant digits[..len] + Reversed(rev[..revLen]) == target
    {
      ghost var done, rest := digits[..len], rev[..revLen];
      revLen := revLen - 1;
      assert rest[..revLen] == rev[..revLen];
      digits[len] := rev[revLen];
      len := len + 1;
      assert digits[..len] == done + [rev[revLen]];
    }
    assert digits[..len] + [] == digits[..len];
  }

  /** `itoa_pid`: every index stays inside the two buffers, and the bytes up to the length returned are
      the rendering of the pid. */
  method ItoaPid(getpid: int32) returns (digits: array<byte>, len: nat)
    ensures digits.Length == 24 && 2 <= len <= 24 && digits[..len] == Rendered(getpid as int)
    ensures digits[len - 1] == 10 && AreDigits(digits[..len - 1])
    ensures getpid > 0 ==> Canonical(digits[..len - 1]) && ValueOf(digits[..len - 1]) == getpid as nat
    ensures getpid <= 0 ==> digits[..len] == [48, 10]
  {
    digits := new byte[BUFFER](_ => 0);
    var rev := new byte[BUFFER](_ => 0);
    len := 0;
    if getpid <= 0 {
      digits[0] := ZERO;
      len := 1;
      assert digits[..len] == [ZERO];
    }
    ghost var head := digits[..len];
    var revLen := FillReversed(rev, getpid);
    assert digits[..len] == head;
    len := CopyBack(digits, len, rev, revLen);
    ghost var done := digits[..len];
    RenderedParts(getpid, head, done);
    digits[len] := NEWLINE;
    len := len + 1;
    assert digits[..len] == done + [NEWLINE] && digits[..len - 1] == done;
    if getpid > 0 {
      DigitsReadBack(getpid as nat);
      DigitsAreDigits(getpid as nat);
      assert done == Digits(getpid as nat);
    } else {
      assert done == [ZERO];
    }
  }

  lemma RenderedParts(pid: int32, head: seq<byte>, done: seq<byte>)
    requires head == if pid <= 0 then [ZERO] else []
    requires done == head + if pid <= 0 then [] else Digits(pid as nat)
    ensures done + [NEWLINE] == Rendered(pid as int)
  {
    if pid <= 0 { assert done == [ZERO]; } else { assert done == Digits(pid as nat); }
  }

  // ---- The write loop ----

  /** What one `write` call does: takes up to `k` bytes, is interrupted, or fails. */
  datatype Reply = Wrote(k: nat) | Interrupted | Failed

  /** `write_all` against the kernel's replies. `sink` is what the kernel accepted; `done` is `None` while
      the replies run out before the loop ends. */
  method WriteAll(openOk: bool, data: seq<byte>, kernel: seq<Reply>) returns (done: Option<bool>, sink: seq<byte>)
    ensures sink <= data
    ensures done == Some(true) <==> openOk && sink == data
    ensures done == Some(false) ==> !openOk || (sink != data && (Failed in kernel || Wrote(0) in kernel))
    ensures done == None ==> openOk && Failed !in kernel && Wrote(0) !in kernel
  {
    sink := [];
    if !openOk {
      return Some(false), sink;
    }
    var written := 0;
    var i := 0;
    while written < |data|
      invariant 0 <= i <= |kernel| && 0 <= written <= |data|
      invariant sink == data[..written]
      invariant forall j :: 0 <= j < i ==> kernel[j] != Failed && kernel[j] != Wrote(0)
      decreases |kernel| - i
    {
      if i == |kernel| {
        return None, sink;
      }
      var reply := kernel[i];
      if reply.Interrupted? {
        i := i + 1;
        continue;
      }
      var n := if reply.Failed? then 0 else if reply.k <= |data| - written then reply.k else |data| - written;
      if n <= 0 {
        return Some(false), sink;
      }
      sink := sink + data[written..written + n];
      written := written + n;
      i := i + 1;
    }
    return Some(true), sink;
  }
}
