/**
 * The allocation-free string builder used by the SIGTERM handler
 * (src/gitstatus.cc:154-185).
 *
 * A `char*` into the caller's buffer is modelled as an index `out` into an
 * `array<char>`; the pointer each overload returns is the index just past
 * the last character it wrote. The buffer must have room for what is
 * written, as in C; nothing outside the written range changes.
 */
module StrAppend {
  import opened DecimalText

  const NUL: char := '\0'

  /** A C string literal: its characters followed by the terminating NUL. */
  function CString(s: seq<char>): (c: seq<char>)
    requires NUL !in s
    ensures NUL in c
  {
    s + [NUL]
  }

  /** `strlen`: the index of the first NUL. */
  function CStrLen(s: seq<char>): (k: nat)
    requires NUL in s
    ensures k < |s| && s[k] == NUL
    ensures forall j :: 0 <= j < k ==> s[j] != NUL
  {
    if s[0] == NUL then 0 else 1 + CStrLen(s[1..])
  }

  lemma CStrLenOfLiteral(s: seq<char>)
    requires NUL !in s
    ensures CStrLen(CString(s)) == |s|
    ensures CString(s)[..|s|] == s
  {
  }

  /**
   * `StrAppend(char* out, const char* s)`: copies the characters of `s`
   * before its terminator to `a[out..]`, writes no terminator, and returns
   * the index just past the copy.
   */
  method AppendCString(a: array<char>, out: nat, s: seq<char>) returns (res: nat)
    requires NUL in s
    requires out + CStrLen(s) <= a.Length
    modifies a
    ensures res == out + CStrLen(s)
    ensures a[out..res] == s[..CStrLen(s)]
    ensures a[..out] == old(a[..out]) && a[res..] == old(a[res..])
  {
    ghost var len := CStrLen(s);
    var i := 0;
    while s[i] != NUL
      invariant i <= len
      invariant a[out..out + i] == s[..i]
      invariant forall j :: 0 <= j < a.Length && !(out <= j < out + i) ==> a[j] == old(a[j])
      decreases len - i
    {
      a[out + i] := s[i];
      i := i + 1;
    }
    res := out + i;
  }

  /**
   * `StrAppend(char* out, uint64_t n)`: writes the decimal text of `n` to
   * `a[out..]` and returns the index just past its last digit. Its two
   * loops are `EmitDigits` and `SwapEnds`.
   */
  method AppendUint64(a: array<char>, out: nat, n: nat) returns (res: nat)
    requires n < Uint64Limit
    requires out + NumDigits(n) <= a.Length
    modifies a
    ensures res == out + NumDigits(n)
    ensures a[out..res] == Decimal(n)
    ensures a[..out] == old(a[..out]) && a[res..] == old(a[res..])
  {
    res := EmitDigits(a, out, n);
    SwapEnds(a, out, res);
    ReversedLsdFirst(n);
  }

  /**
   * The do-while loop of the numeric `StrAppend`: writes `'0' + n % 10` and
   * divides `n` by ten until it is zero, at least once, so the digits land
   * least significant first and zero gives "0".
   */
  method EmitDigits(a: array<char>, out: nat, n: nat) returns (p: nat)
    requires out + NumDigits(n) <= a.Length
    modifies a
    ensures p == out + NumDigits(n)
    ensures a[out..p] == LsdFirst(n)
    ensures forall i :: 0 <= i < a.Length && !(out <= i < p) ==> a[i] == old(a[i])
  {
    LsdFirstLength(n);
    p := out;
    var m := n;
    // The body runs once before the condition is first tested ...
    a[p] := DigitChar(m % 10);
    p := p + 1;
    m := m / 10;
    // ... and then for as long as digits remain.
    while m != 0
      invariant out < p <= a.Length
      invariant a[out..p] + Digits(m) == LsdFirst(n)
      invariant forall i :: 0 <= i < a.Length && !(out <= i < p) ==> a[i] == old(a[i])
    {
      DigitsLength(m);
      ghost var done := a[out..p];
      a[p] := DigitChar(m % 10);
      assert a[out..p + 1] == done + [DigitChar(m % 10)];
      p := p + 1;
      m := m / 10;
    }
  }

  /**
   * The swap loop of the numeric `StrAppend`: `std::swap(*out++, *--p)`
   * while more than one character lies between the two pointers, which
   * reverses `a[out..res]` in place.
   */
  method SwapEnds(a: array<char>, out: nat, res: nat)
    requires out <= res <= a.Length
    modifies a
    ensures a[out..res] == Reversed(old(a[out..res]))
    ensures forall i :: 0 <= i < a.Length && !(out <= i < res) ==> a[i] == old(a[i])
  {
    var lo, p := out, res;
    while p - lo > 1
      invariant out <= lo <= p <= res
      invariant lo - out == res - p
      invariant forall i :: out <= i < lo ==> a[i] == old(a[res - 1 - i + out])
      invariant forall i :: p <= i < res ==> a[i] == old(a[res - 1 - i + out])
      invariant forall i :: 0 <= i < a.Length && !(out <= i < lo || p <= i < res) ==> a[i] == old(a[i])
    {
      p := p - 1;
      a[lo], a[p] := a[p], a[lo];
      lo := lo + 1;
    }
    ReversedInPlace(old(a[out..res]), a[out..res]);
  }

  // ---------------------------------------------------------------------
  // The message the SIGTERM handler writes to stderr (src/gitstatus.cc:175-182)

  /** Size of the handler's zero-initialised `char msg[64]`. */
  const MessageBufferSize: nat := 64

  /** Signal numbers `sigaction` accepts on Linux are 1..64. */
  const MaxSignal: nat := 64

  const Received := "Received signal "
  const FromPid := " from pid "
  const Period := ".\n"

  /** Conversion of a signed integer to `uint64_t`: reduction modulo 2^64. */
  function ToUint64(x: int): (r: nat)
    ensures r < Uint64Limit
    ensures 0 <= x < Uint64Limit ==> r == x
    ensures x < 0 && -x <= Uint64Limit ==> r == Uint64Limit + x
  {
    x % Uint64Limit
  }

  /** The text the handler composes for signal `signal` sent by process `pid`. */
  function SignalMessage(signal: int, pid: int): (text: seq<char>)
  {
    Received + Decimal(ToUint64(signal)) + FromPid + Decimal(ToUint64(pid)) + Period
  }

  predicate AllNul(s: seq<char>) {
    forall i :: 0 <= i < |s| ==> s[i] == NUL
  }

  lemma MessageLiterals()
    ensures NUL !in Received && NUL !in FromPid && NUL !in Period
    ensures CStrLen(CString(Received)) == 16 && CString(Received)[..16] == Received
    ensures CStrLen(CString(FromPid)) == 10 && CString(FromPid)[..10] == FromPid
    ensures CStrLen(CString(Period)) == 2 && CString(Period)[..2] == Period
  {
  }

  /**
   * One append step of the handler: if the buffer held `text` followed by
   * zeros and the append wrote `piece` at `p..q` and changed nothing else,
   * it now holds `text + piece` followed by zeros.
   */
  lemma AppendKeepsZeroTail(before: seq<char>, after: seq<char>, p: nat, q: nat, text: seq<char>, piece: seq<char>)
    requires p <= q <= |before| == |after|
    requires before[..p] == text && AllNul(before[p..])
    requires after[..p] == before[..p] && after[q..] == before[q..] && after[p..q] == piece
    ensures after[..q] == text + piece && AllNul(after[q..])
  {
  }

  /**
   * The handler's message composition: five appends into a zeroed 64-byte
   * buffer, of which the first `len` bytes are then written to stderr.
   * Whatever the sender's pid (a negative `pid_t` wraps to twenty digits),
   * the message takes at most 50 bytes, so no append runs past the buffer
   * and its tail stays zero.
   */
  method TrapMessage(signal: int, pid: int) returns (msg: array<char>, len: nat)
    requires 1 <= signal <= MaxSignal
    ensures msg.Length == MessageBufferSize
    ensures len <= 50
    ensures msg[..len] == SignalMessage(signal, pid)
    ensures AllNul(msg[len..])
  {
    msg := new char[MessageBufferSize](_ => NUL);
    var sig := ToUint64(signal);
    var from := ToUint64(pid);
    assert Pow10(2) == 100;
    FitsInDigits(sig, 2);
    Uint64HasAtMost20Digits(from);
    MessageLiterals();

    ghost var text: seq<char> := [];
    ghost var before := msg[..];
    var p := 0;
    var q := AppendCString(msg, p, CString(Received));
    AppendKeepsZeroTail(before, msg[..], p, q, text, Received);
    text, p, before := text + Received, q, msg[..];
    q := AppendUint64(msg, p, sig);
    AppendKeepsZeroTail(before, msg[..], p, q, text, Decimal(sig));
    text, p, before := text + Decimal(sig), q, msg[..];
    q := AppendCString(msg, p, CString(FromPid));
    AppendKeepsZeroTail(before, msg[..], p, q, text, FromPid);
    text, p, before := text + FromPid, q, msg[..];
    q := AppendUint64(msg, p, from);
    AppendKeepsZeroTail(before, msg[..], p, q, text, Decimal(from));
    text, p, before := text + Decimal(from), q, msg[..];
    q := AppendCString(msg, p, CString(Period));
    AppendKeepsZeroTail(before, msg[..], p, q, text, Period);
    len := q;
  }

  /** A negative pid is written as its 64-bit two's complement: twenty digits. */
  lemma NegativePidTakesTwentyDigits(pid: int)
    requires -0x8000_0000 <= pid < 0
    ensures |Decimal(ToUint64(pid))| == 20
  {
    var u := ToUint64(pid);
    Pow10Twenty();
    NumDigitsBounds(u);
    Uint64HasAtMost20Digits(u);
    if NumDigits(u) < 20 {
      PowMonotone(NumDigits(u), 19);
    }
    DecimalLength(u);
  }
}
