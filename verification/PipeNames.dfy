/** Pipe names (Kernel/pipefs.c, Kernel/myStdLib.c): "<from>-<to>" in decimal, where the
    number zero prints as nothing. */
module PipeNames {
  import opened Bytes
  import opened MyMath
  import opened Pipe

  const NAME_SIZE: nat := 50
  const DASH: byte := 45
  const ZERO: byte := 48

  /** The digits itoa leaves in the string. */
  function Digits(n: nat): (r: seq<byte>)
    ensures forall c | c in r :: ZERO <= c < ZERO + 10
  {
    if n == 0 then [] else Digits(n / 10) + [n % 10 + ZERO]
  }

  function Name(fromPid: nat, toPid: nat): seq<byte> {
    Digits(fromPid) + [DASH] + Digits(toPid)
  }

  /** The loop of getReceiverPid, in 32-bit arithmetic. */
  function ValueOf(s: seq<byte>): int {
    if s == [] then 0 else Int32(Int32(ValueOf(s[..|s| - 1]) * 10) + s[|s| - 1] - ZERO)
  }

  function Receiver(s: seq<byte>): int {
    if s == [] then 0 else if s[0] == DASH then ValueOf(s[1..]) else Receiver(s[1..])
  }

  lemma {:induction false} ValueOfDigits(n: nat)
    requires n <= INT_MAX
    ensures ValueOf(Digits(n)) == n
  {
    if n == 0 {
    } else {
      ValueOfDigits(n / 10);
      assert Digits(n)[..|Digits(n)| - 1] == Digits(n / 10);
    }
  }

  lemma {:induction false} ReceiverSkips(s: seq<byte>, t: seq<byte>)
    requires DASH !in s
    ensures Receiver(s + [DASH] + t) == ValueOf(t)
  {
    if s == [] {
      assert ([DASH] + t)[1..] == t;
      assert s + [DASH] + t == [DASH] + t;
    } else {
      ReceiverSkips(s[1..], t);
      assert (s + [DASH] + t)[1..] == s[1..] + [DASH] + t;
    }
  }

  /** The receiver is read back from any name createName makes. */
  lemma ReceiverOfName(fromPid: nat, toPid: nat)
    requires toPid <= INT_MAX
    ensures Receiver(Name(fromPid, toPid)) == toPid
  {
    ReceiverSkips(Digits(fromPid), Digits(toPid));
    ValueOfDigits(toPid);
  }

  /** "12-305", and "-7" for a sender 0. */
  lemma NamesAreDecimal()
    ensures Name(12, 305) == [49, 50, 45, 51, 48, 53] && Name(0, 7) == [45, 55]
  {
    assert Digits(1) == [49] && Digits(12) == [49, 50];
    assert Digits(3) == [51] && Digits(30) == [51, 48] && Digits(305) == [51, 48, 53];
  }

  /** Two pid pairs never share a name. */
  lemma NameIsInjective(a: nat, b: nat, c: nat, d: nat)
    requires a <= INT_MAX && b <= INT_MAX && c <= INT_MAX && d <= INT_MAX
    requires Name(a, b) == Name(c, d)
    ensures a == c && b == d
  {
    ReceiverOfName(a, b);
    ReceiverOfName(c, d);
    assert |Digits(a)| == |Digits(c)|;
    assert Digits(a) == Name(a, b)[..|Digits(a)|] && Digits(c) == Name(c, d)[..|Digits(c)|];
    ValueOfDigits(a);
    ValueOfDigits(c);
  }

  function Pow10(k: nat): nat {
    if k == 0 then 1 else 10 * Pow10(k - 1)
  }

  lemma {:induction false} DigitsFit(n: nat, k: nat)
    requires n < Pow10(k)
    ensures |Digits(n)| <= k
  {
    if n == 0 {
    } else {
      DigitsFit(n / 10, k - 1);
    }
  }

  lemma PidDigits(pid: nat)
    requires pid <= INT_MAX
    ensures |Digits(pid)| <= 10
  {
    assert Pow10(5) == 100_000;
    assert Pow10(10) == 10_000_000_000;
    DigitsFit(pid, 10);
  }

  // The C functions

  method IntLength(number: nat) returns (length: nat)
    ensures length == |Digits(number)|
  {
    length := 0;
    var n: nat := number;
    while n != 0
      invariant length + |Digits(n)| == |Digits(number)|
    {
      n := n / 10;
      length := length + 1;
    }
  }

  /** itoa into str from position `at` on. */
  method Itoa(value: nat, str: array<byte>, at: nat) returns (length: nat)
    requires at + |Digits(value)| + 1 < str.Length
    modifies str
    ensures length == |Digits(value)| && str[at..at + length] == Digits(value) && str[at + length] == 0
    ensures str[..at] == old(str[..at])
  {
    length := IntLength(value);
    var aux := length;
    if length == 0 {
      str[at] := ZERO;
      str[at + 1] := 0;
    }
    str[at + length] := 0;
    var v: nat := value;
    while aux != 0
      invariant 0 <= aux <= length && aux == |Digits(v)| && str[at + length] == 0
      invariant Digits(v) + str[at + aux..at + length] == Digits(value)
      invariant str[..at] == old(str[..at])
    {
      ghost var tail := str[at + aux..at + length];
      str[at + aux - 1] := v % 10 + ZERO;
      assert str[at + aux - 1..at + length] == [v % 10 + ZERO] + tail;
      v := v / 10;
      aux := aux - 1;
    }
  }

  method CreateName(fromPid: nat, toPid: nat, name: array<byte>)
    requires fromPid <= INT_MAX && toPid <= INT_MAX && name.Length == NAME_SIZE
    modifies name
    ensures 0 in name[..] && CString(name[..]) == Name(fromPid, toPid)
  {
    PidDigits(fromPid);
    PidDigits(toPid);
    var i := Itoa(fromPid, name, 0);
    name[i] := DASH;
    i := i + 1;
    ghost var front := name[..i];
    assert front == Digits(fromPid) + [DASH];
    var n := Itoa(toPid, name, i);
    assert name[..i + n] == name[..i] + name[i..i + n] == Name(fromPid, toPid);
    CStringIs(name[..], Name(fromPid, toPid));
  }

  lemma {:induction false} CStringIs(s: seq<byte>, t: seq<byte>)
    requires |t| < |s| && s[..|t|] == t && s[|t|] == 0 && 0 !in t
    ensures CString(s) == t
  {
    if t == [] {
    } else {
      assert t[0] == s[0] && s[1..][..|t[1..]|] == t[1..];
      CStringIs(s[1..], t[1..]);
    }
  }

  /** Leaves i just past the first dash. */
  method SkipSender(name: seq<byte>, ghost s: seq<byte>) returns (i: nat)
    requires |s| < |name| && name[..|s|] == s && DASH in s
    ensures i <= |s| && Receiver(s) == ValueOf(s[i..])
  {
    hide ValueOf;
    i := 0;
    assert s[0..] == s;
    while name[i] != DASH
      invariant i < |s| && DASH in s[i..]
      invariant Receiver(s[i..]) == Receiver(s)
      decreases |s| - i
    {
      assert name[i] == name[..|s|][i] == s[i..][0] && s[i..][1..] == s[i + 1..];
      i := i + 1;
    }
    assert name[i] == name[..|s|][i] == s[i..][0] && s[i..][1..] == s[i + 1..];
    i := i + 1;
  }

  lemma EmptyValue()
    ensures ValueOf([]) == 0
  {
  }

  lemma NextDigit(s: seq<byte>, start: nat, i: nat)
    requires start <= i < |s|
    ensures ValueOf(s[start..i + 1]) == Int32(Int32(ValueOf(s[start..i]) * 10) + s[i] - ZERO)
  {
    hide Int32;
    assert s[start..i + 1][..i - start] == s[start..i];
  }

  method GetReceiverPid(name: seq<byte>) returns (pid: int)
    requires 0 in name && DASH in CString(name)
    ensures pid == Receiver(CString(name))
  {
    hide Receiver, Int32, CString, ValueOf;
    ghost var s := CString(name);
    var i := SkipSender(name, s);
    pid := 0;
    ghost var start: nat := i;
    EmptyValue();
    assert s[start..start] == [];
    while name[i] != 0
      invariant start <= i <= |s|
      invariant pid == ValueOf(s[start..i])
      decreases |s| - i
    {
      NextDigit(s, start, i);
      pid := Int32(pid * 10);
      pid := Int32(pid + name[i] - ZERO);
      i := i + 1;
    }
    assert s[start..i] == s[start..];
  }

  method EqualName(str1: seq<byte>, str2: seq<byte>) returns (r: bool)
    requires 0 in str1 && 0 in str2
    ensures r <==> CString(str1) == CString(str2)
  {
    ghost var a, b := CString(str1), CString(str2);
    hide CString;
    var i := 0;
    while str1[i] != 0 && str1[i] == str2[i]
      invariant 0 <= i <= |a| && i <= |b| && forall k | 0 <= k < i :: a[k] == b[k]
      decreases |a| - i
    {
      i := i + 1;
    }
    r := str1[i] == str2[i];
  }
}
