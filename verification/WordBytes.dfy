/** The numbers that bytes stand for, the low byte first, without the functions that pack and unpack them. Two,
    three and four bytes are sums of bytes times powers of 256, and the lemmas tie these sums to packing and
    unpacking, so that the layout of a file can be told by offsets and numbers alone. */
module WordBytes {
  import opened Bytes

  function Two(s: seq<byte>, i: nat): nat
    requires i + 2 <= |s|
  {
    var lo: nat, hi: nat := s[i], s[i + 1];
    lo + 256 * hi
  }

  function Three(s: seq<byte>, i: nat): nat
    requires i + 3 <= |s|
  {
    var top: nat := s[i + 2];
    Two(s, i) + 65536 * top
  }

  function Four(s: seq<byte>, i: nat): nat
    requires i + 4 <= |s|
  {
    var top: nat := s[i + 3];
    Three(s, i) + 0x100_0000 * top
  }

  predicate AllZero(d: seq<byte>, from: nat, to: nat) {
    to <= |d| && forall i :: from <= i < to ==> d[i] == 0
  }

  lemma {:induction false} TwoBytes(s: seq<byte>, i: nat)
    requires i + 2 <= |s|
    ensures FromLE(s[i..i + 2]) == Two(s, i) < 0x1_0000
  {
    assert s[i..i + 2][1..] == [s[i + 1]];
    assert FromLE([s[i + 1]]) == s[i + 1];
  }

  lemma {:induction false} FourBytes(d: seq<byte>, i: nat)
    requires i + 4 <= |d|
    ensures FromLE(d[i..i + 4]) == Four(d, i) < 0x1_0000_0000
  {
    var s := d[i..i + 4];
    assert s[1..][1..] == [s[2], s[3]] && s[1..][1..][1..] == [s[3]];
    assert FromLE([s[3]]) == s[3];
    assert FromLE([s[2], s[3]]) == s[2] + 256 * FromLE([s[3]]);
    assert FromLE(s[1..]) == s[1] + 256 * FromLE([s[2], s[3]]);
  }

  lemma {:induction false} OneByte(n: nat)
    requires n < 256
    ensures ToLE(n, 1) == [n]
  {
    assert ToLE(n / 256, 0) == [];
  }

  lemma {:induction false} TwoWritten(n: nat)
    requires n < 0x1_0000
    ensures Two(ToLE(n, 2), 0) == n
  {
    OneByte(n / 256);
  }

  lemma {:induction false} FourWritten(n: nat)
    requires n < 0x1_0000_0000
    ensures Four(ToLE(n, 4), 0) == n
  {
    assert ToLE(n, 4) == [n % 256] + ToLE(n / 256, 3);
    assert ToLE(n / 256, 3) == [n / 256 % 256] + ToLE(n / 256 / 256, 2);
    assert ToLE(n / 256 / 256, 2) == [n / 256 / 256 % 256] + ToLE(n / 256 / 256 / 256, 1);
    OneByte(n / 256 / 256 / 256);
  }

  lemma {:induction false} SameTwo(d: seq<byte>, at: nat, s: seq<byte>, n: nat)
    requires at + 2 <= |d| && |s| == 2 && d[at..at + 2] == s && Two(s, 0) == n
    ensures Two(d, at) == n
  {
    assert d[at] == s[0] && d[at + 1] == s[1];
  }

  lemma {:induction false} SameFour(d: seq<byte>, at: nat, s: seq<byte>, n: nat)
    requires at + 4 <= |d| && |s| == 4 && d[at..at + 4] == s && Four(s, 0) == n
    ensures Four(d, at) == n
  {
    assert d[at] == s[0] && d[at + 1] == s[1] && d[at + 2] == s[2] && d[at + 3] == s[3];
  }
}
