/** Bytes, big-endian fields, and the small sequence facts every module below uses. */
module Bytes {
  type byte = b: int | 0 <= b < 0x100
  type uint16 = w: int | 0 <= w < 0x1_0000
  type uint32 = w: int | 0 <= w < 0x1_0000_0000

  datatype Option<+T> = None | Some(value: T)
  /** What a fallible operation comes to; `Panic` is an index the program does not check. */
  datatype Result<+T> = Ok(value: T) | Err | Panic

  function Min(a: nat, b: nat): (m: nat)
    ensures m <= a && m <= b && (m == a || m == b)
  {
    if a < b then a else b
  }

  function Be16(s: seq<byte>, at: nat): (w: uint16)
    requires at + 2 <= |s|
  {
    (s[at] as int) * 0x100 + s[at + 1] as int
  }

  function Be24(s: seq<byte>, at: nat): (w: nat)
    requires at + 3 <= |s|
    ensures w < 0x100_0000
  {
    (s[at] as int) * 0x1_0000 + (s[at + 1] as int) * 0x100 + s[at + 2] as int
  }

  function Be32(s: seq<byte>, at: nat): (w: uint32)
    requires at + 4 <= |s|
  {
    (Be16(s, at) as int) * 0x1_0000 + Be16(s, at + 2) as int
  }

  function Put16(w: uint16): (s: seq<byte>)
    ensures |s| == 2 && Be16(s, 0) == w
  {
    [w / 0x100, w % 0x100]
  }

  function Put24(w: nat): (s: seq<byte>)
    requires w < 0x100_0000
    ensures |s| == 3 && Be24(s, 0) == w
  {
    [w / 0x1_0000, w / 0x100 % 0x100, w % 0x100]
  }

  function Put32(w: uint32): (s: seq<byte>)
    ensures |s| == 4 && Be32(s, 0) == w
  {
    var hi, lo := Put16(w / 0x1_0000), Put16(w % 0x1_0000);
    [hi[0], hi[1], lo[0], lo[1]]
  }

  /** `n` zero bytes. */
  function Zeros(n: nat): (s: seq<byte>)
    ensures |s| == n && forall i :: 0 <= i < n ==> s[i] == 0
  {
    seq(n, i => 0)
  }

  /** `s` with `b` over it from `at` on. */
  function Overwrite(s: seq<byte>, at: nat, b: seq<byte>): (r: seq<byte>)
    requires at + |b| <= |s|
    ensures |r| == |s|
    ensures forall i :: 0 <= i < |s| ==> r[i] == if at <= i < at + |b| then b[i - at] else s[i]
  {
    s[..at] + b + s[at + |b|..]
  }

  /** All the sequences of `ss`, end to end. */
  function Concat<T>(ss: seq<seq<T>>): (s: seq<T>)
  {
    if ss == [] then [] else ss[0] + Concat(ss[1..])
  }

  lemma AppendAssociates<T>(a: seq<T>, b: seq<T>, c: seq<T>)
    ensures a + (b + c) == a + b + c
  {}

  lemma {:induction false} ConcatAppend<T>(a: seq<seq<T>>, b: seq<seq<T>>)
    ensures Concat(a + b) == Concat(a) + Concat(b)
  {
    if a == [] {
      assert a + b == b;
    } else {
      ConcatAppend(a[1..], b);
      assert (a + b)[1..] == a[1..] + b;
      AppendAssociates(a[0], Concat(a[1..]), Concat(b));
    }
  }

  lemma ConcatOne<T>(a: seq<seq<T>>, s: seq<T>)
    ensures Concat(a + [s]) == Concat(a) + s
  {
    ConcatAppend(a, [s]);
    assert Concat([s]) == s + Concat<T>([]);
  }

  lemma Regroup<T>(a: seq<T>, b: seq<T>, c: seq<T>, d: seq<T>)
    ensures a + (b + c + d) == a + b + c + d
  {}

  lemma SliceOfSlice<T>(s: seq<T>, from: nat, to: nat, n: nat)
    requires from + n <= to <= |s|
    ensures s[from..to][..n] == s[from..from + n] && s[from..to][n..] == s[from + n..to]
  {}

  lemma SliceExtends<T>(s: seq<T>, from: nat, mid: nat, to: nat)
    requires from <= mid <= to <= |s|
    ensures s[from..to] == s[from..mid] + s[mid..to] == s[from..mid] + s[mid..][..to - mid]
    ensures s[to..] == s[mid..][to - mid..]
  {}

  /** Where `a + b` stands, `a` stands and then `b`. */
  lemma PartsAt<T>(s: seq<T>, at: nat, a: seq<T>, b: seq<T>)
    requires at + |a + b| <= |s| && s[at..at + |a + b|] == a + b
    ensures s[at..at + |a|] == a && s[at + |a|..at + |a| + |b|] == b
  {
    assert a == (a + b)[..|a|] == s[at..at + |a + b|][..|a|];
    assert b == (a + b)[|a|..] == s[at..at + |a + b|][|a|..];
  }

  lemma WordRead(rom: seq<byte>, at: nat, w: seq<byte>)
    requires at + 4 <= |rom| && |w| == 4 && forall i :: 0 <= i < 4 ==> rom[at + i] == w[i]
    ensures Be32(rom, at) == Be32(w, 0)
  {
    assert rom[at] == rom[at + 0];
  }
}
