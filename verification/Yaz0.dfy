/** Yaz0 decompression: the decoder, and the LZ expansion it carries out. */
module Yaz0 {
  import opened Bytes

  const YAZ0: seq<byte> := [0x59, 0x61, 0x7A, 0x30]
  /** The longest copy one back-reference makes. */
  const MAX_COPY: nat := 0xFF + 0x12

  /** What has been decompressed, and where in the source the next byte to read is. */
  datatype Unpacked = Unpacked(out: seq<byte>, end: nat)

  // ---- LZ expansion ----

  /** `n` bytes copied one by one from `dist` back, bytes the copy itself has written among them. */
  function CopyBack(out: seq<byte>, dist: nat, n: nat): (r: seq<byte>)
    requires 1 <= dist <= |out|
    ensures |r| == |out| + n && out <= r
    decreases n
  {
    if n == 0 then out else CopyBack(out + [out[|out| - dist]], dist, n - 1)
  }

  /** Every byte a back-reference writes is the one `dist` before it. */
  lemma {:induction false} CopyBackRepeats(out: seq<byte>, dist: nat, n: nat, i: nat)
    requires 1 <= dist <= |out| <= i < |out| + n
    ensures CopyBack(out, dist, n)[i] == CopyBack(out, dist, n)[i - dist]
    decreases n
  {
    var next := out + [out[|out| - dist]];
    if i < |next| {
      assert next <= CopyBack(next, dist, n - 1);
    } else {
      CopyBackRepeats(next, dist, n - 1, i);
    }
  }

  datatype Token = Literal(b: byte) | Copy(dist: nat, n: nat)

  function Expand1(out: seq<byte>, t: Token): (r: seq<byte>)
    requires t.Copy? ==> 1 <= t.dist <= |out|
    ensures out <= r
  {
    match t
    case Literal(b) => out + [b]
    case Copy(dist, n) => CopyBack(out, dist, n)
  }

  /** A token the format has bits for. */
  predicate InRange(t: Token) {
    t.Copy? ==> 1 <= t.dist <= 0x1000 && 3 <= t.n <= MAX_COPY
  }

  /** Tokens a stream can hold, each back-reference reaching only what is there. */
  ghost predicate Fit(out: seq<byte>, ts: seq<Token>)
    decreases |ts|
  {
    ts != [] ==>
      && InRange(ts[0]) && (ts[0].Copy? ==> ts[0].dist <= |out|)
      && Fit(Expand1(out, ts[0]), ts[1..])
  }

  /** The tokens reach `size` bytes, and not before the last. */
  ghost predicate Stops(out: seq<byte>, ts: seq<Token>, size: nat)
    requires Fit(out, ts)
    decreases |ts|
  {
    if ts == [] then |out| >= size
    else |out| < size && Stops(Expand1(out, ts[0]), ts[1..], size)
  }

  function Expand(out: seq<byte>, ts: seq<Token>): (r: seq<byte>)
    requires Fit(out, ts)
    decreases |ts|
  {
    if ts == [] then out else Expand(Expand1(out, ts[0]), ts[1..])
  }

  // ---- the decoder ----

  function Weight(bit: nat): (w: nat)
    requires bit < 8
  {
    [128, 64, 32, 16, 8, 4, 2, 1][bit]
  }

  predicate IsLiteral(code: byte, bit: nat)
    requires bit < 8
  {
    code / Weight(bit) % 2 == 1
  }

  /** The token at `s`, a literal or not, and where the next begins. */
  function TokenAt(src: seq<byte>, s: nat, literal: bool): (r: Result<(Token, nat)>)
    ensures r.Ok? ==> s < r.value.1 <= s + 3 && r.value.1 <= |src| && InRange(r.value.0)
  {
    if literal then
      if s < |src| then Ok((Literal(src[s]), s + 1)) else Err
    else if s + 2 > |src| then Err
    else
      var dist := src[s] % 16 * 0x100 + src[s + 1] as int + 1;
      if src[s] / 16 != 0 then Ok((Copy(dist, src[s] / 16 + 2), s + 2))
      else if s + 3 > |src| then Err
      else Ok((Copy(dist, src[s + 2] as int + 0x12), s + 3))
  }

  /**
   * Decompress from `s` until there are `size` bytes, `bit` bits into the group `code` announces: a
   * group has eight tokens, and 8 means the next byte announces another.
   */
  function Decode(src: seq<byte>, s: nat, code: byte, bit: nat, out: seq<byte>, size: nat): (r: Result<Unpacked>)
    requires bit <= 8
    decreases |src| - s, bit
  {
    if |out| >= size then Ok(Unpacked(out, s))
    else if s >= |src| then Err
    else if bit == 8 then Decode(src, s + 1, src[s], 0, out, size)
    else match TokenAt(src, s, IsLiteral(code, bit))
      case Err => Err
      case Panic => Panic
      case Ok((t, next)) =>
        if t.Copy? && t.dist > |out| then Err
        else Decode(src, next, code, bit + 1, Expand1(out, t), size)
  }

  lemma DecodeStops(src: seq<byte>, s: nat, code: byte, bit: nat, out: seq<byte>, size: nat)
    requires bit <= 8
    ensures |out| >= size ==> Decode(src, s, code, bit, out, size) == Ok(Unpacked(out, s))
    ensures |out| < size && s >= |src| ==> Decode(src, s, code, bit, out, size) == Err
    ensures |out| < size && s < |src| && bit == 8 ==>
      Decode(src, s, code, bit, out, size) == Decode(src, s + 1, src[s], 0, out, size)
  {}

  lemma DecodeToken(src: seq<byte>, s: nat, code: byte, bit: nat, out: seq<byte>, size: nat)
    requires bit < 8 && |out| < size
    ensures Decode(src, s, code, bit, out, size)
         == match TokenAt(src, s, IsLiteral(code, bit))
            case Err => Err
            case Panic => Panic
            case Ok((t, next)) =>
              if t.Copy? && t.dist > |out| then Err
              else Decode(src, next, code, bit + 1, Expand1(out, t), size)
  {}

  /** The file at `at`; `Err` at once if its header gives a size over `max`. */
  function File(src: seq<byte>, at: nat, max: nat): (r: Result<Unpacked>)
  {
    if at + 4 > |src| || src[at..at + 4] != YAZ0 || at + 8 > |src| then Err
    else
      var size := Be32(src, at + 4);
      if size > max then Err else Decode(src, at + 16, 0, 8, [], size)
  }

  function OutOf(u: Result<Unpacked>): (r: Result<seq<byte>>) {
    match u case Ok(v) => Ok(v.out) case Err => Err case Panic => Panic
  }

  method Decompress(src: seq<byte>, at: nat, max: nat) returns (r: Result<seq<byte>>)
    ensures r == OutOf(File(src, at, max))
  {
    hide Decode;
    if at + 4 > |src| || src[at..at + 4] != YAZ0 { return Err; }
    if at + 8 > |src| { return Err; }
    var size := Be32(src, at + 4);
    if size > max { return Err; }
    r := TakeGroups(src, at + 16, size);
  }

  /** Group after group, until there are `size` bytes. */
  method TakeGroups(src: seq<byte>, at: nat, size: nat) returns (r: Result<seq<byte>>)
    ensures r == OutOf(Decode(src, at, 0, 8, [], size))
  {
    hide *;
    var s, out := at, [];
    OutOfEnds(out, s);
    while |out| < size
      invariant Decode(src, s, 0, 8, out, size) == Decode(src, at, 0, 8, [], size)
      decreases |src| - s
    {
      DecodeStops(src, s, 0, 8, out, size);
      if s >= |src| { return Err; }
      var ok;
      ok, s, out := TakeGroup(src, s + 1, src[s], out, size);
      if !ok { return Err; }
    }
    DecodeStops(src, s, 0, 8, out, size);
    OutOfEnds(out, s);
    r := Ok(out);
  }

  lemma OutOfEnds(out: seq<byte>, end: nat)
    ensures OutOf(Err) == Err && OutOf(Ok(Unpacked(out, end))) == Ok(out)
  {}

  /** The tokens of one code byte, up to eight of them. */
  method TakeGroup(src: seq<byte>, at: nat, code: byte, out: seq<byte>, size: nat) returns (ok: bool, s: nat, more: seq<byte>)
    requires at <= |src|
    ensures if ok then at <= s <= |src| && Decode(src, s, 0, 8, more, size) == Decode(src, at, code, 0, out, size)
            else Decode(src, at, code, 0, out, size) == Err
  {
    hide TokenAt; hide Expand1; hide IsLiteral; hide CopyBack; hide Decode;
    s, more := at, out;
    var bit := 0;
    while bit < 8
      invariant bit <= 8 && at <= s <= |src| && Decode(src, s, code, bit, more, size) == Decode(src, at, code, 0, out, size)
    {
      DecodeStops(src, s, code, bit, more, size);
      if |more| >= size { break; }
      DecodeToken(src, s, code, bit, more, size);
      ok, s, more := TakeToken(src, s, IsLiteral(code, bit), more);
      if !ok { return; }
      bit := bit + 1;
    }
    DecodeStops(src, s, code, bit, more, size);
    DecodeStops(src, s, 0, 8, more, size);
    ok := true;
  }

  /** Take the token at `s`: a byte of its own, or a copy of bytes already there. */
  method TakeToken(src: seq<byte>, s: nat, literal: bool, out: seq<byte>) returns (ok: bool, next: nat, more: seq<byte>)
    ensures match TokenAt(src, s, literal)
            case Err => !ok
            case Panic => false
            case Ok((t, n)) => if t.Copy? && t.dist > |out| then !ok else ok && next == n && more == Expand1(out, t)
  {
    hide CopyBack;
    next, more := s, out;
    if literal {
      if s >= |src| { return false, next, more; }
      return true, s + 1, out + [src[s]];
    }
    if s + 2 > |src| { return false, next, more; }
    var b1, b2 := src[s] as int, src[s + 1] as int;
    next := s + 2;
    var dist := b1 % 16 * 0x100 + b2 + 1;
    var n := b1 / 16 + 2;
    if b1 / 16 == 0 {
      if next >= |src| { return false, next, more; }
      n := src[next] as int + 0x12;
      next := next + 1;
    }
    if dist > |out| { return false, next, more; }
    more := Push(out, dist, n);
    ok := true;
  }

  /** Copy `n` bytes from `dist` back, one by one. */
  method Push(out: seq<byte>, dist: nat, n: nat) returns (r: seq<byte>)
    requires 1 <= dist <= |out|
    ensures r == CopyBack(out, dist, n)
  {
    r := out;
    for i := 0 to n
      invariant out <= r && CopyBack(r, dist, n - i) == CopyBack(out, dist, n)
    {
      r := r + [r[|r| - dist]];
    }
  }

  // ---- what the decoder yields ----

  /** At least what was asked for, and more only by what the last back-reference overruns. */
  lemma {:induction false} DecodeLength(src: seq<byte>, s: nat, code: byte, bit: nat, out: seq<byte>, size: nat)
    requires bit <= 8 && |out| <= size + MAX_COPY - 1 && Decode(src, s, code, bit, out, size).Ok?
    ensures var u := Decode(src, s, code, bit, out, size).value;
            && size <= |u.out| <= size + MAX_COPY - 1 && s <= u.end && out <= u.out
            && (|out| < size ==> s < u.end <= |src|)
    decreases |src| - s, 8 - bit
  {
    if |out| < size {
      if bit == 8 {
        DecodeLength(src, s + 1, src[s], 0, out, size);
      } else {
        var (t, next) := TokenAt(src, s, IsLiteral(code, bit)).value;
        DecodeLength(src, next, code, bit + 1, Expand1(out, t), size);
      }
    }
  }

  lemma TokenSame(src: seq<byte>, u: seq<byte>, s: nat, literal: bool)
    requires TokenAt(src, s, literal).Ok? && TokenAt(src, s, literal).value.1 <= |u|
    requires forall i :: s <= i < TokenAt(src, s, literal).value.1 ==> src[i] == u[i]
    ensures TokenAt(u, s, literal) == TokenAt(src, s, literal)
  {}

  /** The decoder reads nothing but what it reads: the same bytes in another file decompress the same. */
  lemma {:induction false} DecodeReadsOnly(src: seq<byte>, u: seq<byte>, s: nat, code: byte, bit: nat, out: seq<byte>, size: nat)
    requires bit <= 8 && |out| <= size + MAX_COPY - 1 && Decode(src, s, code, bit, out, size).Ok?
    requires var e := Decode(src, s, code, bit, out, size).value.end;
             (|out| < size ==> e <= |src| && e <= |u|) && forall i :: s <= i < e && i < |src| && i < |u| ==> src[i] == u[i]
    ensures Decode(u, s, code, bit, out, size) == Decode(src, s, code, bit, out, size)
    decreases |src| - s, 8 - bit
  {
    hide TokenAt; hide IsLiteral; hide Decode; hide Expand1; hide InRange;
    DecodeStops(src, s, code, bit, out, size);
    DecodeStops(u, s, code, bit, out, size);
    if |out| < size {
      DecodeLength(src, s, code, bit, out, size);
      if bit == 8 {
        DecodeReadsOnly(src, u, s + 1, src[s], 0, out, size);
      } else {
        DecodeToken(src, s, code, bit, out, size);
        DecodeToken(u, s, code, bit, out, size);
        var (t, next) := TokenAt(src, s, IsLiteral(code, bit)).value;
        TokenGrows(src, s, IsLiteral(code, bit), out);
        DecodeLength(src, next, code, bit + 1, Expand1(out, t), size);
        TokenSame(src, u, s, IsLiteral(code, bit));
        DecodeReadsOnly(src, u, next, code, bit + 1, Expand1(out, t), size);
      }
    }
  }

  lemma TokenGrows(src: seq<byte>, s: nat, literal: bool, out: seq<byte>)
    requires TokenAt(src, s, literal).Ok?
    requires var t := TokenAt(src, s, literal).value.0; t.Copy? ==> t.dist <= |out|
    ensures var t := TokenAt(src, s, literal).value.0; t.Copy? ==> 1 <= t.dist
    ensures |out| < |Expand1(out, TokenAt(src, s, literal).value.0)| <= |out| + MAX_COPY
  {}

  // ---- an encoder's side ----

  function TokenBytes(t: Token): (b: seq<byte>)
    requires InRange(t)
    ensures |b| > 0
  {
    match t
    case Literal(b) => [b]
    case Copy(dist, n) =>
      if n < 0x12 then [(n - 2) * 16 + (dist - 1) / 0x100, (dist - 1) % 0x100]
      else [(dist - 1) / 0x100, (dist - 1) % 0x100, n - 0x12]
  }

  function Bit(g: seq<Token>, i: nat): (b: nat)
    ensures b <= 1
  {
    if i < |g| && g[i].Literal? then 1 else 0
  }

  function Pow2(n: nat): (p: nat)
    ensures p >= 1
  {
    if n == 0 then 1 else 2 * Pow2(n - 1)
  }

  /** The bits of the first `k` tokens, one set for each literal, the first token's the highest. */
  function Bits(g: seq<Token>, k: nat): (c: nat)
    ensures c < Pow2(k)
  {
    if k == 0 then 0 else 2 * Bits(g, k - 1) + Bit(g, k - 1)
  }

  lemma {:induction false} Pow2Values()
    ensures Pow2(0) == 1 && Pow2(1) == 2 && Pow2(2) == 4 && Pow2(3) == 8 && Pow2(4) == 16
    ensures Pow2(5) == 32 && Pow2(6) == 64 && Pow2(7) == 128 && Pow2(8) == 256
  {
    assert Pow2(2) == 4;
    assert Pow2(4) == 16;
    assert Pow2(6) == 64;
  }

  /** The byte that announces a group. */
  function Code(g: seq<Token>): (c: byte) {
    Pow2Values();
    Bits(g, 8)
  }

  lemma DropBit(h: nat, bit: nat, n: nat)
    requires bit <= 1 && n <= 6
    ensures (2 * h + bit) / Pow2(n + 1) == h / Pow2(n)
  {
    hide Pow2;
    Pow2Values();
    match n
    case 0 => assert (2 * h + bit) / 2 == h;
    case 1 => assert (2 * h + bit) / 4 == h / 2;
    case 2 => assert (2 * h + bit) / 8 == h / 4;
    case 3 => assert (2 * h + bit) / 16 == h / 8;
    case 4 => assert (2 * h + bit) / 32 == h / 16;
    case 5 => assert (2 * h + bit) / 64 == h / 32;
    case _ => assert (2 * h + bit) / 128 == h / 64;
  }

  lemma {:induction false} BitsTop(g: seq<Token>, k: nat, j: nat)
    requires k < j <= 8
    ensures Bits(g, j) / Pow2(j - 1 - k) == Bits(g, k + 1)
  {
    if j == k + 1 {
      assert Pow2(0) == 1;
    } else {
      DropBit(Bits(g, j - 1), Bit(g, j - 1), j - 2 - k);
      BitsTop(g, k, j - 1);
    }
  }

  lemma CodeBits(g: seq<Token>, k: nat)
    requires k < |g| <= 8
    ensures IsLiteral(Code(g), k) == g[k].Literal?
  {
    BitsTop(g, k, 8);
    WeightIsPow2(k);
    assert Bits(g, k + 1) == 2 * Bits(g, k) + Bit(g, k);
  }

  lemma WeightIsPow2(k: nat)
    requires k < 8
    ensures Weight(k) == Pow2(7 - k)
  {
    hide Pow2;
    Pow2Values();
  }

  function Payload(g: seq<Token>): (b: seq<byte>)
    requires forall t <- g :: InRange(t)
  {
    if g == [] then [] else TokenBytes(g[0]) + Payload(g[1..])
  }

  function Pack(ts: seq<Token>): (b: seq<byte>)
    requires forall t <- ts :: InRange(t)
    decreases |ts|
  {
    if ts == [] then []
    else
      var m := Min(8, |ts|);
      [Code(ts[..m])] + Payload(ts[..m]) + Pack(ts[m..])
  }

  lemma TokenBytesDecode(src: seq<byte>, s: nat, t: Token)
    requires InRange(t) && s + |TokenBytes(t)| <= |src| && src[s..s + |TokenBytes(t)|] == TokenBytes(t)
    ensures TokenAt(src, s, t.Literal?) == Ok((t, s + |TokenBytes(t)|))
  {
    var b := TokenBytes(t);
    forall i | 0 <= i < |b| ensures src[s + i] == b[i] {
      assert src[s..s + |b|][i] == src[s + i];
    }
    match t
    case Literal(_) => assert src[s] == b[0];
    case Copy(dist, n) =>
      var q, r := (dist - 1) / 0x100, (dist - 1) % 0x100;
      assert q < 16 && q * 0x100 + r + 1 == dist;
      assert src[s + 1] == b[1] == r;
      if n < 0x12 {
        assert src[s] == b[0] == (n - 2) * 16 + q;
        assert src[s] / 16 == n - 2 && src[s] % 16 == q;
      } else {
        assert src[s] == b[0] == q && src[s + 2] == b[2];
      }
  }

  /** A group's tokens are taken one after another. */
  lemma {:induction false} DecodeGroup(src: seq<byte>, s: nat, g: seq<Token>, i: nat, rest: seq<Token>, out: seq<byte>, size: nat)
    returns (more: seq<byte>)
    requires i <= |g| <= 8 && Fit(out, g[i..] + rest) && Stops(out, g[i..] + rest, size)
    requires forall t <- g :: InRange(t)
    requires s + |Payload(g[i..])| <= |src| && src[s..s + |Payload(g[i..])|] == Payload(g[i..])
    ensures Decode(src, s, Code(g), i, out, size) == Decode(src, s + |Payload(g[i..])|, Code(g), |g|, more, size)
    ensures Fit(more, rest) && Stops(more, rest, size) && Expand(more, rest) == Expand(out, g[i..] + rest)
    decreases |g| - i
  {
    hide TokenAt; hide IsLiteral; hide Code; hide TokenBytes; hide Expand1; hide Decode;
    if i == |g| {
      assert g[i..] + rest == rest;
      return out;
    }
    var t, p := g[i], TokenBytes(g[i]);
    assert g[i..] + rest == [t] + (g[i + 1..] + rest);
    assert g[i..] == [t] + g[i + 1..] && Payload(g[i..]) == p + Payload(g[i + 1..]);
    PartsAt(src, s, p, Payload(g[i + 1..]));
    TokenBytesDecode(src, s, t);
    CodeBits(g, i);
    DecodeToken(src, s, Code(g), i, out, size);
    more := DecodeGroup(src, s + |p|, g, i + 1, rest, Expand1(out, t), size);
  }

  /** Whatever tokens a stream is made of, the decoder yields their expansion, byte for byte. */
  lemma {:induction false} DecodePack(src: seq<byte>, s: nat, code: byte, ts: seq<Token>, out: seq<byte>, size: nat)
    requires Fit(out, ts) && Stops(out, ts, size) && (forall t <- ts :: InRange(t))
    requires s + |Pack(ts)| <= |src| && src[s..s + |Pack(ts)|] == Pack(ts)
    ensures Decode(src, s, code, 8, out, size) == Ok(Unpacked(Expand(out, ts), s + |Pack(ts)|))
    decreases |ts|
  {
    hide Code; hide Payload; hide TokenAt; hide TokenBytes; hide Expand1; hide IsLiteral; hide Decode; hide Pack;
    DecodeStops(src, s, code, 8, out, size);
    if ts == [] {
      PackNone();
    } else {
      var m := Min(8, |ts|);
      var g, rest := ts[..m], ts[m..];
      var p := Payload(g);
      assert g + rest == ts && g[0..] == g;
      PackParts(src, s, ts, m);
      var more := DecodeGroup(src, s + 1, g, 0, rest, out, size);
      DecodeStops(src, s + 1 + |p|, Code(g), m, more, size);
      if m == 8 {
        DecodePack(src, s + 1 + |p|, Code(g), rest, more, size);
      } else {
        PackNone();
        assert rest == [];
      }
    }
  }

  lemma PackNone()
    ensures Pack([]) == []
  {}

  /** A group's code, its tokens, and the groups after it. */
  lemma PackParts(src: seq<byte>, s: nat, ts: seq<Token>, m: nat)
    requires ts != [] && m == Min(8, |ts|) && (forall t <- ts :: InRange(t))
    requires s + |Pack(ts)| <= |src| && src[s..s + |Pack(ts)|] == Pack(ts)
    ensures var p, more := Payload(ts[..m]), Pack(ts[m..]); var at := s + 1 + |p|;
      && |Pack(ts)| == 1 + |p| + |more| && src[s] == Code(ts[..m])
      && src[s + 1..at] == p && at + |more| <= |src| && src[at..at + |more|] == more
  {
    hide Code; hide Payload;
    var g, rest := ts[..m], ts[m..];
    assert Pack(ts) == [Code(g)] + (Payload(g) + Pack(rest));
    PartsAt(src, s, [Code(g)], Payload(g) + Pack(rest));
    PartsAt(src, s + 1, Payload(g), Pack(rest));
    assert src[s] == src[s..s + 1][0];
  }

  /** A Yaz0 file of `size` bytes made of the tokens. */
  function Packed(ts: seq<Token>, size: uint32): (b: seq<byte>)
    requires forall t <- ts :: InRange(t)
  {
    YAZ0 + Put32(size) + Zeros(8) + Pack(ts)
  }

  /** The decoder undoes any encoder: the file decompresses to the tokens' expansion, from wherever it is. */
  lemma PackedDecodes(src: seq<byte>, at: nat, ts: seq<Token>, size: uint32, max: nat)
    requires Fit([], ts) && Stops([], ts, size) && (forall t <- ts :: InRange(t)) && size <= max
    requires at + |Packed(ts, size)| <= |src| && src[at..at + |Packed(ts, size)|] == Packed(ts, size)
    ensures File(src, at, max) == Ok(Unpacked(Expand([], ts), at + |Packed(ts, size)|))
  {
    hide Pack; hide Decode;
    var b := Packed(ts, size);
    forall i | 0 <= i < |b| ensures src[at + i] == b[i] {
      assert src[at..at + |b|][i] == src[at + i];
    }
    assert b[..4] == YAZ0 && b[4..8] == Put32(size) && b[16..] == Pack(ts);
    assert src[at..at + 4] == b[..4];
    assert src[at + 4..at + 8] == b[4..8];
    assert Be32(src, at + 4) == Be32(src[at + 4..at + 8], 0);
    assert src[at + 16..at + 16 + |Pack(ts)|] == b[16..];
    DecodePack(src, at + 16, 0, ts, [], size);
  }

  /**
   * What a file decompresses to: no less than its header says, no more than 272 bytes over it, and
   * over it only by the end of a back-reference.
   */
  lemma FileLength(src: seq<byte>, at: nat, max: nat)
    requires File(src, at, max).Ok?
    ensures var u := File(src, at, max).value; var size := Be32(src, at + 4);
            && size <= max && size <= |u.out| <= size + MAX_COPY - 1
            && at + 16 <= u.end && (size > 0 ==> u.end <= |src|)
  {
    DecodeLength(src, at + 16, 0, 8, [], Be32(src, at + 4));
  }

  /** A file decompresses the same in any other that has its bytes. */
  lemma FileReadsOnly(src: seq<byte>, u: seq<byte>, at: nat, max: nat)
    requires File(src, at, max).Ok?
    requires var e := File(src, at, max).value.end;
             at + 16 <= |u| && (e <= |src| ==> e <= |u|) && forall i :: at <= i < e && i < |src| && i < |u| ==> src[i] == u[i]
    ensures File(u, at, max) == File(src, at, max)
  {
    var size := Be32(src, at + 4);
    FileLength(src, at, max);
    assert forall i :: at <= i < at + 8 ==> src[i] == u[i];
    assert u[at..at + 4] == src[at..at + 4];
    DecodeReadsOnly(src, u, at + 16, 0, 8, [], size);
  }

  /**
   * A back-reference that overruns is not cut short: this file says it holds two bytes, spans two, and
   * decompresses to 274.
   */
  lemma Overruns()
    ensures var b := Packed([Literal(7), Copy(1, MAX_COPY)], 2);
            File(b, 0, 2).Ok? && |File(b, 0, 2).value.out| == 2 + 272
  {
    hide File; hide CopyBack;
    var ts := [Literal(7), Copy(1, MAX_COPY)];
    var b := Packed(ts, 2);
    var copied := CopyBack([7], 1, MAX_COPY);
    assert ts[1..] == [Copy(1, MAX_COPY)] && ts[1..][1..] == [];
    assert Expand1([], ts[0]) == [7] && Expand1([7], ts[1]) == copied;
    assert Fit(copied, []) && Stops(copied, [], 2) && Expand(copied, []) == copied;
    assert Fit([7], ts[1..]) && Stops([7], ts[1..], 2) && Expand([7], ts[1..]) == copied;
    assert Fit([], ts) && Stops([], ts, 2) && Expand([], ts) == copied;
    assert b[0..|b|] == b;
    PackedDecodes(b, 0, ts, 2, 2);
  }
}
