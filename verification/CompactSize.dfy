/** The variable-length sizes of the serialization (src/serialize.h:252-307). */
module CompactSize {
  import opened Powers
  import opened Wrappers

  type byte = x: int | 0 <= x < 256

  /** What a reader accepts at most. */
  const MAX_SIZE: nat := 0x0200_0000

  // ----- Little-endian numbers -----

  function Little(x: nat, k: nat): (b: seq<byte>)
    ensures |b| == k
    decreases k
  {
    if k == 0 then [] else [x % 256] + Little(x / 256, k - 1)
  }

  function FromLittle(b: seq<byte>): nat {
    if b == [] then 0 else b[0] + 256 * FromLittle(b[1..])
  }

  lemma {:induction false} FromLittleOf(x: nat, k: nat)
    requires x < Pow(256, k)
    ensures FromLittle(Little(x, k)) == x
    decreases k
  {
    hide Pow, Little;
    if k == 0 {
      PowNone(256);
      NoBytes(x);
    } else {
      PowNext(256, k - 1);
      LittleMore(x, k);
      FromLittleOf(x / 256, k - 1);
      assert Little(x, k)[1..] == Little(x / 256, k - 1);
    }
  }

  lemma {:induction false} LittleOf(b: seq<byte>)
    ensures Little(FromLittle(b), |b|) == b
  {
    hide Little;
    if b == [] {
      NoBytes(0);
    } else {
      LittleOf(b[1..]);
      var v := FromLittle(b[1..]);
      DivModIs(b[0] + 256 * v, 256, v, b[0]);
      LittleMore(b[0] + 256 * v, |b|);
      assert b == [b[0]] + b[1..];
    }
  }

  lemma LittleMore(x: nat, k: nat)
    requires k > 0
    ensures Little(x, k) == [x % 256] + Little(x / 256, k - 1)
  {
  }

  lemma NoBytes(x: nat)
    ensures Little(x, 0) == []
  {
  }

  lemma {:induction false} FromLittleBound(b: seq<byte>)
    ensures FromLittle(b) < Pow(256, |b|)
  {
    if b != [] {
      FromLittleBound(b[1..]);
    }
  }

  /** The powers that bound the three longer forms. */
  lemma Limits()
    ensures Pow(256, 2) == 0x1_0000 && Pow(256, 4) == 0x1_0000_0000 && Pow(256, 8) == 0x1_0000_0000_0000_0000
  {
    assert Pow(256, 2) == 256 * 256 by {
      PowNext(256, 0);
      PowNext(256, 1);
      PowNone(256);
    }
    PowAdd(256, 2, 2);
    PowAdd(256, 4, 4);
  }

  // ----- Sizes -----

  /** How many bytes follow the first one. */
  function Width(first: nat): nat {
    if first < 253 then 0 else if first == 253 then 2 else if first == 254 then 4 else 8
  }

  /** The least size that is written with this first byte, which readers insist on. */
  function LeastOf(first: nat): nat {
    if first == 253 then 253 else if first == 254 then 0x1_0000 else 0x1_0000_0000
  }

  function FirstOf(n: nat): nat {
    if n < 253 then n else if n <= 0xffff then 253 else if n <= 0xffff_ffff then 254 else 255
  }

  function Write(n: nat): seq<byte>
    requires n < 0x1_0000_0000_0000_0000
  {
    [FirstOf(n)] + Little(n, Width(FirstOf(n)))
  }

  /** The size at the start and the bytes after it; nothing when the source throws. */
  function Read(b: seq<byte>): Option<(nat, seq<byte>)> {
    if b == [] then None else
    var w := Width(b[0]);
    if 1 + w > |b| then None else
    var n := if b[0] < 253 then b[0] else FromLittle(b[1..1 + w]);
    if (b[0] >= 253 && n < LeastOf(b[0])) || n > MAX_SIZE then None else Some((n, b[1 + w..]))
  }

  /** Byte `i` has the weight 256^i. */
  lemma {:induction false} LittleAt(x: nat, k: nat, i: nat)
    requires i < k
    ensures Little(x, k)[i] == x / Pow(256, i) % 256
    decreases k
  {
    hide Pow, Little;
    LittleMore(x, k);
    if i == 0 {
      PowNone(256);
    } else {
      LittleAt(x / 256, k - 1, i - 1);
      PowNext(256, i - 1);
      PowPositive(256, i - 1);
      DivDiv(x, 256, Pow(256, i - 1));
    }
  }

  /** The written form: sizes below 253 are one byte, larger ones follow a marker in as few of two,
      four or eight bytes as they need, the lowest first. */
  lemma WriteIs(n: nat, i: nat)
    requires n < 0x1_0000_0000_0000_0000
    ensures n < 253 ==> Write(n) == [n]
    ensures n >= 253 ==> var k := if n < 0x1_0000 then 2 else if n < 0x1_0000_0000 then 4 else 8;
      && |Write(n)| == 1 + k && Write(n)[0] == (if k == 2 then 253 else if k == 4 then 254 else 255)
      && (i < k ==> Write(n)[1 + i] == n / Pow(256, i) % 256)
  {
    hide Little, Pow;
    NoBytes(n);
    var k := Width(FirstOf(n));
    if i < k {
      LittleAt(n, k, i);
    }
  }

  /** A written size is read back exactly when it is not above the readers' limit. */
  lemma ReadWritten(n: nat, rest: seq<byte>)
    requires n < 0x1_0000_0000_0000_0000
    ensures Read(Write(n) + rest) == if n <= 0x200_0000 then Some((n, rest)) else None
  {
    hide Pow, Little, FromLittle;
    var first, b := FirstOf(n), Write(n) + rest;
    var w := Width(first);
    assert b[0] == first && b[1..1 + w] == Little(n, w) && b[1 + w..] == rest;
    Limits();
    if first >= 253 {
      FromLittleOf(n, w);
    }
  }

  /** Only the written form of a size is read as that size. */
  lemma WrittenRead(b: seq<byte>)
    requires Read(b).Some?
    ensures var (n, rest) := Read(b).value; n <= MAX_SIZE && b == Write(n) + rest
  {
    hide Pow, Little, FromLittle;
    var (n, rest) := Read(b).value;
    var w := Width(b[0]);
    var low := b[1..1 + w];
    Limits();
    FromLittleBound(low);
    LittleOf(low);
    assert b == [b[0]] + low + rest;
    if b[0] < 253 {
      NoBytes(n);
    }
  }
}
