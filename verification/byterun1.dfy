/** The ByteRun1 decoder: run and literal packets of `depth`-bit pixels, unpacked
    from a byte stream by a 16-bit shift register.

    The decoder is proved against `Unpack`, which reads the input as one big-endian
    string of bits, and `Unpack` is proved to accept exactly the encodings of packet
    lists that fill the output. */
module ByteRun1 {
  import opened Sequences

  type Bit = n: nat | n < 2
  type Byte = n: nat | n < 256

  // ----- Bits ------------------------------------------------------------------

  function Pow2(n: nat): nat {
    if n == 0 then 1 else 2 * Pow2(n - 1)
  }

  /** The number that a big-endian string of bits denotes. */
  function Value(bits: seq<Bit>): nat {
    if bits == [] then 0
    else 2 * Value(bits[..|bits| - 1]) + bits[|bits| - 1]
  }

  /** The `width` lowest bits of `v`, highest first. */
  function BitsOf(v: nat, width: nat): (bits: seq<Bit>)
    ensures |bits| == width
  {
    if width == 0 then [] else BitsOf(v / 2, width - 1) + [v % 2]
  }

  function Flatten(bytes: seq<Byte>): (bits: seq<Bit>)
    ensures |bits| == 8 * |bytes|
  {
    if bytes == [] then [] else BitsOf(bytes[0], 8) + Flatten(bytes[1..])
  }

  function Zeros(n: nat): (bits: seq<Bit>)
    ensures |bits| == n
  {
    seq(n, i => 0)
  }

  lemma {:induction false} ValueBelow(bits: seq<Bit>)
    ensures Value(bits) < Pow2(|bits|)
  {
    if bits != [] {
      ValueBelow(bits[..|bits| - 1]);
    }
  }

  lemma PixelFits(bits: seq<Bit>)
    requires |bits| <= 8
    ensures Value(bits) < 256
  {
    ValueBelow(bits);
    Pow2Monotone(|bits|, 8);
    Pow2Of8And16();
  }

  lemma {:induction false} Pow2Monotone(a: nat, b: nat)
    requires a <= b
    ensures Pow2(a) <= Pow2(b)
    decreases b
  {
    if a < b {
      Pow2Monotone(a, b - 1);
    }
  }

  lemma Pow2Of8And16()
    ensures Pow2(8) == 256 && Pow2(16) == 0x1_0000 && Pow2(15) == 0x8000
  {
  }

  lemma ValueSnoc(bits: seq<Bit>, bit: Bit)
    ensures Value(bits + [bit]) == 2 * Value(bits) + bit
  {
  }

  lemma {:induction false} ValueOfBits(v: nat, width: nat)
    requires v < Pow2(width)
    ensures Value(BitsOf(v, width)) == v
  {
    if width > 0 {
      ValueOfBits(v / 2, width - 1);
      ValueSnoc(BitsOf(v / 2, width - 1), v % 2);
    }
  }

  lemma {:induction false} BitsOfValue(bits: seq<Bit>)
    ensures BitsOf(Value(bits), |bits|) == bits
  {
    if bits != [] {
      BitsOfValue(bits[..|bits| - 1]);
    }
  }

  lemma {:induction false} LeadingZeros(n: nat, bits: seq<Bit>)
    ensures Value(Zeros(n) + bits) == Value(bits)
    decreases n + |bits|
  {
    if bits != [] {
      var front, last := bits[..|bits| - 1], bits[|bits| - 1];
      LeadingZeros(n, front);
      assert Zeros(n) + bits == Zeros(n) + front + [last];
      ValueSnoc(Zeros(n) + front, last);
    } else if n > 0 {
      LeadingZeros(n - 1, bits);
      assert Zeros(n) + bits == Zeros(n - 1) + bits + [0];
      ValueSnoc(Zeros(n - 1) + bits, 0);
    }
  }

  lemma {:induction false} LeadingBit(bits: seq<Bit>)
    requires bits != []
    ensures Value(bits) == Value(bits[1..]) + if bits[0] == 1 then Pow2(|bits| - 1) else 0
  {
    var front, last := bits[..|bits| - 1], bits[|bits| - 1];
    if front != [] {
      LeadingBit(front);
      assert bits[1..] == front[1..] + [last];
      ValueSnoc(front[1..], last);
    }
  }

  // ----- Unsigned 16-bit arithmetic ----------------------------------------------

  /** Bitwise or. */
  function Or(a: nat, b: nat): nat
    decreases a + b
  {
    if a == 0 && b == 0 then 0
    else 2 * Or(a / 2, b / 2) + (if a % 2 == 1 || b % 2 == 1 then 1 else 0)
  }

  /** Unsigned shift right. */
  function ShiftRight(a: nat, k: nat): nat
    decreases k
  {
    if k == 0 then a else ShiftRight(a / 2, k - 1)
  }

  /** Shift left, keeping the low 16 bits. */
  function ShiftLeft(a: nat, k: nat): nat
    decreases k
  {
    if k == 0 then a else ShiftLeft(a * 2 % 0x1_0000, k - 1)
  }

  function OrBits(a: seq<Bit>, b: seq<Bit>): (c: seq<Bit>)
    requires |a| == |b|
    ensures |c| == |a|
  {
    seq(|a|, i requires 0 <= i < |a| => if a[i] == 1 || b[i] == 1 then 1 else 0)
  }

  lemma {:induction false} OrValue(a: seq<Bit>, b: seq<Bit>)
    requires |a| == |b|
    ensures Or(Value(a), Value(b)) == Value(OrBits(a, b))
  {
    if a != [] {
      var n := |a| - 1;
      OrValue(a[..n], b[..n]);
      assert OrBits(a, b)[..n] == OrBits(a[..n], b[..n]);
    }
  }

  lemma {:induction false} ShiftRightValue(bits: seq<Bit>, k: nat)
    requires k <= |bits|
    ensures ShiftRight(Value(bits), k) == Value(bits[..|bits| - k])
  {
    if k == 0 {
      assert bits[..|bits|] == bits;
    } else {
      var front := bits[..|bits| - 1];
      ShiftRightValue(front, k - 1);
      assert front[..|front| - (k - 1)] == bits[..|bits| - k];
    }
  }

  lemma ShiftLeftOnce(bits: seq<Bit>)
    requires |bits| == 16
    ensures Value(bits) * 2 % 0x1_0000 == Value(bits[1..] + [0])
  {
    LeadingBit(bits);
    ValueSnoc(bits[1..], 0);
    ValueBelow(bits[1..]);
    Pow2Of8And16();
  }

  lemma ShiftedBits(bits: seq<Bit>, k: nat)
    requires 0 < k <= |bits|
    ensures (bits[1..] + [0])[k - 1..] + Zeros(k - 1) == bits[k..] + Zeros(k)
  {
  }

  lemma {:induction false} ShiftLeftValue(bits: seq<Bit>, k: nat)
    requires |bits| == 16 && k <= 16
    ensures ShiftLeft(Value(bits), k) == Value(bits[k..] + Zeros(k))
    decreases k
  {
    if k == 0 {
      assert bits[0..] + Zeros(0) == bits;
    } else {
      ShiftLeftOnce(bits);
      ShiftLeftValue(bits[1..] + [0], k - 1);
      ShiftedBits(bits, k);
    }
  }

  // ----- The shift register ----------------------------------------------------

  /** The local variables that the bit-reading macros update. */
  datatype Reader = Reader(next: nat, srclen: int, shift: nat, bitshift: nat)

  /** The register's top bits are `held` and the bits below them are zero. */
  ghost predicate Register(shift: nat, held: seq<Bit>)
    requires |held| <= 16
  {
    shift == Value(held + Zeros(16 - |held|))
  }

  /** `rest` is what is left of the first `limit` input bytes: the bits held in the
      register, then the bytes still to be fetched. */
  ghost predicate Holds(r: Reader, input: seq<Byte>, limit: nat, rest: seq<Bit>)
  {
    && r.bitshift < 16
    && r.srclen >= 0
    && r.next + r.srclen == limit <= |input|
    && |rest| == r.bitshift + 8 * r.srclen
    && Register(r.shift, rest[..r.bitshift])
    && rest[r.bitshift..] == Flatten(input[r.next..limit])
  }

  /** Fetching one byte into the register appends its eight bits to the bits held. */
  lemma FetchByte(shift: nat, held: seq<Bit>, byte: Byte)
    requires |held| < 8 && Register(shift, held)
    ensures Register(Or(shift, ShiftLeft(byte, 8 - |held|)), held + BitsOf(byte, 8))
  {
    var h, k, bits := |held|, 8 - |held|, BitsOf(byte, 8);
    assert byte < Pow2(8) by { Pow2Of8And16(); }
    ValueOfBits(byte, 8);
    LeadingZeros(8, bits);
    var wide := Zeros(8) + bits;
    ShiftLeftValue(wide, k);
    assert wide[k..] + Zeros(k) == Zeros(h) + bits + Zeros(k);
    OrValue(held + Zeros(16 - h), Zeros(h) + bits + Zeros(k));
    MergeBits(held, bits, k);
  }

  lemma MergeBits(held: seq<Bit>, bits: seq<Bit>, k: nat)
    ensures OrBits(held + Zeros(|bits| + k), Zeros(|held|) + bits + Zeros(k)) == held + bits + Zeros(k)
  {
  }

  lemma EmptyRegister(input: seq<Byte>, srclen: nat)
    requires srclen <= |input|
    ensures Holds(Reader(0, srclen, 0, 0), input, srclen, Flatten(input[..srclen]))
  {
    LeadingZeros(16, []);
    assert [] + Zeros(16) == Zeros(16) + [];
    assert input[0..srclen] == input[..srclen];
  }

  lemma RegisterFits(shift: nat, held: seq<Bit>)
    requires |held| <= 16 && Register(shift, held)
    ensures shift < 0x1_0000
  {
    Pow2Of8And16();
    ValueBelow(held + Zeros(16 - |held|));
  }

  /** Shifting `width` bits out of the top of the register splits the bits held. */
  lemma ShiftOut(shift: nat, held: seq<Bit>, width: nat)
    requires width <= |held| <= 16 && Register(shift, held)
    ensures ShiftRight(shift, 16 - width) == Value(held[..width])
    ensures Register(ShiftLeft(shift, width), held[width..])
  {
    var bits := held + Zeros(16 - |held|);
    ShiftRightValue(bits, 16 - width);
    assert bits[..width] == held[..width];
    ShiftLeftValue(bits, width);
    assert bits[width..] + Zeros(width) == held[width..] + Zeros(16 - |held[width..]|);
  }

  lemma LoadStep(r: Reader, input: seq<Byte>, limit: nat, rest: seq<Bit>, r': Reader)
    requires Holds(r, input, limit, rest) && r.bitshift < 8 && r.srclen > 0
    requires r' == Reader(r.next + 1, r.srclen - 1,
                          Or(r.shift, ShiftLeft(input[r.next], 8 - r.bitshift)), r.bitshift + 8)
    ensures Holds(r', input, limit, rest)
  {
    var byte, tail := input[r.next], input[r.next..limit];
    FetchByte(r.shift, rest[..r.bitshift], byte);
    assert tail[0] == byte && tail[1..] == input[r'.next..limit];
    assert rest[r.bitshift..] == BitsOf(byte, 8) + Flatten(tail[1..]);
    assert rest[r'.bitshift..] == rest[r.bitshift..][8..];
    assert rest[..r'.bitshift] == rest[..r.bitshift] + rest[r.bitshift..][..8];
  }

  lemma TakeStep(r: Reader, input: seq<Byte>, limit: nat, rest: seq<Bit>, width: nat, r': Reader)
    requires Holds(r, input, limit, rest) && width <= r.bitshift
    requires r' == r.(shift := ShiftLeft(r.shift, width), bitshift := r.bitshift - width)
    ensures ShiftRight(r.shift, 16 - width) == Value(rest[..width])
    ensures Holds(r', input, limit, rest[width..])
  {
    var held := rest[..r.bitshift];
    ShiftOut(r.shift, held, width);
    assert held[..width] == rest[..width];
    assert held[width..] == rest[width..][..r'.bitshift];
    assert rest[width..][r'.bitshift..] == rest[r.bitshift..];
  }

  /** The pixel that the first `depth` bits denote. */
  function Pixel(bits: seq<Bit>, depth: nat): Byte
    requires depth <= 8 && depth <= |bits|
  {
    PixelFits(bits[..depth]);
    Value(bits[..depth])
  }

  /** Reads `depth` bits off the front of the input, or fails when the input is used up. */
  method GetBits(input: seq<Byte>, r: Reader, depth: nat, ghost limit: nat, ghost rest: seq<Bit>)
    returns (ok: bool, x: Byte, r': Reader)
    requires 1 <= depth <= 8
    requires Holds(r, input, limit, rest) && r.bitshift < 8
    ensures ok <==> depth <= |rest|
    ensures ok ==> x == Pixel(rest, depth)
    ensures ok ==> Holds(r', input, limit, rest[depth..]) && r'.bitshift < 8
  {
    r' := r;
    if r'.bitshift < depth {
      r' := r'.(srclen := r'.srclen - 1);
      if r'.srclen < 0 {
        return false, 0, r';
      }
      r' := r'.(shift := Or(r'.shift, ShiftLeft(input[r'.next], 8 - r'.bitshift)), next := r'.next + 1);
      r' := r'.(bitshift := r'.bitshift + 8);
      LoadStep(r, input, limit, rest, r');
    }
    ghost var loaded := r';
    PixelFits(rest[..depth]);
    ShiftOut(r'.shift, rest[..r'.bitshift], depth);
    assert rest[..r'.bitshift][..depth] == rest[..depth];
    ok, x := true, ShiftRight(r'.shift, 16 - depth);
    r' := r'.(shift := ShiftLeft(r'.shift, depth), bitshift := r'.bitshift - depth);
    TakeStep(loaded, input, limit, rest, depth, r');
  }

  /** A 16-bit register read as a signed word and shifted right by eight. */
  function SignedHighByte(shift: nat): int {
    (if shift < 0x8000 then shift else shift - 0x1_0000) / 256
  }

  lemma HighByte(shift: nat)
    requires shift < 0x1_0000
    ensures SignedHighByte(shift) == Signed(ShiftRight(shift, 8))
  {
  }

  lemma {:induction false} ShiftRightSum(a: nat, j: nat, k: nat)
    ensures ShiftRight(a, j + k) == ShiftRight(ShiftRight(a, j), k)
    decreases j
  {
    if j > 0 {
      ShiftRightSum(a / 2, j - 1, k);
    }
  }

  /** A byte read as a two's complement number. */
  function Signed(byte: nat): int {
    if byte < 128 then byte else byte - 256
  }

  /** Reads one control byte as a signed number. */
  method GetByte(input: seq<Byte>, r: Reader, ghost limit: nat, ghost rest: seq<Bit>)
    returns (ok: bool, x: int, r': Reader)
    requires Holds(r, input, limit, rest) && r.bitshift < 8
    ensures ok <==> 8 <= |rest|
    ensures ok ==> x == Signed(Value(rest[..8])) && -128 <= x < 128
    ensures ok ==> Holds(r', input, limit, rest[8..]) && r'.bitshift < 8
  {
    r' := r;
    if r'.bitshift < 8 {
      r' := r'.(srclen := r'.srclen - 1);
      if r'.srclen < 0 {
        return false, 0, r';
      }
      r' := r'.(shift := Or(r'.shift, ShiftLeft(input[r'.next], 8 - r'.bitshift)), next := r'.next + 1);
      r' := r'.(bitshift := r'.bitshift + 8);
      LoadStep(r, input, limit, rest, r');
    }
    ghost var loaded := r';
    PixelFits(rest[..8]);
    ShiftOut(r'.shift, rest[..r'.bitshift], 8);
    assert rest[..r'.bitshift][..8] == rest[..8];
    RegisterFits(r'.shift, rest[..r'.bitshift]);
    HighByte(r'.shift);
    ok, x := true, SignedHighByte(r'.shift);
    r' := r'.(shift := ShiftLeft(r'.shift, 8), bitshift := r'.bitshift - 8);
    TakeStep(loaded, input, limit, rest, 8, r');
  }

  // ----- What a bit string decodes to -------------------------------------------

  datatype Unpacked = Unpacked(ok: bool, pixels: seq<Byte>)

  function Copies(n: nat, b: Byte): (s: seq<Byte>)
    ensures |s| == n
  {
    seq(n, i => b)
  }

  datatype Taken = Taken(ok: bool, pixels: seq<Byte>, rest: seq<Bit>)

  /** The first `n` pixels of a bit string, or as many as it holds, and the bits left. */
  function Literals(bits: seq<Bit>, depth: nat, n: nat): (t: Taken)
    requires 1 <= depth <= 8
    ensures |t.pixels| <= n && |t.rest| <= |bits|
    ensures t.ok ==> |t.pixels| == n
    decreases n
  {
    if n == 0 then Taken(true, [], bits)
    else if |bits| < depth then Taken(false, [], bits)
    else
      var t := Literals(bits[depth..], depth, n - 1);
      t.(pixels := [Pixel(bits, depth)] + t.pixels)
  }

  /** Decodes packets from a bit string until `dst` pixels are written. A failed decode
      keeps the pixels written before the failure. */
  function Unpack(bits: seq<Bit>, depth: nat, dst: int): (r: Unpacked)
    requires 1 <= depth <= 8
    ensures dst >= 0 ==> |r.pixels| <= dst
    ensures r.ok && dst >= 0 ==> |r.pixels| == dst
    decreases |bits|
  {
    if dst <= 0 then Unpacked(true, [])
    else if |bits| < 8 then Unpacked(false, [])
    else
      var c := Signed(Value(bits[..8]));
      var body := bits[8..];
      if c < 0 then
        var n := 1 - c;
        if dst < n || |body| < depth then Unpacked(false, [])
        else
          var rest := Unpack(body[depth..], depth, dst - n);
          Unpacked(rest.ok, Copies(n, Pixel(body, depth)) + rest.pixels)
      else
        var n := c + 1;
        if dst < n then Unpacked(false, [])
        else
          var lit := Literals(body, depth, n);
          if !lit.ok then Unpacked(false, lit.pixels)
          else
            var rest := Unpack(lit.rest, depth, dst - n);
            Unpacked(rest.ok, lit.pixels + rest.pixels)
  }

  /** `s` with the elements from `at` on overwritten by `p`. */
  ghost function Overwrite(s: seq<Byte>, at: nat, p: seq<Byte>): (r: seq<Byte>)
    requires at + |p| <= |s|
    ensures |r| == |s|
  {
    s[..at] + p + s[at + |p|..]
  }

  lemma OverwriteTwice(s: seq<Byte>, at: nat, p: seq<Byte>, q: seq<Byte>)
    requires at + |p| + |q| <= |s|
    ensures Overwrite(Overwrite(s, at, p), at + |p|, q) == Overwrite(s, at, p + q)
  {
  }

  /** The run packet: one pixel, written `n` times. */
  method FillRun(input: seq<Byte>, r: Reader, depth: nat, n: nat, out: array<Byte>, at: nat,
                 ghost limit: nat, ghost bits: seq<Bit>)
    returns (ok: bool, r': Reader)
    requires 1 <= depth <= 8 && at + n <= out.Length
    requires Holds(r, input, limit, bits) && r.bitshift < 8
    modifies out
    ensures ok <==> depth <= |bits|
    ensures !ok ==> out[..] == old(out[..])
    ensures ok ==> out[..] == Overwrite(old(out[..]), at, Copies(n, Pixel(bits, depth)))
    ensures ok ==> Holds(r', input, limit, bits[depth..]) && r'.bitshift < 8
  {
    var b;
    ok, b, r' := GetBits(input, r, depth, limit, bits);
    if ok {
      forall i | at <= i < at + n {
        out[i] := b;
      }
    }
  }

  ghost predicate LiteralsLeft(goal: Taken, done: seq<Byte>, left: seq<Bit>, depth: nat, todo: nat)
    requires 1 <= depth <= 8
  {
    var l := Literals(left, depth, todo);
    goal == l.(pixels := done + l.pixels)
  }

  lemma LiteralsDone(goal: Taken, done: seq<Byte>, left: seq<Bit>, depth: nat)
    requires 1 <= depth <= 8 && LiteralsLeft(goal, done, left, depth, 0)
    ensures goal == Taken(true, done, left)
  {
  }

  lemma LiteralsAdvance(goal: Taken, done: seq<Byte>, left: seq<Bit>, depth: nat, todo: nat)
    requires 1 <= depth <= 8 && todo > 0 && LiteralsLeft(goal, done, left, depth, todo)
    ensures |left| < depth ==> goal == Taken(false, done, left)
    ensures depth <= |left| ==>
      LiteralsLeft(goal, done + [Pixel(left, depth)], left[depth..], depth, todo - 1)
  {
  }

  /** What is left to decode, after `done`, to reach the outcome `goal`. */
  ghost predicate PacketsLeft(goal: Unpacked, done: seq<Byte>, left: seq<Bit>, depth: nat, todo: int)
    requires 1 <= depth <= 8
  {
    var u := Unpack(left, depth, todo);
    goal == Unpacked(u.ok, done + u.pixels)
  }

  lemma NothingLeft(goal: Unpacked, done: seq<Byte>, left: seq<Bit>, depth: nat, todo: int)
    requires 1 <= depth <= 8 && todo <= 0 && PacketsLeft(goal, done, left, depth, todo)
    ensures goal == Unpacked(true, done)
  {
  }

  lemma NoControlByte(goal: Unpacked, done: seq<Byte>, left: seq<Bit>, depth: nat, todo: int)
    requires 1 <= depth <= 8 && todo > 0 && PacketsLeft(goal, done, left, depth, todo)
    requires |left| < 8
    ensures goal == Unpacked(false, done)
  {
  }

  lemma RunAdvance(goal: Unpacked, done: seq<Byte>, left: seq<Bit>, depth: nat, todo: int, n: int)
    requires 1 <= depth <= 8 && todo > 0 && PacketsLeft(goal, done, left, depth, todo)
    requires 8 <= |left| && Signed(Value(left[..8])) < 0 && n == 1 - Signed(Value(left[..8]))
    ensures todo < n || |left| - 8 < depth ==> goal == Unpacked(false, done)
    ensures n <= todo && depth <= |left| - 8 ==>
      PacketsLeft(goal, done + Copies(n, Pixel(left[8..], depth)), left[8..][depth..], depth, todo - n)
  {
  }

  lemma LiteralAdvance(goal: Unpacked, done: seq<Byte>, left: seq<Bit>, depth: nat, todo: int, n: int)
    requires 1 <= depth <= 8 && todo > 0 && PacketsLeft(goal, done, left, depth, todo)
    requires 8 <= |left| && Signed(Value(left[..8])) >= 0 && n == Signed(Value(left[..8])) + 1
    ensures todo < n ==> goal == Unpacked(false, done)
    ensures var lit := Literals(left[8..], depth, n);
      n <= todo ==>
        if lit.ok then PacketsLeft(goal, done + lit.pixels, lit.rest, depth, todo - n)
        else goal == Unpacked(false, done + lit.pixels)
  {
    var lit := Literals(left[8..], depth, n);
    if n <= todo && lit.ok {
      var rest := Unpack(lit.rest, depth, todo - n);
      assert done + (lit.pixels + rest.pixels) == done + lit.pixels + rest.pixels;
    }
  }

  /** The literal packet's loop: copies `n` pixels, or as many as the input holds. */
  method CopyLiterals(input: seq<Byte>, r: Reader, depth: nat, n: nat, out: array<Byte>, at: nat,
                      ghost limit: nat, ghost bits: seq<Bit>)
    returns (ok: bool, r': Reader)
    requires 1 <= depth <= 8 && at + n <= out.Length
    requires Holds(r, input, limit, bits) && r.bitshift < 8
    modifies out
    ensures var l := Literals(bits, depth, n);
      && ok == l.ok
      && out[..] == Overwrite(old(out[..]), at, l.pixels)
      && (ok ==> Holds(r', input, limit, l.rest) && r'.bitshift < 8)
  {
    hide Literals, Value, Flatten, Pixel;
    ghost var left, done, start := bits, [], out[..];
    ghost var goal := Literals(bits, depth, n);
    r' := r;
    var todo, p := n, at;
    while todo > 0
      invariant 0 <= todo <= n && |done| == n - todo && p == at + |done|
      invariant Holds(r', input, limit, left) && r'.bitshift < 8
      invariant out[..] == Overwrite(start, at, done)
      invariant LiteralsLeft(goal, done, left, depth, todo)
    {
      LiteralsAdvance(goal, done, left, depth, todo);
      var b;
      ok, b, r' := GetBits(input, r', depth, limit, left);
      if !ok {
        return;
      }
      ghost var before := out[..];
      out[p] := b;
      assert out[..] == Overwrite(before, p, [b]);
      OverwriteTwice(start, at, done, [b]);
      p, todo := p + 1, todo - 1;
      left, done := left[depth..], done + [b];
    }
    LiteralsDone(goal, done, left, depth);
    ok := true;
  }

  /** The decoder. It never reads past `srclen` bytes of the input, never writes past
      `dstlen` bytes of the output, and leaves in the output exactly what the bit
      string unpacks to. */
  method Decode(input: seq<Byte>, srclen: nat, depth: nat, out: array<Byte>, dstlen: int)
    returns (ok: bool)
    requires srclen <= |input| && 1 <= depth <= 8 && dstlen <= out.Length
    modifies out
    ensures ok == Unpack(Flatten(input[..srclen]), depth, dstlen).ok
    ensures out[..] == Overwrite(old(out[..]), 0, Unpack(Flatten(input[..srclen]), depth, dstlen).pixels)
  {
    hide Unpack, Literals, Value, Flatten;
    var r := Reader(0, srclen, 0, 0);
    var todo, at := dstlen, 0;
    ghost var rest := Flatten(input[..srclen]);
    ghost var goal, done, start := Unpack(rest, depth, dstlen), [], out[..];
    EmptyRegister(input, srclen);
    while todo > 0
      invariant dstlen > 0 ==> 0 <= todo && at + todo == dstlen
      invariant at == |done| <= out.Length
      invariant Holds(r, input, srclen, rest) && r.bitshift < 8
      invariant out[..] == Overwrite(start, 0, done)
      invariant PacketsLeft(goal, done, rest, depth, todo)
      decreases todo
    {
      var fetched, n;
      fetched, n, r := GetByte(input, r, srclen, rest);
      if !fetched {
        NoControlByte(goal, done, rest, depth, todo);
        return false;
      }
      if n < 0 {
        n := -n + 1;
        RunAdvance(goal, done, rest, depth, todo, n);
        rest := rest[8..];
        todo := todo - n;
        if todo < 0 {
          return false;
        }
        fetched, r := FillRun(input, r, depth, n, out, at, srclen, rest);
        if !fetched {
          return false;
        }
        ghost var run := Copies(n, Pixel(rest, depth));
        OverwriteTwice(start, 0, done, run);
        at := at + n;
        rest, done := rest[depth..], done + run;
      } else {
        n := n + 1;
        LiteralAdvance(goal, done, rest, depth, todo, n);
        rest := rest[8..];
        todo := todo - n;
        if todo < 0 {
          return false;
        }
        ghost var lit := Literals(rest, depth, n);
        fetched, r := CopyLiterals(input, r, depth, n, out, at, srclen, rest);
        OverwriteTwice(start, 0, done, lit.pixels);
        if !fetched {
          return false;
        }
        at := at + n;
        rest, done := lit.rest, done + lit.pixels;
      }
    }
    NothingLeft(goal, done, rest, depth, todo);
    return true;
  }

  // ----- Packets -----------------------------------------------------------------

  /** A run repeats one pixel 2 to 129 times; a literal packet holds 1 to 128 pixels. */
  datatype Packet = Run(count: nat, pixel: Byte) | Literal(pixels: seq<Byte>)

  ghost predicate Fits(pixels: seq<Byte>, depth: nat) {
    forall i :: 0 <= i < |pixels| ==> pixels[i] < Pow2(depth)
  }

  ghost predicate PacketOk(p: Packet, depth: nat) {
    match p
    case Run(count, pixel) => 2 <= count <= 129 && pixel < Pow2(depth)
    case Literal(pixels) => 1 <= |pixels| <= 128 && Fits(pixels, depth)
  }

  ghost predicate PacketsOk(ps: seq<Packet>, depth: nat) {
    forall i :: 0 <= i < |ps| ==> PacketOk(ps[i], depth)
  }

  function PixelBits(pixels: seq<Byte>, depth: nat): seq<Bit> {
    if pixels == [] then [] else BitsOf(pixels[0], depth) + PixelBits(pixels[1..], depth)
  }

  function Control(p: Packet): Byte {
    match p
    case Run(count, _) => if 2 <= count <= 129 then 257 - count else 0
    case Literal(pixels) => if 1 <= |pixels| <= 128 then |pixels| - 1 else 0
  }

  function EncodePacket(p: Packet, depth: nat): seq<Bit> {
    BitsOf(Control(p), 8) +
    match p
    case Run(_, pixel) => BitsOf(pixel, depth)
    case Literal(pixels) => PixelBits(pixels, depth)
  }

  function ExpandPacket(p: Packet): seq<Byte> {
    match p
    case Run(count, pixel) => Copies(count, pixel)
    case Literal(pixels) => pixels
  }

  function Encode(ps: seq<Packet>, depth: nat): seq<Bit> {
    if ps == [] then [] else EncodePacket(ps[0], depth) + Encode(ps[1..], depth)
  }

  function Expand(ps: seq<Packet>): seq<Byte> {
    if ps == [] then [] else ExpandPacket(ps[0]) + Expand(ps[1..])
  }

  lemma {:induction false} LiteralsOfPixelBits(pixels: seq<Byte>, depth: nat, tail: seq<Bit>)
    requires 1 <= depth <= 8 && Fits(pixels, depth)
    ensures Literals(PixelBits(pixels, depth) + tail, depth, |pixels|) == Taken(true, pixels, tail)
  {
    if pixels == [] {
      assert PixelBits(pixels, depth) + tail == tail;
    } else {
      var first, rest := BitsOf(pixels[0], depth), PixelBits(pixels[1..], depth) + tail;
      var bits := first + rest;
      assert PixelBits(pixels, depth) + tail == bits;
      ValueOfBits(pixels[0], depth);
      assert bits[..depth] == first && bits[depth..] == rest;
      LiteralsOfPixelBits(pixels[1..], depth, tail);
    }
  }

  lemma UnpackRun(control: seq<Bit>, first: seq<Bit>, tail: seq<Bit>, dst: int, count: nat)
    requires |control| == 8 && 1 <= |first| <= 8
    requires 2 <= count <= 129 && Value(control) == 257 - count && count <= dst
    ensures Value(first) < 256
    ensures var u := Unpack(tail, |first|, dst - count);
      Unpack(control + (first + tail), |first|, dst) == Unpacked(u.ok, Copies(count, Value(first)) + u.pixels)
  {
    Cut(control, first + tail);
    Cut(first, tail);
    PixelFits(first);
  }

  lemma UnpackLiteral(control: seq<Bit>, body: seq<Bit>, depth: nat, dst: int, n: nat)
    requires |control| == 8 && 1 <= depth <= 8
    requires 1 <= n <= 128 && Value(control) == n - 1 && n <= dst
    requires Literals(body, depth, n).ok
    ensures var t := Literals(body, depth, n); var u := Unpack(t.rest, depth, dst - n);
      Unpack(control + body, depth, dst) == Unpacked(u.ok, t.pixels + u.pixels)
  {
    Cut(control, body);
  }

  /** Decoding one packet off the front of a bit string. */
  lemma UnpackPacket(p: Packet, depth: nat, tail: seq<Bit>, dst: int)
    requires 1 <= depth <= 8 && PacketOk(p, depth) && |ExpandPacket(p)| <= dst
    ensures var u := Unpack(tail, depth, dst - |ExpandPacket(p)|);
      Unpack(EncodePacket(p, depth) + tail, depth, dst) == Unpacked(u.ok, ExpandPacket(p) + u.pixels)
  {
    var control := BitsOf(Control(p), 8);
    assert Value(control) == Control(p) by {
      Pow2Of8And16();
      ValueOfBits(Control(p), 8);
    }
    match p
    case Run(count, pixel) =>
      var first := BitsOf(pixel, depth);
      ValueOfBits(pixel, depth);
      Assoc(control, first, tail);
      UnpackRun(control, first, tail, dst, count);
    case Literal(pixels) =>
      var body := PixelBits(pixels, depth);
      LiteralsOfPixelBits(pixels, depth, tail);
      Assoc(control, body, tail);
      UnpackLiteral(control, body + tail, depth, dst, |pixels|);
  }

  /** However a pixel sequence is cut into packets, and whatever follows, decoding its
      encoding gives back exactly those pixels. */
  lemma {:induction false} RoundTrip(ps: seq<Packet>, depth: nat, tail: seq<Bit>)
    requires 1 <= depth <= 8 && PacketsOk(ps, depth)
    ensures Unpack(Encode(ps, depth) + tail, depth, |Expand(ps)|) == Unpacked(true, Expand(ps))
  {
    if ps != [] {
      var rest := Encode(ps[1..], depth) + tail;
      assert Encode(ps, depth) + tail == EncodePacket(ps[0], depth) + rest;
      UnpackPacket(ps[0], depth, rest, |Expand(ps)|);
      RoundTrip(ps[1..], depth, tail);
    }
  }

  lemma {:induction false} PixelBitsOfLiterals(bits: seq<Bit>, depth: nat, n: nat)
    requires 1 <= depth <= 8 && Literals(bits, depth, n).ok
    ensures var t := Literals(bits, depth, n);
      bits == PixelBits(t.pixels, depth) + t.rest && Fits(t.pixels, depth)
    decreases n
  {
    if n > 0 {
      var first := bits[..depth];
      PixelBitsOfLiterals(bits[depth..], depth, n - 1);
      BitsOfValue(first);
      ValueBelow(first);
      var t, t' := Literals(bits, depth, n), Literals(bits[depth..], depth, n - 1);
      Split(bits, depth);
      PixelBitsCons(Value(first), t'.pixels, depth);
      Assoc(first, PixelBits(t'.pixels, depth), t'.rest);
      FitsCons(Value(first), t'.pixels, depth);
    }
  }

  lemma FitsCons(pixel: Byte, pixels: seq<Byte>, depth: nat)
    requires pixel < Pow2(depth) && Fits(pixels, depth)
    ensures Fits([pixel] + pixels, depth)
  {
  }

  lemma PixelBitsCons(pixel: Byte, pixels: seq<Byte>, depth: nat)
    ensures PixelBits([pixel] + pixels, depth) == BitsOf(pixel, depth) + PixelBits(pixels, depth)
  {
    assert ([pixel] + pixels)[1..] == pixels;
  }

  /** The control byte of a successful decode and what its packet needs. */
  lemma ControlRead(bits: seq<Bit>, depth: nat, dst: nat)
    requires 1 <= depth <= 8 && dst > 0 && Unpack(bits, depth, dst).ok
    ensures |bits| >= 8 && Value(bits[..8]) < 256
    ensures var c := Signed(Value(bits[..8]));
      if c < 0 then 1 - c <= dst && depth <= |bits[8..]|
      else c + 1 <= dst && Literals(bits[8..], depth, c + 1).ok
  {
    PixelFits(bits[..8]);
  }

  lemma RunRead(control: seq<Bit>, body: seq<Bit>, depth: nat, dst: nat)
    returns (p: Packet, rest: seq<Bit>)
    requires |control| == 8 && 1 <= depth <= 8 && depth <= |body|
    requires 128 <= Value(control) < 256 && 257 - Value(control) <= dst
    ensures PacketOk(p, depth) && |rest| < |control + body| && |ExpandPacket(p)| <= dst
    ensures control + body == EncodePacket(p, depth) + rest
    ensures var u := Unpack(rest, depth, dst - |ExpandPacket(p)|);
      Unpack(control + body, depth, dst) == Unpacked(u.ok, ExpandPacket(p) + u.pixels)
  {
    hide Unpack, Value;
    var first := body[..depth];
    BitsOfValue(control);
    BitsOfValue(first);
    ValueBelow(first);
    PixelFits(first);
    p, rest := Run(257 - Value(control), Value(first)), body[depth..];
    Split(body, depth);
    Assoc(control, first, rest);
    UnpackRun(control, first, rest, dst, 257 - Value(control));
  }

  lemma LiteralRead(control: seq<Bit>, body: seq<Bit>, depth: nat, dst: nat)
    returns (p: Packet, rest: seq<Bit>)
    requires |control| == 8 && 1 <= depth <= 8
    requires Value(control) < 128 && Value(control) + 1 <= dst
    requires Literals(body, depth, Value(control) + 1).ok
    ensures PacketOk(p, depth) && |rest| < |control + body| && |ExpandPacket(p)| <= dst
    ensures control + body == EncodePacket(p, depth) + rest
    ensures var u := Unpack(rest, depth, dst - |ExpandPacket(p)|);
      Unpack(control + body, depth, dst) == Unpacked(u.ok, ExpandPacket(p) + u.pixels)
  {
    hide Unpack, Value, Literals;
    var n := Value(control) + 1;
    var t := Literals(body, depth, n);
    BitsOfValue(control);
    PixelBitsOfLiterals(body, depth, n);
    p, rest := Literal(t.pixels), t.rest;
    Assoc(control, PixelBits(t.pixels, depth), rest);
    UnpackLiteral(control, body, depth, dst, n);
  }

  /** The packet that a successful decode read first. */
  lemma PacketRead(bits: seq<Bit>, depth: nat, dst: nat) returns (p: Packet, rest: seq<Bit>)
    requires 1 <= depth <= 8 && dst > 0 && Unpack(bits, depth, dst).ok
    ensures PacketOk(p, depth) && |rest| < |bits| && |ExpandPacket(p)| <= dst
    ensures bits == EncodePacket(p, depth) + rest
    ensures var u := Unpack(rest, depth, dst - |ExpandPacket(p)|);
      u.ok && Unpack(bits, depth, dst).pixels == ExpandPacket(p) + u.pixels
  {
    hide Unpack, Value, Literals;
    ControlRead(bits, depth, dst);
    Split(bits, 8);
    if Signed(Value(bits[..8])) < 0 {
      p, rest := RunRead(bits[..8], bits[8..], depth, dst);
    } else {
      p, rest := LiteralRead(bits[..8], bits[8..], depth, dst);
    }
  }

  lemma PacketsCons(p: Packet, ps: seq<Packet>, depth: nat)
    ensures Encode([p] + ps, depth) == EncodePacket(p, depth) + Encode(ps, depth)
    ensures Expand([p] + ps) == ExpandPacket(p) + Expand(ps)
    ensures PacketOk(p, depth) && PacketsOk(ps, depth) ==> PacketsOk([p] + ps, depth)
  {
    assert ([p] + ps)[1..] == ps;
  }

  /** The packets that a successful decode read. */
  lemma {:induction false} PacketsRead(bits: seq<Bit>, depth: nat, dst: nat)
    returns (ps: seq<Packet>, tail: seq<Bit>)
    requires 1 <= depth <= 8 && Unpack(bits, depth, dst).ok
    ensures PacketsOk(ps, depth)
    ensures bits == Encode(ps, depth) + tail
    ensures Unpack(bits, depth, dst).pixels == Expand(ps)
    decreases |bits|
  {
    if dst == 0 {
      assert [] + bits == bits;
      return [], bits;
    }
    hide Unpack, EncodePacket, ExpandPacket, PacketOk, Encode, Expand, PacketsOk;
    var p, rest := PacketRead(bits, depth, dst);
    var qs;
    qs, tail := PacketsRead(rest, depth, dst - |ExpandPacket(p)|);
    ps := [p] + qs;
    PacketsCons(p, qs, depth);
    Assoc(EncodePacket(p, depth), Encode(qs, depth), tail);
  }

  /** `ps` is a way to read `pixels` off the front of `bits`. */
  ghost predicate Explains(ps: seq<Packet>, bits: seq<Bit>, depth: nat, pixels: seq<Byte>) {
    PacketsOk(ps, depth) && Encode(ps, depth) <= bits && Expand(ps) == pixels
  }

  /** The decoder succeeds with `pixels` exactly when the input starts with some packet
      list that expands to them. */
  lemma DecodesExactlyPackets(bits: seq<Bit>, depth: nat, pixels: seq<Byte>)
    requires 1 <= depth <= 8
    ensures Unpack(bits, depth, |pixels|) == Unpacked(true, pixels)
       <==> exists ps :: Explains(ps, bits, depth, pixels)
  {
    hide Unpack, Encode, Expand;
    if Unpack(bits, depth, |pixels|) == Unpacked(true, pixels) {
      var ps, tail := PacketsRead(bits, depth, |pixels|);
      assert Explains(ps, bits, depth, pixels);
    }
    forall ps | Explains(ps, bits, depth, pixels)
      ensures Unpack(bits, depth, |pixels|) == Unpacked(true, pixels)
    {
      var tail := bits[|Encode(ps, depth)|..];
      assert bits == Encode(ps, depth) + tail;
      RoundTrip(ps, depth, tail);
    }
  }

  // ----- Packing bits into bytes ---------------------------------------------------

  /** A bit string as bytes, the last one padded with zero bits. */
  function Pack(bits: seq<Bit>): (bytes: seq<Byte>)
    ensures |bits| <= 8 * |bytes| < |bits| + 8
    decreases |bits|
  {
    if bits == [] then []
    else if |bits| < 8 then [PackByte(bits + seq(8 - |bits|, i => 0))]
    else [PackByte(bits[..8])] + Pack(bits[8..])
  }

  function PackByte(bits: seq<Bit>): Byte
    requires |bits| == 8
  {
    PixelFits(bits);
    Value(bits)
  }

  lemma {:induction false} FlattenOfPack(bits: seq<Bit>)
    ensures bits <= Flatten(Pack(bits))
    decreases |bits|
  {
    if bits == [] {
    } else if |bits| < 8 {
      var padded := bits + seq(8 - |bits|, i => 0);
      BitsOfValue(padded);
      assert Flatten(Pack(bits)) == padded + Flatten([]);
    } else {
      BitsOfValue(bits[..8]);
      FlattenOfPack(bits[8..]);
      assert Pack(bits)[1..] == Pack(bits[8..]);
      assert Flatten(Pack(bits)) == bits[..8] + Flatten(Pack(bits[8..]));
      assert bits == bits[..8] + bits[8..];
    }
  }

  /** The byte-level round trip: the packed packets decode to their pixels. */
  lemma PackedRoundTrip(ps: seq<Packet>, depth: nat)
    requires 1 <= depth <= 8 && PacketsOk(ps, depth)
    ensures Unpack(Flatten(Pack(Encode(ps, depth))), depth, |Expand(ps)|) == Unpacked(true, Expand(ps))
  {
    var bits := Encode(ps, depth);
    FlattenOfPack(bits);
    var tail := Flatten(Pack(bits))[|bits|..];
    assert Flatten(Pack(bits)) == bits + tail;
    RoundTrip(ps, depth, tail);
  }
}
