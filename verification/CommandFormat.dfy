/** The word format of the GPU command buffer: a reference decoder, the words each
    writer of commandbuffer.c is meant to emit, and the proof that decoding those
    words gives back the register writes that were asked for. */
module CommandFormat {
  import opened Wrappers

  /** A command buffer word.  Values pass through the writers untouched; the words computed
      here, the headers, are proved to be 32 bits wide. */
  type word = int

  /** One register write: register number, byte-enable mask, value. */
  datatype RegWrite = RegWrite(reg: nat, be: nat, value: word)

  // ---------- header word ----------

  /** The header word.  Its fields occupy disjoint bits, so the `|` of the source is a sum
      (HeaderBits proves this on bit vectors). */
  function Header(reg: nat, be: nat, extra: nat, step: bool): (h: word)
    requires reg < 0x1_0000 && be < 0x10 && extra < 0x100
    ensures 0 <= h < 0x1_0000_0000
  {
    reg + be * 0x1_0000 + extra * 0x10_0000 + if step then 0x8000_0000 else 0
  }

  function RegOf(h: word): nat { h % 0x1_0000 }
  function EnableOf(h: word): nat { h / 0x1_0000 % 0x10 }
  function ExtraOf(h: word): nat { h / 0x10_0000 % 0x100 }
  predicate Steps(h: word) { h / 0x8000_0000 == 1 }

  lemma HeaderBits(reg: bv32, be: bv32, extra: bv32, step: bv32)
    requires reg <= 0xffff && be <= 0xf && extra <= 0xff && step <= 1
    ensures reg | (be << 16) | (extra << 20) | (step << 31) == reg + (be << 16) + (extra << 20) + (step << 31)
  {
    DisjointFields(reg, be, extra, step);
    OrIsSum(reg, be << 16);
    OrIsSum(reg + (be << 16), extra << 20);
    OrIsSum(reg + (be << 16) + (extra << 20), step << 31);
  }

  lemma DisjointFields(reg: bv32, be: bv32, extra: bv32, step: bv32)
    requires reg <= 0xffff && be <= 0xf && extra <= 0xff && step <= 1
    ensures reg & (be << 16) == 0
    ensures (reg + (be << 16)) & (extra << 20) == 0
    ensures (reg + (be << 16) + (extra << 20)) & (step << 31) == 0
  {
    assert reg + (be << 16) <= 0xf_ffff;
    assert reg + (be << 16) + (extra << 20) <= 0xfff_ffff;
  }

  lemma OrIsSum(x: bv32, y: bv32)
    requires x & y == 0
    ensures x | y == x + y
  {}

  lemma HeaderFields(reg: nat, be: nat, extra: nat, step: bool)
    requires reg < 0x1_0000 && be < 0x10 && extra < 0x100
    ensures var h := Header(reg, be, extra, step);
      RegOf(h) == reg && EnableOf(h) == be && ExtraOf(h) == extra && Steps(h) == step
  {
    var h := Header(reg, be, extra, step);
    assert h / 0x1_0000 == be + extra * 0x10 + if step then 0x8000 else 0;
    assert h / 0x10_0000 == extra + if step then 0x800 else 0;
  }

  // ---------- reference decoder ----------

  /** Words taken by a command with `extra` values after its header: a command is
      padded to a whole number of 8-byte units. */
  function CommandLength(extra: nat): (n: nat)
    ensures n % 2 == 0 && extra + 2 <= n <= extra + 3
  {
    2 + extra + extra % 2
  }

  /** The writes of one command: first value, header, further values. */
  function CommandWrites(first: word, h: word, more: seq<word>): seq<RegWrite>
    requires |more| >= ExtraOf(h)
  {
    if EnableOf(h) == 0 then
      []   // no byte enabled: no register changes
    else
      seq(ExtraOf(h) + 1, i requires 0 <= i <= ExtraOf(h) =>
        RegWrite(RegOf(h) + (if Steps(h) then i else 0), EnableOf(h), if i == 0 then first else more[i - 1]))
  }

  function Decode(words: seq<word>): Option<seq<RegWrite>> {
    if |words| == 0 then Some([])
    else if |words| < 2 then None
    else
      var n := CommandLength(ExtraOf(words[1]));
      if |words| < n then None
      else match Decode(words[n..])
        case None => None
        case Some(rest) => Some(CommandWrites(words[0], words[1], words[2..n]) + rest)
  }

  function LengthOf(words: seq<word>): (n: nat)
    requires |words| >= 2
    ensures n >= 2 + ExtraOf(words[1])
  {
    CommandLength(ExtraOf(words[1]))
  }

  lemma DecodeEmpty()
    ensures Decode([]) == Some([])
  {}

  /** The command at the front comes first, then everything behind it. */
  lemma DecodeFront(words: seq<word>, n: nat)
    requires |words| >= 2 && n == LengthOf(words) <= |words| && Decode(words[n..]).Some?
    ensures Decode(words) == Some(CommandWrites(words[0], words[1], words[2..n]) + Decode(words[n..]).value)
  {}

  lemma DecodedFront(words: seq<word>)
    requires |words| > 0 && Decode(words).Some?
    ensures |words| >= 2 && LengthOf(words) <= |words| && Decode(words[LengthOf(words)..]).Some?
  {}

  lemma SameFront(a: seq<word>, b: seq<word>)
    requires |a| >= 2 && LengthOf(a) <= |a|
    ensures var n, ab := LengthOf(a), a + b;
      LengthOf(ab) == n && ab[0] == a[0] && ab[1] == a[1] && ab[2..n] == a[2..n] && ab[n..] == a[n..] + b
  {}

  lemma Associative<T>(a: seq<T>, b: seq<T>, c: seq<T>)
    ensures a + (b + c) == a + b + c
  {}

  /** Decoding is compositional: what follows a decodable block does not disturb it. */
  lemma {:induction false} DecodeConcat(a: seq<word>, b: seq<word>)
    requires Decode(a).Some? && Decode(b).Some?
    ensures Decode(a + b) == Some(Decode(a).value + Decode(b).value)
  {
    hide *;
    if |a| == 0 {
      assert a == [] && a + b == b;
      DecodeEmpty();
      assert Decode(a).value + Decode(b).value == Decode(b).value;
    } else {
      DecodedFront(a);
      SameFront(a, b);
      var n := LengthOf(a);
      DecodeConcat(a[n..], b);
      DecodeFront(a, n);
      DecodeFront(a + b, n);
      Associative(CommandWrites(a[0], a[1], a[2..n]), Decode(a[n..]).value, Decode(b).value);
      assert Decode(a + b) == Some(Decode(a).value + Decode(b).value);
    }
  }

  lemma DecodeCommand(first: word, h: word, more: seq<word>)
    requires |more| == ExtraOf(h) + ExtraOf(h) % 2
    ensures Decode([first, h] + more) == Some(CommandWrites(first, h, more))
  {
    var words := [first, h] + more;
    assert LengthOf(words) == |words|;
    assert words[2..|words|] == more && words[|words|..] == [];
    DecodeEmpty();
    hide *;
    DecodeFront(words, |words|);
    assert CommandWrites(first, h, more) + [] == CommandWrites(first, h, more);
  }

  // ---------- what the writers emit, and what it means ----------

  /** n & ~1 */
  function EvenPart(n: nat): (e: nat)
    ensures e % 2 == 0 && e <= n <= e + 1
  {
    n / 2 * 2
  }

  /** Values of a burst of `count`, rounded up: an even last chunk carries one padding word. */
  function Padded(count: nat): nat { if count == 0 || count % 2 == 1 then count else count + 1 }

  /** The burst header of a chunk of n values (at most 0x80). */
  function BurstHeader(reg: nat, n: nat, step: bool): word
    requires 1 <= n <= 0x80 && reg < 0x1_0000
  {
    Header(reg, 0xf, n - 1, step)
  }

  predicate Registers(reg: nat, count: nat, step: bool) {
    if step then reg + count <= 0x1_0000 else reg < 0x1_0000
  }

  predicate Burst(reg: nat, count: nat, step: bool, data: seq<word>) {
    Registers(reg, count, step) && |data| >= Padded(count)
  }

  /** Values in the chunk that starts at `offset`. */
  function ChunkSize(count: nat, offset: nat): nat
    requires offset <= count
  {
    if count - offset > 0x80 then 0x80 else count - offset
  }

  /** Register number of the chunk that starts at `offset`. */
  function ChunkReg(reg: nat, step: bool, offset: nat): nat { if step then reg + offset else reg }

  /** One chunk: first value, burst header, then (n & ~1) words. */
  function ChunkWords(reg: nat, count: nat, step: bool, data: seq<word>, offset: nat): (r: seq<word>)
    requires Burst(reg, count, step, data) && offset < count && offset % 2 == 0
    ensures |r| == 2 + EvenPart(ChunkSize(count, offset))
  {
    var n := ChunkSize(count, offset);
    [data[offset], BurstHeader(ChunkReg(reg, step, offset), n, step)] + data[offset + 1..offset + 1 + EvenPart(n)]
  }

  /** The words of a burst from `offset` on, in chunks of up to 0x80 values. */
  function BurstWords(reg: nat, count: nat, step: bool, data: seq<word>, offset: nat): seq<word>
    requires Burst(reg, count, step, data) && offset % 2 == 0
    decreases count - offset
  {
    if offset >= count then
      []
    else
      ChunkWords(reg, count, step, data, offset) + BurstWords(reg, count, step, data, offset + 0x80)
  }

  /** What values [from, to) of a burst are for: value i goes to register reg + i
      (or always to reg), every byte enabled. */
  function BurstWrites(reg: nat, step: bool, data: seq<word>, from: nat, to: nat): seq<RegWrite>
    requires from <= to <= |data|
  {
    seq(to - from, i requires 0 <= i < to - from =>
      RegWrite(ChunkReg(reg, step, from + i), 0xf, data[from + i]))
  }

  /** One command with the fields of a burst header writes one value per register. */
  lemma BurstCommand(reg: nat, step: bool, data: seq<word>, offset: nat, n: nat, h: word, more: seq<word>)
    requires n >= 1 && offset + n <= |data| && |more| >= n - 1
    requires forall i :: 0 <= i < n - 1 ==> more[i] == data[offset + 1 + i]
    requires EnableOf(h) == 0xf && ExtraOf(h) == n - 1 && RegOf(h) == ChunkReg(reg, step, offset) && Steps(h) == step
    ensures CommandWrites(data[offset], h, more) == BurstWrites(reg, step, data, offset, offset + n)
  {
    hide EnableOf, ExtraOf, RegOf, Steps;
    var c, w := CommandWrites(data[offset], h, more), BurstWrites(reg, step, data, offset, offset + n);
    forall i | 0 <= i < n ensures c[i] == w[i] {
      if i > 0 { assert more[i - 1] == data[offset + 1 + (i - 1)]; }
    }
    assert c == w;
  }

  lemma DecodeChunk(reg: nat, count: nat, step: bool, data: seq<word>, offset: nat)
    requires Burst(reg, count, step, data) && offset < count && offset % 2 == 0
    ensures Decode(ChunkWords(reg, count, step, data, offset))
         == Some(BurstWrites(reg, step, data, offset, offset + ChunkSize(count, offset)))
  {
    var n := ChunkSize(count, offset);
    var r := ChunkReg(reg, step, offset);
    var more := data[offset + 1..offset + 1 + EvenPart(n)];
    var h := Header(r, 0xf, n - 1, step);
    assert |more| == n - 1 + (n - 1) % 2;
    assert ChunkWords(reg, count, step, data, offset) == [data[offset], h] + more;
    HeaderFields(r, 0xf, n - 1, step);
    hide *;
    BurstCommand(reg, step, data, offset, n, h, more);
    DecodeCommand(data[offset], h, more);
  }

  /** Encode/decode round trip for every count, across the 0x80-value chunks. */
  lemma {:induction false} DecodeBurst(reg: nat, count: nat, step: bool, data: seq<word>, offset: nat)
    requires Burst(reg, count, step, data) && offset <= count && offset % 2 == 0
    ensures Decode(BurstWords(reg, count, step, data, offset)) == Some(BurstWrites(reg, step, data, offset, count))
    decreases count - offset
  {
    hide Decode, ChunkWords;
    if offset == count {
      DecodeEmpty();
    } else {
      var next := offset + ChunkSize(count, offset);
      DecodeChunk(reg, count, step, data, offset);
      if next == count {
        DecodeEmpty();
        assert BurstWords(reg, count, step, data, offset + 0x80) == [];
      } else {
        DecodeBurst(reg, count, step, data, next);
      }
      DecodeConcat(ChunkWords(reg, count, step, data, offset), BurstWords(reg, count, step, data, offset + 0x80));
      assert BurstWrites(reg, step, data, offset, count)
          == BurstWrites(reg, step, data, offset, next) + BurstWrites(reg, step, data, next, count);
    }
  }

  /** Words the space check of a burst asks for. */
  function Reserved(count: nat): (r: nat)
    ensures r % 2 == 0
  {
    EvenPart(count) + (count / 0x80 + 1) * 2
  }

  lemma ReservedStep(left: nat)
    requires left >= 0x80
    ensures left % 0x80 == (left - 0x80) % 0x80 && Reserved(left) == Reserved(left - 0x80) + 0x82
  {}

  lemma ReservedLast(left: nat)
    requires 0 < left < 0x80
    ensures left % 0x80 != 0 && Reserved(left) == EvenPart(left) + 2
  {}

  /** A burst never emits more than its space check reserved (an even number of words),
      exactly that much unless the count is a multiple of 0x80. */
  lemma {:induction false} BurstLength(reg: nat, count: nat, step: bool, data: seq<word>, offset: nat)
    requires Burst(reg, count, step, data) && offset <= count && offset % 2 == 0
    ensures var left := count - offset;
      |BurstWords(reg, count, step, data, offset)| == Reserved(left) - (if left % 0x80 == 0 then 2 else 0)
    decreases count - offset
  {
    var left := count - offset;
    if left >= 0x80 {
      ReservedStep(left);
      BurstLength(reg, count, step, data, offset + 0x80);
      hide ChunkWords, Reserved;
      assert |ChunkWords(reg, count, step, data, offset)| == 0x82;
    } else if left > 0 {
      ReservedLast(left);
      BurstEnd(reg, count, step, data, offset + 0x80);
    }
  }

  /** The first chunk and what follows it, spelled out. */
  lemma BurstUnfold(reg: nat, count: nat, step: bool, data: seq<word>, offset: nat) returns (chunk: seq<word>)
    requires Burst(reg, count, step, data) && offset < count && offset % 2 == 0
    ensures var n := ChunkSize(count, offset);
      offset + 1 + n / 2 * 2 <= |data| && chunk
        == [data[offset], BurstHeader(ChunkReg(reg, step, offset), n, step)] + data[offset + 1..offset + 1 + n / 2 * 2]
    ensures BurstWords(reg, count, step, data, offset) == chunk + BurstWords(reg, count, step, data, offset + 0x80)
  {
    chunk := ChunkWords(reg, count, step, data, offset);
  }

  lemma BurstEnd(reg: nat, count: nat, step: bool, data: seq<word>, offset: nat)
    requires Burst(reg, count, step, data) && offset >= count && offset % 2 == 0
    ensures BurstWords(reg, count, step, data, offset) == []
  {}
}
