/** The bounded command buffer of commandbuffer.c / commandbuffer.h: the writers, each proved
    against the words of CommandFormat, and the discipline that every run of them keeps. */
module CommandBuffer {
  import opened CommandFormat
  import opened Wrappers

  /** A writer call. */
  datatype Op =
    | WriteReg(reg: nat, value: word, be: nat)
    | WriteRegs(reg: nat, count: nat, data: seq<word>)
    | MultiWriteReg(reg: nat, count: nat, data: seq<word>)
    | FillRegs(reg: nat, count: nat, value: word)
    | AddDummyWrite(reg: nat, count: nat)
  {
    /** What each writer asks of its caller: a 16-bit register number, a data array that also
        holds the padding word of an even last chunk, a dummy that fits the header's count. */
    predicate Callable() {
      match this
      case WriteReg(reg, _, be) => reg < 0x1_0000 && be < 0x10
      case WriteRegs(reg, count, data) => Burst(reg, count, true, data)
      case MultiWriteReg(reg, count, data) => Burst(reg, count, false, data)
      case FillRegs(reg, count, _) => Registers(reg, count, true)
      case AddDummyWrite(reg, count) => reg < 0x1_0000 && count <= 0x100
    }

    /** Words that must fit for the call to write anything. */
    function Space(): nat {
      match this
      case WriteReg(_, _, _) => 2
      case WriteRegs(_, count, _) => Reserved(count)
      case MultiWriteReg(_, count, _) => Reserved(count)
      case FillRegs(_, count, _) => Reserved(count)
      case AddDummyWrite(_, count) => count + 2
    }

    /** The words the call stores, given the words it may skip over. */
    function Words(behind: seq<word>): seq<word>
      requires Callable() && |behind| >= Space()
    {
      match this
      case WriteReg(reg, value, be) => [value, Header(reg, be, 0, false)]
      case WriteRegs(reg, count, data) => BurstWords(reg, count, true, data, 0)
      case MultiWriteReg(reg, count, data) => BurstWords(reg, count, false, data, 0)
      case FillRegs(reg, count, value) => BurstWords(reg, count, true, Repeat(value, Padded(count)), 0)
      case AddDummyWrite(reg, count) =>
        if count == 0 then [] else [0, Header(reg, 0, count - 1, false)] + behind[2..2 + EvenPart(count)]
    }

    /** The register writes the call is for. */
    function Meaning(): seq<RegWrite>
      requires Callable()
    {
      match this
      case WriteReg(reg, value, be) => if be == 0 then [] else [RegWrite(reg, be, value)]
      case WriteRegs(reg, count, data) => BurstWrites(reg, true, data, 0, count)
      case MultiWriteReg(reg, count, data) => BurstWrites(reg, false, data, 0, count)
      case FillRegs(reg, count, value) => BurstWrites(reg, true, Repeat(value, count), 0, count)
      case AddDummyWrite(_, _) => []
    }
  }

  /** `mem` with `words` stored at `at`. */
  function Patch(mem: seq<word>, at: nat, words: seq<word>): (r: seq<word>)
    requires at + |words| <= |mem|
    ensures |r| == |mem|
  {
    seq(|mem|, i requires 0 <= i < |mem| => if at <= i < at + |words| then words[i - at] else mem[i])
  }

  function Repeat(v: word, n: nat): seq<word> { seq(n, _ => v) }

  // ---------- the buffer as a value ----------

  /** Contents, cursor and maximum, in words from the base of the buffer. */
  datatype Buf = Buf(mem: seq<word>, cur: nat, max: nat) {
    predicate Valid() { cur <= max <= |mem| && cur % 2 == 0 && max % 2 == 0 }

    /** The single-register macro tests cur < max; the bursts insist on one word to spare. */
    predicate Fits(op: Op) {
      if op.WriteReg? then cur < max else cur + op.Space() < max
    }

    function Put(words: seq<word>): Buf
      requires cur + |words| <= |mem|
    {
      Buf(Patch(mem, cur, words), cur + |words|, max)
    }

    /** One writer call: the words go in, or the buffer is marked full and nothing is stored.
        The macro leaves a full buffer alone. */
    function Apply(op: Op): Buf
      requires Valid() && op.Callable()
    {
      if Fits(op) then
        WordsFit(this, op);
        Put(op.Words(mem[cur..]))
      else
        this.(cur := max)
    }
  }

  lemma WordsFit(b: Buf, op: Op)
    requires b.Valid() && op.Callable() && b.Fits(op)
    ensures b.cur + op.Space() <= b.max
    ensures |op.Words(b.mem[b.cur..])| <= op.Space() && |op.Words(b.mem[b.cur..])| % 2 == 0
  {
    hide BurstWords, Reserved, EvenPart;
    match op
    case WriteReg(_, _, _) =>
    case WriteRegs(reg, count, data) => BurstLength(reg, count, true, data, 0);
    case MultiWriteReg(reg, count, data) => BurstLength(reg, count, false, data, 0);
    case FillRegs(reg, count, value) => BurstLength(reg, count, true, Repeat(value, Padded(count)), 0);
    case AddDummyWrite(_, _) =>
  }

  lemma DecodeOp(op: Op, behind: seq<word>)
    requires op.Callable() && |behind| >= op.Space()
    ensures Decode(op.Words(behind)) == Some(op.Meaning())
  {
    hide Decode, BurstWords;
    match op
    case WriteReg(reg, value, be) =>
      HeaderFields(reg, be, 0, false);
      DecodeCommand(value, Header(reg, be, 0, false), []);
      assert op.Words(behind) == [value, Header(reg, be, 0, false)] + [];
      assert CommandWrites(value, Header(reg, be, 0, false), []) == op.Meaning();
    case WriteRegs(reg, count, data) => DecodeBurst(reg, count, true, data, 0);
    case MultiWriteReg(reg, count, data) => DecodeBurst(reg, count, false, data, 0);
    case FillRegs(reg, count, value) =>
      DecodeBurst(reg, count, true, Repeat(value, Padded(count)), 0);
      assert BurstWrites(reg, true, Repeat(value, Padded(count)), 0, count) == op.Meaning();
    case AddDummyWrite(reg, count) =>
      if count == 0 {
        DecodeEmpty();
      } else {
        HeaderFields(reg, 0, count - 1, false);
        DecodeCommand(0, Header(reg, 0, count - 1, false), behind[2..2 + EvenPart(count)]);
      }
  }

  // ---------- runs of writer calls ----------

  predicate AllCallable(ops: seq<Op>) { forall i :: 0 <= i < |ops| ==> ops[i].Callable() }

  function Run(b: Buf, ops: seq<Op>): (r: Buf)
    requires b.Valid() && AllCallable(ops)
    ensures r.Valid() && r.max == b.max && |r.mem| == |b.mem| && r.cur >= b.cur
    ensures forall i :: 0 <= i < b.cur || b.max <= i < |b.mem| ==> r.mem[i] == b.mem[i]
    decreases |ops|
  {
    if ops == [] then
      b
    else
      ApplyKeeps(b, ops[0]);
      Run(b.Apply(ops[0]), ops[1..])
  }

  function Meanings(ops: seq<Op>): seq<RegWrite>
    requires AllCallable(ops)
  {
    if ops == [] then [] else ops[0].Meaning() + Meanings(ops[1..])
  }

  /** The discipline of one call: the cursor stays within the buffer and on an 8-byte
      boundary, and nothing outside [cur, max) is touched. */
  lemma ApplyKeeps(b: Buf, op: Op)
    requires b.Valid() && op.Callable()
    ensures var r := b.Apply(op);
      r.Valid() && r.max == b.max && |r.mem| == |b.mem| && r.cur >= b.cur
      && forall i :: 0 <= i < b.cur || b.max <= i < |b.mem| ==> r.mem[i] == b.mem[i]
  {
    if b.Fits(op) { WordsFit(b, op); }
  }

  /** A full buffer is final: every later call, of any length, changes nothing. */
  lemma {:induction false} FullIsFinal(b: Buf, ops: seq<Op>)
    requires b.Valid() && AllCallable(ops) && b.cur == b.max
    ensures Run(b, ops) == b
  {
    if ops != [] {
      assert !b.Fits(ops[0]);
      FullIsFinal(b, ops[1..]);
    }
  }

  lemma SliceAcross<T>(m1: seq<T>, m2: seq<T>, a: nat, b: nat, c: nat)
    requires a <= b <= c <= |m2| && b <= |m1| && forall i :: 0 <= i < b ==> m2[i] == m1[i]
    ensures m2[a..c] == m1[a..b] + m2[b..c]
  {}

  lemma ApplyDecodes(b: Buf, op: Op)
    requires b.Valid() && op.Callable() && b.Fits(op)
    ensures var r := b.Apply(op);
      r.cur <= |r.mem| && b.cur <= r.cur && Decode(r.mem[b.cur..r.cur]) == Some(op.Meaning())
  {
    hide Decode, BurstWords;
    WordsFit(b, op);
    DecodeOp(op, b.mem[b.cur..]);
    var r, words := b.Apply(op), op.Words(b.mem[b.cur..]);
    assert r.mem[b.cur..r.cur] == words;
  }

  /** Whole-run meaning: as long as the buffer is not marked full at the end, the words
      added since `b` decode to exactly the writes of all calls, in order. */
  lemma {:induction false} RunDecodes(b: Buf, ops: seq<Op>)
    requires b.Valid() && AllCallable(ops) && Run(b, ops).cur != b.max
    ensures var r := Run(b, ops); Decode(r.mem[b.cur..r.cur]) == Some(Meanings(ops))
    decreases |ops|
  {
    hide Decode;
    var r := Run(b, ops);
    if ops == [] {
      assert r.mem[b.cur..r.cur] == [];
      DecodeEmpty();
    } else {
      var b1 := b.Apply(ops[0]);
      ApplyKeeps(b, ops[0]);
      RunDecodes(b1, ops[1..]);
      ApplyDecodes(b, ops[0]);
      SliceAcross(b1.mem, r.mem, b.cur, b1.cur, r.cur);
      DecodeConcat(b1.mem[b.cur..b1.cur], r.mem[b1.cur..r.cur]);
    }
  }

  // ---------- when a call stores its words ----------

  /** The cursor tests of the source, in words. */
  predicate Passes(b: Buf, op: Op) {
    match op
    case WriteReg(_, _, _) => b.cur < b.max
    case WriteRegs(_, count, _) => b.cur + count / 2 * 2 + (count / 128 + 1) * 2 < b.max
    case MultiWriteReg(_, count, _) => b.cur + count / 2 * 2 + (count / 128 + 1) * 2 < b.max
    case FillRegs(_, count, _) => b.cur + count / 2 * 2 + (count / 128 + 1) * 2 < b.max
    case AddDummyWrite(_, count) => b.cur + count + 2 < b.max
  }

  /** The words a call takes: two for each chunk of a burst and the rest of its values in pairs, two and the
      words skipped for a dummy. */
  function Emitted(op: Op): nat {
    match op
    case WriteReg(_, _, _) => 2
    case WriteRegs(_, count, _) => count / 2 * 2 + (count + 127) / 128 * 2
    case MultiWriteReg(_, count, _) => count / 2 * 2 + (count + 127) / 128 * 2
    case FillRegs(_, count, _) => count / 2 * 2 + (count + 127) / 128 * 2
    case AddDummyWrite(_, count) => if count == 0 then 0 else count / 2 * 2 + 2
  }

  lemma BurstEmits(count: nat)
    ensures Reserved(count) == count / 2 * 2 + (count / 128 + 1) * 2
    ensures Reserved(count) - (if count % 0x80 == 0 then 2 else 0) == count / 2 * 2 + (count + 127) / 128 * 2
  {}

  lemma EmittedWords(op: Op, behind: seq<word>)
    requires op.Callable() && |behind| >= op.Space()
    ensures |op.Words(behind)| == Emitted(op)
  {
    hide BurstWords, Reserved;
    match op
    case WriteReg(_, _, _) =>
    case WriteRegs(reg, count, data) => BurstLength(reg, count, true, data, 0); BurstEmits(count);
    case MultiWriteReg(reg, count, data) => BurstLength(reg, count, false, data, 0); BurstEmits(count);
    case FillRegs(reg, count, value) =>
      BurstLength(reg, count, true, Repeat(value, Padded(count)), 0);
      BurstEmits(count);
    case AddDummyWrite(_, _) =>
  }

  lemma FitsExactly(b: Buf, op: Op)
    ensures b.Fits(op) <==> Passes(b, op)
  {
    hide Reserved;
    if !op.WriteReg? && !op.AddDummyWrite? { BurstEmits(op.count); }
  }

  /** A call stores its words, and they decode to its meaning, exactly when the cursor test passes; else
      the macro does nothing and every other writer marks the buffer full. */
  lemma StoresExactly(b: Buf, op: Op)
    requires b.Valid() && op.Callable()
    ensures var r := b.Apply(op);
      if Passes(b, op) then
        r.cur == b.cur + Emitted(op) <= b.max && r.max == b.max && |r.mem| == |b.mem|
        && Decode(r.mem[b.cur..r.cur]) == Some(op.Meaning())
        && forall i :: 0 <= i < b.cur || r.cur <= i < |b.mem| ==> r.mem[i] == b.mem[i]
      else
        r == if op.WriteReg? then b else b.(cur := b.max)
  {
    hide Decode, Reserved, BurstWords, Passes, Emitted;
    FitsExactly(b, op);
    if b.Fits(op) {
      WordsFit(b, op);
      EmittedWords(op, b.mem[b.cur..]);
      ApplyDecodes(b, op);
    } else {
      assert op.WriteReg? ==> b.cur == b.max;
    }
  }

  /** Three registers from 0x10: value, header, values; and one register with its header. */
  lemma WordsExample()
    ensures WriteRegs(0x10, 3, [1, 2, 3]).Words([0, 0, 0, 0]) == [1, 0x802F_0010, 2, 3]
    ensures Op.WriteReg(0x10, 5, 8).Words([0, 0]) == [5, 0x8_0010]
  {
    assert BurstWords(0x10, 3, true, [1, 2, 3], 0x80) == [];
  }

  function TotalEmitted(ops: seq<Op>): nat { if ops == [] then 0 else Emitted(ops[0]) + TotalEmitted(ops[1..]) }

  /** Calls whose words stay clear of the maximum by two are never dropped: all their writes are in the
      buffer, in order. */
  lemma {:induction false} NeverDropped(b: Buf, ops: seq<Op>)
    requires b.Valid() && AllCallable(ops) && b.cur + TotalEmitted(ops) + 2 < b.max
    ensures var r := Run(b, ops);
      r.cur == b.cur + TotalEmitted(ops) && Decode(r.mem[b.cur..r.cur]) == Some(Meanings(ops))
    decreases |ops|
  {
    hide Decode, Emitted, Passes, Buf.Apply, Op.Callable;
    RunsThrough(b, ops);
    RunDecodes(b, ops);
  }

  lemma {:induction false} RunsThrough(b: Buf, ops: seq<Op>)
    requires b.Valid() && AllCallable(ops) && b.cur + TotalEmitted(ops) + 2 < b.max
    ensures Run(b, ops).cur == b.cur + TotalEmitted(ops)
    decreases |ops|
  {
    hide Decode, Emitted, Passes, Buf.Apply, Op.Callable, Op.Meaning;
    if ops != [] {
      RoomPasses(b, ops[0]);
      StoresExactly(b, ops[0]);
      ApplyKeeps(b, ops[0]);
      RunsThrough(b.Apply(ops[0]), ops[1..]);
    }
  }

  lemma RoomPasses(b: Buf, op: Op)
    requires b.cur + Emitted(op) + 2 < b.max
    ensures Passes(b, op)
  {
    if !op.WriteReg? && !op.AddDummyWrite? { ChunksCovered(op.count); }
  }

  lemma ChunksCovered(count: nat)
    ensures (count / 128 + 1) * 2 <= (count + 127) / 128 * 2 + 2
  {}

  // ---------- the buffer as the source keeps it ----------

  /** The globals __cb_current_command_buffer and __cb_current_max_command_buffer, as offsets
      into the memory they point to. */
  class Cursor {
    var mem: array<word>
    var cur: nat
    var max: nat

    ghost function View(): Buf
      reads this, mem
    {
      Buf(mem[..], cur, max)
    }

    constructor (buffer: array<word>, words: nat)
      requires words <= buffer.Length && words % 2 == 0
      ensures mem == buffer && View() == Buf(buffer[..], 0, words)
    {
      mem, cur, max := buffer, 0, words;
    }

    /** commandbuffer.h, __cb_writeReg */
    method WriteReg(reg: nat, value: word, be: nat)
      requires View().Valid() && Op.WriteReg(reg, value, be).Callable()
      modifies this`cur, mem
      ensures View() == old(View().Apply(Op.WriteReg(reg, value, be)))
    {
      if cur < max {
        mem[cur], mem[cur + 1] := value, Header(reg, be, 0, false);
        cur := cur + 2;
      }
    }

    /** The copying loop shared by the bursts: pairs of words through a moving pointer. */
    method CopyPairs(to: nat, data: seq<word>, from: nat, count: nat) returns (dst: nat)
      requires from + 2 * count <= |data| && to + 2 * count <= mem.Length
      modifies mem
      ensures dst == to + 2 * count
      ensures Holds(old(mem[..]), to, data[from..from + 2 * count])
    {
      dst := to;
      var src: nat, pairs: nat := from, count;
      while pairs != 0
        invariant src == from + 2 * (count - pairs) && dst == to + 2 * (count - pairs)
        invariant forall k :: 0 <= k < mem.Length ==>
          mem[k] == if to <= k < dst then data[from + k - to] else old(mem[k])
      {
        pairs := pairs - 1;
        mem[dst], mem[dst + 1] := data[src], data[src + 1];
        dst, src := dst + 2, src + 2;
      }
    }

    /** __cb_writeRegsBuffer: the burst loop on its own. */
    method WriteRegsBuffer(reg: nat, count: nat, data: seq<word>, to: nat) returns (dst: nat)
      requires Burst(reg, count, true, data) && to + |BurstWords(reg, count, true, data, 0)| <= mem.Length
      modifies mem
      ensures dst == to + |BurstWords(reg, count, true, data, 0)|
      ensures Holds(old(mem[..]), to, BurstWords(reg, count, true, data, 0))
    {
      hide BurstWords, BurstHeader, Padded, EvenPart, Stored;
      ghost var all := BurstWords(reg, count, true, data, 0);
      ghost var done: seq<word> := [];
      var offset := 0;
      dst := to;
      assert done + all == all;
      StoredNone(mem[..], to);
      while offset < count
        invariant offset % 2 == 0 && done + BurstWords(reg, count, true, data, offset) == all
        invariant dst == to + |done| && Holds(old(mem[..]), to, done)
      {
        var n := if count - offset > 0x80 then 0x80 else count - offset;
        ghost var chunk := BurstUnfold(reg, count, true, data, offset);
        Associative(done, chunk, BurstWords(reg, count, true, data, offset + 0x80));
        ghost var a := mem[..];
        mem[dst], mem[dst + 1] := data[offset], BurstHeader(reg + offset, n, true);
        ghost var b := mem[..];
        dst := CopyPairs(dst + 2, data, offset + 1, n / 2);
        StoredChunk(old(mem[..]), a, b, mem[..], to, done, data[offset], BurstHeader(reg + offset, n, true),
          data[offset + 1..offset + 1 + n / 2 * 2]);
        done := done + chunk;
        offset := offset + 0x80;
      }
      BurstEnd(reg, count, true, data, offset);
      assert done + [] == done;
    }

    method WriteRegs(reg: nat, count: nat, data: seq<word>)
      requires View().Valid() && Op.WriteRegs(reg, count, data).Callable()
      modifies this`cur, mem
      ensures View() == old(View().Apply(Op.WriteRegs(reg, count, data)))
    {
      if cur + Reserved(count) >= max {
        cur := max;
        return;
      }
      WordsFit(View(), Op.WriteRegs(reg, count, data));
      cur := WriteRegsBuffer(reg, count, data, cur);
    }

    method MultiWriteReg(reg: nat, count: nat, data: seq<word>)
      requires View().Valid() && Op.MultiWriteReg(reg, count, data).Callable()
      modifies this`cur, mem
      ensures View() == old(View().Apply(Op.MultiWriteReg(reg, count, data)))
    {
      if cur + Reserved(count) >= max {
        cur := max;
        return;
      }
      WordsFit(View(), Op.MultiWriteReg(reg, count, data));
      cur := MultiWriteLoop(reg, count, data, cur);
    }

    /** The chunk loop of __cb_multiWriteReg. */
    method MultiWriteLoop(reg: nat, count: nat, data: seq<word>, to: nat) returns (dst: nat)
      requires Burst(reg, count, false, data) && to + |BurstWords(reg, count, false, data, 0)| <= mem.Length
      modifies mem
      ensures dst == to + |BurstWords(reg, count, false, data, 0)|
      ensures Holds(old(mem[..]), to, BurstWords(reg, count, false, data, 0))
    {
      hide BurstWords, BurstHeader, Padded, EvenPart, Stored;
      ghost var all := BurstWords(reg, count, false, data, 0);
      ghost var done: seq<word> := [];
      var offset := 0;
      dst := to;
      assert done + all == all;
      StoredNone(mem[..], to);
      while offset < count
        invariant offset % 2 == 0 && done + BurstWords(reg, count, false, data, offset) == all
        invariant dst == to + |done| && Holds(old(mem[..]), to, done)
      {
        var n := if count - offset > 0x80 then 0x80 else count - offset;
        ghost var chunk := BurstUnfold(reg, count, false, data, offset);
        Associative(done, chunk, BurstWords(reg, count, false, data, offset + 0x80));
        ghost var a := mem[..];
        mem[dst], mem[dst + 1] := data[offset], BurstHeader(reg, n, false);
        ghost var b := mem[..];
        dst := CopyUnrolled(dst + 2, data, offset + 1, n / 2 * 2);
        StoredChunk(old(mem[..]), a, b, mem[..], to, done, data[offset], BurstHeader(reg, n, false),
          data[offset + 1..offset + 1 + n / 2 * 2]);
        done := done + chunk;
        offset := offset + 0x80;
      }
      BurstEnd(reg, count, false, data, offset);
      assert done + [] == done;
    }

    /** The unrolled copy of __cb_multiWriteReg: two words at a time until a multiple of 16
        is left, then sixteen at a time.  It stores what a plain copy stores. */
    method CopyUnrolled(to: nat, data: seq<word>, from: nat, total: nat) returns (dst: nat)
      requires total % 2 == 0 && from + total <= |data| && to + total <= mem.Length
      modifies mem
      ensures dst == to + total
      ensures Holds(old(mem[..]), to, data[from..from + total])
    {
      var done := CopyTwos(to, data, from, total);
      dst := CopySixteens(to + done, data, from + done, total - done);
    }

    method CopyTwos(to: nat, data: seq<word>, from: nat, total: nat) returns (done: nat)
      requires total % 2 == 0 && from + total <= |data| && to + total <= mem.Length
      modifies mem
      ensures done <= total && (total - done) % 16 == 0
      ensures Holds(old(mem[..]), to, data[from..from + done])
    {
      done := 0;
      while (total - done) % 16 != 0   // count & 0xe
        invariant (total - done) % 2 == 0 && done <= total
        invariant forall k :: 0 <= k < mem.Length ==>
          mem[k] == if to <= k < to + done then data[from + k - to] else old(mem[k])
        decreases total - done
      {
        mem[to + done], mem[to + done + 1] := data[from + done], data[from + done + 1];
        done := done + 2;
      }
    }

    method CopySixteens(to: nat, data: seq<word>, from: nat, total: nat) returns (dst: nat)
      requires total % 16 == 0 && from + total <= |data| && to + total <= mem.Length
      modifies mem
      ensures dst == to + total
      ensures Holds(old(mem[..]), to, data[from..from + total])
    {
      dst := to;
      var src: nat, count: nat := from, total;
      while count != 0
        invariant count % 16 == 0 && count <= total && src == from + (total - count) && dst == to + (total - count)
        invariant forall k :: 0 <= k < mem.Length ==>
          mem[k] == if to <= k < dst then data[from + k - to] else old(mem[k])
      {
        count := count - 16;
        forall j | 0 <= j < 16 { mem[dst + j] := data[src + j]; }
        dst, src := dst + 16, src + 16;
      }
    }

    method FillRegs(reg: nat, count: nat, value: word)
      requires View().Valid() && Op.FillRegs(reg, count, value).Callable()
      modifies this`cur, mem
      ensures View() == old(View().Apply(Op.FillRegs(reg, count, value)))
    {
      hide BurstWords, Reserved, Op.Meaning;
      if cur + Reserved(count) >= max {
        cur := max;
        return;
      }
      WordsFit(View(), Op.FillRegs(reg, count, value));
      cur := FillLoop(reg, count, value, cur);
    }

    /** The chunk loop of __cb_fillRegs: a burst of one repeated value. */
    method FillLoop(reg: nat, count: nat, value: word, to: nat) returns (dst: nat)
      requires Burst(reg, count, true, Repeat(value, Padded(count)))
      requires to + |BurstWords(reg, count, true, Repeat(value, Padded(count)), 0)| <= mem.Length
      modifies mem
      ensures dst == to + |BurstWords(reg, count, true, Repeat(value, Padded(count)), 0)|
      ensures Holds(old(mem[..]), to, BurstWords(reg, count, true, Repeat(value, Padded(count)), 0))
    {
      hide BurstWords, BurstHeader, Padded, EvenPart, Stored;
      ghost var data := Repeat(value, Padded(count));
      ghost var all := BurstWords(reg, count, true, data, 0);
      ghost var done: seq<word> := [];
      var offset := 0;
      dst := to;
      assert done + all == all;
      StoredNone(mem[..], to);
      while offset < count
        invariant offset % 2 == 0 && done + BurstWords(reg, count, true, data, offset) == all
        invariant dst == to + |done| && Holds(old(mem[..]), to, done)
      {
        var n := if count - offset > 0x80 then 0x80 else count - offset;
        ghost var chunk := BurstUnfold(reg, count, true, data, offset);
        Associative(done, chunk, BurstWords(reg, count, true, data, offset + 0x80));
        ghost var a := mem[..];
        mem[dst], mem[dst + 1] := value, BurstHeader(reg + offset, n, true);
        ghost var b := mem[..];
        dst := StorePairs(dst + 2, value, n / 2);
        assert data[offset + 1..offset + 1 + n / 2 * 2] == Repeat(value, 2 * (n / 2));
        StoredChunk(old(mem[..]), a, b, mem[..], to, done, value, BurstHeader(reg + offset, n, true),
          data[offset + 1..offset + 1 + n / 2 * 2]);
        done := done + chunk;
        offset := offset + 0x80;
      }
      BurstEnd(reg, count, true, data, offset);
      assert done + [] == done;
    }

    method StorePairs(to: nat, value: word, count: nat) returns (dst: nat)
      requires to + 2 * count <= mem.Length
      modifies mem
      ensures dst == to + 2 * count
      ensures Holds(old(mem[..]), to, Repeat(value, 2 * count))
    {
      dst := to;
      var pairs: nat := count;
      while pairs != 0
        invariant pairs <= count && dst == to + 2 * (count - pairs)
        invariant forall k :: 0 <= k < mem.Length ==> mem[k] == if to <= k < dst then value else old(mem[k])
      {
        pairs := pairs - 1;
        mem[dst], mem[dst + 1] := value, value;
        dst := dst + 2;
      }
    }

    method AddDummyWrite(reg: nat, count: nat)
      requires View().Valid() && Op.AddDummyWrite(reg, count).Callable()
      modifies this`cur, mem
      ensures View() == old(View().Apply(Op.AddDummyWrite(reg, count)))
    {
      if cur + (count + 2) >= max {
        cur := max;
        return;
      }
      WordsFit(View(), Op.AddDummyWrite(reg, count));
      DummyWords(View(), reg, count);
      if count != 0 {
        var n := count - 1;
        mem[cur], mem[cur + 1] := 0, Header(reg, 0, n, false);
        cur := cur + 2;
        if n % 2 == 1 { n := n + 1; }
        cur := cur + n;
      }
    }

    /** The memory is `before` with `words` stored at `at`. */
    ghost predicate Holds(before: seq<word>, at: nat, words: seq<word>)
      reads this, mem
    {
      Stored(before, mem[..], at, words)
    }
  }

  ghost predicate Stored(before: seq<word>, after: seq<word>, at: nat, words: seq<word>) {
    |before| == |after| && at + |words| <= |after|
    && forall k :: 0 <= k < |after| ==> after[k] == if at <= k < at + |words| then words[k - at] else before[k]
  }

  lemma StoredNone(before: seq<word>, at: nat)
    requires at <= |before|
    ensures Stored(before, before, at, [])
  {}

  /** One more chunk behind those stored: its value and header, then the rest. */
  lemma StoredChunk(before: seq<word>, a: seq<word>, b: seq<word>, c: seq<word>, at: nat, done: seq<word>,
      value: word, header: word, rest: seq<word>)
    requires Stored(before, a, at, done) && at + |done| + 2 <= |a|
    requires b == a[at + |done| := value][at + |done| + 1 := header]
    requires Stored(b, c, at + |done| + 2, rest)
    ensures Stored(before, c, at, done + ([value, header] + rest))
  {}

  /** A dummy stores its two header words and moves past the rest. */
  lemma DummyWords(b: Buf, reg: nat, count: nat)
    requires b.Valid() && AddDummyWrite(reg, count).Callable() && b.Fits(AddDummyWrite(reg, count))
    ensures b.Apply(AddDummyWrite(reg, count)) ==
      if count == 0 then b
      else Buf(b.mem[b.cur := 0][b.cur + 1 := Header(reg, 0, count - 1, false)],
               b.cur + 2 + (count - 1) + (count - 1) % 2, b.max)
  {
    var op := AddDummyWrite(reg, count);
    WordsFit(b, op);
    var words := op.Words(b.mem[b.cur..]);
    var r := b.Apply(op);
    if count == 0 {
      assert r.mem == b.mem;
    } else {
      assert EvenPart(count) == count - 1 + (count - 1) % 2;
      assert |words| == 2 + EvenPart(count) && r.cur == b.cur + |words|;
      hide Header, EvenPart;
      assert forall k :: 2 <= k < |words| ==> words[k] == b.mem[b.cur + k];
      assert r.mem == b.mem[b.cur := 0][b.cur + 1 := Header(reg, 0, count - 1, false)];
    }
  }
}
