/** ReadUncompLZ as the source runs it: nested loops over a context updated in place, writing
    through a moving pointer.  Proved to do what LzDecoder.Feed says, whatever the chunk. */
module LzContext {
  import opened LzDecoder

  /** Bytes of the chunk left over once everything has been written. */
  function Left(c: Ctx, data: seq<int>): nat
    requires c.Valid() && Bytes(data)
    decreases |data|
  {
    if c.Done() then |data|
    else if data == [] || Step(c, data[0]).Err? then 0
    else (StepValid(c, data[0]); Left(Step(c, data[0]).ctx, data[1..]))
  }

  /** What ReadUncompLZ returns: bytes still missing, or an error code. */
  function Code(c: Ctx, data: seq<int>): int
    requires c.Valid() && Bytes(data)
  {
    match Feed(c, data)
    case Err(e) => e
    case Ok(d) =>
      if d.headerSize > 0 then -1
      else if d.destCount > 0 || (c.headerSize > 0 && Left(c, data) == 0) then d.destCount
      else if c.force == 0 && Left(c, data) > 32 then -3
      else 0
  }

  /** How far up the stream may write: the memory below the destination plus the declared size. */
  function Extent(c: Ctx, data: seq<int>): nat
    requires c.Valid() && Bytes(data)
    decreases |data|
  {
    if c.headerSize == 0 then |c.out| + (if c.destCount > 0 then c.destCount else 0)
    else if data == [] || Step(c, data[0]).Err? then |c.out|
    else (StepValid(c, data[0]); Extent(Step(c, data[0]).ctx, data[1..]))
  }

  /** The context at the byte that is an error, or behind the chunk if there is none. */
  function Reached(c: Ctx, data: seq<int>): Ctx
    requires c.Valid() && Bytes(data)
    decreases |data|
  {
    if data == [] || Step(c, data[0]).Err? then c
    else (StepValid(c, data[0]); Reached(Step(c, data[0]).ctx, data[1..]))
  }

  /** What a refused match leaves: its length without the offset bits, and the next one to be read. */
  function Refused(c: Ctx): Ctx { c.(length := c.length / 16, lengthFlg := 3) }

  /** What a refused format leaves. */
  function Unformatted(c: Ctx, b: int): Ctx
    requires Byte(b)
  {
    if b / 16 == 1 then c.(exFormat := b % 16) else c
  }

  /** Cutting the stream does not change where an error is found either. */
  lemma {:induction false} ReachedConcat(c: Ctx, a: seq<int>, b: seq<int>)
    requires c.Valid() && Bytes(a) && Bytes(b) && Feed(c, a).Ok?
    ensures Bytes(a + b) && Reached(c, a + b) == Reached(Feed(c, a).ctx, b)
    decreases |a|
  {
    hide Step, Ctx.Valid;
    if a == [] {
      assert a + b == b;
    } else {
      StepValid(c, a[0]);
      assert (a + b)[1..] == a[1..] + b;
      ReachedConcat(Step(c, a[0]).ctx, a[1..], b);
    }
  }

  /** Unfolding at position i of the chunk. */
  lemma FeedAt(c: Ctx, data: seq<int>, i: nat)
    requires c.Valid() && Bytes(data) && i < |data| && !c.Done()
    ensures Step(c, data[i]).Err? ==> Feed(c, data[i..]) == Step(c, data[i])
    ensures Step(c, data[i]).Ok? ==> SameRest(c, i, Step(c, data[i]).ctx, i + 1, data)
  {
    StepValid(c, data[i]);
    assert data[i..][0] == data[i] && data[i..][1..] == data[i + 1..];
    if c.headerSize == 0 && Step(c, data[i]).Ok? {
      hide Step, Feed, Left, Reached;
      StepConserves(c, data[i]);
    }
  }

  /** Two positions of the chunk from which the same is still to come. */
  ghost predicate SameRest(c: Ctx, i: nat, d: Ctx, j: nat, data: seq<int>)
    requires Bytes(data)
  {
    && c.Valid() && d.Valid() && i <= j <= |data| && d.force == c.force
    && Feed(c, data[i..]) == Feed(d, data[j..]) && Left(c, data[i..]) == Left(d, data[j..])
    && Extent(c, data[i..]) == Extent(d, data[j..]) && Reached(c, data[i..]) == Reached(d, data[j..])
  }

  lemma SameTrans(c: Ctx, i: nat, d: Ctx, j: nat, e: Ctx, k: nat, data: seq<int>)
    requires Bytes(data) && SameRest(c, i, d, j, data) && SameRest(d, j, e, k, data)
    ensures SameRest(c, i, e, k, data)
  {}

  lemma StepForce(c: Ctx, b: int)
    requires c.Valid() && Byte(b) && Step(c, b).Ok?
    ensures Step(c, b).ctx.force == c.force
  {}

  lemma {:induction false} LeftConcat(c: Ctx, a: seq<int>, b: seq<int>)
    requires c.Valid() && Bytes(a) && Bytes(b) && Feed(c, a).Ok?
    ensures Bytes(a + b) && Feed(c, a).ctx.force == c.force
    ensures var d := Feed(c, a).ctx; Left(c, a + b) == if d.Done() then Left(c, a) + |b| else Left(d, b)
    decreases |a|
  {
    hide Step;
    if a == [] {
      assert a + b == b;
    } else if c.Done() {
      FeedDone(c, a);
    } else {
      StepValid(c, a[0]);
      StepForce(c, a[0]);
      assert (a + b)[1..] == a[1..] + b;
      LeftConcat(Step(c, a[0]).ctx, a[1..], b);
    }
  }

  /** Return values, unlike contexts, do depend on the cut: the last call of a stream delivered in
      pieces returns what one call on all of it would, except when the earlier piece already had
      everything, the last one has at most 32 bytes, and together more than 32 are left over. */
  lemma SplitCodes(c: Ctx, a: seq<int>, b: seq<int>)
    requires c.Valid() && Bytes(a) && Bytes(b) && b != [] && Feed(c, a).Ok?
    ensures Bytes(a + b)
    ensures Code(Feed(c, a).ctx, b) == Code(c, a + b)
       <==> !(Feed(c, a).ctx.Done() && c.force == 0 && |b| <= 32 < Left(c, a) + |b|)
  {
    hide Step, Left, Feed;
    var d := Feed(c, a).ctx;
    FeedConcat(c, a, b);
    LeftConcat(c, a, b);
    if c.headerSize == 0 { Conserved(c, a); }
    if d.Done() {
      FeedDone(d, b);
      LeftDone(d, b);
    } else if Feed(d, b).Ok? {
      FeedSign(d, b);
    }
  }

  /** For a caller: as long as the earlier call has not finished, for one that returned how much is
      missing, the codes agree. */
  lemma UnfinishedCodesAgree(c: Ctx, a: seq<int>, b: seq<int>)
    requires c.Valid() && Bytes(a) && Bytes(b) && b != [] && Feed(c, a).Ok?
    ensures Code(c, a) > 0 ==> !Feed(c, a).ctx.Done()
    ensures Bytes(a + b) && (!Feed(c, a).ctx.Done() ==> Code(Feed(c, a).ctx, b) == Code(c, a + b))
  {
    hide Left, Feed;
    SplitCodes(c, a, b);
  }

  /** A finished context and 40 surplus bytes: one call reports them, two calls with 20 each do not. */
  lemma SurplusUnreported()
    ensures var c, a := Finished(), seq(20, _ => 0);
      Code(c, a) == 0 && Feed(c, a).Ok? && Code(Feed(c, a).ctx, a) == 0 && Code(c, a + a) == -3
  {
    hide Left, Feed;
    var c, a := Finished(), seq(20, _ => 0);
    FeedDone(c, a);
    FeedDone(c, a + a);
    LeftDone(c, a);
    LeftDone(c, a + a);
  }

  function Finished(): (c: Ctx)
    ensures c.Valid() && c.Done()
  {
    Init(seq(4096, _ => 0)).(headerSize := 0)
  }

  lemma LeftDone(c: Ctx, data: seq<int>)
    requires c.Valid() && Bytes(data) && c.Done()
    ensures Left(c, data) == |data|
  {}

  /** A size that has been accepted as positive never becomes negative. */
  lemma FeedSign(c: Ctx, data: seq<int>)
    requires c.Valid() && Bytes(data) && !c.Done() && Feed(c, data).Ok?
    ensures c.headerSize == 0 ==> Feed(c, data).ctx.headerSize == 0 && Feed(c, data).ctx.destCount >= 0
  {
    if c.headerSize == 0 { Conserved(c, data); }
  }

  class UncompContext {
    var mem: array<int>
    var destp: nat
    var destCount: int
    var forceDestCount: int
    var length: nat
    var lengthFlg: nat
    var flags: nat
    var flagIndex: nat
    var headerSize: nat
    var exFormat: nat

    ghost function View(): Ctx
      requires destp <= mem.Length
      reads this, mem
    {
      Ctx(mem[..destp], destCount, forceDestCount, length, lengthFlg, flags, flagIndex, headerSize, exFormat)
    }

    ghost predicate Valid()
      reads this, mem
    {
      destp <= mem.Length && View().Valid()
    }

    /** InitUncompContextLZ */
    constructor (memory: array<int>, dest: nat)
      requires 4096 <= dest <= memory.Length
      ensures Valid() && mem == memory && View() == Init(memory[..dest])
    {
      mem, destp := memory, dest;
      destCount, flags, flagIndex, length, lengthFlg := 0, 0, 0, 0, 3;
      headerSize, exFormat, forceDestCount := 8, 0, 0;
    }

    /** What is left to do behind the header: apply the forced size. */
    ghost function Headed(): Ctx
      requires destp <= mem.Length
      reads this, mem
    {
      View().(destCount := if headerSize == 0 && 0 < forceDestCount < destCount then forceDestCount else destCount)
    }

    /** ReadHeader: returns how many bytes it took. */
    method ReadHeader(data: seq<int>) returns (readLen: nat)
      requires Valid() && headerSize > 0 && |data| > 0 && Bytes(data)
      requires headerSize == 8 ==> data[0] / 16 == 1 && data[0] % 16 == exFormat
      modifies this`destCount, this`headerSize
      ensures Valid() && 0 < readLen <= |data| && (headerSize > 0 ==> readLen == |data|)
      ensures SameRest(old(View()), 0, View(), readLen, data)
    {
      hide SameRest, Step;
      ghost var c := View();
      readLen := 0;
      SameStart(c, data);
      while headerSize > 0
        invariant readLen <= |data| && headerSize <= 8 && (headerSize == 8 ==> readLen == 0)
        invariant readLen < |data| || (headerSize == 0 && readLen > 0)
        invariant readLen == 0 ==> View() == c
        invariant View() == c.(destCount := destCount, headerSize := headerSize)
        invariant Headed().Valid() && SameRest(c, 0, Headed(), readLen, data)
        decreases headerSize
      {
        ghost var d := View();
        var b := data[readLen];
        FeedAt(d, data, readLen);
        HeaderIs(d, b);
        SameTrans(c, 0, d, readLen, Step(d, b).ctx, readLen + 1, data);
        headerSize := headerSize - 1;
        if headerSize <= 3 {
          destCount := OrByte(destCount, b, 3 - headerSize);
        } else if headerSize <= 6 {
          destCount := OrByte(destCount, b, 6 - headerSize);
        }
        readLen := readLen + 1;
        if headerSize == 4 && destCount > 0 { headerSize := 0; }
        SameValid(c, Step(d, b).ctx, readLen, data);
        if readLen == |data| && headerSize > 0 { return; }
      }
      if forceDestCount > 0 && forceDestCount < destCount { destCount := forceDestCount; }
    }

    /** There is room for what the declared size says is still to come. */
    ghost predicate Room()
      reads this, mem
    {
      Valid() && headerSize == 0 && destp + (if destCount > 0 then destCount else 0) <= mem.Length
    }

    method PutLiteral(b: int)
      requires Room() && destCount > 0
      modifies this`destp, this`destCount, mem
      ensures Room() && View() == old(View()).(out := old(View().out) + [b], destCount := old(destCount) - 1)
      ensures forall k :: destp <= k < mem.Length ==> mem[k] == old(mem[k])
    {
      mem[destp] := b;
      destp, destCount := destp + 1, destCount - 1;
    }

    /** One byte of a length field. */
    method PutLength(b: int)
      requires Valid() && lengthFlg > 0 && Byte(b)
      modifies this`length, this`lengthFlg
      ensures View() == LengthStep(old(View()), b)
    {
      lengthFlg := lengthFlg - 1;
      if exFormat == 0 {
        length := b;
        length := length + 0x30;
        lengthFlg := 0;
      } else if lengthFlg == 2 {
        length := b;
        if length / 16 == 1 {
          length := length % 16 * 0x1_0000;
          length := length + 0x1110;
        } else if length / 16 == 0 {
          length := length % 16 * 0x100;
          length := length + 0x110;
          lengthFlg := 1;
        } else {
          length := length + 0x10;
          lengthFlg := 0;
        }
      } else if lengthFlg == 1 {
        length := length + b * 0x100;
      } else {
        length := length + b;
      }
    }

    /** The copying loop. */
    method CopyBack(offset: nat)
      requires 1 <= offset <= destp <= destp + length <= mem.Length && length <= destCount
      modifies this`destp, this`destCount, this`length, mem
      ensures destCount == old(destCount - length) && length == 0 && destp == old(destp + length)
      ensures mem[..destp] == CopyMatch(old(mem[..destp]), old(length), offset)
      ensures forall k :: destp <= k < mem.Length ==> mem[k] == old(mem[k])
    {
      ghost var m, start := length, destp;
      while length > 0
        invariant length <= m && destCount == old(destCount) - (m - length)
        invariant destp == start + (m - length)
        invariant mem[..destp] == CopyMatch(old(mem[..destp]), m - length, offset)
        invariant forall k :: destp <= k < mem.Length ==> mem[k] == old(mem[k])
      {
        mem[destp] := mem[destp - offset];
        destp := destp + 1;
        destCount := destCount - 1;
        length := length - 1;
      }
    }

    /** The offset byte of a match, and its copy; false for a match that is too long. */
    method PutMatch(b: int) returns (ok: bool)
      requires Room() && destCount > 0 && Byte(b)
      modifies this`destp, this`destCount, this`length, this`lengthFlg, mem
      ensures old(destp) <= destp <= mem.Length && (ok <==> !Overlong(old(View())))
      ensures !ok ==> View() == Refused(old(View())) && mem[..] == old(mem[..])
      ensures ok ==> Room() && View() == MatchCopy(old(View()), b)
      ensures forall k :: destp <= k < mem.Length ==> mem[k] == old(mem[k])
    {
      hide CopyMatch;
      var offset := length % 16 * 256;
      length := length / 16;
      offset := offset + b + 1;
      lengthFlg := 3;
      if length > destCount {
        if forceDestCount == 0 { return false; }
        length := destCount;
      }
      CopyBack(offset);
      return true;
    }

    /** A context that has read a set flag. */
    predicate InMatch()
      reads this
    {
      destCount > 0 && flagIndex > 0 && flags / 128 % 2 == 1
    }

    /** The loop over the bytes of a length field; it may run out of chunk. */
    method ReadLength(data: seq<int>, i: nat) returns (j: nat, ranOut: bool)
      requires Room() && InMatch() && Bytes(data) && i < |data|
      modifies this`length, this`lengthFlg
      ensures Room() && SameRest(old(View()), i, View(), j, data)
      ensures i <= j && if ranOut then j == |data| else j < |data| && lengthFlg == 0
    {
      hide SameRest, LengthStep, Step, Feed, Left, Extent, Reached;
      ghost var c := View();
      j := i;
      SameHere(c, i, data);
      while lengthFlg > 0
        invariant Room() && InMatch() && i <= j < |data| && SameRest(c, i, View(), j, data)
        decreases |data| - j
      {
        ghost var d := View();
        FeedAt(d, data, j);
        StepIsLength(d, data[j]);
        PutLength(data[j]);
        j := j + 1;
        SameTrans(c, i, d, j - 1, View(), j, data);
        if j == |data| { return j, true; }
      }
      return j, false;
    }

    /** What ReadUncompLZ returns from inside its loops: out of input, or a match too long. */
    ghost predicate Returns(c: Ctx, i: nat, data: seq<int>, r: int)
      requires c.Valid() && Bytes(data) && i <= |data| && destp <= mem.Length
      reads this, mem
    {
      if r == -4 then
        Feed(c, data[i..]) == Err(-4) && View() == Refused(Reached(c, data[i..]))
      else
        Feed(c, data[i..]) == Ok(View()) && r == destCount > 0 && headerSize == 0
    }

    /** One literal or match.  `stop` if ReadUncompLZ returns r here. */
    method ReadToken(data: seq<int>, i: nat) returns (j: nat, stop: bool, r: int)
      requires Room() && destCount > 0 && flagIndex > 0 && Bytes(data) && i < |data|
      modifies this`destp, this`destCount, this`length, this`lengthFlg, mem
      ensures old(destp) <= destp <= mem.Length
      ensures stop ==> Returns(old(View()), i, data, r)
      ensures !stop ==> Room() && destCount >= 0 && i < j <= |data| && flagIndex > 0
      ensures !stop ==> NextFlag(View()).Valid() && SameRest(old(View()), i, NextFlag(View()), j, data)
      ensures forall k :: destp <= k < mem.Length ==> mem[k] == old(mem[k])
    {
      hide SameRest, LengthStep, Step, Feed, Left, Extent, Reached, NextFlag, MatchCopy, CopyMatch, Overlong;
      ghost var c := View();
      if flags / 128 % 2 == 0 {
        FeedAt(c, data, i);
        StepIsLiteral(c, data[i]);
        PutLiteral(data[i]);
        j, stop, r := i + 1, false, 0;
      } else {
        var ranOut;
        j, ranOut := ReadLength(data, i);
        ghost var d := View();
        if ranOut {
          FeedEnd(c, i, d, data);
          return j, true, destCount;
        }
        FeedAt(d, data, j);
        StepIsMatch(d, data[j]);
        var ok := PutMatch(data[j]);
        if !ok {
          FeedErr(c, i, d, j, data);
          return j, true, -4;
        }
        SameTrans(c, i, d, j, NextFlag(View()), j + 1, data);
        j, stop, r := j + 1, false, 0;
      }
    }

    /** The tokens behind one flag byte. */
    method ReadTokens(data: seq<int>, i: nat) returns (j: nat, stop: bool, r: int)
      requires Room() && destCount > 0 && Bytes(data) && i <= |data|
      modifies this, mem
      ensures mem == old(mem) && old(destp) <= destp <= mem.Length && (!stop ==> i <= j <= |data|)
      ensures stop ==> Returns(old(View()), i, data, r)
      ensures !stop ==> Room() && destCount >= 0 && (destCount == 0 || flagIndex == 0)
      ensures !stop ==> SameRest(old(View()), i, View(), j, data)
      ensures forall k :: destp <= k < mem.Length ==> mem[k] == old(mem[k])
    {
      hide SameRest, Step, Feed, Left, Extent, Reached;
      ghost var c := View();
      SameHere(c, i, data);
      j := i;
      while flagIndex > 0
        invariant mem == old(mem) && old(destp) <= destp && i <= j <= |data|
        invariant Room() && destCount > 0 && SameRest(c, i, View(), j, data)
        invariant forall k :: destp <= k < mem.Length ==> mem[k] == old(mem[k])
        decreases |data| - j, flagIndex
      {
        ghost var d := View();
        if j == |data| {
          FeedEnd(c, i, d, data);
          return j, true, destCount;
        }
        ghost var k := j;
        j, stop, r := ReadToken(data, j);
        if stop {
          ReturnsBack(c, i, d, k, data);
          return;
        }
        SameTrans(c, i, d, k, NextFlag(View()), j, data);
        if destCount == 0 { return j, false, 0; }
        flags := flags * 2 % 256;
        flagIndex := flagIndex - 1;
      }
      return j, false, 0;
    }

    /** The header part of ReadUncompLZ. */
    method TakeHeader(data: seq<int>) returns (i: nat, stop: bool, r: int)
      requires Valid() && headerSize > 0 && |data| > 0 && Bytes(data)
      modifies this`exFormat, this`destCount, this`headerSize
      ensures if stop then r == Code(old(View()), data) && (Feed(old(View()), data).Ok? ==> Feed(old(View()), data).ctx == View())
        else Valid() && headerSize == 0 && i < |data| && SameRest(old(View()), 0, View(), i, data)
      ensures stop && Feed(old(View()), data).Err? ==>
        Feed(old(View()), data) == Err(-1) && View() == Unformatted(old(View()), data[0])
    {
      hide SameRest, Step, Feed, Left, Extent, Reached;
      ghost var c := View();
      if headerSize == 8 {
        if data[0] / 16 != 1 { BadFormat(c, data); return 0, true, -1; }
        exFormat := data[0] % 16;
        if exFormat != 0 && exFormat != 1 { BadFormat(c, data); return 0, true, -1; }
        FormatFirst(c, data);
      } else {
        SameStart(c, data);
      }
      ghost var d := View();
      i := ReadHeader(data);
      SameTrans(c, 0, d, 0, View(), i, data);
      if i == |data| {
        SameStart(c, data);
        FeedEnd(c, 0, View(), data);
        return i, true, if headerSize == 0 then destCount else -1;
      }
      return i, false, 0;
    }

    /** The decoding loops of ReadUncompLZ, behind the header. */
    method ReadGroups(data: seq<int>, start: nat) returns (i: nat, stop: bool, r: int)
      requires Room() && Bytes(data) && start <= |data|
      modifies this, mem
      ensures mem == old(mem) && old(destp) <= destp <= mem.Length
      ensures stop ==> Returns(old(View()), start, data, r)
      ensures !stop ==> headerSize == 0 && destCount <= 0 && (destCount < 0 ==> i == start) && SameRest(old(View()), start, View(), i, data)
      ensures forall k :: destp <= k < mem.Length ==> mem[k] == old(mem[k])
    {
      hide SameRest, Step, Feed, Left, Extent, Reached;
      ghost var c := View();
      SameHere(c, start, data);
      i := start;
      while destCount > 0
        invariant mem == old(mem) && old(destp) <= destp && i <= |data| && (destCount < 0 ==> i == start)
        invariant Room() && SameRest(c, start, View(), i, data)
        invariant forall k :: destp <= k < mem.Length ==> mem[k] == old(mem[k])
        decreases |data| - i, destCount
      {
        ghost var d, k := View(), i;
        i, stop, r := ReadTokens(data, i);
        if stop {
          ReturnsBack(c, start, d, k, data);
          return;
        }
        SameTrans(c, start, d, k, View(), i, data);
        if destCount == 0 { break; }
        if i == |data| {
          FeedEnd(c, start, View(), data);
          return i, true, destCount;
        }
        d := View();
        FeedAt(d, data, i);
        StepIsFlags(d, data[i]);
        flags, flagIndex := data[i], 8;
        i := i + 1;
        SameTrans(c, start, d, i - 1, View(), i, data);
      }
      return i, false, 0;
    }

    /** ReadUncompLZ.  Every chunk is decoded to exactly the context Feed reaches, nothing above
        the write pointer is touched, and the return value is Code. */
    method ReadUncompLZ(data: seq<int>) returns (r: int)
      requires Valid() && Bytes(data) && (headerSize > 0 ==> |data| > 0)
      requires Extent(View(), data) <= mem.Length
      modifies this, mem
      ensures mem == old(mem) && destp <= mem.Length && r == Code(old(View()), data)
      ensures Feed(old(View()), data).Ok? ==> View() == Feed(old(View()), data).ctx
      ensures Feed(old(View()), data) == Err(-4) ==> View() == Refused(Reached(old(View()), data))
      ensures Feed(old(View()), data) == Err(-1) ==> View() == Unformatted(old(View()), data[0])
      ensures forall k :: destp <= k < mem.Length ==> mem[k] == old(mem[k])
    {
      hide SameRest, Step, Feed, Left, Extent, Reached;
      ghost var c := View();
      var i: nat, stop := 0, false;
      SameStart(c, data);
      if headerSize > 0 {
        i, stop, r := TakeHeader(data);
        if stop { return; }
      }
      ghost var d := View();
      var start := i;
      RoomLeft(c, d, start, data);
      i, stop, r := ReadGroups(data, start);
      if stop {
        ReturnsBack(c, 0, d, start, data);
        return;
      }
      SameTrans(c, 0, d, start, View(), i, data);
      FeedAllWritten(c, View(), i, data);
      r := if forceDestCount == 0 && |data| - i > 32 then -3 else 0;
    }
  }

  lemma SameHere(c: Ctx, i: nat, data: seq<int>)
    requires c.Valid() && Bytes(data) && i <= |data|
    ensures SameRest(c, i, c, i, data)
  {}

  lemma StepIsLength(c: Ctx, b: int)
    requires c.Valid() && c.headerSize == 0 && c.destCount > 0 && c.flagIndex > 0 && c.flags / 128 % 2 == 1
    requires c.lengthFlg > 0 && Byte(b)
    ensures Step(c, b) == Ok(LengthStep(c, b)) && LengthStep(c, b).Valid()
    ensures LengthStep(c, b) == c.(length := LengthStep(c, b).length, lengthFlg := LengthStep(c, b).lengthFlg)
  {}

  lemma StepIsLiteral(c: Ctx, b: int)
    requires c.Valid() && c.headerSize == 0 && c.destCount > 0 && c.flagIndex > 0 && c.flags / 128 % 2 == 0 && Byte(b)
    ensures var d := NextFlag(c.(out := c.out + [b], destCount := c.destCount - 1)); Step(c, b) == Ok(d) && d.Valid()
  {}

  lemma StepIsMatch(c: Ctx, b: int)
    requires c.Valid() && c.headerSize == 0 && c.destCount > 0 && c.flagIndex > 0 && c.flags / 128 % 2 == 1
    requires c.lengthFlg == 0 && Byte(b)
    ensures Overlong(c) ==> Step(c, b) == Err(-4)
    ensures !Overlong(c) ==> Step(c, b) == Ok(NextFlag(MatchCopy(c, b))) && NextFlag(MatchCopy(c, b)).Valid()
    ensures 0 <= MatchCopy(c, b).destCount <= c.destCount && MatchCopy(c, b).flagIndex == c.flagIndex
  {}

  lemma StepIsFlags(c: Ctx, b: int)
    requires c.Valid() && c.headerSize == 0 && c.destCount > 0 && c.flagIndex == 0 && Byte(b)
    ensures Step(c, b) == Ok(c.(flags := b, flagIndex := 8)) && c.(flags := b, flagIndex := 8).Valid()
  {}

  lemma FeedAllWritten(c: Ctx, d: Ctx, i: nat, data: seq<int>)
    requires Bytes(data) && SameRest(c, 0, d, i, data) && d.destCount <= 0 && d.headerSize == 0
    ensures Feed(c, data) == Ok(d) && Left(c, data) == |data| - i && d.force == c.force
  {
    assert data[0..] == data;
    FeedDone(d, data[i..]);
  }

  /** The chunk ends here. */
  lemma FeedEnd(c: Ctx, i: nat, d: Ctx, data: seq<int>)
    requires Bytes(data) && SameRest(c, i, d, |data|, data)
    ensures Feed(c, data[i..]) == Ok(d) && Left(c, data[i..]) == 0
  {
    assert data[|data|..] == [];
  }

  lemma FeedErr(c: Ctx, i: nat, d: Ctx, j: nat, data: seq<int>)
    requires Bytes(data) && SameRest(c, i, d, j, data) && j < |data| && !d.Done() && Step(d, data[j]).Err?
    ensures Feed(c, data[i..]) == Step(d, data[j]) && Reached(c, data[i..]) == d
  {
    FeedAt(d, data, j);
  }

  lemma ReturnsBack(c: Ctx, i: nat, d: Ctx, j: nat, data: seq<int>)
    requires Bytes(data) && SameRest(c, i, d, j, data)
    ensures Feed(c, data[i..]) == Feed(d, data[j..]) && Reached(c, data[i..]) == Reached(d, data[j..])
  {}

  lemma SameStart(c: Ctx, data: seq<int>)
    requires c.Valid() && Bytes(data)
    ensures SameRest(c, 0, c, 0, data) && data[0..] == data
  {}

  lemma SameValid(c: Ctx, d: Ctx, j: nat, data: seq<int>)
    requires Bytes(data) && SameRest(c, 0, d, j, data)
    ensures d.Valid() && d.force == c.force
  {}

  lemma HeaderIs(c: Ctx, b: int)
    requires c.Valid() && c.headerSize > 0 && Byte(b) && (c.headerSize == 8 ==> b / 16 == 1 && b % 16 == c.exFormat)
    ensures !c.Done() && Step(c, b).Ok?
    ensures var h := c.headerSize - 1;
      var d := if h <= 3 then OrByte(c.destCount, b, 3 - h) else if h <= 6 then OrByte(c.destCount, b, 6 - h) else c.destCount;
      var rest := if h == 4 && d > 0 then 0 else h;
      Step(c, b).ctx == c.(headerSize := rest, destCount := if rest == 0 && 0 < c.force < d then c.force else d)
  {}

  lemma BadFormat(c: Ctx, data: seq<int>)
    requires c.Valid() && Bytes(data) && c.headerSize == 8 && |data| > 0 && (data[0] / 16 != 1 || data[0] % 16 > 1)
    ensures Feed(c, data) == Err(-1)
  {}

  /** Storing the format before the header loop does not change what the loop makes of it. */
  lemma FormatFirst(c: Ctx, data: seq<int>)
    requires c.Valid() && Bytes(data) && c.headerSize == 8 && |data| > 0 && data[0] / 16 == 1 && data[0] % 16 <= 1
    ensures SameRest(c, 0, c.(exFormat := data[0] % 16), 0, data)
  {
    var d := c.(exFormat := data[0] % 16);
    FeedAt(c, data, 0);
    FeedAt(d, data, 0);
    assert Step(d, data[0]) == Step(c, data[0]);
  }

  lemma RoomLeft(c: Ctx, d: Ctx, i: nat, data: seq<int>)
    requires Bytes(data) && SameRest(c, 0, d, i, data) && d.headerSize == 0 && data[0..] == data
    ensures |d.out| + (if d.destCount > 0 then d.destCount else 0) == Extent(c, data)
  {}
}
