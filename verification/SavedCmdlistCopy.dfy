/** The copying part of nngxUseSavedCmdlist on the buffers themselves. */
module SavedCmdlistCopy {
  import opened Cmdlist
  import opened CmdlistSafety
  import opened SavedCmdlist
  import opened CmdlistManager

  /** The bound list's buffer once `size` bytes recorded from `off` are at the cursor. */
  function CopiedBytes(dst: seq<int>, src: seq<int>, off: nat, size: nat, cursor: nat): seq<int>
    requires off + size <= |src| && cursor + size <= |dst|
  {
    dst[..cursor] + src[off..off + size] + dst[cursor + size..]
  }

  /** A replayed request gives the hardware the same command words as the recorded one.  The first
      render request covers the pending words and then what was recorded of it. */
  lemma SameFirstCommands(dst: seq<int>, src: seq<int>, q: seq<Request>, off: nat, size: nat, at: nat, cursor: nat, k: nat)
    requires Chained(q, off) && SavedEnd(q, off, |q|) <= off + size <= |src|
    requires at <= cursor && cursor + size <= |dst| && k < |q| && q[k].work.Render? && NoRender(q, k)
    ensures var w, v := q[k].work, CopiedWork(q, off, at, cursor, k); var end := w.addr + w.size;
      v.Render? && v.addr == at && v.addr + v.size <= cursor + size && off < end <= off + size
      && CopiedBytes(dst, src, off, size, cursor)[v.addr..v.addr + v.size] == dst[at..cursor] + src[off..end]
  {
    hide SavedEnd, Chained, CopiedBytes, NoRender, Aligned, CopiedWork;
    var w := q[k].work;
    ChainedAt(q, off, k);
    SavedEndNext(q, off, k);
    SavedEndMonotone(q, off, k + 1, |q|);
    CopiedWorkIs(q, off, at, cursor, k);
    BytesJoined(dst, src, off, size, at, cursor, w.addr + w.size - off);
  }

  /** Every later render request covers exactly its own recorded words. */
  lemma SameLaterCommands(dst: seq<int>, src: seq<int>, q: seq<Request>, off: nat, size: nat, at: nat, cursor: nat, k: nat)
    requires Chained(q, off) && SavedEnd(q, off, |q|) <= off + size <= |src|
    requires at <= cursor && cursor + size <= |dst| && k < |q| && q[k].work.Render? && !NoRender(q, k)
    ensures var w, v := q[k].work, CopiedWork(q, off, at, cursor, k);
      v.Render? && v.addr + v.size <= cursor + size && w.addr + w.size <= off + size
      && CopiedBytes(dst, src, off, size, cursor)[v.addr..v.addr + v.size] == src[w.addr..w.addr + w.size]
  {
    hide SavedEnd, Chained, CopiedBytes, NoRender, Aligned, CopiedWork;
    var w := q[k].work;
    ChainedAt(q, off, k);
    SavedEndNext(q, off, k);
    SavedEndMonotone(q, off, k + 1, |q|);
    CopiedWorkIs(q, off, at, cursor, k);
    BytesWithin(dst, src, off, size, cursor, w.addr - off, w.size);
  }

  lemma CopiedWorkIs(q: seq<Request>, off: nat, at: nat, cursor: nat, k: nat)
    requires Chained(q, off) && at <= cursor && k < |q| && q[k].work.Render?
    ensures var w, v := q[k].work, CopiedWork(q, off, at, cursor, k);
      if NoRender(q, k) then v == Render(at, cursor - at + (w.addr + w.size - off), false)
      else off <= w.addr && v == Render(cursor + (w.addr - off), w.size, false)
  {
    hide SavedEnd;
    SavedEndGrows(q, off, k);
  }

  lemma BytesJoined(dst: seq<int>, src: seq<int>, off: nat, size: nat, at: nat, cursor: nat, n: nat)
    requires off + size <= |src| && at <= cursor && cursor + size <= |dst| && n <= size
    ensures CopiedBytes(dst, src, off, size, cursor)[at..cursor + n] == dst[at..cursor] + src[off..off + n]
  {
    var b := CopiedBytes(dst, src, off, size, cursor);
    assert b[at..cursor] == dst[at..cursor];
    BytesWithin(dst, src, off, size, cursor, 0, n);
    assert b[at..cursor + n] == b[at..cursor] + b[cursor..cursor + n];
  }

  lemma BytesWithin(dst: seq<int>, src: seq<int>, off: nat, size: nat, cursor: nat, lo: nat, n: nat)
    requires off + size <= |src| && cursor + size <= |dst| && lo + n <= size
    ensures CopiedBytes(dst, src, off, size, cursor)[cursor + lo..cursor + lo + n] == src[off + lo..off + lo + n]
  {
    var b := CopiedBytes(dst, src, off, size, cursor);
    forall j | cursor + lo <= j < cursor + lo + n ensures b[j] == src[j - cursor + off] {
      assert b[j] == src[off..off + size][j - cursor];
    }
  }

  lemma ChainedAt(q: seq<Request>, off: nat, k: nat)
    requires Chained(q, off) && k < |q| && q[k].work.Render?
    ensures !q[k].work.ext && Ends(q[k].work, off) && (NoRender(q, k) || q[k].work.addr == SavedEnd(q, off, k))
  {}

  lemma {:induction false} SavedEndMonotone(q: seq<Request>, off: nat, j: nat, k: nat)
    requires Chained(q, off) && j <= k <= |q|
    ensures SavedEnd(q, off, j) <= SavedEnd(q, off, k)
    decreases k
  {
    hide Chained;
    if j < k {
      SavedEndMonotone(q, off, j, k - 1);
      SavedEndGrows(q, off, k - 1);
      if q[k - 1].work.Render? {
        ChainedAt(q, off, k - 1);
      }
    }
  }

  /** What was recorded behind the last request is pending in the bound list again. */
  lemma SamePending(dst: seq<int>, src: seq<int>, q: seq<Request>, off: nat, size: nat, at: nat, cursor: nat)
    requires Chained(q, off) && SavedEnd(q, off, |q|) <= off + size <= |src|
    requires at <= cursor && cursor + size <= |dst|
    ensures var end := CopiedEnd(q, off, at, cursor, |q|);
      end <= cursor + size && SavedEnd(q, off, |q|) >= off
      && CopiedBytes(dst, src, off, size, cursor)[end..cursor + size] ==
           (if NoRender(q, |q|) then dst[at..cursor] else []) + src[SavedEnd(q, off, |q|)..off + size]
  {
    hide SavedEnd, Chained;
    SavedEndGrows(q, off, |q|);
    CopiedEndWithin(q, off, at, cursor, size);
  }

  /** memcpy between buffers, or within one where the two ranges are apart. */
  method MemCopy(dst: array<int>, at: nat, src: array<int>, lo: nat, n: nat)
    requires at + n <= dst.Length && lo + n <= src.Length && (dst == src ==> lo + n <= at)
    modifies dst
    ensures dst[..] == CopiedBytes(old(dst[..]), old(src[..]), lo, n, at)
  {
    var i := 0;
    while i < n
      invariant i <= n
      invariant forall k :: 0 <= k < dst.Length ==>
        dst[k] == if at <= k < at + i then old(src[lo + k - at]) else old(dst[k])
    {
      assert src[lo + i] == old(src[lo + i]);
      dst[at + i] := src[lo + i];
      i := i + 1;
    }
  }

  lemma CopiedBytesTwice(dst: seq<int>, src: seq<int>, off: nat, m: nat, n: nat, cursor: nat)
    requires off + m + n <= |src| && cursor + m + n <= |dst|
    ensures CopiedBytes(CopiedBytes(dst, src, off, m, cursor), src, off + m, n, cursor + m)
         == CopiedBytes(dst, src, off, m + n, cursor)
  {}

  /** Copying on, from the recorded bytes as they are by now: still what they were. */
  lemma CopyMore(dst: seq<int>, src: seq<int>, now: seq<int>, off: nat, m: nat, n: nat, cursor: nat)
    requires off + m + n <= |src| && cursor + m + n <= |dst|
    requires now == src || (dst == src && off + m + n <= cursor && now == CopiedBytes(dst, src, off, m, cursor))
    ensures CopiedBytes(CopiedBytes(dst, src, off, m, cursor), now, off + m, n, cursor + m)
         == CopiedBytes(dst, src, off, m + n, cursor)
  {
    CopiedBytesTwice(dst, src, off, m, n, cursor);
    assert now[off + m..off + m + n] == src[off + m..off + m + n];
  }

  lemma CopiedBytesNone(dst: seq<int>, src: seq<int>, off: nat, cursor: nat)
    requires off <= |src| && cursor <= |dst|
    ensures CopiedBytes(dst, src, off, 0, cursor) == dst
  {}

  /** memcpy of the request records into the slots behind those in use. */
  method CopyRequests(cur: CmdList, saved: CmdList, rid: nat, n: nat)
    requires cur.used + n <= cur.requests.Length && rid + n <= saved.requests.Length
    requires cur.requests == saved.requests ==> rid + n <= cur.used
    modifies cur.requests
    ensures cur.requests[..] == old(cur.requests[..cur.used]) + old(saved.requests[rid..rid + n]) + old(cur.requests[cur.used + n..])
  {
    var i := 0;
    while i < n
      invariant i <= n
      invariant forall k :: 0 <= k < cur.requests.Length ==>
        cur.requests[k] ==
          if cur.used <= k < cur.used + i then old(saved.requests[rid + k - cur.used]) else old(cur.requests[k])
      modifies cur.requests
    {
      assert saved.requests[rid + i] == old(saved.requests[rid + i]);
      cur.requests[cur.used + i] := saved.requests[rid + i];
      i := i + 1;
    }
  }

  /** The request slots of the bound list while the copy is at request i of q. */
  function Slots(l: List, q: seq<Request>, off: nat, cursor: nat, i: nat): seq<Request>
    requires Chained(q, off) && l.lastSplit <= cursor && l.used + |q| <= |l.requests| && i <= |q|
  {
    l.requests[..l.used] + Copied(q, off, l.lastSplit, cursor)[..i] + q[i..] + l.requests[l.used + |q|..]
  }

  lemma SlotAt(l: List, q: seq<Request>, off: nat, cursor: nat, i: nat)
    requires Chained(q, off) && l.lastSplit <= cursor && l.used + |q| <= |l.requests| && i < |q|
    ensures |Slots(l, q, off, cursor, i)| == |l.requests| && Slots(l, q, off, cursor, i)[l.used + i] == q[i]
    ensures Slots(l, q, off, cursor, i + 1) ==
      Slots(l, q, off, cursor, i)[l.used + i := Request(CopiedWork(q, off, l.lastSplit, cursor, i), false, false)]
  {
    hide CopiedWork, Chained;
    assert Copied(q, off, l.lastSplit, cursor)[..i + 1] ==
      Copied(q, off, l.lastSplit, cursor)[..i] + [Request(CopiedWork(q, off, l.lastSplit, cursor, i), false, false)];
  }

  lemma SlotsEnds(l: List, q: seq<Request>, off: nat, cursor: nat)
    requires Chained(q, off) && l.lastSplit <= cursor && l.used + |q| <= |l.requests|
    ensures Slots(l, q, off, cursor, 0) == l.requests[..l.used] + q + l.requests[l.used + |q|..]
    ensures Slots(l, q, off, cursor, |q|) ==
      l.requests[..l.used] + Copied(q, off, l.lastSplit, cursor) + l.requests[l.used + |q|..]
  {
    hide CopiedWork, Chained;
  }

  /** Copy the next n recorded bytes to the cursor, and move it. */
  method CopyWords(dst: array<int>, at: nat, src: array<int>, lo: nat, n: nat,
      ghost dst0: seq<int>, ghost src0: seq<int>, ghost off: nat, ghost cursor: nat)
    returns (next: nat)
    requires at >= cursor && lo == off + (at - cursor) && lo + n <= |src0| == src.Length && at + n <= |dst0| == dst.Length
    requires dst[..] == CopiedBytes(dst0, src0, off, at - cursor, cursor)
    requires if dst == src then dst0 == src0 && lo + n <= cursor else src[..] == src0
    modifies dst
    ensures dst[..] == CopiedBytes(dst0, src0, off, at - cursor + n, cursor) && next == at + Advance(n)
  {
    hide CopiedBytes, Advance;
    CopyMore(dst0, src0, src[..], off, at - cursor, n, cursor);
    MemCopy(dst, at, src, lo, n);
    next := at + Advance(n);
  }

  lemma SlotRead(cur: CmdList, i: nat, l: List, q: seq<Request>, off: nat, cursor: nat)
    requires Chained(q, off) && l.lastSplit <= cursor && l.used + |q| <= |l.requests| && i < |q| && cur.used == l.used
    requires cur.requests[..] == Slots(l, q, off, cursor, i)
    ensures cur.used + i < cur.requests.Length && cur.requests[cur.used + i] == q[i]
  {
    hide Slots, Chained;
    SlotAt(l, q, off, cursor, i);
    assert cur.requests[..][cur.used + i] == q[i];
  }

  /** Store a copied request without its marks. */
  method StoreCopy(cur: CmdList, i: nat, r: Request, ghost l: List, ghost q: seq<Request>, ghost off: nat, ghost cursor: nat)
    requires Chained(q, off) && l.lastSplit <= cursor && l.used + |q| <= |l.requests| && i < |q| && cur.used == l.used
    requires cur.requests[..] == Slots(l, q, off, cursor, i) && r.work == CopiedWork(q, off, l.lastSplit, cursor, i)
    modifies cur.requests
    ensures cur.requests[..] == Slots(l, q, off, cursor, i + 1)
  {
    hide Slots, Chained, CopiedWork;
    SlotAt(l, q, off, cursor, i);
    assert cur.requests.Length == |cur.requests[..]|;
    cur.requests[cur.used + i] := r.(callback := false, stop := false);
  }

  /** The loop over the requests: their records are rewritten in place, their words copied. */
  method CopyRenders(cur: CmdList, dst: array<int>, cursor: nat, src: array<int>, off: nat, n: nat,
      ghost size: nat, ghost l: List, ghost q: seq<Request>)
    returns (next: nat, copied: nat)
    requires n == |q| && Chained(q, off) && SavedEnd(q, off, n) <= off + size <= src.Length && cursor + size <= dst.Length
    requires dst == src ==> off + size <= cursor
    requires cur.lastSplit == l.lastSplit <= cursor == cur.usedBuf && cur.used == l.used && l.used + n <= |l.requests|
    requires cur.requests[..] == Slots(l, q, off, cursor, 0)
    modifies cur`lastSplit, cur.requests, dst
    ensures off + copied == SavedEnd(q, off, n) <= off + size && next == cursor + copied
    ensures cur.lastSplit == CopiedEnd(q, off, l.lastSplit, cursor, n) && cur.requests[..] == Slots(l, q, off, cursor, n)
    ensures dst[..] == CopiedBytes(old(dst[..]), old(src[..]), off, copied, cursor)
  {
    hide SavedEnd, Chained, CopiedBytes, Copied, CopiedWork, CopiedEnd, NoRender, Slots, Advance;
    ghost var dst0, src0 := dst[..], src[..];
    CopyStart(q, off, l.lastSplit, cursor);
    CopiedBytesNone(dst0, src0, off, cursor);
    next, copied := cursor, 0;
    var first, prevAddr, prevSize, i := true, 0, 0, 0;
    while i < n
      invariant i <= n && off + copied == SavedEnd(q, off, i) && next == cursor + copied
      invariant first == NoRender(q, i) && cur.lastSplit == CopiedEnd(q, off, l.lastSplit, cursor, i)
      invariant !first ==> prevAddr + prevSize == cur.lastSplit
      invariant copied <= size && dst[..] == CopiedBytes(dst0, src0, off, copied, cursor)
      invariant cur.requests[..] == Slots(l, q, off, cursor, i)
      invariant dst != src ==> src[..] == src0
    {
      CopyStep(q, off, l.lastSplit, cursor, i, size);
      SlotRead(cur, i, l, q, off, cursor);
      var r := cur.requests[cur.used + i];
      if r.work.Render? {
        var addr, bytes, srcAddr, srcSize := r.work.addr, r.work.size, 0, 0;
        if first {
          first := false;
          bytes := bytes - (off - addr);
          addr := off;
          srcAddr, srcSize := addr, bytes;
          bytes := bytes + (cur.usedBuf - cur.lastSplit);
          addr := cur.lastSplit;
        } else {
          srcAddr, srcSize := addr, bytes;
          addr := prevAddr + prevSize;
        }
        next := CopyWords(dst, next, src, srcAddr, srcSize, dst0, src0, off, cursor);
        copied := copied + srcSize;
        prevAddr, prevSize := addr, bytes;
        cur.lastSplit := cur.lastSplit + bytes;
        r := r.(work := Render(addr, bytes, false));
      }
      StoreCopy(cur, i, r, l, q, off, cursor);
      i := i + 1;
    }
  }

  /** The part of nngxUseSavedCmdlist that copies: requests into the slots behind those in use,
      command words behind the cursor.  Both lists may be the same one. */
  method CopyCommands(cur: CmdList, dst: array<int>, cursor: nat, saved: CmdList, src: array<int>,
      off: nat, size: nat, rid: nat, n: nat)
    returns (next: nat)
    requires cur.used + n <= cur.requests.Length && rid + n <= saved.requests.Length
    requires if cur == saved then dst == src && off + size <= cursor && rid + n <= cur.used
      else dst != src && cur.requests != saved.requests
    requires var q := saved.requests[rid..rid + n]; Chained(q, off) && SavedEnd(q, off, n) <= off + size <= src.Length
    requires cur.lastSplit <= cursor == cur.usedBuf && cursor + size <= dst.Length && size % 8 == 0
    modifies cur`lastSplit, cur`usedBuf, cur.requests, dst
    ensures next == cursor + size
    ensures cur.View() == WithCopies(old(cur.View()), old(saved.requests[rid..rid + n]), off, size, cursor)
    ensures dst[..] == CopiedBytes(old(dst[..]), old(src[..]), off, size, cursor)
  {
    hide SavedEnd, Chained, CopiedBytes, Copied, CopiedWork, CopiedEnd, NoRender, Slots, Advance;
    ghost var l, dst0, src0, q := cur.View(), dst[..], src[..], saved.requests[rid..rid + n];
    CopyRequests(cur, saved, rid, n);
    SlotsEnds(l, q, off, cursor);
    var copied: nat;
    next, copied := CopyRenders(cur, dst, cursor, src, off, n, size, l, q);
    if size > copied {
      CopyRest(q, off, size);
      next := CopyWords(dst, next, src, off + copied, size - copied, dst0, src0, off, cursor);
    }
    cur.usedBuf := next;
    SlotsEnds(l, q, off, cursor);
  }

  /** The cursor moves by whole words. */
  function Advance(bytes: nat): nat { bytes / 4 * 4 }

  lemma CopyRest(q: seq<Request>, off: nat, size: nat)
    requires Chained(q, off) && SavedEnd(q, off, |q|) <= off + size && size % 8 == 0
    ensures off + size >= SavedEnd(q, off, |q|) >= off
    ensures Advance(off + size - SavedEnd(q, off, |q|)) == off + size - SavedEnd(q, off, |q|)
  {
    hide Chained, SavedEnd, Aligned, Advance;
    SavedEndGrows(q, off, |q|);
    RestWords(off, SavedEnd(q, off, |q|), size);
  }

  lemma RestWords(off: nat, end: nat, size: nat)
    requires size % 8 == 0 && off <= end <= off + size && (end == off || (Aligned(off) && Aligned(end)))
    ensures Advance(off + size - end) == off + size - end
  {
    var m := size / 8;
    if end == off {
      assert size == 4 * (2 * m);
    } else {
      var a, b := off / 16, end / 16;
      assert off + size - end == 4 * (4 * a + 2 * m - 4 * b);
    }
  }

  lemma CopyStart(q: seq<Request>, off: nat, at: nat, cursor: nat)
    requires Chained(q, off)
    ensures SavedEnd(q, off, 0) == off && NoRender(q, 0) && CopiedEnd(q, off, at, cursor, 0) == at
  {}

  /** What the copy of request i moves. */
  lemma CopyStep(q: seq<Request>, off: nat, at: nat, cursor: nat, i: nat, size: nat)
    requires Chained(q, off) && at <= cursor && i < |q| && SavedEnd(q, off, |q|) <= off + size
    ensures NoRender(q, i + 1) <==> NoRender(q, i) && !q[i].work.Render?
    ensures off <= SavedEnd(q, off, i) <= SavedEnd(q, off, i + 1) <= off + size
    ensures if q[i].work.Render? then SavedEnd(q, off, i + 1) == q[i].work.addr + q[i].work.size
      else SavedEnd(q, off, i + 1) == SavedEnd(q, off, i)
    ensures Advance(SavedEnd(q, off, i + 1) - SavedEnd(q, off, i)) == SavedEnd(q, off, i + 1) - SavedEnd(q, off, i)
    ensures NoRender(q, i) ==> SavedEnd(q, off, i) == off && CopiedEnd(q, off, at, cursor, i) == at
    ensures q[i].work.Render? && !NoRender(q, i) ==> q[i].work.addr == SavedEnd(q, off, i)
    ensures var w, e := CopiedWork(q, off, at, cursor, i), CopiedEnd(q, off, at, cursor, i);
      && CopiedEnd(q, off, at, cursor, i + 1) == e + OwnSize(w)
      && (!q[i].work.Render? ==> w == q[i].work)
      && (q[i].work.Render? ==> w == Render(e, OwnSize(w), false))
      && (q[i].work.Render? && NoRender(q, i) ==> OwnSize(w) == cursor - at + (q[i].work.addr + q[i].work.size - off))
      && (q[i].work.Render? && !NoRender(q, i) ==> OwnSize(w) == q[i].work.size)
  {
    hide SavedEnd, Advance, Chained;
    CopiedEndStep(q, off, at, cursor, i);
    SavedEndGrows(q, off, i);
    SavedEndNext(q, off, i);
    SavedEndMonotone(q, off, i, i + 1);
    SavedEndMonotone(q, off, i + 1, |q|);
    SavedEndWords(q, off, i);
    if q[i].work.Render? { ChainedAt(q, off, i); }
  }

  lemma SavedEndWords(q: seq<Request>, off: nat, i: nat)
    requires Chained(q, off) && i < |q| && SavedEnd(q, off, i) <= SavedEnd(q, off, i + 1)
    ensures Advance(SavedEnd(q, off, i + 1) - SavedEnd(q, off, i)) == SavedEnd(q, off, i + 1) - SavedEnd(q, off, i)
  {
    hide SavedEnd, Chained, Aligned, Advance;
    SavedEndGrows(q, off, i);
    SavedEndGrows(q, off, i + 1);
    SavedEndNext(q, off, i);
    if q[i].work.Render? {
      WholeWords(SavedEnd(q, off, i), SavedEnd(q, off, i + 1));
    } else {
      AdvanceNone();
    }
  }

  lemma AdvanceNone()
    ensures Advance(0) == 0
  {}

  lemma WholeWords(a: nat, b: nat)
    requires a == b || (Aligned(a) && Aligned(b) && a <= b)
    ensures Advance(b - a) == b - a
  {
    if a < b {
      var m, n := a / 16, b / 16;
      assert b - a == 4 * (4 * (n - m));
    }
  }
}
