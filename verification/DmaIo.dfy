/** Raw I/O through bounce pages: a transfer to or from user memory, some of whose pages the
    DMA hardware cannot reach, done in passes through a window of kernel addresses. */
module DmaSpec {

  const PAGESIZE := 4096
  const NBPSCTR := 512

  /** btod */
  function Btod(bytes: nat): nat { (bytes + NBPSCTR - 1) / NBPSCTR }

  /** How many of the `n` pages from page `p` on are out of reach of DMA. */
  function Over(dma: nat -> bool, p: nat, n: nat): (r: nat)
    ensures r <= n
  {
    if n == 0 then 0 else Over(dma, p, n - 1) + if dma(p + n - 1) then 0 else 1
  }

  lemma {:induction false} OverGrows(dma: nat -> bool, p: nat, m: nat, n: nat)
    requires m <= n
    ensures Over(dma, p, m) <= Over(dma, p, n) <= Over(dma, p, m) + (n - m)
  {
    if m < n { OverGrows(dma, p, m, n - 1); }
  }

  /** The pages a buffer of `count` bytes at `addr` lies in. */
  function Pages(addr: nat, count: nat): nat
  {
    (addr % PAGESIZE + count + PAGESIZE - 1) / PAGESIZE
  }

  /** `s` with the bytes `b` at `at`. */
  function Splice(s: seq<int>, at: nat, b: seq<int>): (r: seq<int>)
    requires at + |b| <= |s|
    ensures |r| == |s|
    ensures forall i :: 0 <= i < |s| ==> r[i] == if at <= i < at + |b| then b[i - at] else s[i]
  {
    s[..at] + b + s[at + |b|..]
  }

  /** One direct transfer between memory at `addr` and the disk from block `blkno`: what is in
      memory and on the disk afterwards. */
  function Direct(mem: seq<int>, disk: seq<int>, addr: nat, count: nat, blkno: nat, read: bool): (r: (seq<int>, seq<int>))
    requires addr + count <= |mem| && blkno * NBPSCTR + count <= |disk|
    ensures |r.0| == |mem| && |r.1| == |disk|
  {
    var off := blkno * NBPSCTR;
    if read then (Splice(mem, addr, disk[off..off + count]), disk)
    else (mem, Splice(disk, off, mem[addr..addr + count]))
  }

  /** Byte for byte: what is read is the disk from the start of the block on, what is written is the
      buffer, and nothing else changes. */
  lemma DirectBytes(mem: seq<int>, disk: seq<int>, addr: nat, count: nat, blkno: nat, read: bool)
    requires addr + count <= |mem| && blkno * NBPSCTR + count <= |disk|
    ensures var (mem1, disk1) := Direct(mem, disk, addr, count, blkno, read);
            && (forall i :: 0 <= i < |mem| ==>
                  mem1[i] == if read && addr <= i < addr + count then disk[NBPSCTR * blkno + (i - addr)] else mem[i])
            && (forall i :: 0 <= i < |disk| ==>
                  disk1[i] == if !read && NBPSCTR * blkno <= i < NBPSCTR * blkno + count then mem[addr + (i - NBPSCTR * blkno)] else disk[i])
  {}

  /** A transfer is the transfer of a first part, ending on a block boundary, and of the rest. */
  lemma DirectInTwo(mem: seq<int>, disk: seq<int>, addr: nat, m: nat, n: nat, blkno: nat, read: bool)
    requires addr + m + n <= |mem| && blkno * NBPSCTR + m + n <= |disk| && m % NBPSCTR == 0
    ensures var (mem1, disk1) := Direct(mem, disk, addr, m, blkno, read);
            && (blkno + m / NBPSCTR) * NBPSCTR == blkno * NBPSCTR + m
            && Direct(mem1, disk1, addr + m, n, blkno + m / NBPSCTR, read) == Direct(mem, disk, addr, m + n, blkno, read)
  {
    var off := blkno * NBPSCTR;
    var (mem1, disk1) := Direct(mem, disk, addr, m, blkno, read);
    if read {
      assert Splice(mem1, addr + m, disk[off + m..off + m + n]) == Splice(mem, addr, disk[off..off + m + n]);
    } else {
      assert mem1[addr + m..addr + m + n] == mem[addr + m..addr + m + n];
      assert Splice(disk1, off + m, mem[addr + m..addr + m + n]) == Splice(disk, off, mem[addr..addr + m + n]);
    }
  }

  // ------------------------------------------------------------- the window

  /** What a page of the window is mapped to. */
  datatype Pte = Invalid | User(page: nat) | Bounce(frame: nat)

  /** The mapping of a pass that starts on page `p`: pages in reach are mapped themselves, each
      other one to the next bounce page of the list. */
  ghost predicate Mapped(dma: nat -> bool, p: nat, n: nat, list: seq<nat>, kpte: seq<Pte>)
  {
    && n <= |kpte| && Over(dma, p, n) <= |list|
    && forall i: nat :: i < n ==>
         Over(dma, p, i) <= |list| && (!dma(p + i) ==> Over(dma, p, i) < |list|)
         && kpte[i] == if dma(p + i) then User(p + i) else Bounce(list[Over(dma, p, i)])
  }

  /** The byte seen through the window at byte `x` of it. */
  function Through(kpte: seq<Pte>, mem: seq<int>, frames: seq<seq<int>>, x: nat): int
    requires x / PAGESIZE < |kpte|
  {
    match kpte[x / PAGESIZE]
    case Invalid => 0
    case User(p) => if p * PAGESIZE + x % PAGESIZE < |mem| then mem[p * PAGESIZE + x % PAGESIZE] else 0
    case Bounce(f) => if f < |frames| && x % PAGESIZE < |frames[f]| then frames[f][x % PAGESIZE] else 0
  }
}

module DmaIo {
  import opened Common
  import opened DmaSpec

  function LeftInPage(addr: nat): nat { PAGESIZE - addr % PAGESIZE }

  function Min(a: nat, b: nat): nat { if a < b then a else b }

  /** How far into a buffer the first `i` of its pages reach. */
  function Reach(addr: nat, count: nat, i: nat): (r: nat)
    ensures addr <= r <= addr + count
  {
    if i == 0 then addr else Min(addr + count, (addr / PAGESIZE + i) * PAGESIZE)
  }

  lemma ReachStep(addr: nat, count: nat, i: nat)
    requires count > 0 && i < Pages(addr, count)
    ensures var r := Reach(addr, count, i);
            && r < addr + count
            && r / PAGESIZE == addr / PAGESIZE + i
            && Reach(addr, count, i + 1) == r + Min(addr + count - r, LeftInPage(r))
            && (Reach(addr, count, i + 1) < addr + count ==> i + 1 < Pages(addr, count) && Reach(addr, count, i + 1) % PAGESIZE == 0)
            && (i + 1 == Pages(addr, count) ==> Reach(addr, count, i + 1) == addr + count)
  {}

  /** The rest of a buffer has the pages that are left. */
  lemma PagesLeft(addr: nat, count: nat, i: nat)
    requires count > 0 && 0 < i <= Pages(addr, count)
    ensures var r := Reach(addr, count, i);
            && (i < Pages(addr, count) <==> r < addr + count)
            && (i < Pages(addr, count) ==>
                  && r == (addr / PAGESIZE + i) * PAGESIZE
                  && Pages(r, addr + count - r) == Pages(addr, count) - i
                  && (addr % NBPSCTR == 0 ==> (r - addr) % NBPSCTR == 0 && r % NBPSCTR == 0))
  {
    var first, last := addr / PAGESIZE, (addr + count - 1) / PAGESIZE;
    assert Pages(addr, count) == last - first + 1;
    var b := (first + i) * PAGESIZE;
    assert b < addr + count <==> i < Pages(addr, count);
    if i < Pages(addr, count) {
      assert b / PAGESIZE == first + i;
    }
  }

  ghost predicate Frames(list: seq<nat>, frames: seq<seq<int>>)
  {
    && (forall i :: 0 <= i < |list| ==> list[i] < |frames|)
    && (forall f :: 0 <= f < |frames| ==> |frames[f]| == PAGESIZE)
  }

  /** Two pages out of reach get different bounce pages. */
  lemma BounceApart(dma: nat -> bool, p: nat, n: nat, list: seq<nat>, kpte: seq<Pte>, i: nat, k: nat)
    requires Mapped(dma, p, n, list, kpte) && Distinct(list) && i < n && k < n && i != k && !dma(p + i) && !dma(p + k)
    ensures Over(dma, p, i) < |list| && Over(dma, p, k) < |list|
    ensures list[Over(dma, p, i)] != list[Over(dma, p, k)]
  {
    if i < k { OverGrows(dma, p, i + 1, k); } else { OverGrows(dma, p, k + 1, i); }
  }

  /** The byte at address `u` seen through the window of a pass that starts on page `p`. */
  function Seen(kpte: seq<Pte>, mem: seq<int>, frames: seq<seq<int>>, p: nat, u: nat): int
    requires p * PAGESIZE <= u && u / PAGESIZE - p < |kpte|
  {
    Through(kpte, mem, frames, u - p * PAGESIZE)
  }

  lemma SeenAt(dma: nat -> bool, p: nat, n: nat, list: seq<nat>, kpte: seq<Pte>, mem: seq<int>, frames: seq<seq<int>>, u: nat)
    requires Mapped(dma, p, n, list, kpte) && Frames(list, frames) && u < |mem| && p <= u / PAGESIZE < p + n
    ensures var i := u / PAGESIZE - p;
            && u - p * PAGESIZE >= 0 && (u - p * PAGESIZE) / PAGESIZE == i && (u - p * PAGESIZE) % PAGESIZE == u % PAGESIZE
            && Over(dma, p, i) <= |list| && (!dma(p + i) ==> Over(dma, p, i) < |list|)
            && Seen(kpte, mem, frames, p, u) == if dma(p + i) then mem[u] else ByteAt(frames, list[Over(dma, p, i)], u % PAGESIZE)
  {
    var x := u - p * PAGESIZE;
    assert x / PAGESIZE == u / PAGESIZE - p && x % PAGESIZE == u % PAGESIZE;
    assert (p + x / PAGESIZE) * PAGESIZE + x % PAGESIZE == u;
  }

  class RawIo {
    const dma: nat -> bool         // DMA_BYTE of what a page of the address space is mapped to
    var mem: seq<int>              // the address space
    var disk: seq<int>
    var frames: seq<seq<int>>      // contents of the pages reserved for DMA
    var free: seq<nat>             // dma_freelist

    /** The driver: `good` bytes, or all if fewer are asked for, go between the disk and the
        window; what is left over is b_resid. */
    method Strategy(kpte: seq<Pte>, start: nat, count: nat, blkno: nat, read: bool, good: nat,
                    ghost p: nat, ghost n: nat, ghost list: seq<nat>)
      returns (done: nat)
      requires Mapped(dma, p, n, list, kpte) && Distinct(list) && Frames(list, frames)
      requires start + count <= n * PAGESIZE && p * PAGESIZE + start + count <= |mem| && blkno * NBPSCTR + count <= |disk|
      modifies this`mem, this`disk, this`frames
      ensures done == Min(good, count) && |mem| == |old(mem)| && |disk| == |old(disk)| && |frames| == |old(frames)|
      ensures Frames(list, frames)
      ensures read ==> disk == old(disk)
      ensures read ==> Received(dma, p, n, list, old(mem), old(frames), mem, frames, start, done, disk[blkno * NBPSCTR..])
      ensures !read || Over(dma, p, n) == 0 ==> frames == old(frames)
      ensures !read ==> mem == old(mem)
      ensures !read ==> Sent(kpte, mem, frames, p, p * PAGESIZE + start, old(disk), disk, blkno * NBPSCTR, done)
    {
      hide Mapped, Distinct, Received;
      done := Min(good, count);
      var off := blkno * NBPSCTR;
      ghost var src := disk[off..];
      MappedSize(dma, p, n, list, kpte);
      ReceivedNone(dma, p, n, list, kpte, mem, frames, start, src);
      var k := 0;
      while k < done
        invariant k <= done && |mem| == |old(mem)| && |disk| == |old(disk)| && |frames| == |old(frames)|
        invariant Frames(list, frames)
        invariant read ==> disk == old(disk) && Received(dma, p, n, list, old(mem), old(frames), mem, frames, start, k, src)
        invariant !read || Over(dma, p, n) == 0 ==> frames == old(frames)
        invariant !read ==> mem == old(mem)
        invariant !read ==> Sent(kpte, mem, frames, p, p * PAGESIZE + start, old(disk), disk, off, k)
      {
        var x := start + k;
        if read {
          ghost var mem1, frames1 := mem, frames;
          Put(kpte, x, disk[off + k], p, n, list);
          ReceivedMore(dma, p, n, list, kpte, old(mem), old(frames), mem1, frames1, mem, frames, start, k, src);
          StoredInReach(dma, p, n, list, mem1, frames1, mem, frames, x, disk[off + k]);
        } else {
          SentMore(kpte, mem, frames, p, p * PAGESIZE + start, old(disk), disk, off, k);
          disk := disk[off + k := Through(kpte, mem, frames, x)];
        }
        k := k + 1;
      }
    }

    /** A byte stored through the window. */
    method Put(kpte: seq<Pte>, x: nat, b: int, ghost p: nat, ghost n: nat, ghost list: seq<nat>)
      requires Mapped(dma, p, n, list, kpte) && Frames(list, frames)
      requires x < n * PAGESIZE && p * PAGESIZE + x < |mem|
      modifies this`mem, this`frames
      ensures Stored(dma, p, list, old(mem), old(frames), mem, frames, x, b)
      ensures Frames(list, frames)
    {
      assert x / PAGESIZE < n;
      match kpte[x / PAGESIZE] {
        case User(page) =>
          assert page * PAGESIZE + x % PAGESIZE == p * PAGESIZE + x;
          mem := mem[page * PAGESIZE + x % PAGESIZE := b];
        case Bounce(f) =>
          frames := frames[f := frames[f][x % PAGESIZE := b]];
      }
    }

    /** dma_pages: how many pages the buffer lies in, and how many of them are out of reach. */
    method DmaPages(addr: nat, count: nat) returns (total: nat, over: nat)
      requires count > 0
      ensures total == Pages(addr, count) && over == Over(dma, addr / PAGESIZE, total)
    {
      var a := addr - addr % PAGESIZE;
      total, over := 0, 0;
      while a < addr + count
        invariant a == (addr / PAGESIZE + total) * PAGESIZE && total <= Pages(addr, count)
        invariant over == Over(dma, addr / PAGESIZE, total)
        invariant a >= addr + count ==> total == Pages(addr, count)
        decreases addr + count + PAGESIZE - a
      {
        if !dma(a / PAGESIZE) {
          over := over + 1;
        }
        a := a + PAGESIZE;
        total := total + 1;
      }
    }

    /** dma_page_get. `others` are the pages other transfers have, in the order they give them back;
        while there are not enough it sleeps, and `waited` of them come back meanwhile. */
    method PageGet(num: nat, others: seq<nat>) returns (list: seq<nat>, ghost waited: nat)
      requires num <= |free| + |others|
      modifies this`free
      ensures waited == if num <= |old(free)| then 0 else num - |old(free)|
      ensures waited <= |others|
      ensures var all := old(free) + others[..waited]; num <= |all| && list == all[..num] && free == all[num..]
    {
      var w := 0;
      while num > |free|
        invariant w <= |others| && free == old(free) + others[..w] && (w > 0 ==> |free| <= num)
      {
        free := free + [others[w]];
        w := w + 1;
      }
      waited := w;
      ghost var all := free;
      list := [];
      var i := 0;
      while i < num
        invariant i <= num && list == all[..i] && free == all[i..]
      {
        var pp := free[0];
        free := free[1..];
        list := list + [pp];
        i := i + 1;
      }
    }

    /** One bounce page, the first free one or the first to come back. */
    method OneBounce(others: seq<nat>) returns (list: seq<nat>, ghost all: seq<nat>)
      requires free + others != [] && Distinct(free + others) && Frames(free + others, frames)
      modifies this`free
      ensures all == (if old(free) == [] then others[..1] else old(free)) && multiset(free) + multiset(list) == multiset(all)
      ensures |list| == 1 && list[0] == (old(free) + others)[0] && Distinct(list) && Frames(list, frames)
    {
      hide Distinct, Frames;
      ghost var waited;
      list, waited := PageGet(1, others);
      all := old(free) + others[..waited];
      assert all == if old(free) == [] then others[..1] else old(free);
      SomeBack(old(free), others, waited, frames);
      ListTaken(all, 1, frames);
    }

    /** dma_page_rele */
    method PageRele(list: seq<nat>)
      modifies this`free
      ensures free == old(free) + list
    {
      var i := 0;
      while i < |list|
        invariant i <= |list| && free == old(free) + list[..i]
      {
        free := free + [list[i]];
        i := i + 1;
      }
      assert list[..i] == list;
    }

    /** The first loop of a pass: the window is mapped page by page, and for a write what is in
        pages out of reach is copied to their bounce pages. It stops when the pages, the window
        or the bounce pages run out. */
    method MapPass(addr0: nat, count0: nat, size: nat, list: seq<nat>, read: bool)
      returns (kpte: seq<Pte>, n: nat, curcount: nat)
      requires count0 > 0 && addr0 + count0 <= |mem| && size > 0 && list != [] && Distinct(list) && Frames(list, frames)
      modifies this`frames
      ensures Frames(list, frames) && |frames| == |old(frames)| && (read ==> frames == old(frames))
      ensures 0 < n <= Pages(addr0, count0) && |kpte| == size && Mapped(dma, addr0 / PAGESIZE, n, list, kpte)
      ensures curcount == Reach(addr0, count0, n) - addr0 > 0
      ensures !read ==> forall u: nat :: addr0 <= u < addr0 + curcount ==> Same(kpte, mem, frames, addr0 / PAGESIZE, u)
    {
      hide Mapped, Distinct, Reach, Seen, Frames, Pages;
      var addr, count, i, j := addr0, count0, 0, 0;
      kpte, curcount := seq(size, _ => Invalid), 0;
      ghost var p := addr0 / PAGESIZE;
      var total := Pages(addr0, count0);
      MapNone(dma, p, list, kpte, addr0, count0);
      while i < total && i < size && j < |list|
        invariant i <= total && i <= size && |kpte| == size && Mapped(dma, p, i, list, kpte) && j == Over(dma, p, i)
        invariant addr == Reach(addr0, count0, i) == addr0 + curcount && count == count0 - curcount
        invariant j <= |list| && curcount <= count0 && (i > 0 ==> curcount > 0)
        invariant Frames(list, frames) && |frames| == |old(frames)| && (read ==> frames == old(frames))
        invariant !read ==> Copied(dma, p, i, list, mem, frames, addr0, addr)
      {
        ReachStep(addr0, count0, i);
        var iocount := Min(count, LeftInPage(addr));
        ghost var frames1, kpte1 := frames, kpte;
        if dma(addr / PAGESIZE) {
          kpte := kpte[i := User(addr / PAGESIZE)];
        } else {
          kpte := kpte[i := Bounce(list[j])];
          if !read {
            CopyFits(list, frames, j, addr, iocount);
            var b := Splice(frames[list[j]], addr % PAGESIZE, mem[addr..addr + iocount]);
            FrameStore(list, frames, list[j], b);
            frames := frames[list[j] := b];
          }
          j := j + 1;
        }
        MapMore(dma, p, i, list, kpte1, kpte);
        if !read {
          CopyMore(dma, p, i, list, kpte, mem, frames1, frames, addr0, addr, iocount);
        }
        addr := addr + iocount;
        count := count - iocount;
        curcount := curcount + iocount;
        i := i + 1;
      }
      n := i;
      if !read {
        CopiedSeen(dma, p, n, list, kpte, mem, frames, addr0, addr);
      }
    }

    /** The loop after a pass: what a read brought into bounce pages is copied to the pages they
        stand in for, and the window is unmapped. */
    method UnmapPass(kpte0: seq<Pte>, addr0: nat, count0: nat, n: nat, list: seq<nat>, read: bool) returns (kpte: seq<Pte>)
      requires count0 > 0 && addr0 + count0 <= |mem| && n == Pages(addr0, count0) && n <= |kpte0|
      requires Mapped(dma, addr0 / PAGESIZE, n, list, kpte0) && Frames(list, frames)
      modifies this`mem
      ensures |mem| == |old(mem)| && (!read ==> mem == old(mem))
      ensures read ==> Brought(kpte0, old(mem), frames, mem, addr0 / PAGESIZE, addr0, addr0 + count0)
      ensures |kpte| == |kpte0| && forall i :: 0 <= i < |kpte| ==> kpte[i] == if i < n then Invalid else kpte0[i]
    {
      hide Mapped, Reach, Pages, Seen, Frames;
      var curaddr, curcount, i, j := addr0, count0, 0, 0;
      kpte := kpte0;
      ghost var p := addr0 / PAGESIZE;
      ReachEnds(addr0, count0);
      while curcount > 0
        invariant i <= n && curaddr == Reach(addr0, count0, i) && curcount == addr0 + count0 - curaddr && j == Over(dma, p, i)
        invariant curaddr < addr0 + count0 ==> i < n
        invariant curaddr == addr0 + count0 ==> i == n
        invariant |mem| == |old(mem)| && (!read ==> mem == old(mem))
        invariant read ==> Brought(kpte0, old(mem), frames, mem, p, addr0, curaddr)
        invariant |kpte| == |kpte0| && forall k :: 0 <= k < |kpte| ==> kpte[k] == if k < i then Invalid else kpte0[k]
        decreases n - i
      {
        ReachStep(addr0, count0, i);
        PagesLeft(addr0, count0, i + 1);
        var iocount := Min(curcount, LeftInPage(curaddr));
        ghost var mem1 := mem;
        BounceAt(dma, p, n, list, frames, kpte0, i, curaddr, iocount);
        if !dma(curaddr / PAGESIZE) {
          if read {
            mem := Splice(mem, curaddr, frames[list[j]][curaddr % PAGESIZE..curaddr % PAGESIZE + iocount]);
          }
          j := j + 1;
        }
        if read {
          BroughtMore(dma, p, n, list, kpte0, old(mem), frames, mem1, mem, addr0, curaddr, iocount);
        }
        kpte := kpte[i := Invalid];
        i := i + 1;
        curaddr := curaddr + iocount;
        curcount := curcount - iocount;
      }
    }

    /** One pass of dmaable_rawio: from `again` to the end of the second loop. */
    method Pass(addr: nat, count: nat, size: nat, list: seq<nat>, read: bool, blkno: nat, good: nat)
      returns (n: nat, cur: nat, done: nat)
      requires count > 0 && addr + count <= |mem| && blkno * NBPSCTR + count <= |disk|
      requires size > 0 && list != [] && Distinct(list) && Frames(list, frames)
      modifies this`mem, this`disk, this`frames
      ensures |mem| == |old(mem)| && |disk| == |old(disk)| && |frames| == |old(frames)| && Frames(list, frames)
      ensures 0 < n <= Pages(addr, count) && n <= size && cur == Reach(addr, count, n) - addr && done == Min(good, cur)
      ensures done == cur ==> (mem, disk) == Direct(old(mem), old(disk), addr, cur, blkno, read)
      ensures !read ==> (mem, disk) == Direct(old(mem), old(disk), addr, done, blkno, false)
      ensures read ==> disk == old(disk) && Partly(old(mem), mem, disk, addr, done, cur, blkno)
      ensures list[0] < |frames|
      ensures read && n == 1 ==>
                OnePage(dma, old(mem), old(frames)[list[0]], mem, frames[list[0]], disk, addr, done, cur, blkno)
    {
      hide Mapped, Reach, Pages, Seen, Frames, Distinct, Received, Brought, OnePage;
      FirstFrame(list, frames);
      ghost var p := addr / PAGESIZE;
      var kpte;
      kpte, n, cur := MapPass(addr, count, size, list, read);
      WithinPages(addr, count, n);
      MappedSize(dma, p, n, list, kpte);
      done := Strategy(kpte, addr % PAGESIZE, cur, blkno, read, good, p, n, list);
      if read {
        ghost var mem1, window := mem, kpte;
        kpte := UnmapPass(kpte, addr, cur, n, list, true);
        ReadDone(dma, p, n, list, window, old(mem), old(frames), mem1, frames, mem, disk, addr, done, cur, blkno);
        if n == 1 {
          ReadOnePage(dma, p, list, window, old(mem), old(frames), mem1, frames, mem, disk, addr, done, cur, blkno);
        }
      } else {
        WriteDone(kpte, mem, frames, p, old(disk), disk, addr, done, cur, blkno);
        kpte := UnmapPass(kpte, addr, cur, n, list, false);
      }
    }

    /** A transfer the hardware can do by itself. */
    method Straight(addr: nat, count: nat, blkno: nat, read: bool, good: nat) returns (done: nat)
      requires addr + count <= |mem| && blkno * NBPSCTR + count <= |disk|
      modifies this`mem, this`disk
      ensures done == Min(good, count) && (mem, disk) == Direct(old(mem), old(disk), addr, done, blkno, read)
    {
      done := Min(good, count);
      var off := blkno * NBPSCTR;
      if read {
        mem := Splice(mem, addr, disk[off..off + done]);
      } else {
        disk := Splice(disk, off, mem[addr..addr + done]);
      }
    }

    /** dmaable_rawio. `window` is whether kernel addresses for the window can be had; the
        driver transfers good(k) bytes of pass k at most. A transfer that succeeds is the
        direct one; one that fails has moved a first part of it; and no page reserved for DMA
        is gained or lost, but for the first `waited` of `others`, which other transfers have
        given back while it slept. */
    method DmaableRawio(addr: nat, count: nat, blkno: nat, read: bool, piomaxsz: nat, dmaablePages: nat,
                        window: bool, good: nat -> nat, others: seq<nat>)
      returns (ok: bool, ghost moved: nat, ghost waited: nat)
      requires count > 0 && addr + count <= |mem| && blkno * NBPSCTR + count <= |disk| && addr % NBPSCTR == 0
      requires piomaxsz > 0 && 0 < dmaablePages <= |free| + |others| && Distinct(free + others) && Frames(free + others, frames)
      modifies this
      ensures waited <= |others| && multiset(free) == multiset(old(free) + others[..waited])
      ensures dmaablePages <= |old(free)| ==> waited == 0
      ensures |mem| == |old(mem)| && |disk| == |old(disk)|
      ensures moved <= count && (ok <==> moved == count)
      ensures ok || !read ==> (mem, disk) == Direct(old(mem), old(disk), addr, moved, blkno, read)
      ensures !ok && read ==> disk == old(disk) && Partly(old(mem), mem, disk, addr, moved, count, blkno)
    {
      hide Mapped, Reach, Pages, Frames, Distinct, Direct, Partly, Over;
      var total, over := DmaPages(addr, count);
      if over == 0 {
        var done := Straight(addr, count, blkno, read, good(0));
        DirectPartly(old(mem), old(disk), addr, done, count, blkno);
        assert old(free) + others[..0] == old(free);
        return done == count, done, 0;
      }
      var possible := Min(piomaxsz, Min(over, dmaablePages));
      var list;
      list, waited := PageGet(possible, others);
      ghost var all := old(free) + others[..waited];
      SomeBack(old(free), others, waited, frames);
      ListTaken(all, possible, frames);
      NothingMoved(mem, disk, addr, count, blkno, read);
      if !window {
        PageRele(list);
        return false, 0, waited;
      }
      ok, moved := Passes(addr, count, blkno, read, total, list, (total - over) + possible, good);
      EnoughFree(all, possible, free);
    }

    /** dmaable_rawio from `again` on, with the bounce pages `list`, which it gives back. */
    method Passes(addr: nat, count: nat, blkno: nat, read: bool, total: nat, list0: seq<nat>, size: nat, good: nat -> nat)
      returns (ok: bool, ghost moved: nat)
      requires count > 0 && addr + count <= |mem| && blkno * NBPSCTR + count <= |disk| && addr % NBPSCTR == 0
      requires total == Pages(addr, count) && size > 0 && list0 != [] && Distinct(list0) && Frames(list0, frames)
      modifies this
      ensures multiset(free) == multiset(old(free)) + multiset(list0) && |mem| == |old(mem)| && |disk| == |old(disk)|
      ensures moved <= count && (ok <==> moved == count)
      ensures ok || !read ==> (mem, disk) == Direct(old(mem), old(disk), addr, moved, blkno, read)
      ensures !ok && read ==> disk == old(disk) && Partly(old(mem), mem, disk, addr, moved, count, blkno)
    {
      hide Mapped, Reach, Pages, Frames, Distinct, Direct, Partly, Over, Btod, OnePage;
      var list := list0;
      var at: nat, left: nat, npages: nat, b: nat, pass: nat := addr, count, 0, blkno, 0;
      ReachEnds(addr, count);
      NothingMoved(mem, disk, addr, count, blkno, read);
      while npages < total
        invariant npages <= total && at + left == addr + count && addr <= at
        invariant npages < total ==> at % NBPSCTR == 0 && (at - addr) % NBPSCTR == 0 && b == blkno + (at - addr) / NBPSCTR
        invariant (npages < total <==> left > 0) && (npages < total ==> Pages(at, left) == total - npages)
        invariant list != [] && Distinct(list) && Frames(list, frames)
        invariant multiset(free) + multiset(list) == multiset(old(free)) + multiset(list0)
        invariant |mem| == |old(mem)| && |disk| == |old(disk)|
        invariant (mem, disk) == Direct(old(mem), old(disk), addr, at - addr, blkno, read)
        decreases total - npages
      {
        ghost var mem1, disk1 := mem, disk;
        BlockOf(addr, at, blkno, b);
        var n, cur, done := Pass(at, left, size, list, read, b, good(pass));
        PassFits(at, left, n);
        PassDone(old(mem), old(disk), mem1, disk1, mem, disk, addr, at, cur, done, count, blkno, b, read);
        if done < cur {
          PageRele(list);
          return false, at - addr + done;
        }
        npages := npages + n;
        NextBlock(addr, at, cur, blkno, b);
        at := at + cur;
        left := left - cur;
        if npages < total {
          list := GiveBackSurplus(list, total - npages);
          b := b + Btod(cur);
        }
        pass := pass + 1;
      }
      PageRele(list);
      return true, count;
    }

    /** One request of dma_buf_breakup, for what of the buffer is on the page at `at`. */
    method Request(addr: nat, count: nat, blkno: nat, read: bool, good: nat -> nat, list: seq<nat>, at: nat, left: nat, b: nat,
                   k: nat, ghost mem0: seq<int>, ghost disk0: seq<int>, ghost frame0: seq<int>)
      returns (cur: nat)
      requires count > 0 && addr + count <= |mem| && blkno * NBPSCTR + count <= |disk| && k < Pages(addr, count)
      requires at == Reach(addr, count, k) && at + left == addr + count
      requires at % NBPSCTR == 0 && b * NBPSCTR == blkno * NBPSCTR + (at - addr)
      requires list != [] && Distinct(list) && Frames(list, frames) && list[0] < |frames|
      requires Moved(dma, mem0, disk0, frame0, mem, disk, frames[list[0]], addr, count, blkno, read, good, k)
      modifies this`mem, this`disk, this`frames
      ensures |mem| == |old(mem)| && |disk| == |old(disk)| && Frames(list, frames) && list[0] < |frames|
      ensures 0 < cur <= left && at + cur == Reach(addr, count, k + 1)
      ensures k + 1 < Pages(addr, count) <==> cur < left
      ensures cur < left ==> cur % NBPSCTR == 0 && (at + cur) % NBPSCTR == 0
      ensures Moved(dma, mem0, disk0, frame0, mem, disk, frames[list[0]], addr, count, blkno, read, good, k + 1)
    {
      hide Reach, Pages, Frames, Distinct, Direct, Partly, Over, OnePage, Moved;
      ghost var mem1, disk1, frame1 := mem, disk, frames[list[0]];
      Piece(addr, count, k);
      var n, done;
      n, cur, done := Pass(at, left, 1, list, read, b, good(k));
      PassFits(at, left, n);
      OneMoved(dma, mem0, disk0, frame0, mem1, disk1, frame1, mem, disk, frames[list[0]], addr, count, blkno, read, good,
               k, at, cur, b);
    }

    /** dma_buf_breakup: one request for each page, all with the same bounce page, up to one with
        an error; `issued` counts them. Request k moves good(k) bytes at most and has B_ERROR set
        when error(k). Unlike dmaable_rawio it looks at B_ERROR alone: a request that falls short
        without it goes unnoticed. */
    method DmaBufBreakup(addr: nat, count: nat, blkno: nat, read: bool, good: nat -> nat, error: nat -> bool, others: seq<nat>)
      returns (ok: bool, ghost issued: nat)
      requires count > 0 && addr + count <= |mem| && blkno * NBPSCTR + count <= |disk| && addr % NBPSCTR == 0
      requires free + others != [] && Distinct(free + others) && Frames(free + others, frames)
      modifies this
      ensures multiset(free) == multiset(if old(free) == [] then others[..1] else old(free))
      ensures |mem| == |old(mem)| && |disk| == |old(disk)|
      ensures ok <==> forall k: nat :: k < Pages(addr, count) ==> !error(k)
      ensures issued <= Pages(addr, count) && (ok ==> issued == Pages(addr, count))
      ensures !ok ==> issued > 0 && error(issued - 1) && forall k: nat :: k < issued - 1 ==> !error(k)
      ensures Requested(old(mem), old(disk), mem, disk, addr, count, blkno, read, good, issued)
      ensures ok && Whole(addr, count, good) ==> (mem, disk) == Direct(old(mem), old(disk), addr, count, blkno, read)
      ensures var f := (old(free) + others)[0]; f < |old(frames)| && |old(frames)[f]| == PAGESIZE
      ensures read ==> LeftOut(dma, old(mem), old(frames)[(old(free) + others)[0]], mem, disk, addr, count, blkno, good, issued)
    {
      hide Reach, Pages, Frames, Distinct, Direct, Over, Btod, Requested, Whole, LeftOut, Moved;
      FirstFrame(free + others, frames);
      ghost var first := (free + others)[0];
      ghost var frame0 := frames[first];
      var list;
      ghost var all;
      list, all := OneBounce(others);
      var at: nat, left: nat, b: nat, k: nat := addr, count, blkno, 0;
      ReachEnds(addr, count);
      NoneMoved(dma, mem, disk, frame0, addr, count, blkno, read, good);
      while left > 0
        invariant at + left == addr + count && at == Reach(addr, count, k) && k <= Pages(addr, count)
        invariant k < Pages(addr, count) <==> left > 0
        invariant left > 0 ==> at % NBPSCTR == 0 && b * NBPSCTR == blkno * NBPSCTR + (at - addr)
        invariant |list| == 1 && list[0] == first < |frames| && Distinct(list) && Frames(list, frames)
        invariant multiset(free) + multiset(list) == multiset(all)
        invariant |mem| == |old(mem)| && |disk| == |old(disk)|
        invariant Moved(dma, old(mem), old(disk), frame0, mem, disk, frames[list[0]], addr, count, blkno, read, good, k)
        invariant forall j: nat :: j < k ==> !error(j)
        decreases left
      {
        var cur := Request(addr, count, blkno, read, good, list, at, left, b, k, old(mem), old(disk), frame0);
        if error(k) {
          PageRele(list);
          WhatMoved(dma, old(mem), old(disk), frame0, mem, disk, frames[list[0]], addr, count, blkno, read, good, k + 1);
          return false, k + 1;
        }
        WholeBlocks(cur);
        b := b + Btod(cur);
        at := at + cur;
        left := left - cur;
        k := k + 1;
      }
      PageRele(list);
      WhatMoved(dma, old(mem), old(disk), frame0, mem, disk, frames[list[0]], addr, count, blkno, read, good, k);
      return true, k;
    }

    /** Bounce pages beyond the pages left to transfer are not needed any more. */
    method GiveBackSurplus(list0: seq<nat>, left: nat) returns (list: seq<nat>)
      requires left > 0 && list0 != [] && Distinct(list0) && Frames(list0, frames)
      modifies this`free
      ensures list != [] && Distinct(list) && Frames(list, frames)
      ensures multiset(free) + multiset(list) == multiset(old(free)) + multiset(list0)
    {
      hide Frames, Distinct;
      list := list0;
      if left < |list| {
        PageRele(list[left..]);
        Surplus(list, left, frames);
        list := list[..left];
      }
    }
  }

  // ------------------------------------------------ a request for each page

  /** The byte at `u` is among those request k moves: the first good(k) of its page's. */
  predicate InRequest(addr: nat, count: nat, good: nat -> nat, k: nat, u: nat)
  {
    Reach(addr, count, k) <= u < Reach(addr, count, k + 1) && u - Reach(addr, count, k) < good(k)
  }

  ghost predicate MovedBy(addr: nat, count: nat, good: nat -> nat, n: nat, u: nat)
  {
    exists k: nat :: k < n && InRequest(addr, count, good, k, u)
  }

  /** What the first `n` requests have done: for a write, the bytes moved are on the disk and no
      other byte of it has changed; for a read, the bytes moved are in memory, and nothing
      outside the pages asked for has changed. */
  ghost predicate Requested(mem0: seq<int>, disk0: seq<int>, mem: seq<int>, disk: seq<int>, addr: nat, count: nat, blkno: nat,
                            read: bool, good: nat -> nat, n: nat)
  {
    && addr + count <= |mem0| == |mem| && blkno * NBPSCTR + count <= |disk0| == |disk|
    && if read then
         && disk == disk0
         && forall u: nat :: u < |mem| ==> ReadAt(mem0, disk0, mem, addr, count, blkno, good, n, u)
       else
         && mem == mem0
         && forall i: nat :: i < |disk| ==> WrittenAt(mem0, disk0, disk, addr, count, blkno, good, n, i)
  }

  ghost predicate ReadAt(mem0: seq<int>, disk0: seq<int>, mem: seq<int>, addr: nat, count: nat, blkno: nat,
                         good: nat -> nat, n: nat, u: nat)
    requires u < |mem| == |mem0| && blkno * NBPSCTR + count <= |disk0|
  {
    && (MovedBy(addr, count, good, n, u) && addr <= u < addr + count ==> mem[u] == disk0[blkno * NBPSCTR + (u - addr)])
    && (u < addr || u >= Reach(addr, count, n) ==> mem[u] == mem0[u])
  }

  ghost predicate WrittenAt(mem0: seq<int>, disk0: seq<int>, disk: seq<int>, addr: nat, count: nat, blkno: nat,
                            good: nat -> nat, n: nat, i: nat)
    requires i < |disk| == |disk0| && addr + count <= |mem0|
  {
    var off := blkno * NBPSCTR;
    disk[i] == if off <= i < off + count && MovedBy(addr, count, good, n, addr + (i - off)) then mem0[addr + (i - off)]
               else disk0[i]
  }

  lemma NoneRequested(mem: seq<int>, disk: seq<int>, addr: nat, count: nat, blkno: nat, read: bool, good: nat -> nat)
    requires addr + count <= |mem| && blkno * NBPSCTR + count <= |disk|
    ensures Requested(mem, disk, mem, disk, addr, count, blkno, read, good, 0)
  {}

  lemma ReachGrows(addr: nat, count: nat, i: nat, k: nat)
    requires i <= k
    ensures Reach(addr, count, i) <= Reach(addr, count, k)
  {
    assert (addr / PAGESIZE + i) * PAGESIZE <= (addr / PAGESIZE + k) * PAGESIZE;
  }

  lemma MovedMore(addr: nat, count: nat, good: nat -> nat, n: nat, u: nat)
    ensures MovedBy(addr, count, good, n + 1, u) <==> MovedBy(addr, count, good, n, u) || InRequest(addr, count, good, n, u)
    ensures MovedBy(addr, count, good, n, u) ==> addr <= u < Reach(addr, count, n)
  {
    hide Reach;
    if k: nat :| k < n && InRequest(addr, count, good, k, u) {
      ReachGrows(addr, count, k + 1, n);
    }
  }

  lemma OneRequested(mem0: seq<int>, disk0: seq<int>, mem1: seq<int>, disk1: seq<int>, mem: seq<int>, disk: seq<int>,
                     addr: nat, count: nat, blkno: nat, read: bool, good: nat -> nat, k: nat, at: nat, cur: nat, b: nat)
    requires Requested(mem0, disk0, mem1, disk1, addr, count, blkno, read, good, k)
    requires at == Reach(addr, count, k) && at + cur == Reach(addr, count, k + 1)
    requires |mem| == |mem1| && |disk| == |disk1| && b * NBPSCTR == blkno * NBPSCTR + (at - addr) && b * NBPSCTR + cur <= |disk|
    requires read ==> disk == disk1 && Partly(mem1, mem, disk, at, Min(good(k), cur), cur, b)
    requires !read ==> (mem, disk) == Direct(mem1, disk1, at, Min(good(k), cur), b, false)
    ensures Requested(mem0, disk0, mem, disk, addr, count, blkno, read, good, k + 1)
  {
    hide Reach, MovedBy;
    var n := k + 1;
    if read {
      forall u: nat | u < |mem| ensures ReadAt(mem0, disk0, mem, addr, count, blkno, good, n, u) {
        assert ReadAt(mem0, disk0, mem1, addr, count, blkno, good, k, u);
        MovedMore(addr, count, good, k, u);
      }
    } else {
      forall i: nat | i < |disk| ensures WrittenAt(mem0, disk0, disk, addr, count, blkno, good, n, i) {
        assert WrittenAt(mem0, disk0, disk1, addr, count, blkno, good, k, i);
        if i >= blkno * NBPSCTR {
          MovedMore(addr, count, good, k, addr + (i - blkno * NBPSCTR));
        }
      }
    }
  }

  /** What the bounce page holds at `o` before request `k` of a read: what the last of the earlier
      requests for a page out of reach brought there, or what was there at first. */
  function Stale(dma: nat -> bool, frame0: seq<int>, disk: seq<int>, addr: nat, count: nat, blkno: nat, good: nat -> nat,
                 k: nat, o: nat): int
    requires o < |frame0| && blkno * NBPSCTR + count <= |disk|
  {
    if k == 0 then frame0[o]
    else
      var p := addr / PAGESIZE + (k - 1);
      var u := p * PAGESIZE + o;
      if !dma(p) && InRequest(addr, count, good, k - 1, u) then disk[blkno * NBPSCTR + (u - addr)]
      else Stale(dma, frame0, disk, addr, count, blkno, good, k - 1, o)
  }

  /** What a read leaves at a byte of the buffer that no request moves. */
  function Unmoved(dma: nat -> bool, mem0: seq<int>, frame0: seq<int>, disk: seq<int>, addr: nat, count: nat, blkno: nat,
                   good: nat -> nat, u: nat): int
    requires |frame0| == PAGESIZE && blkno * NBPSCTR + count <= |disk| && addr <= u < |mem0|
  {
    if dma(u / PAGESIZE) then mem0[u]
    else Stale(dma, frame0, disk, addr, count, blkno, good, u / PAGESIZE - addr / PAGESIZE, u % PAGESIZE)
  }

  ghost predicate LeftOut(dma: nat -> bool, mem0: seq<int>, frame0: seq<int>, mem: seq<int>, disk: seq<int>, addr: nat, count: nat,
                          blkno: nat, good: nat -> nat, n: nat)
  {
    && |frame0| == PAGESIZE && addr + count <= |mem0| == |mem| && blkno * NBPSCTR + count <= |disk|
    && forall u: nat :: addr <= u < Reach(addr, count, n) && !MovedBy(addr, count, good, n, u) ==>
         mem[u] == Unmoved(dma, mem0, frame0, disk, addr, count, blkno, good, u)
  }

  ghost predicate FrameHolds(dma: nat -> bool, frame0: seq<int>, frame: seq<int>, disk: seq<int>, addr: nat, count: nat,
                             blkno: nat, good: nat -> nat, k: nat)
  {
    && |frame| == |frame0| == PAGESIZE && blkno * NBPSCTR + count <= |disk|
    && forall o: nat :: o < PAGESIZE ==> frame[o] == Stale(dma, frame0, disk, addr, count, blkno, good, k, o)
  }

  lemma NoneLeftOut(dma: nat -> bool, mem: seq<int>, frame: seq<int>, disk: seq<int>, addr: nat, count: nat, blkno: nat,
                    good: nat -> nat)
    requires |frame| == PAGESIZE && addr + count <= |mem| && blkno * NBPSCTR + count <= |disk|
    ensures LeftOut(dma, mem, frame, mem, disk, addr, count, blkno, good, 0)
    ensures FrameHolds(dma, frame, frame, disk, addr, count, blkno, good, 0)
  {}

  lemma OneLeftOut(dma: nat -> bool, mem0: seq<int>, frame0: seq<int>, mem1: seq<int>, frame1: seq<int>, mem: seq<int>,
                   frame: seq<int>, disk: seq<int>, addr: nat, count: nat, blkno: nat, good: nat -> nat,
                   k: nat, at: nat, cur: nat, b: nat)
    requires LeftOut(dma, mem0, frame0, mem1, disk, addr, count, blkno, good, k)
    requires FrameHolds(dma, frame0, frame1, disk, addr, count, blkno, good, k)
    requires Requested(mem0, disk, mem1, disk, addr, count, blkno, true, good, k)
    requires k < Pages(addr, count) && count > 0 && at == Reach(addr, count, k) && at + cur == Reach(addr, count, k + 1)
    requires b * NBPSCTR == blkno * NBPSCTR + (at - addr) && b * NBPSCTR + cur <= |disk|
    requires Partly(mem1, mem, disk, at, Min(good(k), cur), cur, b)
    requires OnePage(dma, mem1, frame1, mem, frame, disk, at, Min(good(k), cur), cur, b)
    ensures LeftOut(dma, mem0, frame0, mem, disk, addr, count, blkno, good, k + 1)
    ensures FrameHolds(dma, frame0, frame, disk, addr, count, blkno, good, k + 1)
  {
    hide Reach, Pages, MovedBy;
    ReachStep(addr, count, k);
    var n, done := k + 1, Min(good(k), cur);
    forall u: nat | addr <= u < at + cur && !MovedBy(addr, count, good, n, u)
      ensures mem[u] == Unmoved(dma, mem0, frame0, disk, addr, count, blkno, good, u)
    {
      MovedMore(addr, count, good, k, u);
      if u >= at {
        assert u / PAGESIZE == at / PAGESIZE;
        assert ReadAt(mem0, disk, mem1, addr, count, blkno, good, k, u);
      }
    }
    var p := addr / PAGESIZE + k;
    forall o: nat | o < PAGESIZE ensures frame[o] == Stale(dma, frame0, disk, addr, count, blkno, good, n, o) {
      var u := p * PAGESIZE + o;
      assert at == p * PAGESIZE + at % PAGESIZE;
      assert InRequest(addr, count, good, k, u) <==> at % PAGESIZE <= o < at % PAGESIZE + done;
    }
  }

  /** All that the first `k` requests have done, the bounce page included. */
  ghost predicate Moved(dma: nat -> bool, mem0: seq<int>, disk0: seq<int>, frame0: seq<int>, mem: seq<int>, disk: seq<int>,
                        frame: seq<int>, addr: nat, count: nat, blkno: nat, read: bool, good: nat -> nat, k: nat)
  {
    && Requested(mem0, disk0, mem, disk, addr, count, blkno, read, good, k)
    && (read ==>
          && disk == disk0
          && LeftOut(dma, mem0, frame0, mem, disk, addr, count, blkno, good, k)
          && FrameHolds(dma, frame0, frame, disk, addr, count, blkno, good, k))
  }

  lemma NoneMoved(dma: nat -> bool, mem: seq<int>, disk: seq<int>, frame: seq<int>, addr: nat, count: nat, blkno: nat,
                  read: bool, good: nat -> nat)
    requires |frame| == PAGESIZE && addr + count <= |mem| && blkno * NBPSCTR + count <= |disk|
    ensures Moved(dma, mem, disk, frame, mem, disk, frame, addr, count, blkno, read, good, 0)
  {
    hide Requested, LeftOut, FrameHolds;
    NoneRequested(mem, disk, addr, count, blkno, read, good);
    NoneLeftOut(dma, mem, frame, disk, addr, count, blkno, good);
  }

  lemma OneMoved(dma: nat -> bool, mem0: seq<int>, disk0: seq<int>, frame0: seq<int>, mem1: seq<int>, disk1: seq<int>,
                 frame1: seq<int>, mem: seq<int>, disk: seq<int>, frame: seq<int>, addr: nat, count: nat, blkno: nat,
                 read: bool, good: nat -> nat, k: nat, at: nat, cur: nat, b: nat)
    requires Moved(dma, mem0, disk0, frame0, mem1, disk1, frame1, addr, count, blkno, read, good, k)
    requires k < Pages(addr, count) && count > 0 && at == Reach(addr, count, k) && at + cur == Reach(addr, count, k + 1)
    requires |mem| == |mem1| && |disk| == |disk1| && b * NBPSCTR == blkno * NBPSCTR + (at - addr) && b * NBPSCTR + cur <= |disk|
    requires read ==>
               && disk == disk1 && Partly(mem1, mem, disk, at, Min(good(k), cur), cur, b)
               && OnePage(dma, mem1, frame1, mem, frame, disk, at, Min(good(k), cur), cur, b)
    requires !read ==> (mem, disk) == Direct(mem1, disk1, at, Min(good(k), cur), b, false)
    ensures Moved(dma, mem0, disk0, frame0, mem, disk, frame, addr, count, blkno, read, good, k + 1)
  {
    hide Requested, LeftOut, FrameHolds, Direct, Partly, OnePage, Reach, Pages;
    OneRequested(mem0, disk0, mem1, disk1, mem, disk, addr, count, blkno, read, good, k, at, cur, b);
    if read {
      OneLeftOut(dma, mem0, frame0, mem1, frame1, mem, frame, disk, addr, count, blkno, good, k, at, cur, b);
    }
  }

  lemma WhatMoved(dma: nat -> bool, mem0: seq<int>, disk0: seq<int>, frame0: seq<int>, mem: seq<int>, disk: seq<int>,
                  frame: seq<int>, addr: nat, count: nat, blkno: nat, read: bool, good: nat -> nat, k: nat)
    requires Moved(dma, mem0, disk0, frame0, mem, disk, frame, addr, count, blkno, read, good, k) && count > 0
    ensures Requested(mem0, disk0, mem, disk, addr, count, blkno, read, good, k)
    ensures addr + count <= |mem0| && blkno * NBPSCTR + count <= |disk0|
    ensures read ==> LeftOut(dma, mem0, frame0, mem, disk, addr, count, blkno, good, k)
    ensures k == Pages(addr, count) && Whole(addr, count, good) ==> (mem, disk) == Direct(mem0, disk0, addr, count, blkno, read)
  {
    hide LeftOut, FrameHolds, Direct, Pages, Whole, ReadAt, WrittenAt;
    if k == Pages(addr, count) && Whole(addr, count, good) {
      WholeIsDirect(mem0, disk0, mem, disk, addr, count, blkno, read, good);
    }
  }

  /** Each request moves all the bytes of its page. */
  ghost predicate Whole(addr: nat, count: nat, good: nat -> nat)
  {
    forall k: nat :: k < Pages(addr, count) ==> good(k) >= Reach(addr, count, k + 1) - Reach(addr, count, k)
  }

  lemma PageOf(addr: nat, count: nat, u: nat)
    requires addr <= u < addr + count
    ensures var k := u / PAGESIZE - addr / PAGESIZE;
            0 <= k < Pages(addr, count) && Reach(addr, count, k) <= u < Reach(addr, count, k + 1)
  {}

  /** Whatever no request moved is the same in memory and on the disk anyway. */
  ghost predicate NothingMissed(mem: seq<int>, disk: seq<int>, addr: nat, count: nat, blkno: nat, good: nat -> nat, n: nat)
    requires addr + count <= |mem| && blkno * NBPSCTR + count <= |disk|
  {
    forall u: nat :: addr <= u < addr + count && !MovedBy(addr, count, good, n, u) ==>
      disk[blkno * NBPSCTR + (u - addr)] == mem[u]
  }

  lemma WholeMissesNothing(mem: seq<int>, disk: seq<int>, addr: nat, count: nat, blkno: nat, good: nat -> nat)
    requires addr + count <= |mem| && blkno * NBPSCTR + count <= |disk| && Whole(addr, count, good)
    ensures forall u: nat :: addr <= u < addr + count ==> MovedBy(addr, count, good, Pages(addr, count), u)
    ensures NothingMissed(mem, disk, addr, count, blkno, good, Pages(addr, count))
  {
    hide Reach, Pages;
    forall u: nat | addr <= u < addr + count ensures MovedBy(addr, count, good, Pages(addr, count), u) {
      PageOf(addr, count, u);
      var k := u / PAGESIZE - addr / PAGESIZE;
      assert InRequest(addr, count, good, k, u);
    }
  }

  /** A write of all pages is the direct one exactly when nothing was missed. */
  lemma WriteIsDirectIff(mem0: seq<int>, disk0: seq<int>, mem: seq<int>, disk: seq<int>, addr: nat, count: nat, blkno: nat,
                         good: nat -> nat)
    requires Requested(mem0, disk0, mem, disk, addr, count, blkno, false, good, Pages(addr, count))
    ensures (mem, disk) == Direct(mem0, disk0, addr, count, blkno, false) <==>
            NothingMissed(mem0, disk0, addr, count, blkno, good, Pages(addr, count))
  {
    hide Pages, MovedBy;
    var n, off := Pages(addr, count), blkno * NBPSCTR;
    var d := Direct(mem0, disk0, addr, count, blkno, false).1;
    if NothingMissed(mem0, disk0, addr, count, blkno, good, n) {
      forall i: nat | i < |disk| ensures disk[i] == d[i] {
        assert WrittenAt(mem0, disk0, disk, addr, count, blkno, good, n, i);
        if off <= i < off + count { WrittenOrSame(mem0, disk0, addr, count, blkno, good, n, addr + (i - off)); }
      }
    }
    if disk == d {
      forall u: nat | addr <= u < addr + count && !MovedBy(addr, count, good, n, u) ensures disk0[off + (u - addr)] == mem0[u] {
        assert WrittenAt(mem0, disk0, disk, addr, count, blkno, good, n, off + (u - addr));
      }
    }
  }

  lemma WrittenOrSame(mem: seq<int>, disk: seq<int>, addr: nat, count: nat, blkno: nat, good: nat -> nat, n: nat, u: nat)
    requires addr + count <= |mem| && blkno * NBPSCTR + count <= |disk| && addr <= u < addr + count
    requires NothingMissed(mem, disk, addr, count, blkno, good, n)
    ensures MovedBy(addr, count, good, n, u) || disk[blkno * NBPSCTR + (u - addr)] == mem[u]
  {}

  /** Requests that all move their whole page come to the direct transfer. */
  lemma WholeIsDirect(mem0: seq<int>, disk0: seq<int>, mem: seq<int>, disk: seq<int>, addr: nat, count: nat, blkno: nat,
                      read: bool, good: nat -> nat)
    requires count > 0 && Whole(addr, count, good)
    requires Requested(mem0, disk0, mem, disk, addr, count, blkno, read, good, Pages(addr, count))
    ensures (mem, disk) == Direct(mem0, disk0, addr, count, blkno, read)
  {
    hide Reach, Pages, MovedBy, NothingMissed;
    ReachEnds(addr, count);
    WholeMissesNothing(mem0, disk0, addr, count, blkno, good);
    if read {
      var d := Direct(mem0, disk0, addr, count, blkno, true).0;
      forall u: nat | u < |mem| ensures mem[u] == d[u] {
        assert ReadAt(mem0, disk0, mem, addr, count, blkno, good, Pages(addr, count), u);
      }
      assert mem == d;
    } else {
      WriteIsDirectIff(mem0, disk0, mem, disk, addr, count, blkno, good);
    }
  }

  /** A read without an error is the direct one exactly when what it leaves at the bytes it did
      not move, in the pages or in the bounce page, is what the disk has there. */
  lemma ReadIsDirectIff(dma: nat -> bool, mem0: seq<int>, frame0: seq<int>, mem: seq<int>, disk: seq<int>, addr: nat, count: nat,
                        blkno: nat, good: nat -> nat)
    requires count > 0 && Requested(mem0, disk, mem, disk, addr, count, blkno, true, good, Pages(addr, count))
    requires LeftOut(dma, mem0, frame0, mem, disk, addr, count, blkno, good, Pages(addr, count))
    ensures (mem, disk) == Direct(mem0, disk, addr, count, blkno, true) <==>
            forall u: nat :: addr <= u < addr + count && !MovedBy(addr, count, good, Pages(addr, count), u) ==>
              Unmoved(dma, mem0, frame0, disk, addr, count, blkno, good, u) == disk[blkno * NBPSCTR + (u - addr)]
  {
    hide Reach, Pages, MovedBy, Unmoved;
    ReachEnds(addr, count);
    var n, off := Pages(addr, count), blkno * NBPSCTR;
    var d := Direct(mem0, disk, addr, count, blkno, true).0;
    forall u: nat | u < |mem| ensures (u < addr || u >= addr + count || MovedBy(addr, count, good, n, u)) ==> mem[u] == d[u] {
      assert ReadAt(mem0, disk, mem, addr, count, blkno, good, n, u);
    }
    if mem == d {
      forall u: nat | addr <= u < addr + count && !MovedBy(addr, count, good, n, u)
        ensures Unmoved(dma, mem0, frame0, disk, addr, count, blkno, good, u) == disk[off + (u - addr)]
      {
        assert mem[u] == d[u];
      }
    }
    if forall u: nat :: addr <= u < addr + count && !MovedBy(addr, count, good, n, u) ==>
         Unmoved(dma, mem0, frame0, disk, addr, count, blkno, good, u) == disk[off + (u - addr)] {
      forall u: nat | u < |mem| ensures mem[u] == d[u] {}
      assert mem == d;
    }
  }

  /** A block of ones written over zeros by a request that falls one byte short without an
      error: success, and the last byte is still zero. */
  lemma ShortWriteExample(mem: seq<int>, disk: seq<int>)
    requires Requested(seq(512, _ => 1), seq(512, _ => 0), mem, disk, 0, 512, 0, false, _ => 511, Pages(0, 512))
    ensures |disk| == 512 && disk[510] == 1 && disk[511] == 0
    ensures (mem, disk) != Direct(seq(512, _ => 1), seq(512, _ => 0), 0, 512, 0, false)
  {
    var good := (_: nat) => 511;
    var mem0, disk0 := seq(512, _ => 1), seq(512, _ => 0);
    assert WrittenAt(mem0, disk0, disk, 0, 512, 0, good, 1, 510) && WrittenAt(mem0, disk0, disk, 0, 512, 0, good, 1, 511);
    assert InRequest(0, 512, good, 0, 510);
  }

  /** What is left of the buffer at its k-th page reaches as far in one page as the whole of it does. */
  lemma Piece(addr: nat, count: nat, k: nat)
    requires count > 0 && k < Pages(addr, count)
    ensures var at := Reach(addr, count, k);
            at < addr + count && Reach(at, addr + count - at, 1) == Reach(addr, count, k + 1)
    ensures k + 1 < Pages(addr, count) <==> Reach(addr, count, k + 1) < addr + count
  {
    hide Pages;
    ReachStep(addr, count, k);
    PagesLeft(addr, count, k + 1);
  }

  /** What a write has put on the disk from byte `off` on: what the window shows from `base` on. */
  ghost predicate Sent(kpte: seq<Pte>, mem: seq<int>, frames: seq<seq<int>>, p: nat, base: nat,
                       disk0: seq<int>, disk: seq<int>, off: nat, k: nat)
  {
    && |disk| == |disk0| && off + k <= |disk|
    && (forall i :: 0 <= i < |disk| && !(off <= i < off + k) ==> disk[i] == disk0[i])
    && forall i: nat :: i < k ==> SentAt(kpte, mem, frames, p, base, disk, off, i)
  }

  ghost predicate SentAt(kpte: seq<Pte>, mem: seq<int>, frames: seq<seq<int>>, p: nat, base: nat, disk: seq<int>, off: nat, i: nat)
  {
    && p * PAGESIZE <= base + i && (base + i) / PAGESIZE - p < |kpte| && off + i < |disk|
    && disk[off + i] == Seen(kpte, mem, frames, p, base + i)
  }

  lemma SentMore(kpte: seq<Pte>, mem: seq<int>, frames: seq<seq<int>>, p: nat, base: nat,
                 disk0: seq<int>, disk: seq<int>, off: nat, k: nat)
    requires Sent(kpte, mem, frames, p, base, disk0, disk, off, k) && off + k < |disk|
    requires p * PAGESIZE <= base + k && (base + k) / PAGESIZE - p < |kpte|
    ensures Sent(kpte, mem, frames, p, base, disk0, disk[off + k := Seen(kpte, mem, frames, p, base + k)], off, k + 1)
  {
    hide Seen;
    var disk' := disk[off + k := Seen(kpte, mem, frames, p, base + k)];
    forall i: nat | i < k + 1 ensures SentAt(kpte, mem, frames, p, base, disk', off, i) {
      if i < k { assert SentAt(kpte, mem, frames, p, base, disk, off, i); }
    }
  }

  lemma MappedSize(dma: nat -> bool, p: nat, n: nat, list: seq<nat>, kpte: seq<Pte>)
    requires Mapped(dma, p, n, list, kpte)
    ensures n <= |kpte|
  {}

  ghost predicate Stored(dma: nat -> bool, p: nat, list: seq<nat>, mem: seq<int>, frames: seq<seq<int>>,
                         mem': seq<int>, frames': seq<seq<int>>, x: nat, b: int)
  {
    var i := x / PAGESIZE;
    if dma(p + i) then
      p * PAGESIZE + x < |mem| && mem' == mem[p * PAGESIZE + x := b] && frames' == frames
    else
      && Over(dma, p, i) < |list| && list[Over(dma, p, i)] < |frames| && |frames[list[Over(dma, p, i)]]| == PAGESIZE
      && mem' == mem
      && var f := list[Over(dma, p, i)]; frames' == frames[f := frames[f][x % PAGESIZE := b]]
  }

  /** With every page in reach no bounce page is touched. */
  lemma StoredInReach(dma: nat -> bool, p: nat, n: nat, list: seq<nat>, mem: seq<int>, frames: seq<seq<int>>,
                      mem': seq<int>, frames': seq<seq<int>>, x: nat, b: int)
    requires Stored(dma, p, list, mem, frames, mem', frames', x, b) && x < n * PAGESIZE
    ensures Over(dma, p, n) == 0 ==> frames' == frames
  {
    if Over(dma, p, n) == 0 { OverGrows(dma, p, x / PAGESIZE + 1, n); }
  }

  /** What memory and bounce pages hold when the first `k` bytes of `src` have come in through
      the window at `start`. */
  ghost predicate Received(dma: nat -> bool, p: nat, n: nat, list: seq<nat>, mem0: seq<int>, frames0: seq<seq<int>>,
                           mem: seq<int>, frames: seq<seq<int>>, start: nat, k: nat, src: seq<int>)
  {
    && |mem| == |mem0| && |frames| == |frames0| && k <= |src|
    && (forall u: nat :: u < |mem| ==>
          mem[u] == if p * PAGESIZE + start <= u < p * PAGESIZE + start + k && dma(u / PAGESIZE)
                    then src[u - p * PAGESIZE - start] else mem0[u])
    && forall i: nat, o: nat :: i < n && o < PAGESIZE ==> InFrame(dma, p, list, frames0, frames, start, k, src, i, o)
  }

  ghost predicate InFrame(dma: nat -> bool, p: nat, list: seq<nat>, frames0: seq<seq<int>>, frames: seq<seq<int>>,
                          start: nat, k: nat, src: seq<int>, i: nat, o: nat)
    requires k <= |src|
  {
    !dma(p + i) ==>
      && Over(dma, p, i) < |list|
      && ByteAt(frames, list[Over(dma, p, i)], o) ==
         if start <= i * PAGESIZE + o < start + k then src[i * PAGESIZE + o - start]
         else ByteAt(frames0, list[Over(dma, p, i)], o)
  }

  function ByteAt(frames: seq<seq<int>>, f: nat, o: nat): int
  {
    if f < |frames| && o < |frames[f]| then frames[f][o] else 0
  }

  lemma ReceivedNone(dma: nat -> bool, p: nat, n: nat, list: seq<nat>, kpte: seq<Pte>, mem: seq<int>, frames: seq<seq<int>>,
                     start: nat, src: seq<int>)
    requires Mapped(dma, p, n, list, kpte)
    ensures Received(dma, p, n, list, mem, frames, mem, frames, start, 0, src)
  {}

  lemma ReceivedMore(dma: nat -> bool, p: nat, n: nat, list: seq<nat>, kpte: seq<Pte>, mem0: seq<int>, frames0: seq<seq<int>>,
                     mem1: seq<int>, frames1: seq<seq<int>>, mem: seq<int>, frames: seq<seq<int>>, start: nat, k: nat, src: seq<int>)
    requires Mapped(dma, p, n, list, kpte) && Distinct(list) && Frames(list, frames1)
    requires Received(dma, p, n, list, mem0, frames0, mem1, frames1, start, k, src)
    requires k < |src| && start + k < n * PAGESIZE
    requires Stored(dma, p, list, mem1, frames1, mem, frames, start + k, src[k])
    ensures Received(dma, p, n, list, mem0, frames0, mem, frames, start, k + 1, src)
  {
    hide Distinct;
    var x := start + k;
    var i0 := x / PAGESIZE;
    forall u: nat | u < |mem|
      ensures mem[u] == if p * PAGESIZE + start <= u < p * PAGESIZE + start + (k + 1) && dma(u / PAGESIZE)
                        then src[u - p * PAGESIZE - start] else mem0[u]
    {
      if u == p * PAGESIZE + x { assert u / PAGESIZE == p + i0; }
    }
    var k1 := k + 1;
    forall i: nat, o: nat | i < n && o < PAGESIZE ensures InFrame(dma, p, list, frames0, frames, start, k1, src, i, o) {
      assert InFrame(dma, p, list, frames0, frames1, start, k, src, i, o);
      if i != i0 && !dma(p + i0) && !dma(p + i) {
        BounceApart(dma, p, n, list, kpte, i, i0);
      }
    }
  }

  lemma MapNone(dma: nat -> bool, p: nat, list: seq<nat>, kpte: seq<Pte>, addr: nat, count: nat)
    requires count > 0
    ensures Mapped(dma, p, 0, list, kpte) && Over(dma, p, 0) == 0 && Reach(addr, count, 0) == addr && Pages(addr, count) > 0
  {}

  lemma MapMore(dma: nat -> bool, p: nat, i: nat, list: seq<nat>, kpte0: seq<Pte>, kpte: seq<Pte>)
    requires Mapped(dma, p, i, list, kpte0) && i < |kpte0| && Over(dma, p, i) < |list|
    requires kpte == kpte0[i := if dma(p + i) then User(p + i) else Bounce(list[Over(dma, p, i)])]
    ensures Mapped(dma, p, i + 1, list, kpte)
  {}

  /** What a write has copied so far: the bytes from `lo` to `hi` in pages out of reach. */
  ghost predicate Copied(dma: nat -> bool, p: nat, i: nat, list: seq<nat>, mem: seq<int>, frames: seq<seq<int>>, lo: nat, hi: nat)
  {
    && hi <= |mem|
    && forall u: nat :: lo <= u < hi ==> CopiedAt(dma, p, i, list, mem, frames, u)
  }

  ghost predicate CopiedAt(dma: nat -> bool, p: nat, i: nat, list: seq<nat>, mem: seq<int>, frames: seq<seq<int>>, u: nat)
  {
    && p <= u / PAGESIZE < p + i && u < |mem|
    && (!dma(u / PAGESIZE) ==>
          && Over(dma, p, u / PAGESIZE - p) < |list|
          && ByteAt(frames, list[Over(dma, p, u / PAGESIZE - p)], u % PAGESIZE) == mem[u])
  }

  /** The window shows what memory holds. */
  ghost predicate Same(kpte: seq<Pte>, mem: seq<int>, frames: seq<seq<int>>, p: nat, u: nat)
  {
    p * PAGESIZE <= u < |mem| && u / PAGESIZE - p < |kpte| && Seen(kpte, mem, frames, p, u) == mem[u]
  }

  lemma CopyFits(list: seq<nat>, frames: seq<seq<int>>, j: nat, addr: nat, iocount: nat)
    requires Frames(list, frames) && j < |list| && iocount <= LeftInPage(addr)
    ensures list[j] < |frames| && addr % PAGESIZE + iocount <= |frames[list[j]]| == PAGESIZE
  {}

  /** Only the bytes of the page written are changed. */
  lemma FrameStore(list: seq<nat>, frames: seq<seq<int>>, f: nat, b: seq<int>)
    requires Frames(list, frames) && f < |frames| && |b| == PAGESIZE
    ensures Frames(list, frames[f := b])
  {}

  lemma CopyMore(dma: nat -> bool, p: nat, i: nat, list: seq<nat>, kpte: seq<Pte>, mem: seq<int>,
                 frames0: seq<seq<int>>, frames: seq<seq<int>>, lo: nat, addr: nat, iocount: nat)
    requires Copied(dma, p, i, list, mem, frames0, lo, addr) && Mapped(dma, p, i + 1, list, kpte) && Distinct(list)
    requires Frames(list, frames0) && addr / PAGESIZE == p + i && iocount <= LeftInPage(addr) && addr + iocount <= |mem|
    requires if dma(p + i) then frames == frames0
             else Over(dma, p, i) < |list| && list[Over(dma, p, i)] < |frames0|
                  && addr % PAGESIZE + iocount <= |frames0[list[Over(dma, p, i)]]|
                  && frames == frames0[list[Over(dma, p, i)] :=
                       Splice(frames0[list[Over(dma, p, i)]], addr % PAGESIZE, mem[addr..addr + iocount])]
    ensures Copied(dma, p, i + 1, list, mem, frames, lo, addr + iocount)
  {
    hide Distinct, Frames, Mapped, CopiedAt;
    var hi, n := addr + iocount, i + 1;
    forall u: nat | lo <= u < hi ensures CopiedAt(dma, p, n, list, mem, frames, u) {
      if u >= addr {
        CopyNew(dma, p, i, list, kpte, mem, frames0, frames, addr, iocount, u);
      } else {
        CopyOld(dma, p, i, list, kpte, mem, frames0, frames, addr, iocount, u);
      }
    }
  }

  lemma CopyNew(dma: nat -> bool, p: nat, i: nat, list: seq<nat>, kpte: seq<Pte>, mem: seq<int>,
                frames0: seq<seq<int>>, frames: seq<seq<int>>, addr: nat, iocount: nat, u: nat)
    requires addr <= u < addr + iocount <= |mem| && addr / PAGESIZE == p + i && iocount <= LeftInPage(addr)
    requires if dma(p + i) then frames == frames0
             else Over(dma, p, i) < |list| && list[Over(dma, p, i)] < |frames0|
                  && addr % PAGESIZE + iocount <= |frames0[list[Over(dma, p, i)]]|
                  && frames == frames0[list[Over(dma, p, i)] :=
                       Splice(frames0[list[Over(dma, p, i)]], addr % PAGESIZE, mem[addr..addr + iocount])]
    ensures CopiedAt(dma, p, i + 1, list, mem, frames, u)
  {
    hide Over;
    assert u / PAGESIZE == p + i && u % PAGESIZE == addr % PAGESIZE + (u - addr);
  }

  lemma CopyOld(dma: nat -> bool, p: nat, i: nat, list: seq<nat>, kpte: seq<Pte>, mem: seq<int>,
                frames0: seq<seq<int>>, frames: seq<seq<int>>, addr: nat, iocount: nat, u: nat)
    requires CopiedAt(dma, p, i, list, mem, frames0, u) && Mapped(dma, p, i + 1, list, kpte) && Distinct(list)
    requires addr + iocount <= |mem|
    requires if dma(p + i) then frames == frames0
             else Over(dma, p, i) < |list| && list[Over(dma, p, i)] < |frames0|
                  && addr % PAGESIZE + iocount <= |frames0[list[Over(dma, p, i)]]|
                  && frames == frames0[list[Over(dma, p, i)] :=
                       Splice(frames0[list[Over(dma, p, i)]], addr % PAGESIZE, mem[addr..addr + iocount])]
    ensures CopiedAt(dma, p, i + 1, list, mem, frames, u)
  {
    hide Distinct, Mapped, Over, Splice;
    if !dma(u / PAGESIZE) && !dma(p + i) {
      BounceApart(dma, p, i + 1, list, kpte, u / PAGESIZE - p, i);
    }
  }

  lemma CopiedSeen(dma: nat -> bool, p: nat, n: nat, list: seq<nat>, kpte: seq<Pte>, mem: seq<int>, frames: seq<seq<int>>,
                   lo: nat, hi: nat)
    requires Mapped(dma, p, n, list, kpte) && Frames(list, frames) && Copied(dma, p, n, list, mem, frames, lo, hi)
    ensures forall u: nat :: lo <= u < hi ==> Same(kpte, mem, frames, p, u)
  {
    hide Mapped, Seen;
    MappedSize(dma, p, n, list, kpte);
    forall u: nat | lo <= u < hi ensures Same(kpte, mem, frames, p, u) {
      assert CopiedAt(dma, p, n, list, mem, frames, u);
      SeenAt(dma, p, n, list, kpte, mem, frames, u);
    }
  }

  /** Memory after a read's copying back has reached `hi`: up to there it holds what the window
      showed, elsewhere what it held. */
  ghost predicate Brought(kpte: seq<Pte>, mem0: seq<int>, frames: seq<seq<int>>, mem: seq<int>, p: nat, lo: nat, hi: nat)
  {
    && |mem| == |mem0|
    && forall u: nat :: u < |mem| ==> BroughtAt(kpte, mem0, frames, mem, p, lo, hi, u)
  }

  ghost predicate BroughtAt(kpte: seq<Pte>, mem0: seq<int>, frames: seq<seq<int>>, mem: seq<int>, p: nat, lo: nat, hi: nat, u: nat)
  {
    && u < |mem| == |mem0|
    && if lo <= u < hi then p * PAGESIZE <= u && u / PAGESIZE - p < |kpte| && mem[u] == Seen(kpte, mem0, frames, p, u)
       else mem[u] == mem0[u]
  }

  lemma ReachEnds(addr: nat, count: nat)
    requires count > 0
    ensures Reach(addr, count, 0) == addr && Pages(addr, count) > 0
    ensures Reach(addr, count, Pages(addr, count)) == addr + count
  {}

  lemma BounceAt(dma: nat -> bool, p: nat, n: nat, list: seq<nat>, frames: seq<seq<int>>, kpte: seq<Pte>, i: nat, addr: nat, iocount: nat)
    requires Mapped(dma, p, n, list, kpte) && Frames(list, frames) && i < n && iocount <= LeftInPage(addr)
    ensures !dma(p + i) ==> Over(dma, p, i) < |list| && list[Over(dma, p, i)] < |frames|
    ensures !dma(p + i) ==> addr % PAGESIZE + iocount <= |frames[list[Over(dma, p, i)]]|
  {}

  lemma BroughtMore(dma: nat -> bool, p: nat, n: nat, list: seq<nat>, kpte: seq<Pte>, mem0: seq<int>, frames: seq<seq<int>>,
                    mem1: seq<int>, mem: seq<int>, lo: nat, addr: nat, iocount: nat)
    requires Brought(kpte, mem0, frames, mem1, p, lo, addr) && Mapped(dma, p, n, list, kpte) && Frames(list, frames)
    requires p <= addr / PAGESIZE < p + n && iocount <= LeftInPage(addr) && addr + iocount <= |mem1| && lo <= addr
    requires if dma(addr / PAGESIZE) then mem == mem1
             else
               var f := Over(dma, p, addr / PAGESIZE - p);
               && f < |list| && list[f] < |frames| && addr % PAGESIZE + iocount <= |frames[list[f]]|
               && mem == Splice(mem1, addr, frames[list[f]][addr % PAGESIZE..addr % PAGESIZE + iocount])
    ensures Brought(kpte, mem0, frames, mem, p, lo, addr + iocount)
  {
    hide Mapped, Frames, Seen, Over;
    MappedSize(dma, p, n, list, kpte);
    var hi := addr + iocount;
    forall u: nat | u < |mem| ensures BroughtAt(kpte, mem0, frames, mem, p, lo, hi, u) {
      assert BroughtAt(kpte, mem0, frames, mem1, p, lo, addr, u);
      if addr <= u < hi {
        assert u / PAGESIZE == addr / PAGESIZE && u % PAGESIZE == addr % PAGESIZE + (u - addr);
        SeenAt(dma, p, n, list, kpte, mem0, frames, u);
      }
    }
  }

  /** A read of which `done` bytes came in: those are in place, nothing outside the first `cur`
      bytes has changed (bounce pages are copied back whole, whatever they held). */
  ghost predicate Partly(mem0: seq<int>, mem: seq<int>, disk: seq<int>, addr: nat, done: nat, cur: nat, blkno: nat)
  {
    && |mem| == |mem0| && done <= cur && blkno * NBPSCTR + cur <= |disk|
    && forall u: nat :: u < |mem| ==>
         && (addr <= u < addr + done ==> mem[u] == disk[blkno * NBPSCTR + (u - addr)])
         && (u < addr || u >= addr + cur ==> mem[u] == mem0[u])
  }

  lemma WithinPages(addr: nat, count: nat, n: nat)
    requires count > 0 && 0 < n <= Pages(addr, count)
    ensures var cur := Reach(addr, count, n) - addr;
            && 0 < cur <= count && addr % PAGESIZE + cur <= n * PAGESIZE && (addr / PAGESIZE) * PAGESIZE + addr % PAGESIZE == addr
            && n == Pages(addr, cur)
  {}

  lemma ReadDone(dma: nat -> bool, p: nat, n: nat, list: seq<nat>, kpte: seq<Pte>, mem0: seq<int>, frames0: seq<seq<int>>,
                 mem1: seq<int>, frames: seq<seq<int>>, mem: seq<int>, disk: seq<int>, addr: nat, done: nat, cur: nat, blkno: nat)
    requires Mapped(dma, p, n, list, kpte) && Frames(list, frames)
    requires p == addr / PAGESIZE && addr % PAGESIZE + cur <= n * PAGESIZE && addr + cur <= |mem0| && done <= cur
    requires blkno * NBPSCTR + cur <= |disk|
    requires Received(dma, p, n, list, mem0, frames0, mem1, frames, addr % PAGESIZE, done, disk[blkno * NBPSCTR..])
    requires Brought(kpte, mem1, frames, mem, p, addr, addr + cur)
    ensures Partly(mem0, mem, disk, addr, done, cur, blkno)
    ensures done == cur ==> (mem, disk) == Direct(mem0, disk, addr, cur, blkno, true)
  {
    hide Mapped, Frames, Seen;
    var src := disk[blkno * NBPSCTR..];
    forall u: nat | u < |mem|
      ensures addr <= u < addr + done ==> mem[u] == disk[blkno * NBPSCTR + (u - addr)]
      ensures u < addr || u >= addr + cur ==> mem[u] == mem0[u]
    {
      assert BroughtAt(kpte, mem1, frames, mem, p, addr, addr + cur, u);
      if addr <= u < addr + done {
        SeenAt(dma, p, n, list, kpte, mem1, frames, u);
        ReceivedAt(dma, p, n, list, mem0, frames0, mem1, frames, addr, done, src, u);
      }
    }
    if done == cur {
      assert mem == Splice(mem0, addr, disk[blkno * NBPSCTR..blkno * NBPSCTR + cur]);
    }
  }

  lemma FirstFrame(list: seq<nat>, frames: seq<seq<int>>)
    requires Frames(list, frames) && list != []
    ensures list[0] < |frames| && |frames[list[0]]| == PAGESIZE
  {}

  /** A read of one page of which `done` bytes came in: what of the page was left out is as it was
      when the page is in reach, and what the bounce page held when not; and the bounce page after it. */
  ghost predicate OnePage(dma: nat -> bool, mem0: seq<int>, frame0: seq<int>, mem: seq<int>, frame: seq<int>, disk: seq<int>,
                          addr: nat, done: nat, cur: nat, blkno: nat)
  {
    && addr + cur <= |mem| == |mem0| && |frame| == |frame0| == PAGESIZE && blkno * NBPSCTR + done <= |disk|
    && (forall u: nat :: addr + done <= u < addr + cur ==>
          mem[u] == if dma(addr / PAGESIZE) then mem0[u] else frame0[u % PAGESIZE])
    && forall o :: 0 <= o < PAGESIZE ==>
         frame[o] == if !dma(addr / PAGESIZE) && addr % PAGESIZE <= o < addr % PAGESIZE + done
                     then disk[blkno * NBPSCTR + (o - addr % PAGESIZE)] else frame0[o]
  }

  lemma ReadOnePage(dma: nat -> bool, p: nat, list: seq<nat>, kpte: seq<Pte>, mem0: seq<int>, frames0: seq<seq<int>>,
                    mem1: seq<int>, frames: seq<seq<int>>, mem: seq<int>, disk: seq<int>, addr: nat, done: nat, cur: nat, blkno: nat)
    requires list != [] && Mapped(dma, p, 1, list, kpte) && Frames(list, frames) && Frames(list, frames0)
    requires p == addr / PAGESIZE && addr % PAGESIZE + cur <= PAGESIZE && addr + cur <= |mem0| && done <= cur
    requires blkno * NBPSCTR + cur <= |disk|
    requires Received(dma, p, 1, list, mem0, frames0, mem1, frames, addr % PAGESIZE, done, disk[blkno * NBPSCTR..])
    requires Brought(kpte, mem1, frames, mem, p, addr, addr + cur) && (Over(dma, p, 1) == 0 ==> frames == frames0)
    ensures list[0] < |frames0| == |frames|
    ensures OnePage(dma, mem0, frames0[list[0]], mem, frames[list[0]], disk, addr, done, cur, blkno)
  {
    hide Mapped, Seen;
    var src := disk[blkno * NBPSCTR..];
    var a := addr % PAGESIZE;
    assert Over(dma, p, 0) == 0 && Over(dma, p, 1) == if dma(p) then 0 else 1;
    forall o | 0 <= o < PAGESIZE
      ensures frames[list[0]][o] == if !dma(p) && a <= o < a + done then src[o - a] else frames0[list[0]][o]
    {
      assert InFrame(dma, p, list, frames0, frames, a, done, src, 0, o);
    }
    forall u: nat | addr + done <= u < addr + cur ensures mem[u] == if dma(p) then mem0[u] else frames0[list[0]][u % PAGESIZE] {
      assert BroughtAt(kpte, mem1, frames, mem, p, addr, addr + cur, u);
      SeenAt(dma, p, 1, list, kpte, mem1, frames, u);
    }
  }

  lemma ReceivedAt(dma: nat -> bool, p: nat, n: nat, list: seq<nat>, mem0: seq<int>, frames0: seq<seq<int>>,
                   mem: seq<int>, frames: seq<seq<int>>, addr: nat, k: nat, src: seq<int>, u: nat)
    requires Received(dma, p, n, list, mem0, frames0, mem, frames, addr % PAGESIZE, k, src)
    requires p == addr / PAGESIZE && addr <= u < addr + k && u < |mem| && u / PAGESIZE - p < n
    ensures u - addr < |src|
    ensures dma(u / PAGESIZE) ==> mem[u] == src[u - addr]
    ensures !dma(u / PAGESIZE) ==> var f := Over(dma, p, u / PAGESIZE - p);
              f < |list| && ByteAt(frames, list[f], u % PAGESIZE) == src[u - addr]
  {
    var i, o := u / PAGESIZE - p, u % PAGESIZE;
    assert i * PAGESIZE + o == u - p * PAGESIZE && p * PAGESIZE + addr % PAGESIZE == addr && p + i == u / PAGESIZE;
    assert InFrame(dma, p, list, frames0, frames, addr % PAGESIZE, k, src, i, o);
  }

  lemma WriteDone(kpte: seq<Pte>, mem: seq<int>, frames: seq<seq<int>>, p: nat, disk0: seq<int>, disk: seq<int>,
                  addr: nat, done: nat, cur: nat, blkno: nat)
    requires p == addr / PAGESIZE && done <= cur && addr + cur <= |mem| && blkno * NBPSCTR + cur <= |disk0| == |disk|
    requires forall u: nat :: addr <= u < addr + cur ==> Same(kpte, mem, frames, p, u)
    requires Sent(kpte, mem, frames, p, addr, disk0, disk, blkno * NBPSCTR, done)
    ensures (mem, disk) == Direct(mem, disk0, addr, done, blkno, false)
  {
    hide Seen;
    var off := blkno * NBPSCTR;
    var d := Splice(disk0, off, mem[addr..addr + done]);
    forall i | 0 <= i < |disk| ensures disk[i] == d[i] {
      if off <= i < off + done {
        var k: nat := i - off;
        assert Same(kpte, mem, frames, p, addr + k);
        assert SentAt(kpte, mem, frames, p, addr, disk, off, k);
      }
    }
    assert disk == d;
  }

  lemma DirectPartly(mem0: seq<int>, disk0: seq<int>, addr: nat, done: nat, count: nat, blkno: nat)
    requires addr + count <= |mem0| && blkno * NBPSCTR + count <= |disk0| && done <= count
    ensures Partly(mem0, Direct(mem0, disk0, addr, done, blkno, true).0, disk0, addr, done, count, blkno)
    ensures Direct(mem0, disk0, addr, done, blkno, true).1 == disk0
  {}

  lemma NothingMoved(mem: seq<int>, disk: seq<int>, addr: nat, count: nat, blkno: nat, read: bool)
    requires addr + count <= |mem| && blkno * NBPSCTR + count <= |disk|
    ensures (mem, disk) == Direct(mem, disk, addr, 0, blkno, read) && Partly(mem, mem, disk, addr, 0, count, blkno)
  {
    var off := blkno * NBPSCTR;
    assert Splice(mem, addr, disk[off..off]) == mem && Splice(disk, off, mem[addr..addr]) == disk;
  }

  lemma ListTaken(free: seq<nat>, num: nat, frames: seq<seq<int>>)
    requires 0 < num <= |free| && Distinct(free) && Frames(free, frames)
    ensures free[..num] != [] && Distinct(free[..num]) && Frames(free[..num], frames)
    ensures multiset(free[num..]) + multiset(free[..num]) == multiset(free)
    ensures multiset(free[num..] + free[..num]) == multiset(free)
  {
    assert free == free[..num] + free[num..];
  }

  lemma SomeBack(free: seq<nat>, others: seq<nat>, n: nat, frames: seq<seq<int>>)
    requires n <= |others| && Distinct(free + others) && Frames(free + others, frames)
    ensures Distinct(free + others[..n]) && Frames(free + others[..n], frames)
  {
    assert forall i :: 0 <= i < |free| + n ==> (free + others[..n])[i] == (free + others)[i];
  }

  lemma Surplus(list: seq<nat>, keep: nat, frames: seq<seq<int>>)
    requires 0 < keep <= |list| && Distinct(list) && Frames(list, frames)
    ensures list[..keep] != [] && Distinct(list[..keep]) && Frames(list[..keep], frames)
    ensures multiset(list[keep..]) + multiset(list[..keep]) == multiset(list)
  {
    assert list == list[..keep] + list[keep..];
  }

  /** Each pass starts at the block its bytes are on. */
  lemma BlockOf(addr: nat, at: nat, blkno: nat, b: nat)
    requires addr <= at && (at - addr) % NBPSCTR == 0 && b == blkno + (at - addr) / NBPSCTR
    ensures b * NBPSCTR == blkno * NBPSCTR + (at - addr)
  {}

  lemma PassFits(at: nat, left: nat, n: nat)
    requires left > 0 && 0 < n <= Pages(at, left) && at % NBPSCTR == 0
    ensures var cur := Reach(at, left, n) - at;
            && 0 < cur <= left && (n < Pages(at, left) <==> left - cur > 0)
            && (n < Pages(at, left) ==>
                  && Pages(at + cur, left - cur) == Pages(at, left) - n
                  && cur % NBPSCTR == 0 && Btod(cur) == cur / NBPSCTR && (at + cur) % NBPSCTR == 0)
  {
    PagesLeft(at, left, n);
    WithinPages(at, left, n);
  }

  /** A pass after the first part of a transfer. */
  lemma PassDone(mem0: seq<int>, disk0: seq<int>, mem1: seq<int>, disk1: seq<int>, mem: seq<int>, disk: seq<int>,
                 addr: nat, at: nat, cur: nat, done: nat, count: nat, blkno: nat, b: nat, read: bool)
    requires addr <= at && at + cur <= addr + count && addr + count <= |mem0| && blkno * NBPSCTR + count <= |disk0|
    requires (at - addr) % NBPSCTR == 0 && b == blkno + (at - addr) / NBPSCTR && done <= cur
    requires |mem| == |mem1| == |mem0| && |disk| == |disk1| == |disk0| && b * NBPSCTR + cur <= |disk1|
    requires (mem1, disk1) == Direct(mem0, disk0, addr, at - addr, blkno, read)
    requires done == cur ==> (mem, disk) == Direct(mem1, disk1, at, cur, b, read)
    requires !read ==> (mem, disk) == Direct(mem1, disk1, at, done, b, false)
    requires read ==> disk == disk1 && Partly(mem1, mem, disk, at, done, cur, b)
    ensures done == cur || !read ==> (mem, disk) == Direct(mem0, disk0, addr, at - addr + done, blkno, read)
    ensures read ==> disk == disk0 && Partly(mem0, mem, disk, addr, at - addr + done, count, blkno)
  {
    hide Direct, Partly;
    DirectInTwo(mem0, disk0, addr, at - addr, done, blkno, read);
    if read {
      DirectDisk(mem0, disk0, addr, at - addr, blkno);
      PartlyMore(mem0, disk0, mem1, mem, addr, at - addr, done, cur, count, blkno, b);
    }
  }

  lemma DirectDisk(mem: seq<int>, disk: seq<int>, addr: nat, n: nat, blkno: nat)
    requires addr + n <= |mem| && blkno * NBPSCTR + n <= |disk|
    ensures Direct(mem, disk, addr, n, blkno, true).1 == disk
  {}

  lemma PartlyMore(mem0: seq<int>, disk: seq<int>, mem1: seq<int>, mem: seq<int>, addr: nat, m: nat, done: nat, cur: nat,
                   count: nat, blkno: nat, b: nat)
    requires m + cur <= count && done <= cur && addr + count <= |mem0| == |mem1| && blkno * NBPSCTR + count <= |disk|
    requires b * NBPSCTR == blkno * NBPSCTR + m
    requires mem1 == Direct(mem0, disk, addr, m, blkno, true).0
    requires Partly(mem1, mem, disk, addr + m, done, cur, b)
    ensures Partly(mem0, mem, disk, addr, m + done, count, blkno)
  {}

  lemma NextBlock(addr: nat, at: nat, cur: nat, blkno: nat, b: nat)
    requires addr <= at && (at - addr) % NBPSCTR == 0 && b == blkno + (at - addr) / NBPSCTR
    ensures cur % NBPSCTR == 0 ==> b + Btod(cur) == blkno + (at + cur - addr) / NBPSCTR && (at + cur - addr) % NBPSCTR == 0
  {}

  lemma WholeBlocks(cur: nat)
    ensures cur % NBPSCTR == 0 ==> Btod(cur) * NBPSCTR == cur
  {}

  lemma EnoughFree(free: seq<nat>, num: nat, now: seq<nat>)
    requires num <= |free| && multiset(now) == multiset(free[num..]) + multiset(free[..num])
    ensures multiset(now) == multiset(free)
  {
    assert free == free[..num] + free[num..];
  }
}
