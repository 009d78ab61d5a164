/** The allocator of p1-memory-management/mm.c, on the simulated break of memlib.c.
    Every method reads and writes raw words, in the order the source does. */
module Allocators {
  import opened HeapShape
  import opened Logs
  import opened FreeLists
  import opened AllocatorLemmas

  const WSIZE: nat := 8
  const DSIZE: nat := 16
  const ALIGNMENT: nat := 16
  const CHUNKSIZE: nat := 0x4000
  const TWO64: nat := 0x1_0000_0000_0000_0000

  /** align, in 64-bit arithmetic. */
  function Align(x: nat): nat { ALIGNMENT * ((x + ALIGNMENT - 1) % TWO64 / ALIGNMENT) }

  /** The block size malloc looks for, in 64-bit arithmetic. */
  function AdjustedSize(size: nat): nat {
    if size <= DSIZE then 2 * DSIZE else Align((size + ALIGNMENT) % TWO64)
  }

  /** Without wrap-around, align rounds up to the next multiple of 16. */
  lemma AlignRounds(x: nat)
    requires x + ALIGNMENT - 1 < TWO64
    ensures Align(x) == 16 * ((x + 15) / 16) && Align(x) % 16 == 0 && x <= Align(x) < x + 16
  {
    assert (x + 15) % TWO64 == x + 15;
  }

  /** The computed block size has room for the request exactly when the additions
      do not wrap around. */
  lemma AdjustedSizeFits(size: nat)
    requires size < TWO64
    ensures size + ALIGNMENT <= AdjustedSize(size) <==> size + 2 * ALIGNMENT - 1 < TWO64
    ensures size + 2 * ALIGNMENT - 1 < TWO64 ==>
              AdjustedSize(size) % 16 == 0 && AdjustedSize(size) >= 32 &&
              (size > DSIZE ==> AdjustedSize(size) < size + 32)
  {
    if size + 2 * ALIGNMENT - 1 < TWO64 { AlignRounds(size + 16); }
  }

  /** Where they do wrap, malloc looks for 0 bytes, for which select_list has no
      list, or for 16, less than any block. */
  lemma AdjustedSizeWraps(size: nat)
    requires size < TWO64 <= size + 2 * ALIGNMENT - 1
    ensures AdjustedSize(size) == if size + ALIGNMENT <= TWO64 then 0 else 16
  {
    var sum := (size + 16) % TWO64;
    assert sum == if size + 16 < TWO64 then size + 16 else size + 16 - TWO64;
    assert (sum + 15) % TWO64 == if size + 16 < TWO64 then sum + 15 - TWO64 else sum + 15;
  }

  /** The block malloc finds has room for all that realloc copies. */
  lemma AlignFits(size: nat)
    requires 0 < size && size + 2 * ALIGNMENT - 1 < TWO64
    ensures var asize := if size <= DSIZE then 2 * DSIZE else Align(size);
            size <= asize && asize % 16 == 0 &&
            AdjustedSize(size) == (if size <= DSIZE then 32 else asize + ALIGNMENT)
  {
    AlignRounds(size);
    AlignRounds(size + 16);
    assert (size + 16) % TWO64 == size + 16 && (size + 31) / 16 == (size + 15) / 16 + 1;
  }

  /** Byte k of a word, from the lowest. */
  function Byte(word: nat, k: nat): nat {
    if k == 0 then word % 256 else Byte(word / 256, k - 1)
  }

  /** The mask of mem_read: only so many low bytes. */
  function Masked(word: nat, bytes: nat): nat {
    if bytes == 0 then 0 else word % 256 + 256 * Masked(word / 256, bytes - 1)
  }

  /** mem_write of fewer than eight bytes: the low bytes of val replace those of word. */
  function Spliced(word: nat, val: nat, bytes: nat): nat {
    if bytes == 0 then word else val % 256 + 256 * Spliced(word / 256, val / 256, bytes - 1)
  }

  /** r is `word`, except for the low bytes, which are those of val. */
  ghost predicate LowReplaced(r: nat, word: nat, val: nat, bytes: nat) {
    forall k: nat {:trigger Byte(r, k)} :: Byte(r, k) == Byte(if k < bytes then val else word, k)
  }

  lemma {:induction false} SplicedByte(word: nat, val: nat, bytes: nat, k: nat)
    ensures Byte(Spliced(word, Masked(val, bytes), bytes), k) == Byte(if k < bytes then val else word, k)
  {
    if bytes > 0 && k > 0 { SplicedByte(word / 256, val / 256, bytes - 1, k - 1); }
  }

  /** Writing what was read masked copies exactly the low bytes. */
  lemma SplicedBytes(word: nat, val: nat, bytes: nat)
    ensures LowReplaced(Spliced(word, Masked(val, bytes), bytes), word, val, bytes)
  {
    var r := Spliced(word, Masked(val, bytes), bytes);
    forall k: nat ensures Byte(r, k) == Byte(if k < bytes then val else word, k) { SplicedByte(word, val, bytes, k); }
  }

  /** Every live block but oldptr is kept, and only p became live. */
  ghost predicate KeepsOthers(m: seq<nat>, m': seq<nat>, blk: map<nat, Block>, blk': map<nat, Block>, oldptr: nat,
          p: nat)
  {
    (forall b: nat {:trigger LiveKept(m, m', blk, blk', b)} ::
       Live(blk, b) && b != oldptr ==> LiveKept(m, m', blk, blk', b)) &&
    (forall b: nat {:trigger Live(blk', b)} :: Live(blk', b) && b != p ==> Live(blk, b) && b != oldptr)
  }

  class Allocator {
    const mem: array<nat>       // the simulated memory, up to mem_max_addr
    const segList: array<nat>   // seg_list
    var brk: nat                // mem_brk
    ghost var blk: map<nat, Block>
    ghost var prv: map<nat, nat>
    ghost var lists: seq<seq<nat>>

    /** mem_init: zeroed memory of so many words, with nothing in use; the list
        heads are static, so they start as NULL. */
    constructor (words: nat)
      requires words < 0x1000_0000_0000_0000
      ensures fresh(mem) && fresh(segList) && mem != segList
      ensures mem.Length == words && segList.Length == MAX_LEN && brk == 0
    {
      mem := new nat[words](_ => 0);
      segList := new nat[MAX_LEN](_ => 0);
      blk, prv, lists := map[], map[], [];
      new;
      ResetBrk();
    }

    /** mem_reset_brk */
    method ResetBrk()
      modifies this`brk
      ensures brk == 0
    {
      brk := 0;
    }

    /** The whole heap invariant, with the free blocks in `pending` not listed. */
    ghost predicate Inv(pending: set<nat>)
      reads this, mem, segList
    {
      mem != segList && segList.Length == MAX_LEN && mem.Length < 0x1000_0000_0000_0000 &&
      Shape(brk, blk, prv) && Tags(mem[..], brk, blk) && Lists(mem[..], segList[..], blk, lists, pending)
    }

    ghost predicate Valid()
      reads this, mem, segList
    {
      Inv({}) && Coalesced(blk, {})
    }

    /** A pointer malloc returned and free has not taken back. */
    ghost predicate IsLive(p: nat)
      reads this
    {
      Live(blk, p) && p != PROLOGUE
    }

    // -------------------------------------------------------------- addresses

    function Size(bp: nat): nat
      reads mem
      requires 1 <= bp <= mem.Length
    {
      GetSize(mem[bp - 1])
    }

    function Ftrp(bp: nat): int
      reads mem
      requires 1 <= bp <= mem.Length
    {
      bp + Size(bp) / WSIZE - 2
    }

    function NextBlkp(bp: nat): nat
      reads mem
      requires 1 <= bp <= mem.Length
    {
      bp + Size(bp) / WSIZE
    }

    function PrevBlkp(bp: nat): int
      reads mem
      requires 2 <= bp <= mem.Length + 1
    {
      bp - GetSize(mem[bp - 2]) / WSIZE
    }

    /** What the boundary tags say about a block. */
    lemma ReadTags(b: nat, pending: set<nat>)
      requires Inv(pending) && b in blk
      ensures 2 <= b && b + blk[b].words <= brk <= mem.Length && blk[b].words >= 2
      ensures !blk[b].alloc ==> blk[b].words >= 4
      ensures Size(b) == 8 * blk[b].words && GetAlloc(mem[b - 1]) == blk[b].alloc
      ensures NextBlkp(b) == b + blk[b].words && Ftrp(b) == b + blk[b].words - 2
    {
      assert BlockOk(b, brk, blk, prv) && TagOk(mem[..], b, blk[b]);
      TagReads(blk[b]);
    }

    /** Block starts and sizes are even: payloads are 16-byte aligned. */
    lemma ReadParity(b: nat, pending: set<nat>)
      requires Inv(pending) && b in blk
      ensures b % 2 == 0 && blk[b].words % 2 == 0
    {
      assert BlockOk(b, brk, blk, prv);
    }

    lemma ReadPrev(b: nat, pending: set<nat>)
      requires Inv(pending) && b in blk && b != PROLOGUE
      ensures 4 <= b <= mem.Length && b in prv && prv[b] in blk && PrevBlkp(b) == prv[b]
      ensures prv[b] + blk[prv[b]].words == b && GetAlloc(mem[b - 2]) == blk[prv[b]].alloc
    {
      assert BlockOk(b, brk, blk, prv);
      var p := prv[b];
      assert BlockOk(p, brk, blk, prv) && TagOk(mem[..], p, blk[p]);
      TagReads(blk[p]);
    }

    /** The allocated bit behind a block is that of the next block, or of the epilogue. */
    lemma ReadNext(b: nat, pending: set<nat>)
      requires Inv(pending) && b in blk
      ensures var n := b + blk[b].words;
              1 <= n <= mem.Length && GetAlloc(mem[n - 1]) == (n in blk ==> blk[n].alloc)
    {
      assert BlockOk(b, brk, blk, prv);
      var n := b + blk[b].words;
      if n in blk {
        assert BlockOk(n, brk, blk, prv) && TagOk(mem[..], n, blk[n]);
        TagReads(blk[n]);
      }
    }

    // -------------------------------------------------------------- free lists

    /** select_list */
    method SelectList(size: nat) returns (list: int)
      ensures list == if size == 0 then -1 else Class(size)
    {
      list := 0;
      if size == 0 { return -1; }
      var s := size / 2;
      while s != 0
        invariant list >= 0 && s >= 0
        invariant Log2(size) == list + (if s == 0 then 0 else 1 + Log2(s))
      {
        list := list + 1;
        s := s / 2;
      }
      if list > MAX_LEN - 1 { return MAX_LEN - 1; }
    }

    /** What the links and tags of a list node say. */
    lemma ReadNode(k: nat, j: nat, pending: set<nat>)
      requires Inv(pending) && k < MAX_LEN && j < |lists[k]|
      ensures var n := lists[k][j];
              4 <= n && n + 1 < mem.Length && n in blk && Size(n) == 8 * blk[n].words &&
              mem[n] == NodeAt(lists[k], j + 1) && NodeAt(lists[k], j) == n
    {
      var ns := lists[k];
      assert ListOk(mem[..], segList[..][k], blk, ns, k, pending);
      assert LinkOk(mem[..], ns, j);
      NodeIsBlock(ns, k, j, pending);
      ReadTags(ns[j], pending);
    }

    /** The head of a list is its first node, and a node is never NULL. */
    lemma ReadHead(k: nat, pending: set<nat>)
      requires Inv(pending) && k < MAX_LEN
      ensures segList[k] == NodeAt(lists[k], 0)
      ensures forall j: int {:trigger NodeAt(lists[k], j)} :: NodeAt(lists[k], j) == 0 <==> !(0 <= j < |lists[k]|)
    {
      assert ListOk(mem[..], segList[..][k], blk, lists[k], k, pending);
      forall j: int ensures NodeAt(lists[k], j) == 0 <==> !(0 <= j < |lists[k]|) {
        NodeIsBlock(lists[k], k, j, pending);
      }
    }

    /** The search loop of node_add: the first node that is not smaller, and the
        one before it. */
    method FindInsertion(list: nat, size: nat, ghost pending: set<nat>)
      returns (curr: nat, insertLoc: nat, ghost j: nat)
      requires Inv(pending) && list < MAX_LEN
      ensures j <= |lists[list]| && curr == NodeAt(lists[list], j) && insertLoc == NodeAt(lists[list], j - 1)
      ensures forall i :: 0 <= i < j ==> lists[list][i] in blk && 8 * blk[lists[list][i]].words < size
      ensures j < |lists[list]| ==> lists[list][j] in blk && size <= 8 * blk[lists[list][j]].words
    {
      ghost var ns := lists[list];
      ReadHead(list, pending);
      curr, insertLoc, j := segList[list], 0, 0;
      if curr != 0 { ReadNode(list, 0, pending); }
      while curr != 0 && size > Size(curr)
        modifies {}
        invariant j <= |ns| && curr == NodeAt(ns, j) && insertLoc == NodeAt(ns, j - 1)
        invariant j < |ns| ==> 1 <= curr <= mem.Length && curr in blk && Size(curr) == 8 * blk[curr].words
        invariant forall i :: 0 <= i < j ==> ns[i] in blk && 8 * blk[ns[i]].words < size
        decreases |ns| - j
      {
        ReadNode(list, j, pending);
        insertLoc := curr;
        curr := mem[curr];
        j := j + 1;
        if j < |ns| { ReadNode(list, j, pending); }
      }
    }

    /** node_add */
    method NodeAdd(ptr: nat, size: nat, ghost pending: set<nat>)
      requires Inv(pending) && FreeBlock(blk, ptr) && ptr in pending && size == 8 * blk[ptr].words
      modifies mem, segList, this`lists
      ensures Inv(pending - {ptr})
      ensures KeepsLive(old(mem[..]), mem[..], blk, blk, 0)
    {
      ghost var m, seg := mem[..], segList[..];
      ReadTags(ptr, pending);
      var list := SelectList(size);
      var curr, insertLoc; ghost var j;
      curr, insertLoc, j := FindInsertion(list, size, pending);
      NodeIsBlock(lists[list], list, j, pending);
      NodeIsBlock(lists[list], list, j as int - 1, pending);
      NotPending(lists[list], list, ptr, pending);
      ReadParity(ptr, pending);
      WriteInsertion(list, curr, insertLoc, ptr, lists[list], j);
      NodeAddProof(m, mem[..], seg, pending, list, j, ptr);
      lists := lists[list := InsertAt(lists[list], j, ptr)];
    }

    lemma NotPending(ns: seq<nat>, k: nat, x: nat, pending: set<nat>)
      requires Inv(pending) && k < MAX_LEN && ns == lists[k] && x in pending
      ensures x !in ns
    {
      forall i: nat | i < |ns| ensures ns[i] != x { NodeIsBlock(ns, k, i, pending); }
    }

    /** The four cases of node_add's pointer writes. */
    method WriteInsertion(list: nat, curr: nat, insertLoc: nat, ptr: nat, ghost ns: seq<nat>, ghost j: nat)
      requires mem != segList && segList.Length == MAX_LEN && list < MAX_LEN && ptr + 1 < mem.Length
      requires j <= |ns| && curr == NodeAt(ns, j) && insertLoc == NodeAt(ns, j - 1)
      requires (curr == 0 <==> j == |ns|) && (insertLoc == 0 <==> j == 0)
      requires curr + 1 < mem.Length && insertLoc + 1 < mem.Length
      requires curr % 2 == 0 && insertLoc % 2 == 0 && ptr % 2 == 0 && ptr != curr && ptr != insertLoc
      modifies mem, segList
      ensures InsertedLinks(old(mem[..]), mem[..], ns, j, ptr)
      ensures segList[..] == if j == 0 then old(segList[..])[list := ptr] else old(segList[..])
    {
      if curr != 0 {
        if insertLoc != 0 {
          mem[ptr] := curr;
          mem[curr + 1] := ptr;
          mem[insertLoc] := ptr;
          mem[ptr + 1] := insertLoc;
        } else {
          mem[ptr] := curr;
          mem[curr + 1] := ptr;
          mem[ptr + 1] := 0;
          segList[list] := ptr;
        }
      } else {
        if insertLoc != 0 {
          mem[ptr] := 0;
          mem[ptr + 1] := insertLoc;
          mem[insertLoc] := ptr;
        } else {
          mem[ptr] := 0;
          mem[ptr + 1] := 0;
          segList[list] := ptr;
        }
      }
    }

    lemma NodeIsBlock(ns: seq<nat>, k: nat, j: int, pending: set<nat>)
      requires Inv(pending) && k < MAX_LEN && ns == lists[k]
      ensures 0 <= j < |ns| ==>
              FreeBlock(blk, ns[j]) && 4 <= ns[j] && ns[j] + 4 <= mem.Length && ns[j] % 2 == 0 && ns[j] !in pending
      ensures NodeAt(ns, j) == 0 <==> !(0 <= j < |ns|)
    {
      assert ListOk(mem[..], segList[..][k], blk, ns, k, pending);
      if 0 <= j < |ns| {
        assert NodeOk(blk, ns[j], k, pending);
        assert BlockOk(ns[j], brk, blk, prv);
        assert ns[j] != PROLOGUE;
        assert BlockOk(PROLOGUE, brk, blk, prv);
      }
    }

    lemma NodeAddProof(m: seq<nat>, m': seq<nat>, seg: seq<nat>, pending: set<nat>, k: nat, j: nat, ptr: nat)
      requires Shape(brk, blk, prv) && Tags(m, brk, blk) && Lists(m, seg, blk, lists, pending)
      requires k < MAX_LEN && j <= |lists[k]| && InsertedLinks(m, m', lists[k], j, ptr)
      requires FreeBlock(blk, ptr) && ptr in pending && blk[ptr].words > 0 && k == Class(8 * blk[ptr].words)
      requires forall i :: 0 <= i < j ==> lists[k][i] in blk && blk[lists[k][i]].words < blk[ptr].words
      requires j < |lists[k]| && lists[k][j] in blk ==> blk[ptr].words <= blk[lists[k][j]].words
      ensures Tags(m', brk, blk) && KeepsLive(m, m', blk, blk, 0)
      ensures var seg' := if j == 0 then seg[k := ptr] else seg;
              Lists(m', seg', blk, lists[k := InsertAt(lists[k], j, ptr)], pending - {ptr})
    {
      assert ListOk(m, seg[k], blk, lists[k], k, pending);
      assert BlockOk(ptr, brk, blk, prv);
      InsertIsLinksOnly(m, m', seg[k], blk, lists[k], k, pending, j, ptr);
      LinksKeepTags(m, m', brk, blk, prv);
      forall b: nat | b in blk ensures b % 2 == 0 { assert BlockOk(b, brk, blk, prv); }
      InsertLists(m, m', seg, blk, lists, pending, k, j, ptr);
    }

    /** node_remove */
    method NodeRemove(ptr: nat, ghost pending: set<nat>)
      requires Inv(pending) && FreeBlock(blk, ptr) && ptr !in pending
      modifies mem, segList, this`lists
      ensures Inv(pending + {ptr})
      ensures KeepsLive(old(mem[..]), mem[..], blk, blk, 0)
    {
      ghost var m, seg := mem[..], segList[..];
      ReadTags(ptr, pending);
      var size := Size(ptr);
      var list := SelectList(size);
      ghost var k, j := NodeInList(m, seg, blk, lists, pending, ptr);
      ghost var ns := lists[k];
      ReadLinks(ptr, k, j, pending);
      WriteRemoval(list, ptr, ns, j);
      NodeRemoveProof(m, mem[..], seg, pending, k, j);
      lists := lists[k := RemoveAt(ns, j)];
    }

    /** What the links of a listed block say. */
    lemma ReadLinks(ptr: nat, k: nat, j: nat, pending: set<nat>)
      requires Inv(pending) && k < MAX_LEN && j < |lists[k]| && ptr == lists[k][j]
      ensures var ns := lists[k];
        && ptr + 1 < mem.Length && ptr % 2 == 0 && segList[k] == NodeAt(ns, 0)
        && mem[ptr] == NodeAt(ns, j + 1) && mem[ptr + 1] == NodeAt(ns, j as int - 1)
        && (mem[ptr] == 0 <==> j + 1 == |ns|) && (mem[ptr + 1] == 0 <==> j == 0)
        && mem[ptr] + 1 < mem.Length && mem[ptr + 1] + 1 < mem.Length && mem[ptr] != ptr && mem[ptr + 1] != ptr
        && mem[ptr] % 2 == 0 && mem[ptr + 1] % 2 == 0
    {
      var ns := lists[k];
      assert ListOk(mem[..], segList[..][k], blk, ns, k, pending);
      assert LinkOk(mem[..], ns, j);
      NodeIsBlock(ns, k, j, pending);
      NodeIsBlock(ns, k, j + 1, pending);
      NodeIsBlock(ns, k, j as int - 1, pending);
    }

    /** The four cases of node_remove's pointer writes. */
    method WriteRemoval(list: nat, ptr: nat, ghost ns: seq<nat>, ghost j: nat)
      requires mem != segList && segList.Length == MAX_LEN && list < MAX_LEN && ptr + 1 < mem.Length && j < |ns|
      requires mem[ptr] == NodeAt(ns, j + 1) && mem[ptr + 1] == NodeAt(ns, j - 1)
      requires (mem[ptr] == 0 <==> j + 1 == |ns|) && (mem[ptr + 1] == 0 <==> j == 0)
      requires mem[ptr] + 1 < mem.Length && mem[ptr + 1] + 1 < mem.Length
      requires ptr % 2 == 0 && mem[ptr] % 2 == 0 && mem[ptr + 1] % 2 == 0 && mem[ptr] != ptr && mem[ptr + 1] != ptr
      modifies mem, segList
      ensures RemovedLinks(old(mem[..]), mem[..], ns, j)
      ensures segList[..] == if j == 0 then old(segList[..])[list := NodeAt(ns, 1)] else old(segList[..])
    {
      if mem[ptr] != 0 {
        if mem[ptr + 1] != 0 {
          mem[mem[ptr] + 1] := mem[ptr + 1];
          mem[mem[ptr + 1]] := mem[ptr];
        } else {
          mem[mem[ptr] + 1] := 0;
          segList[list] := mem[ptr];
        }
      } else {
        if mem[ptr + 1] != 0 {
          mem[mem[ptr + 1]] := 0;
        } else {
          segList[list] := 0;
        }
      }
    }

    lemma NodeRemoveProof(m: seq<nat>, m': seq<nat>, seg: seq<nat>, pending: set<nat>, k: nat, j: nat)
      requires Shape(brk, blk, prv) && Tags(m, brk, blk) && Lists(m, seg, blk, lists, pending)
      requires k < MAX_LEN && j < |lists[k]| && RemovedLinks(m, m', lists[k], j)
      ensures Tags(m', brk, blk) && KeepsLive(m, m', blk, blk, 0)
      ensures var seg' := if j == 0 then seg[k := NodeAt(lists[k], 1)] else seg;
              Lists(m', seg', blk, lists[k := RemoveAt(lists[k], j)], pending + {lists[k][j]})
    {
      assert ListOk(m, seg[k], blk, lists[k], k, pending);
      RemoveIsLinksOnly(m, m', seg[k], blk, lists[k], k, pending, j);
      LinksKeepTags(m, m', brk, blk, prv);
      forall b: nat | b in blk ensures b % 2 == 0 { assert BlockOk(b, brk, blk, prv); }
      RemoveLists(m, m', seg, blk, lists, pending, k, j);
    }

    // -------------------------------------------------------------- coalesce

    /** New books for the words as they are. */
    ghost method Restructure(blocks: map<nat, Block>, ends: map<nat, nat>, pending: set<nat>)
      requires mem != segList && segList.Length == MAX_LEN && mem.Length < 0x1000_0000_0000_0000
      requires Shape(brk, blocks, ends) && Tags(mem[..], brk, blocks)
      requires Lists(mem[..], segList[..], blocks, lists, pending)
      modifies this`blk, this`prv
      ensures blk == blocks && prv == ends && Inv(pending)
    {
      ghost var m, seg := mem[..], segList[..];
      blk, prv := blocks, ends;
      assert mem[..] == m && segList[..] == seg;
    }

    /** Join the free block at a with the free one behind it; both are unlisted and
        the new header and footer are written. */
    ghost method Merged(a: nat, pending: set<nat>, m: seq<nat>)
      requires mem != segList && segList.Length == MAX_LEN && mem.Length < 0x1000_0000_0000_0000
      requires Shape(brk, blk, prv) && Tags(m, brk, blk) && Lists(m, segList[..], blk, lists, pending)
      requires FreePair(blk, a) && a in pending && a + blk[a].words in pending
      requires OnlyBlock(m, mem[..], a, Block(blk[a].words + blk[a + blk[a].words].words, false))
      requires TagOk(mem[..], a, Block(blk[a].words + blk[a + blk[a].words].words, false))
      modifies this`blk, this`prv
      ensures blk == MergeBlocks(old(blk), a) && blk[a].words == old(blk[a].words + blk[a + blk[a].words].words)
      ensures Inv(pending - {a + old(blk[a].words)})
      ensures KeepsLive(m, mem[..], old(blk), blk, 0)
    {
      ghost var merged, ends := MergePair(m, mem[..], segList[..], brk, blk, prv, lists, pending, a);
      Restructure(merged, ends, pending - {a + blk[a].words});
    }

    /** node_remove on two free blocks in turn. */
    method NodeRemoveTwo(x: nat, y: nat)
      requires Inv({}) && FreeBlock(blk, x) && FreeBlock(blk, y) && x != y
      modifies mem, segList, this`lists
      ensures Inv({x, y})
      ensures KeepsLive(old(mem[..]), mem[..], blk, blk, 0)
    {
      NodeRemove(x, {});
      assert {} + {x} == {x} && {x} + {y} == {x, y};
      ghost var m := mem[..];
      NodeRemove(y, {x});
      KeepsLiveTrans(old(mem[..]), m, mem[..], blk, blk, blk, 0);
    }

    /** Case 2 of coalesce: the next block is free. */
    method CoalesceNext(bp: nat) returns (size: nat)
      requires Inv({}) && FreePair(blk, bp)
      modifies mem, segList, this`lists, this`blk, this`prv
      ensures blk == MergeBlocks(old(blk), bp) && Inv({bp}) && size == 8 * blk[bp].words
      ensures KeepsLive(old(mem[..]), mem[..], old(blk), blk, 0)
    {
      ReadTags(bp, {});
      size := Size(bp);
      NodeRemoveTwo(bp, NextBlkp(bp));
      ghost var m := mem[..];
      size := PutNext(bp, size);
      KeepsLiveTrans(old(mem[..]), m, mem[..], old(blk), old(blk), blk, 0);
    }

    /** The header and footer writes of case 2. */
    method PutNext(bp: nat, oldSize: nat) returns (size: nat)
      requires FreePair(blk, bp) && Inv({bp, bp + blk[bp].words}) && oldSize == 8 * blk[bp].words
      modifies mem, this`blk, this`prv
      ensures blk == MergeBlocks(old(blk), bp) && size == 8 * blk[bp].words
      ensures Inv({bp})
      ensures KeepsLive(old(mem[..]), mem[..], old(blk), blk, 0)
    {
      ghost var n, m := bp + blk[bp].words, mem[..];
      ReadTags(bp, {bp, n});
      ReadTags(n, {bp, n});
      ReadParity(bp, {bp, n});
      ReadParity(n, {bp, n});
      size := WriteNext(bp, oldSize, blk[bp].words, blk[n].words);
      TwoPending(bp, n);
      Merged(bp, {bp, n}, m);
    }

    /** Of two pending blocks, the one that was merged is gone. */
    lemma TwoPending(a: nat, b: nat)
      requires a < b
      ensures {a, b} - {b} == {a} && {b, a} - {b} == {a}
    {
    }

    method WriteNext(bp: nat, oldSize: nat, ghost wb: nat, ghost wn: nat) returns (size: nat)
      requires 2 <= bp && bp + wb + wn <= mem.Length && wb >= 2 && wn >= 2 && wb % 2 == 0 && wn % 2 == 0
      requires NextBlkp(bp) == bp + wb && Size(bp + wb) == 8 * wn && oldSize == 8 * wb
      modifies mem
      ensures size == 8 * (wb + wn)
      ensures OnlyBlock(old(mem[..]), mem[..], bp, Block(wb + wn, false)) && TagOk(mem[..], bp, Block(wb + wn, false))
    {
      TagReads(Block(wb + wn, false));
      size := oldSize + Size(NextBlkp(bp));
      mem[bp - 1] := Pack(size, false);
      assert Ftrp(bp) == bp + wb + wn - 2;
      mem[Ftrp(bp)] := Pack(size, false);
      PutTagsOk(old(mem[..]), mem[..], bp, Block(wb + wn, false));
    }

    /** Case 3 of coalesce: the previous block is free. */
    method CoalescePrev(bp: nat) returns (r: nat, size: nat)
      requires Inv({}) && bp in blk && bp != PROLOGUE && bp in prv && FreePair(blk, prv[bp])
      modifies mem, segList, this`lists, this`blk, this`prv
      ensures r == old(prv[bp]) && blk == MergeBlocks(old(blk), r) && Inv({r}) && size == 8 * blk[r].words
      ensures KeepsLive(old(mem[..]), mem[..], old(blk), blk, 0)
    {
      ReadTags(bp, {});
      ReadPrev(bp, {});
      size := Size(bp);
      NodeRemoveTwo(bp, PrevBlkp(bp));
      ghost var m := mem[..];
      r, size := PutPrev(bp, size);
      KeepsLiveTrans(old(mem[..]), m, mem[..], old(blk), old(blk), blk, 0);
    }

    /** The header and footer writes of case 3. */
    method PutPrev(bp: nat, oldSize: nat) returns (r: nat, size: nat)
      requires bp in prv && bp in blk && bp != PROLOGUE && FreePair(blk, prv[bp]) && Inv({bp, prv[bp]}) &&
               oldSize == 8 * blk[bp].words
      modifies mem, this`blk, this`prv
      ensures r == old(prv[bp]) && blk == MergeBlocks(old(blk), r) && size == 8 * blk[r].words
      ensures Inv({r})
      ensures KeepsLive(old(mem[..]), mem[..], old(blk), blk, 0)
    {
      ghost var p, m := prv[bp], mem[..];
      ReadPrevPair(bp, {bp, p});
      r, size := WritePrev(bp, oldSize, p, blk[p].words, blk[bp].words);
      TwoPending(p, bp);
      Merged(p, {bp, p}, m);
    }

    /** What the tags of a block and of its predecessor say. */
    lemma ReadPrevPair(bp: nat, pending: set<nat>)
      requires Inv(pending) && bp in blk && bp != PROLOGUE && bp in prv && prv[bp] in blk && !blk[prv[bp]].alloc
      ensures 2 <= prv[bp] && bp + blk[bp].words <= mem.Length && blk[bp].words >= 2 && blk[bp].words % 2 == 0
      ensures var p := prv[bp]; p + blk[p].words == bp && PrevBlkp(bp) == p && Size(p) == 8 * blk[p].words
      ensures blk[prv[bp]].words >= 4 && blk[prv[bp]].words % 2 == 0
      ensures Ftrp(bp) == bp + blk[bp].words - 2
    {
      ReadTags(bp, pending);
      ReadPrev(bp, pending);
      ReadTags(prv[bp], pending);
      ReadParity(bp, pending);
      ReadParity(prv[bp], pending);
    }

    method WritePrev(bp: nat, oldSize: nat, ghost p: nat, ghost wp: nat, ghost wb: nat) returns (r: nat, size: nat)
      requires 2 <= p && p + wp == bp && bp + wb <= mem.Length && wp >= 4 && wb >= 2 && wp % 2 == 0 && wb % 2 == 0
      requires PrevBlkp(bp) == p && Ftrp(bp) == bp + wb - 2 && Size(p) == 8 * wp && oldSize == 8 * wb
      modifies mem
      ensures r == p && size == 8 * (wp + wb)
      ensures OnlyBlock(old(mem[..]), mem[..], p, Block(wp + wb, false)) && TagOk(mem[..], p, Block(wp + wb, false))
    {
      TagReads(Block(wp + wb, false));
      size := oldSize + Size(PrevBlkp(bp));
      mem[Ftrp(bp)] := Pack(size, false);
      assert PrevBlkp(bp) == p;
      mem[PrevBlkp(bp) - 1] := Pack(size, false);
      r := PrevBlkp(bp);
      PutTagsOk(old(mem[..]), mem[..], p, Block(wp + wb, false));
    }

    /** Case 4 of coalesce: both neighbours are free. */
    method CoalesceBoth(bp: nat) returns (r: nat, size: nat)
      requires Inv({}) && bp in blk && bp != PROLOGUE && bp in prv && FreePair(blk, prv[bp]) && FreePair(blk, bp)
      modifies mem, segList, this`lists, this`blk, this`prv
      ensures r == old(prv[bp]) && blk == MergeThree(old(blk), r) && Inv({r}) && size == 8 * blk[r].words
      ensures bp + old(blk[bp].words) <= r + blk[r].words
      ensures KeepsLive(old(mem[..]), mem[..], old(blk), blk, 0)
    {
      ReadTags(bp, {});
      size := Size(bp);
      NodeRemoveThree(bp);
      ghost var m := mem[..];
      r, size := PutBoth(bp, size, prv[bp], bp + blk[bp].words);
      KeepsLiveTrans(old(mem[..]), m, mem[..], old(blk), old(blk), blk, 0);
    }

    /** node_remove on the block and both its neighbours. */
    method NodeRemoveThree(bp: nat)
      requires Inv({}) && bp in blk && bp != PROLOGUE && bp in prv && FreePair(blk, prv[bp]) && FreePair(blk, bp)
      modifies mem, segList, this`lists
      ensures Inv({bp, prv[bp], bp + blk[bp].words})
      ensures KeepsLive(old(mem[..]), mem[..], blk, blk, 0)
    {
      ghost var p, n := prv[bp], bp + blk[bp].words;
      ReadPrev(bp, {});
      ReadTags(p, {});
      NodeRemoveTwo(bp, PrevBlkp(bp));
      ghost var m := mem[..];
      ReadTags(bp, {bp, p});
      ReadTags(n, {bp, p});
      NodeRemove(NextBlkp(bp), {bp, p});
      assert {bp, p} + {n} == {bp, p, n};
      KeepsLiveTrans(old(mem[..]), m, mem[..], blk, blk, blk, 0);
    }

    /** The header and footer writes of case 4. */
    method PutBoth(bp: nat, oldSize: nat, ghost p: nat, ghost n: nat) returns (r: nat, size: nat)
      requires bp in prv && bp in blk && bp != PROLOGUE && p == prv[bp] && n == bp + blk[bp].words
      requires FreePair(blk, p) && FreePair(blk, bp) && Inv({bp, p, n}) && oldSize == 8 * blk[bp].words
      modifies mem, this`blk, this`prv
      ensures r == p && blk == old(MergeThree(blk, p)) && r in blk && size == 8 * blk[r].words
      ensures bp + old(blk[bp].words) <= r + blk[r].words
      ensures Inv({r})
      ensures KeepsLive(old(mem[..]), mem[..], old(blk), blk, 0)
    {
      ghost var m, w := mem[..], blk[p].words + blk[bp].words + blk[n].words;
      ReadBoth(bp, {bp, p, n});
      r, size := WriteBoth(bp, oldSize, p, blk[p].words, blk[bp].words, blk[n].words);
      MergedThree(m, p, bp, n, w);
    }

    /** What the tags say about a block between two free ones. */
    lemma ReadBoth(bp: nat, pending: set<nat>)
      requires Inv(pending) && bp in blk && bp != PROLOGUE && bp in prv && FreePair(blk, prv[bp]) && FreePair(blk, bp)
      ensures var p, n := prv[bp], bp + blk[bp].words;
        && 2 <= p && p + blk[p].words == bp && n + blk[n].words <= mem.Length
        && blk[p].words >= 4 && blk[bp].words >= 2 && blk[n].words >= 4
        && PrevBlkp(bp) == p && NextBlkp(bp) == n && Size(p) == 8 * blk[p].words && Size(n) == 8 * blk[n].words
    {
      ReadTags(bp, pending);
      ReadPrev(bp, pending);
      ReadTags(prv[bp], pending);
      ReadTags(bp + blk[bp].words, pending);
    }

    method WriteBoth(bp: nat, oldSize: nat, ghost p: nat, ghost wp: nat, ghost wb: nat, ghost wn: nat)
      returns (r: nat, size: nat)
      requires 2 <= p && p + wp == bp && bp + wb + wn <= mem.Length && wp >= 4 && wb >= 2 && wn >= 4
      requires PrevBlkp(bp) == p && NextBlkp(bp) == bp + wb && Size(p) == 8 * wp && Size(bp + wb) == 8 * wn
      requires oldSize == 8 * wb
      modifies mem
      ensures r == p && size == 8 * (wp + wb + wn)
      ensures OnlyBlock(old(mem[..]), mem[..], p, Block(wp + wb + wn, false))
      ensures TagOk(mem[..], p, Block(wp + wb + wn, false))
    {
      size := oldSize + Size(PrevBlkp(bp)) + Size(NextBlkp(bp));
      mem[PrevBlkp(bp) - 1] := Pack(size, false);
      assert NextBlkp(bp) == bp + wb && Size(bp + wb) == 8 * wn;
      mem[Ftrp(NextBlkp(bp))] := Pack(size, false);
      r := PrevBlkp(bp);
      PutTagsOk(old(mem[..]), mem[..], p, Block(wp + wb + wn, false));
    }

    /** The block structure after case 4. */
    ghost method MergedThree(m: seq<nat>, p: nat, bp: nat, n: nat, w: nat)
      requires mem != segList && segList.Length == MAX_LEN && mem.Length < 0x1000_0000_0000_0000
      requires Shape(brk, blk, prv) && Tags(m, brk, blk) && Lists(m, segList[..], blk, lists, {bp, p, n})
      requires FreePair(blk, p) && FreePair(blk, bp) && bp == p + blk[p].words && n == bp + blk[bp].words
      requires w == blk[p].words + blk[bp].words + blk[n].words
      requires OnlyBlock(m, mem[..], p, Block(w, false)) && TagOk(mem[..], p, Block(w, false))
      modifies this`blk, this`prv
      ensures blk == MergeThree(old(blk), p) && p in blk && blk[p].words == w
      ensures Inv({p})
      ensures KeepsLive(m, mem[..], old(blk), blk, 0)
    {
      ghost var merged, ends := MergeThreeHeap(m, mem[..], segList[..], brk, blk, prv, lists, p, bp, n);
      Restructure(merged, ends, {p});
    }

    /** coalesce */
    method Coalesce(bp: nat) returns (r: nat)
      requires Inv({}) && FreeBlock(blk, bp) && Coalesced(blk, {bp})
      modifies mem, segList, this`lists, this`blk, this`prv
      ensures Valid() && FreeBlock(blk, r)
      ensures KeepsLive(old(mem[..]), mem[..], old(blk), blk, 0)
      ensures r <= bp && bp + old(blk[bp].words) <= r + blk[r].words
    {
      ReadTags(bp, {});
      ReadPrev(bp, {});
      ReadNext(bp, {});
      ghost var p := prv[bp];
      ReadTags(p, {});
      var prevAlloc := GetAlloc(mem[PrevBlkp(bp) - 1]);
      var nextAlloc := GetAlloc(mem[NextBlkp(bp) - 1]);
      assert prevAlloc <==> !FreePair(blk, p);
      assert nextAlloc <==> !FreePair(blk, bp);
      if prevAlloc && nextAlloc {
        SettleAlone(brk, blk, prv, bp);
        KeepsItself();
        return bp;
      }
      r := Join(bp, prevAlloc, nextAlloc);
    }

    /** node_add, then coalesce: how a new free block enters the heap. */
    method AddFree(bp: nat, size: nat) returns (r: nat)
      requires Inv({bp}) && FreeBlock(blk, bp) && Coalesced(blk, {bp}) && size == 8 * blk[bp].words
      modifies mem, segList, this`lists, this`blk, this`prv
      ensures Valid() && FreeBlock(blk, r)
      ensures KeepsLive(old(mem[..]), mem[..], old(blk), blk, 0)
      ensures r <= bp && bp + old(blk[bp].words) <= r + blk[r].words
    {
      NodeAdd(bp, size, {bp});
      assert {bp} - {bp} == {};
      ghost var m, b := mem[..], blk;
      r := Coalesce(bp);
      KeepsLiveTrans(old(mem[..]), m, mem[..], b, b, blk, 0);
    }

    lemma KeepsItself()
      requires Inv({})
      ensures KeepsLive(mem[..], mem[..], blk, blk, 0)
    {
      forall b: nat | Live(blk, b) ensures LiveKept(mem[..], mem[..], blk, blk, b) {
        assert BlockOk(b, brk, blk, prv);
      }
    }

    /** Cases 2 to 4 of coalesce, and the node_add after them. */
    method Join(bp: nat, prevAlloc: bool, nextAlloc: bool) returns (r: nat)
      requires Inv({}) && FreeBlock(blk, bp) && Coalesced(blk, {bp}) && bp in prv && prv[bp] in blk
      requires prevAlloc <==> !FreePair(blk, prv[bp])
      requires nextAlloc <==> !FreePair(blk, bp)
      requires !(prevAlloc && nextAlloc)
      modifies mem, segList, this`lists, this`blk, this`prv
      ensures Valid() && FreeBlock(blk, r)
      ensures KeepsLive(old(mem[..]), mem[..], old(blk), blk, 0)
      ensures r <= bp && bp + old(blk[bp].words) <= r + blk[r].words
    {
      var size;
      r, size := JoinBlocks(bp, prevAlloc, nextAlloc);
      ghost var m := mem[..];
      NodeAdd(r, size, {r});
      assert {r} - {r} == {};
      KeepsLiveTrans(old(mem[..]), m, mem[..], old(blk), blk, blk, 0);
    }

    method JoinBlocks(bp: nat, prevAlloc: bool, nextAlloc: bool) returns (r: nat, size: nat)
      requires Inv({}) && FreeBlock(blk, bp) && Coalesced(blk, {bp}) && bp in prv && prv[bp] in blk
      requires prevAlloc <==> !FreePair(blk, prv[bp])
      requires nextAlloc <==> !FreePair(blk, bp)
      requires !(prevAlloc && nextAlloc)
      modifies mem, segList, this`lists, this`blk, this`prv
      ensures Inv({r}) && Coalesced(blk, {}) && FreeBlock(blk, r) && size == 8 * blk[r].words
      ensures KeepsLive(old(mem[..]), mem[..], old(blk), blk, 0)
      ensures r <= bp && bp + old(blk[bp].words) <= r + blk[r].words
    {
      if prevAlloc {
        size := JoinNext(bp);
        r := bp;
      } else if nextAlloc {
        r, size := JoinPrev(bp);
      } else {
        r, size := JoinBoth(bp);
      }
    }

    /** The three cases, and that no two free blocks are left side by side. */
    method JoinNext(bp: nat) returns (size: nat)
      requires Inv({}) && Coalesced(blk, {bp}) && bp in prv && !FreePair(blk, prv[bp]) && FreePair(blk, bp)
      modifies mem, segList, this`lists, this`blk, this`prv
      ensures Inv({bp}) && Coalesced(blk, {}) && FreeBlock(blk, bp) && size == 8 * blk[bp].words
      ensures KeepsLive(old(mem[..]), mem[..], old(blk), blk, 0) && old(blk[bp].words) <= blk[bp].words
    {
      SettleNext(brk, blk, prv, bp);
      size := CoalesceNext(bp);
    }

    method JoinPrev(bp: nat) returns (r: nat, size: nat)
      requires Inv({}) && Coalesced(blk, {bp}) && bp in blk && bp in prv && FreePair(blk, prv[bp]) && !FreePair(blk, bp)
      modifies mem, segList, this`lists, this`blk, this`prv
      ensures Inv({r}) && Coalesced(blk, {}) && FreeBlock(blk, r) && size == 8 * blk[r].words
      ensures KeepsLive(old(mem[..]), mem[..], old(blk), blk, 0)
      ensures r <= bp && bp + old(blk[bp].words) <= r + blk[r].words
    {
      ghost var p := prv[bp];
      EndsAt(brk, blk, prv, bp, p);
      SettlePrev(brk, blk, prv, p, bp);
      r, size := CoalescePrev(bp);
    }

    method JoinBoth(bp: nat) returns (r: nat, size: nat)
      requires Inv({}) && Coalesced(blk, {bp}) && bp in blk && bp in prv && FreePair(blk, prv[bp]) && FreePair(blk, bp)
      modifies mem, segList, this`lists, this`blk, this`prv
      ensures Inv({r}) && Coalesced(blk, {}) && FreeBlock(blk, r) && size == 8 * blk[r].words
      ensures KeepsLive(old(mem[..]), mem[..], old(blk), blk, 0)
      ensures r <= bp && bp + old(blk[bp].words) <= r + blk[r].words
    {
      ghost var p := prv[bp];
      EndsAt(brk, blk, prv, bp, p);
      SettleBoth(brk, blk, prv, p, bp);
      r, size := CoalesceBoth(bp);
    }

    // -------------------------------------------------------------- growing the heap

    /** mem_sbrk; false stands for (void *) -1. */
    method Sbrk(incr: nat) returns (ok: bool, oldBrk: nat)
      requires incr % WSIZE == 0
      modifies this`brk
      ensures ok <==> incr < TWO64 / 2 && WSIZE * old(brk) + incr <= WSIZE * mem.Length
      ensures brk == (if ok then old(brk) + incr / WSIZE else old(brk)) && oldBrk == old(brk)
    {
      oldBrk := brk;
      ok := true;
      if incr >= TWO64 / 2 { ok := false; }
      else if WSIZE * brk + incr > WSIZE * mem.Length { ok := false; }
      if ok { brk := brk + incr / WSIZE; }
    }

    /** The heap cannot grow by this many bytes. */
    ghost predicate NoRoom(bytes: nat)
      reads this
    {
      WSIZE * brk + bytes > WSIZE * mem.Length
    }

    /** extend_heap; 0 stands for NULL. */
    method ExtendBy(words: nat) returns (bp: nat)
      requires Valid() && words >= 4
      modifies mem, segList, this`brk, this`lists, this`blk, this`prv
      ensures Valid()
      ensures bp == 0 <==> old(NoRoom(WSIZE * (words + words % 2)))
      ensures bp == 0 ==> mem[..] == old(mem[..]) && blk == old(blk) && brk == old(brk)
      ensures bp != 0 ==> FreeBlock(blk, bp) && blk[bp].words >= words && brk == old(brk) + words + words % 2
      ensures KeepsLive(old(mem[..]), mem[..], old(blk), blk, 0)
    {
      var size := if words % 2 == 1 then (words + 1) * WSIZE else words * WSIZE;
      var ok;
      KeepsItself();
      ok, bp := Sbrk(size);
      if !ok { return 0; }
      PutFresh(bp, size);
      ghost var m, b := mem[..], blk;
      bp := AddFree(bp, size);
      KeepsLiveTrans(old(mem[..]), m, mem[..], old(blk), b, blk, 0);
    }

    /** The tags of the new block and the new epilogue. */
    method PutFresh(bp: nat, size: nat)
      requires mem != segList && segList.Length == MAX_LEN && mem.Length < 0x1000_0000_0000_0000
      requires Shape(bp, blk, prv) && Tags(mem[..], bp, blk) && Lists(mem[..], segList[..], blk, lists, {}) &&
               Coalesced(blk, {})
      requires size % 16 == 0 && size >= 32 && brk == bp + size / WSIZE <= mem.Length
      modifies mem, this`blk, this`prv
      ensures bp !in old(blk) && blk == old(blk)[bp := Block(size / WSIZE, false)]
      ensures Inv({bp}) && Coalesced(blk, {bp})
      ensures KeepsLive(old(mem[..]), mem[..], old(blk), blk, 0)
    {
      ghost var w, m := size / WSIZE, mem[..];
      SizeInWords(size);
      assert BlockOk(PROLOGUE, bp, blk, prv);
      WriteFresh(bp, size, w);
      ExtendedCoalesced(bp, blk, prv, w);
      ExtendHeap(m, mem[..], segList[..], bp, blk, prv, lists, w);
      Restructure(blk[bp := Block(w, false)], prv[bp + w := bp], {bp});
    }

    /** A block size in words. */
    lemma SizeInWords(size: nat)
      requires size % 16 == 0 && size >= 32
      ensures var w := size / WSIZE; size == 8 * w && w % 2 == 0 && w >= 4
    {
    }

    method WriteFresh(bp: nat, size: nat, ghost w: nat)
      requires 2 <= bp && bp + w <= mem.Length && size == 8 * w && w % 2 == 0 && w >= 4
      modifies mem
      ensures forall i :: 0 <= i < bp - 1 ==> mem[i] == old(mem[i])
      ensures TagOk(mem[..], bp, Block(w, false)) && mem[bp + w - 1] == Pack(0, true)
    {
      TagReads(Block(w, false));
      mem[bp - 1] := Pack(size, false);
      mem[Ftrp(bp)] := Pack(size, false);
      assert NextBlkp(bp) == bp + w;
      mem[NextBlkp(bp) - 1] := Pack(0, true);
    }

    // -------------------------------------------------------------- find_fit and place

    /** find_fit is best fit; 0 stands for NULL. */
    method FindFit(asize: nat) returns (p: nat)
      requires Inv({}) && asize > 0
      ensures p == 0 <==> NoFit(blk, asize)
      ensures p != 0 ==> BestFit(blk, asize, p)
    {
      var listStart := SelectList(asize);
      var list := listStart;
      forall b: nat | FreeBlock(blk, b) && asize <= 8 * blk[b].words
        ensures blk[b].words > 0 && Class(8 * blk[b].words) >= list
      {
        ClassMonotone(asize, 8 * blk[b].words);
      }
      while list < MAX_LEN
        modifies {}
        invariant 0 <= list <= MAX_LEN
        invariant forall b: nat {:trigger FreeBlock(blk, b)} :: FreeBlock(blk, b) && asize <= 8 * blk[b].words ==>
                    blk[b].words > 0 && Class(8 * blk[b].words) >= list
      {
        p := ScanList(list, asize);
        if p != 0 {
          FirstIsBest(list, asize, p);
          return;
        }
        list := list + 1;
      }
      forall b: nat | FreeBlock(blk, b) ensures 8 * blk[b].words < asize {
        assert blk[b].words > 0 ==> Class(8 * blk[b].words) < MAX_LEN;
      }
      p := 0;
    }

    /** Nothing in the list before its j-th node is large enough. */
    ghost predicate TooSmallBefore(k: nat, asize: nat, j: nat)
      reads this
      requires |lists| == MAX_LEN && k < MAX_LEN
    {
      forall i :: 0 <= i < j && i < |lists[k]| ==> lists[k][i] in blk && 8 * blk[lists[k][i]].words < asize
    }

    /** The inner loop of find_fit. */
    method ScanList(list: nat, asize: nat) returns (p: nat)
      requires Inv({}) && list < MAX_LEN
      ensures p == 0 ==> TooSmallBefore(list, asize, |lists[list]|)
      ensures p == 0 ==> forall b: nat {:trigger FreeBlock(blk, b)} ::
                FreeBlock(blk, b) && blk[b].words > 0 && Class(8 * blk[b].words) == list ==> 8 * blk[b].words < asize
      ensures p != 0 ==> exists j :: 0 <= j < |lists[list]| && lists[list][j] == p && TooSmallBefore(list, asize, j)
      ensures p != 0 ==> FreeBlock(blk, p) && asize <= 8 * blk[p].words
    {
      ghost var ns := lists[list];
      ReadHead(list, {});
      p := segList[list];
      ghost var j := 0;
      while p != 0
        modifies {}
        invariant 0 <= j <= |ns| && p == NodeAt(ns, j)
        invariant TooSmallBefore(list, asize, j)
        decreases |ns| - j
      {
        ReadNode(list, j, {});
        if asize <= Size(p) {
          NodeIsBlock(ns, list, j, {});
          return;
        }
        p := mem[p];
        j := j + 1;
      }
      forall b: nat | FreeBlock(blk, b) && blk[b].words > 0 && Class(8 * blk[b].words) == list
        ensures 8 * blk[b].words < asize
      {
        assert Listed(blk, lists, b);
      }
    }

    /** Sorted lists and monotone classes make the first fit the best fit. */
    lemma FirstIsBest(k: nat, asize: nat, p: nat)
      requires Inv({}) && k < MAX_LEN && asize > 0
      requires exists j :: 0 <= j < |lists[k]| && lists[k][j] == p && TooSmallBefore(k, asize, j)
      requires FreeBlock(blk, p) && asize <= 8 * blk[p].words
      requires forall b: nat {:trigger FreeBlock(blk, b)} :: FreeBlock(blk, b) && asize <= 8 * blk[b].words ==>
                 blk[b].words > 0 && Class(8 * blk[b].words) >= k
      ensures BestFit(blk, asize, p)
    {
      var j :| 0 <= j < |lists[k]| && lists[k][j] == p && TooSmallBefore(k, asize, j);
      assert ListOk(mem[..], segList[..][k], blk, lists[k], k, {});
      assert NodeOk(blk, lists[k][j], k, {});
      forall b: nat | FreeBlock(blk, b) && asize <= 8 * blk[b].words ensures blk[p].words <= blk[b].words {
        if Class(8 * blk[b].words) == k {
          assert Listed(blk, lists, b);
          var i :| 0 <= i < |lists[k]| && lists[k][i] == b;
        } else if blk[b].words < blk[p].words {
          ClassMonotone(8 * blk[b].words, 8 * blk[p].words);
        }
      }
    }

    /** place: allocate asize bytes at bp, splitting off the rest when it is
        larger than 32 bytes. */
    method Place(bp: nat, asize: nat)
      requires Valid() && FreeBlock(blk, bp) && asize % 16 == 0 && 32 <= asize <= 8 * blk[bp].words
      modifies mem, segList, this`lists, this`blk, this`prv
      ensures Valid() && Live(blk, bp)
      ensures blk[bp].words == (if old(8 * blk[bp].words) - asize <= 32 then old(blk[bp].words) else asize / WSIZE)
      ensures KeepsLive(old(mem[..]), mem[..], old(blk), blk, bp)
    {
      ReadTags(bp, {});
      BlockNotNull(bp);
      var psize := Size(bp);
      var rem := psize - asize;
      NodeRemove(bp, {});
      assert {} + {bp} == {bp};
      ghost var m := mem[..];
      BlocksNotNull({bp});
      KeepsLiveWeaken(old(mem[..]), m, blk, blk, bp);
      if rem <= DSIZE * 2 {
        PutWhole(bp, psize);
        KeepsLiveTrans(old(mem[..]), m, mem[..], old(blk), old(blk), blk, bp);
      } else {
        SplitAndAdd(bp, asize, rem);
        KeepsLiveTrans(old(mem[..]), m, mem[..], old(blk), old(blk), blk, bp);
      }
    }

    /** place when a block is left over. */
    method SplitAndAdd(bp: nat, asize: nat, rem: nat)
      requires Inv({bp}) && Coalesced(blk, {}) && FreeBlock(blk, bp) && bp != 0
      requires asize % 16 == 0 && 32 <= asize && asize + rem == 8 * blk[bp].words && rem > 32
      modifies mem, segList, this`lists, this`blk, this`prv
      ensures Valid() && Live(blk, bp) && blk[bp].words == asize / WSIZE
      ensures KeepsLive(old(mem[..]), mem[..], old(blk), blk, bp)
    {
      ghost var w := asize / WSIZE;
      ReadParity(bp, {bp});
      SplitSizes(asize, rem, blk[bp].words);
      PutSplit(bp, asize, rem, w, blk[bp].words - w);
      ghost var m1, b1 := mem[..], blk;
      AddRest(bp, rem);
      KeepsLiveTrans(old(mem[..]), m1, mem[..], old(blk), b1, b1, bp);
    }

    /** Both parts in words. */
    lemma SplitSizes(asize: nat, rem: nat, words: nat)
      requires asize % 16 == 0 && 32 <= asize && asize + rem == 8 * words && rem > 32
      ensures var w := asize / WSIZE; asize == 8 * w && w % 2 == 0 && 4 <= w && w + 4 <= words && rem == 8 * (words - w)
    {
    }

    /** Enter the free rest behind bp in its list. */
    method AddRest(bp: nat, rem: nat)
      requires bp in blk && Inv({bp + blk[bp].words}) && bp != 0
      requires FreeBlock(blk, bp + blk[bp].words) && rem == 8 * blk[bp + blk[bp].words].words
      modifies mem, segList, this`lists
      ensures Inv({}) && KeepsLive(old(mem[..]), mem[..], blk, blk, bp)
    {
      ghost var n := bp + blk[bp].words;
      ReadTags(bp, {n});
      NodeAdd(NextBlkp(bp), rem, {n});
      assert {n} - {n} == {};
      BlocksNotNull({});
      KeepsLiveWeaken(old(mem[..]), mem[..], blk, blk, bp);
    }

    lemma BlocksNotNull(pending: set<nat>)
      requires Inv(pending)
      ensures 0 !in blk
    {
      assert 0 in blk ==> BlockOk(0, brk, blk, prv);
    }

    lemma BlockNotNull(b: nat)
      requires Inv({}) && b in blk
      ensures b != 0
    {
      assert BlockOk(b, brk, blk, prv);
    }

    /** Mark the whole block allocated. */
    method PutWhole(bp: nat, psize: nat)
      requires Inv({bp}) && Coalesced(blk, {}) && FreeBlock(blk, bp) && psize == 8 * blk[bp].words
      modifies mem, this`blk
      ensures Valid() && blk == old(blk)[bp := Block(old(blk[bp].words), true)]
      ensures KeepsLive(old(mem[..]), mem[..], old(blk), blk, bp)
    {
      ghost var x := Block(blk[bp].words, true);
      ReadTags(bp, {bp});
      ReadParity(bp, {bp});
      TagReads(x);
      mem[bp - 1] := Pack(psize, true);
      mem[Ftrp(bp)] := Pack(psize, true);
      PutTagsOk(old(mem[..]), mem[..], bp, x);
      MarkHeap(old(mem[..]), mem[..], segList[..], brk, blk, prv, lists, bp, true, {bp});
      MarkCoalesced(blk, bp);
      blk := blk[bp := x];
    }

    /** Tag the allocated front and the free rest. */
    method PutSplit(bp: nat, asize: nat, rem: nat, ghost w: nat, ghost r: nat)
      requires Inv({bp}) && Coalesced(blk, {}) && FreeBlock(blk, bp) && blk[bp].words == w + r
      requires asize == 8 * w && rem == 8 * r && w % 2 == 0 && w >= 4 && r >= 4
      modifies mem, this`blk, this`prv
      ensures Inv({bp + w}) && Coalesced(blk, {}) && blk == SplitBlocks(old(blk), bp, w)
      ensures FreeBlock(blk, bp + w) && blk[bp + w].words == r && Live(blk, bp) && blk[bp].words == w
      ensures KeepsLive(old(mem[..]), mem[..], old(blk), blk, bp)
    {
      ReadTags(bp, {bp});
      ReadParity(bp, {bp});
      assert blk[bp] == Block(w + r, false);
      WriteSplit(bp, asize, rem, w, r);
      SplitDone(old(mem[..]), bp, w);
    }

    ghost method SplitDone(m: seq<nat>, bp: nat, w: nat)
      requires mem != segList && segList.Length == MAX_LEN && mem.Length < 0x1000_0000_0000_0000
      requires Shape(brk, blk, prv) && Tags(m, brk, blk) && Lists(m, segList[..], blk, lists, {bp}) &&
               Coalesced(blk, {})
      requires FreeBlock(blk, bp) && w % 2 == 0 && 4 <= w && w + 4 <= blk[bp].words &&
               OnlyBlock(m, mem[..], bp, blk[bp])
      requires TagOk(mem[..], bp, Block(w, true)) && TagOk(mem[..], bp + w, Block(blk[bp].words - w, false))
      modifies this`blk, this`prv
      ensures Inv({bp + w}) && Coalesced(blk, {}) && blk == SplitBlocks(old(blk), bp, w)
      ensures KeepsLive(m, mem[..], old(blk), blk, bp)
    {
      SplitHeap(m, mem[..], segList[..], brk, blk, prv, lists, bp, w);
      SplitCoalesced(brk, blk, prv, bp, w);
      blk, prv := SplitBlocks(blk, bp, w), SplitEnds(blk, prv, bp, w);
    }

    method WriteSplit(bp: nat, asize: nat, rem: nat, ghost w: nat, ghost r: nat)
      requires asize == 8 * w && rem == 8 * r && w % 2 == 0 && r % 2 == 0 && w >= 4 && r >= 4
      requires 2 <= bp && bp + w + r <= mem.Length
      modifies mem
      ensures OnlyBlock(old(mem[..]), mem[..], bp, Block(w + r, false))
      ensures TagOk(mem[..], bp, Block(w, true)) && TagOk(mem[..], bp + w, Block(r, false))
    {
      TagReads(Block(w, true));
      TagReads(Block(r, false));
      mem[bp - 1] := Pack(asize, true);
      mem[Ftrp(bp)] := Pack(asize, true);
      assert NextBlkp(bp) == bp + w;
      mem[NextBlkp(bp) - 1] := Pack(rem, false);
      assert NextBlkp(bp) == bp + w && Ftrp(bp + w) == bp + w + r - 2;
      mem[Ftrp(NextBlkp(bp))] := Pack(rem, false);
    }

    // -------------------------------------------------------------- the interface

    /** mm_init, on a break that mem_reset_brk has just reset. */
    method Init() returns (ok: bool)
      requires brk == 0 && mem != segList && segList.Length == MAX_LEN && mem.Length < 0x1000_0000_0000_0000
      modifies mem, segList, this`brk, this`lists, this`blk, this`prv
      ensures ok <==> WSIZE * mem.Length >= 4 * WSIZE + CHUNKSIZE
      ensures ok ==> Valid() && brk == 4 + CHUNKSIZE / WSIZE
      ensures ok ==> forall b: nat :: Live(blk, b) ==> b == PROLOGUE
    {
      for list := 0 to MAX_LEN
        modifies segList
        invariant forall k :: 0 <= k < list ==> segList[k] == 0
      {
        segList[list] := 0;
      }
      var heapListp;
      ok, heapListp := Sbrk(4 * WSIZE);
      if !ok { return false; }
      mem[heapListp] := 0;
      mem[heapListp + 1] := Pack(DSIZE, true);
      mem[heapListp + 2] := Pack(DSIZE, true);
      mem[heapListp + 3] := Pack(0, true);
      blk, prv, lists := map[PROLOGUE := Block(2, true)], map[4 := PROLOGUE], seq(MAX_LEN, k => []);
      FreshHeap();
      ghost var m := mem[..];
      var bp := ExtendBy(CHUNKSIZE / WSIZE);
      ok := bp != 0;
      if ok { OnlyPrologueLive(m, mem[..], map[PROLOGUE := Block(2, true)]); }
    }

    lemma OnlyPrologueLive(m: seq<nat>, m': seq<nat>, b: map<nat, Block>)
      requires Inv({}) && KeepsLive(m, m', b, blk, 0) && b == map[PROLOGUE := Block(2, true)]
      ensures forall c: nat :: Live(blk, c) ==> c == PROLOGUE
    {
      BlocksNotNull({});
      forall c: nat | Live(blk, c) ensures c == PROLOGUE { assert Live(b, c); }
    }

    /** The heap of prologue and epilogue is well formed. */
    lemma FreshHeap()
      requires mem != segList && segList.Length == MAX_LEN && 4 <= mem.Length < 0x1000_0000_0000_0000 && brk == 4
      requires blk == map[PROLOGUE := Block(2, true)] && prv == map[4 := PROLOGUE] && lists == seq(MAX_LEN, k => [])
      requires mem[0] == 0
      requires mem[1] == Pack(DSIZE, true) && mem[2] == Pack(DSIZE, true) && mem[3] == Pack(0, true)
      requires forall k :: 0 <= k < MAX_LEN ==> segList[k] == 0
      ensures Valid()
    {
      forall k: nat | k < MAX_LEN ensures ListOk(mem[..], segList[..][k], blk, lists[k], k, {}) {
        assert lists[k] == [];
      }
      assert BlockOk(PROLOGUE, brk, blk, prv);
    }

    /** The request cannot be met: no free block fits and the heap cannot grow. */
    ghost predicate Exhausted(size: nat)
      reads this
    {
      NoFit(blk, AdjustedSize(size)) &&
      NoRoom(if AdjustedSize(size) > CHUNKSIZE then AdjustedSize(size) else CHUNKSIZE)
    }

    /** How many words the break advances when no block of asize bytes fits: one
        chunk of 16384 bytes, or asize if that is more. */
    static function Growth(asize: nat): nat { (if asize > 16384 then asize else 16384) / 8 }

    /** find_fit, and extend_heap where it fails; 0 stands for NULL. */
    method FitOrExtend(asize: nat) returns (bp: nat)
      requires Valid() && asize % 16 == 0 && asize >= 32
      modifies mem, segList, this`brk, this`lists, this`blk, this`prv
      ensures Valid()
      ensures bp == 0 <==> old(NoFit(blk, asize) && NoRoom(if asize > CHUNKSIZE then asize else CHUNKSIZE))
      ensures bp == 0 ==> mem[..] == old(mem[..]) && blk == old(blk) && brk == old(brk)
      ensures bp != 0 ==> FreeBlock(blk, bp) && asize <= 8 * blk[bp].words
      ensures !NoFit(old(blk), asize) ==> blk == old(blk) && BestFit(old(blk), asize, bp)
      ensures brk == old(brk) + if bp == 0 || !NoFit(old(blk), asize) then 0 else Growth(asize)
      ensures KeepsLive(old(mem[..]), mem[..], old(blk), blk, 0)
    {
      KeepsItself();
      bp := FindFit(asize);
      if bp == 0 { bp := ExtendFor(asize); }
    }

    /** extend_heap as malloc calls it. */
    method ExtendFor(asize: nat) returns (bp: nat)
      requires Valid() && asize % 16 == 0 && asize >= 32
      modifies mem, segList, this`brk, this`lists, this`blk, this`prv
      ensures Valid()
      ensures bp == 0 <==> old(NoRoom(if asize > CHUNKSIZE then asize else CHUNKSIZE))
      ensures bp == 0 ==> mem[..] == old(mem[..]) && blk == old(blk) && brk == old(brk)
      ensures bp != 0 ==> FreeBlock(blk, bp) && asize <= 8 * blk[bp].words
      ensures KeepsLive(old(mem[..]), mem[..], old(blk), blk, 0)
      ensures brk == old(brk) + if bp == 0 then 0 else Growth(asize)
    {
      var extendsize := if asize > CHUNKSIZE then asize else CHUNKSIZE;
      var words := extendsize / WSIZE;
      assert WSIZE * (words + words % 2) == extendsize;
      bp := ExtendBy(words);
    }

    /** malloc; 0 stands for NULL. */
    method Malloc(size: nat) returns (p: nat)
      requires Valid() && size + 2 * ALIGNMENT - 1 < TWO64
      modifies mem, segList, this`brk, this`lists, this`blk, this`prv
      ensures Valid()
      ensures p == 0 <==> size == 0 || old(Exhausted(size))
      ensures p == 0 ==> mem[..] == old(mem[..]) && blk == old(blk) && brk == old(brk)
      ensures p != 0 ==> IsLive(p) && !old(Live(blk, p)) && p % 2 == 0 && p + blk[p].words <= brk
      ensures p != 0 ==> AdjustedSize(size) <= 8 * blk[p].words && size + ALIGNMENT <= 8 * blk[p].words
      ensures p != 0 ==> 8 * blk[p].words <= AdjustedSize(size) + 32
      ensures p != 0 && !NoFit(old(blk), AdjustedSize(size)) ==> BestFit(old(blk), AdjustedSize(size), p)
      ensures KeepsLive(old(mem[..]), mem[..], old(blk), blk, p)
      ensures brk == old(brk) + if p == 0 || !NoFit(old(blk), AdjustedSize(size)) then 0 else Growth(AdjustedSize(size))
    {
      if size == 0 {
        KeepsItself();
        return 0;
      }
      AdjustedSizeFits(size);
      var asize := if size <= DSIZE then 2 * DSIZE else Align((size + ALIGNMENT) % TWO64);
      BlocksNotNull({});
      p := FitOrExtend(asize);
      if p == 0 { return; }
      PlaceFresh(p, asize, old(mem[..]), old(blk));
    }

    /** place, with what it means for the caller of malloc. */
    method PlaceFresh(bp: nat, asize: nat, ghost m0: seq<nat>, ghost b0: map<nat, Block>)
      requires Valid() && FreeBlock(blk, bp) && asize % 16 == 0 && 32 <= asize <= 8 * blk[bp].words
      requires KeepsLive(m0, mem[..], b0, blk, 0) && 0 !in b0
      modifies mem, segList, this`lists, this`blk, this`prv
      ensures Valid() && IsLive(bp) && !Live(b0, bp) && bp % 2 == 0 && bp + blk[bp].words <= brk && bp != 0
      ensures asize <= 8 * blk[bp].words <= asize + 32
      ensures KeepsLive(m0, mem[..], b0, blk, bp)
    {
      ghost var m, b := mem[..], blk;
      SizeInWords(asize);
      BlocksNotNull({});
      WasNotLive(m0, m, b0, bp);
      KeepsLiveWeaken(m0, m, b0, b, bp);
      Place(bp, asize);
      KeepsLiveTrans(m0, m, mem[..], b0, b, blk, bp);
      ReadTags(bp, {});
      ReadParity(bp, {});
    }

    lemma WasNotLive(m: seq<nat>, m': seq<nat>, b: map<nat, Block>, p: nat)
      requires KeepsLive(m, m', b, blk, 0) && FreeBlock(blk, p) && p != 0
      ensures !Live(b, p)
    {
      assert Live(b, p) ==> LiveKept(m, m', b, blk, p);
    }

    /** GET_TAG, TAG_REMOVE and PUT_TAG: the second bit, which stays 0. */
    function GetTag(word: nat): nat { if word / 2 % 2 == 1 then 2 else 0 }

    function ClearTag(word: nat): nat { if word / 2 % 2 == 1 then word - 2 else word }

    lemma TagBitIsClear(b: Block)
      requires b.words % 2 == 0
      ensures GetTag(Tag(b)) == 0 && ClearTag(Tag(b)) == Tag(b)
      ensures GetTag(Pack(0, true)) == 0 && ClearTag(Pack(0, true)) == Pack(0, true)
    {
      assert 8 * b.words / 2 == 2 * (2 * b.words);
    }

    /** The words of the heap, as numbers: padding 0, epilogue 1, and the size in bytes
        at both ends of every block, plus 1 if it is allocated. */
    lemma HeapWords(b: nat)
      requires Valid()
      ensures 4 <= brk <= mem.Length && mem[0] == 0 && mem[brk - 1] == 1
      ensures b in blk ==>
                2 <= b && b + blk[b].words <= brk && blk[b].words >= 2 &&
                mem[b - 1] == mem[b + blk[b].words - 2] == 8 * blk[b].words + if blk[b].alloc then 1 else 0
    {
      assert BlockOk(PROLOGUE, brk, blk, prv);
      if b in blk { assert BlockOk(b, brk, blk, prv) && TagOk(mem[..], b, blk[b]); }
    }

    /** The words of list k: its head in seg_list, then in the first payload word of each
        block the next one, and in the second the one before; 0 ends it both ways. */
    lemma ListWords(k: nat, i: nat)
      requires Valid() && k < 61
      ensures segList.Length == 61 == |lists| && segList[k] == (if lists[k] == [] then 0 else lists[k][0])
      ensures i < |lists[k]| ==>
                var ns := lists[k];
                && FreeBlock(blk, ns[i]) && ns[i] + 1 < mem.Length
                && mem[ns[i]] == (if i + 1 < |ns| then ns[i + 1] else 0)
                && mem[ns[i] + 1] == (if i > 0 then ns[i - 1] else 0)
    {
      assert ListOk(mem[..], segList[..][k], blk, lists[k], k, {});
      if i < |lists[k]| { assert LinkOk(mem[..], lists[k], i) && NodeOk(blk, lists[k][i], k, {}); }
    }

    /** free */
    method Free(bp: nat)
      requires Valid() && IsLive(bp)
      modifies mem, segList, this`lists, this`blk, this`prv
      ensures Valid() && !Live(blk, bp)
      ensures KeepsLive(old(mem[..]), mem[..], old(blk), blk, bp)
    {
      ReadTags(bp, {});
      var size := Size(bp);
      NextTagIsClear(bp);
      mem[NextBlkp(bp) - 1] := ClearTag(mem[NextBlkp(bp) - 1]);
      assert mem[..] == old(mem[..]);
      PutFree(bp, size);
      ghost var m, b := mem[..], blk;
      BlocksNotNull({bp});
      var r := AddFree(bp, size);
      BlocksNotNull({});
      WasDead(m, mem[..], b, bp);
      KeepsLiveWeaken(m, mem[..], b, blk, bp);
      KeepsLiveTrans(old(mem[..]), m, mem[..], old(blk), b, blk, bp);
    }

    lemma NextTagIsClear(bp: nat)
      requires Inv({}) && bp in blk
      ensures var n := bp + blk[bp].words; 1 <= n <= mem.Length && ClearTag(mem[n - 1]) == mem[n - 1]
    {
      assert BlockOk(bp, brk, blk, prv);
      var n := bp + blk[bp].words;
      if n in blk {
        assert BlockOk(n, brk, blk, prv) && TagOk(mem[..], n, blk[n]);
        TagBitIsClear(blk[n]);
      }
    }

    lemma WasDead(m: seq<nat>, m': seq<nat>, b: map<nat, Block>, p: nat)
      requires KeepsLive(m, m', b, blk, 0) && !Live(b, p) && p != 0
      ensures !Live(blk, p)
    {
    }

    /** Mark the block free. */
    method PutFree(bp: nat, size: nat)
      requires Valid() && IsLive(bp) && size == 8 * blk[bp].words
      modifies mem, this`blk
      ensures Inv({bp}) && Coalesced(blk, {bp}) && blk == old(blk)[bp := Block(old(blk[bp].words), false)]
      ensures KeepsLive(old(mem[..]), mem[..], old(blk), blk, bp)
    {
      ghost var x := Block(blk[bp].words, false);
      ReadTags(bp, {});
      ReadParity(bp, {});
      assert TagOk(mem[..], bp, blk[bp]);
      TagBitIsClear(blk[bp]);
      TagReads(x);
      mem[bp - 1] := Pack(size, false) + GetTag(mem[bp - 1]);
      mem[Ftrp(bp)] := Pack(size, false) + GetTag(mem[Ftrp(bp)]);
      PutTagsOk(old(mem[..]), mem[..], bp, x);
      MarkHeap(old(mem[..]), mem[..], segList[..], brk, blk, prv, lists, bp, false, {});
      FreedCoalesced(blk, bp);
      blk := blk[bp := x];
    }

    lemma WholeWords(n: nat, k: nat)
      requires n == WSIZE * k
      ensures n / WSIZE == k && n % WSIZE == 0
    {
    }

    /** mem_memcpy between ranges that do not overlap: k whole words, then the low
        bytes of one more when n is not a multiple of 8. */
    method Memcpy(dst: nat, src: nat, n: nat, ghost k: nat)
      requires k == n / WSIZE
      requires var w := k + if n % WSIZE > 0 then 1 else 0;
        dst + w <= mem.Length && src + w <= mem.Length && (dst + w <= src || src + w <= dst)
      modifies mem
      ensures mem[dst..dst + k] == old(mem[src..src + k])
      ensures n % WSIZE > 0 ==> LowReplaced(mem[dst + k], old(mem[dst + k]), old(mem[src + k]), n % WSIZE)
      ensures forall i :: 0 <= i < mem.Length && !(dst <= i < dst + k) && (n % WSIZE > 0 ==> i != dst + k) ==>
                mem[i] == old(mem[i])
    {
      var left, d, s := n, dst, src;
      ghost var j := 0;
      while left >= WSIZE
        invariant 0 <= j <= k && left == n - WSIZE * j && d == dst + j && s == src + j
        invariant mem[dst..dst + j] == old(mem[src..src + j])
        invariant forall i :: 0 <= i < mem.Length && !(dst <= i < dst + j) ==> mem[i] == old(mem[i])
      {
        assert mem[s] == old(mem[s]);
        mem[d] := mem[s];
        left := left - WSIZE;
        s := s + 1;
        d := d + 1;
        j := j + 1;
      }
      if left > 0 {
        assert mem[s] == old(mem[s]) && mem[d] == old(mem[d]);
        SplicedBytes(mem[d], mem[s], left);
        mem[d] := Spliced(mem[d], Masked(mem[s], left), left);
      }
    }

    /** realloc returns the block unmoved. */
    ghost predicate Stays(p: nat, size: nat)
      reads this
    {
      p in blk && (if size <= DSIZE then 2 * DSIZE else Align(size)) + ALIGNMENT <= 8 * blk[p].words
    }

    /** realloc; the source handles neither a failing inner malloc nor NULL with
        size 0. */
    method Realloc(oldptr: nat, size: nat) returns (p: nat)
      requires Valid() && (IsLive(oldptr) || (oldptr == 0 && size > 0)) && size + 2 * ALIGNMENT - 1 < TWO64
      requires oldptr == 0 || size == 0 || Stays(oldptr, size) || !Exhausted(size)
      modifies mem, segList, this`brk, this`lists, this`blk, this`prv
      ensures Valid()
      ensures size == 0 ==> p == 0 && !Live(blk, oldptr) && KeepsLive(old(mem[..]), mem[..], old(blk), blk, oldptr)
      ensures size > 0 && old(Stays(oldptr, size)) ==> p == oldptr && mem[..] == old(mem[..]) && blk == old(blk)
      ensures oldptr == 0 ==> p == 0 && mem[..] == old(mem[..]) && blk == old(blk)
      ensures oldptr != 0 && size > 0 && !old(Stays(oldptr, size)) ==> !old(Live(blk, p)) && !Live(blk, oldptr)
      ensures oldptr != 0 && size > 0 && !old(Stays(oldptr, size)) ==>
                KeepsOthers(old(mem[..]), mem[..], old(blk), blk, oldptr, p)
      ensures oldptr != 0 && size > 0 ==> IsLive(p) && size + ALIGNMENT <= 8 * blk[p].words
      ensures oldptr != 0 && size > 0 ==>
                Payload(old(mem[..]), oldptr, old(blk[oldptr].words)) <= Payload(mem[..], p, blk[p].words)
      ensures brk == old(brk) +
                if oldptr == 0 || size == 0 || old(Stays(oldptr, size)) || !NoFit(old(blk), AdjustedSize(size)) then 0
                else Growth(AdjustedSize(size))
    {
      BlocksNotNull({});
      if size == 0 {
        Free(oldptr);
        return 0;
      }
      if oldptr == 0 { return 0; }
      ReadTags(oldptr, {});
      ReadParity(oldptr, {});
      var oldsize := Size(oldptr);
      var asize := if size <= DSIZE then 2 * DSIZE else Align(size);
      oldsize := oldsize - ALIGNMENT;
      AlignFits(size);
      if oldsize >= asize { return oldptr; }
      p := Relocate(oldptr, size, oldsize, asize);
    }

    /** realloc when the block must move. */
    method Relocate(oldptr: nat, size: nat, oldsize0: nat, asize: nat) returns (p: nat)
      requires Valid() && IsLive(oldptr) && 0 < size && size + 2 * ALIGNMENT - 1 < TWO64 && !Exhausted(size)
      requires oldsize0 == 8 * blk[oldptr].words - ALIGNMENT < asize
      requires asize == if size <= DSIZE then 2 * DSIZE else Align(size)
      modifies mem, segList, this`brk, this`lists, this`blk, this`prv
      ensures Valid()
      ensures !old(Live(blk, p)) && !Live(blk, oldptr)
      ensures KeepsOthers(old(mem[..]), mem[..], old(blk), blk, oldptr, p)
      ensures IsLive(p) && size + ALIGNMENT <= 8 * blk[p].words
      ensures Payload(old(mem[..]), oldptr, old(blk[oldptr].words)) <= Payload(mem[..], p, blk[p].words)
      ensures brk == old(brk) + if !NoFit(old(blk), AdjustedSize(size)) then 0 else Growth(AdjustedSize(size))
    {
      p := MallocCopy(oldptr, size, oldsize0, asize);
      ghost var m2, b1 := mem[..], blk;
      Free(oldptr);
      assert LiveKept(m2, mem[..], b1, blk, p);
      KeptPayload(m2, mem[..], b1, blk, p);
      MovedKeeps(old(mem[..]), m2, mem[..], old(blk), b1, blk, oldptr, p);
    }

    /** A block malloc gives for more than the old payload is no smaller than the old block. */
    lemma NewHoldsOld(size: nat, asize: nat, was: nat, now: nat)
      requires 0 < size && size + 2 * ALIGNMENT - 1 < TWO64 && was % 2 == 0
      requires 8 * was - ALIGNMENT < asize == if size <= DSIZE then 2 * DSIZE else Align(size)
      requires AdjustedSize(size) <= 8 * now
      ensures was <= now
    {
      AlignFits(size);
    }

    /** The new block, with the old payload copied into it. */
    method MallocCopy(oldptr: nat, size: nat, oldsize0: nat, asize: nat) returns (p: nat)
      requires Valid() && IsLive(oldptr) && 0 < size && size + 2 * ALIGNMENT - 1 < TWO64 && !Exhausted(size)
      requires oldsize0 == 8 * blk[oldptr].words - ALIGNMENT < asize
      requires asize == if size <= DSIZE then 2 * DSIZE else Align(size)
      modifies mem, segList, this`brk, this`lists, this`blk, this`prv
      ensures Valid() && IsLive(oldptr) && IsLive(p) && p != oldptr && !old(Live(blk, p))
      ensures KeepsLive(old(mem[..]), mem[..], old(blk), blk, p)
      ensures size + ALIGNMENT <= 8 * blk[p].words
      ensures Payload(old(mem[..]), oldptr, old(blk[oldptr].words)) <= Payload(mem[..], p, blk[p].words)
      ensures brk == old(brk) + if !NoFit(old(blk), AdjustedSize(size)) then 0 else Growth(AdjustedSize(size))
    {
      ReadParity(oldptr, {});
      p := Malloc(size);
      ghost var m1, b1 := mem[..], blk;
      assert LiveKept(old(mem[..]), m1, old(blk), b1, oldptr);
      KeptPayload(old(mem[..]), m1, old(blk), b1, oldptr);
      NewHoldsOld(size, asize, b1[oldptr].words, b1[p].words);
      CopyAtMost(p, oldptr, oldsize0, asize);
      KeepsLiveTrans(old(mem[..]), m1, mem[..], old(blk), b1, b1, p);
    }

    /** Copy the old payload, or asize bytes if that is less. */
    method CopyAtMost(p: nat, oldptr: nat, oldsize0: nat, asize: nat)
      requires Valid() && IsLive(p) && IsLive(oldptr) && p != oldptr
      requires oldsize0 == 8 * blk[oldptr].words - ALIGNMENT < asize && blk[oldptr].words <= blk[p].words
      modifies mem
      ensures Valid()
      ensures KeepsLive(old(mem[..]), mem[..], blk, blk, p)
      ensures Payload(old(mem[..]), oldptr, blk[oldptr].words) <= Payload(mem[..], p, blk[p].words)
    {
      var oldsize := oldsize0;
      if asize < oldsize { oldsize := asize; }
      ReadTags(oldptr, {});
      CopyPayload(p, oldptr, oldsize);
    }

    /** memcpy from the old payload into the new one. */
    method CopyPayload(p: nat, oldptr: nat, n: nat)
      requires Valid() && IsLive(p) && IsLive(oldptr) && p != oldptr
      requires n == WSIZE * (blk[oldptr].words - 2) && blk[oldptr].words <= blk[p].words
      modifies mem
      ensures Valid()
      ensures KeepsLive(old(mem[..]), mem[..], blk, blk, p)
      ensures Payload(old(mem[..]), oldptr, blk[oldptr].words) <= Payload(mem[..], p, blk[p].words)
    {
      ReadTags(p, {});
      ReadTags(oldptr, {});
      assert TagOk(mem[..], p, blk[p]);
      ghost var m, seg := mem[..], segList[..];
      CopyWords(p, oldptr, n, blk[oldptr].words, blk[p]);
      assert segList[..] == seg;
      PayloadWrite(m, mem[..], seg, brk, blk, prv, lists, p);
    }

    /** The copy itself, into the payload of a block x. */
    method CopyWords(p: nat, oldptr: nat, n: nat, ghost words: nat, ghost x: Block)
      requires 2 <= words <= x.words && n == WSIZE * (words - 2) && TagOk(mem[..], p, x) && p >= 1
      requires oldptr + words <= mem.Length && p + x.words <= mem.Length
      requires p + x.words <= oldptr || oldptr + words <= p
      modifies mem
      ensures OnlyBlock(old(mem[..]), mem[..], p, x) && TagOk(mem[..], p, x)
      ensures Payload(old(mem[..]), oldptr, words) <= Payload(mem[..], p, x.words)
    {
      ghost var m, k := mem[..], words - 2;
      WholeWords(n, k);
      Memcpy(p, oldptr, n, k);
      PayloadPrefix(m, mem[..], oldptr, words, p, x.words);
    }
  }

  /** Allocate p, write only to p, then free oldptr: everything else is kept. */
  lemma MovedKeeps(m: seq<nat>, m2: seq<nat>, m': seq<nat>, b: map<nat, Block>, b1: map<nat, Block>,
          b': map<nat, Block>, oldptr: nat, p: nat)
    requires KeepsLive(m, m2, b, b1, p) && KeepsLive(m2, m', b1, b', oldptr) && !Live(b, p) && !Live(b', oldptr)
    ensures KeepsOthers(m, m', b, b', oldptr, p)
  {
    forall c: nat | Live(b, c) && c != oldptr ensures LiveKept(m, m', b, b', c) {
      assert LiveKept(m, m2, b, b1, c);
      assert Live(b1, c);
      assert LiveKept(m2, m', b1, b', c);
    }
    forall c: nat | Live(b', c) && c != p ensures Live(b, c) && c != oldptr { assert Live(b1, c); }
  }
}
