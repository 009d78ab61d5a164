/** What each raw write of the allocator means for the heap as a whole. */
module AllocatorLemmas {
  import opened HeapShape
  import opened FreeLists

  /** A live block keeps its place and every payload word. */
  ghost predicate LiveKept(m: seq<nat>, m': seq<nat>, blk: map<nat, Block>, blk': map<nat, Block>, b: nat) {
    b in blk && b in blk' && blk'[b] == blk[b] && b + blk[b].words <= |m| && |m'| == |m| &&
    forall i :: b <= i < b + blk[b].words - 2 ==> m'[i] == m[i]
  }

  ghost predicate Live(blk: map<nat, Block>, b: nat) {
    b in blk && blk[b].alloc
  }

  /** All live blocks, but for `but`, are kept, and no other block becomes live. */
  ghost predicate KeepsLive(m: seq<nat>, m': seq<nat>, blk: map<nat, Block>, blk': map<nat, Block>, but: nat) {
    |m'| == |m| &&
    (forall b: nat {:trigger LiveKept(m, m', blk, blk', b)} ::
       Live(blk, b) && b != but ==> LiveKept(m, m', blk, blk', b)) &&
    (forall b: nat {:trigger Live(blk', b)} :: Live(blk', b) && b != but ==> Live(blk, b))
  }

  lemma KeepsLiveTrans(m: seq<nat>, m1: seq<nat>, m': seq<nat>, blk: map<nat, Block>, blk1: map<nat, Block>,
          blk': map<nat, Block>, but: nat)
    requires KeepsLive(m, m1, blk, blk1, but) && KeepsLive(m1, m', blk1, blk', but)
    ensures KeepsLive(m, m', blk, blk', but)
  {
    forall b: nat | Live(blk, b) && b != but ensures LiveKept(m, m', blk, blk', b) {
      assert LiveKept(m, m1, blk, blk1, b);
      assert Live(blk1, b);
      assert LiveKept(m1, m', blk1, blk', b);
    }
    forall b: nat | Live(blk', b) && b != but ensures Live(blk, b) { assert Live(blk1, b); }
  }

  lemma KeepsLiveWeaken(m: seq<nat>, m': seq<nat>, blk: map<nat, Block>, blk': map<nat, Block>, but: nat)
    requires KeepsLive(m, m', blk, blk', 0) && 0 !in blk && 0 !in blk'
    ensures KeepsLive(m, m', blk, blk', but)
  {
    forall b: nat | Live(blk, b) && b != but ensures LiveKept(m, m', blk, blk', b) {
      assert b != 0;
      assert LiveKept(m, m', blk, blk', b);
    }
  }

  /** The payload words of a block of w words at b. */
  ghost function Payload(m: seq<nat>, b: nat, w: nat): seq<nat> {
    if 2 <= w && b + w - 2 <= |m| then m[b..b + w - 2] else []
  }

  lemma KeptPayload(m: seq<nat>, m': seq<nat>, blk: map<nat, Block>, blk': map<nat, Block>, b: nat)
    requires LiveKept(m, m', blk, blk', b)
    ensures Payload(m', b, blk'[b].words) == Payload(m, b, blk[b].words)
  {
  }

  lemma PayloadPrefix(m: seq<nat>, m': seq<nat>, a: nat, wa: nat, b: nat, wb: nat)
    requires 2 <= wa <= wb && a + wa <= |m| && b + wb <= |m'|
    requires m'[b..b + wa - 2] == m[a..a + wa - 2]
    ensures Payload(m, a, wa) <= Payload(m', b, wb)
  {
    assert m'[b..b + wb - 2][..wa - 2] == m'[b..b + wa - 2];
  }

  // ---------------------------------------------------------------- link writes

  /** m' differs from m only in link words of free blocks. */
  ghost predicate LinksOnly(m: seq<nat>, m': seq<nat>, blk: map<nat, Block>) {
    |m'| == |m| &&
    forall i: nat {:trigger m'[i]} :: i < |m| && m'[i] != m[i] ==> FreeBlock(blk, i) || (i > 0 && FreeBlock(blk, i - 1))
  }

  lemma NotALink(brk: nat, blk: map<nat, Block>, prv: map<nat, nat>, b: nat, i: nat)
    requires Shape(brk, blk, prv) && b in blk && Owns(b, blk[b], i)
    requires blk[b].alloc || i == b - 1 || i == b + blk[b].words - 2
    ensures !FreeBlock(blk, i) && !(i > 0 && FreeBlock(blk, i - 1))
  {
    assert BlockOk(b, brk, blk, prv);
    forall f: nat | FreeBlock(blk, f) ensures i != f && i != f + 1 {
      assert BlockOk(f, brk, blk, prv);
    }
  }

  lemma LinksKeepTags(m: seq<nat>, m': seq<nat>, brk: nat, blk: map<nat, Block>, prv: map<nat, nat>)
    requires Shape(brk, blk, prv) && Tags(m, brk, blk) && LinksOnly(m, m', blk)
    ensures Tags(m', brk, blk) && KeepsLive(m, m', blk, blk, 0)
  {
    forall b | b in blk ensures TagOk(m', b, blk[b]) {
      assert BlockOk(b, brk, blk, prv) && TagOk(m, b, blk[b]);
      NotALink(brk, blk, prv, b, b - 1);
      NotALink(brk, blk, prv, b, b + blk[b].words - 2);
    }
    forall b: nat | Live(blk, b) ensures LiveKept(m, m', blk, blk, b) {
      assert BlockOk(b, brk, blk, prv);
      forall i | b <= i < b + blk[b].words - 2 ensures m'[i] == m[i] { NotALink(brk, blk, prv, b, i); }
    }
    forall f: nat | FreeBlock(blk, f) ensures f != brk - 1 && f + 1 != brk - 1 {
      assert BlockOk(f, brk, blk, prv);
    }
    assert m'[brk - 1] == m[brk - 1];
  }

  lemma InsertIsLinksOnly(m: seq<nat>, m': seq<nat>, head: nat, blk: map<nat, Block>, ns: seq<nat>, k: nat,
          pending: set<nat>, j: nat, x: nat)
    requires ListOk(m, head, blk, ns, k, pending) && InsertedLinks(m, m', ns, j, x) && FreeBlock(blk, x)
    ensures LinksOnly(m, m', blk)
  {
    if j < |ns| { assert NodeOk(blk, ns[j], k, pending); }
    if j > 0 { assert NodeOk(blk, ns[j - 1], k, pending); }
  }

  lemma RemoveIsLinksOnly(m: seq<nat>, m': seq<nat>, head: nat, blk: map<nat, Block>, ns: seq<nat>, k: nat,
          pending: set<nat>, j: nat)
    requires ListOk(m, head, blk, ns, k, pending) && RemovedLinks(m, m', ns, j)
    ensures LinksOnly(m, m', blk)
  {
    if j + 1 < |ns| { assert NodeOk(blk, ns[j + 1], k, pending); }
    if j > 0 { assert NodeOk(blk, ns[j - 1], k, pending); }
  }

  // ---------------------------------------------------------------- tag writes

  lemma OutsideKept(m: seq<nat>, m': seq<nat>, brk: nat, blk: map<nat, Block>, prv: map<nat, nat>, a: nat, x: Block,
          b: nat)
    requires Shape(brk, blk, prv) && Tags(m, brk, blk) && OnlyBlock(m, m', a, x) && b in blk && b != PROLOGUE
    requires b + blk[b].words <= a || a + x.words <= b
    ensures b + blk[b].words <= |m| && b + 1 < |m| && m'[b] == m[b] && m'[b + 1] == m[b + 1]
    ensures forall i :: b <= i < b + blk[b].words - 2 ==> m'[i] == m[i]
  {
    assert BlockOk(b, brk, blk, prv);
  }

  lemma MergeKept(m: seq<nat>, m': seq<nat>, brk: nat, blk: map<nat, Block>, prv: map<nat, nat>, a: nat, b: nat)
    requires Shape(brk, blk, prv) && Tags(m, brk, blk) && a in blk && a + blk[a].words in blk
    requires OnlyBlock(m, m', a, MergeBlocks(blk, a)[a])
    requires b in blk && b != a && b != a + blk[a].words && b != PROLOGUE
    ensures KeptFree(m, m', blk, MergeBlocks(blk, a), {a, a + blk[a].words}, b)
    ensures LiveKept(m, m', blk, MergeBlocks(blk, a), b)
  {
    assert BlockOk(a, brk, blk, prv) && BlockOk(a + blk[a].words, brk, blk, prv) && BlockOk(b, brk, blk, prv);
    OutsideKept(m, m', brk, blk, prv, a, MergeBlocks(blk, a)[a], b);
  }

  lemma MergeLists(m: seq<nat>, m': seq<nat>, seg: seq<nat>, brk: nat, blk: map<nat, Block>, prv: map<nat, nat>,
          lists: seq<seq<nat>>, pending: set<nat>, a: nat)
    requires Shape(brk, blk, prv) && Tags(m, brk, blk) && Lists(m, seg, blk, lists, pending)
    requires FreeBlock(blk, a) && FreeBlock(blk, a + blk[a].words) && a in pending && a + blk[a].words in pending
    requires OnlyBlock(m, m', a, MergeBlocks(blk, a)[a]) && TagOk(m', a, MergeBlocks(blk, a)[a])
    ensures Lists(m', seg, MergeBlocks(blk, a), lists, pending - {a + blk[a].words})
  {
    var n := a + blk[a].words;
    var blk' := MergeBlocks(blk, a);
    assert BlockOk(a, brk, blk, prv) && BlockOk(n, brk, blk, prv);
    forall b: nat | FreeBlock(blk, b) && b !in pending ensures KeptFree(m, m', blk, blk', pending - {n}, b) {
      MergeKept(m, m', brk, blk, prv, a, b);
    }
    ListsFrame(m, m', seg, blk, blk', lists, pending, pending - {n});
  }

  lemma MergeKeeps(m: seq<nat>, m': seq<nat>, seg: seq<nat>, brk: nat, blk: map<nat, Block>, prv: map<nat, nat>,
          lists: seq<seq<nat>>, pending: set<nat>, a: nat)
    requires Shape(brk, blk, prv) && Tags(m, brk, blk) && Lists(m, seg, blk, lists, pending)
    requires FreeBlock(blk, a) && FreeBlock(blk, a + blk[a].words) && a in pending && a + blk[a].words in pending
    requires OnlyBlock(m, m', a, MergeBlocks(blk, a)[a]) && TagOk(m', a, MergeBlocks(blk, a)[a])
    ensures KeepsLive(m, m', blk, MergeBlocks(blk, a), 0)
  {
    var n := a + blk[a].words;
    var blk' := MergeBlocks(blk, a);
    assert BlockOk(a, brk, blk, prv) && BlockOk(n, brk, blk, prv) && BlockOk(PROLOGUE, brk, blk, prv);
    forall b: nat | Live(blk, b) ensures LiveKept(m, m', blk, blk', b) {
      if b != PROLOGUE { MergeKept(m, m', brk, blk, prv, a, b); }
    }
  }

  lemma MergeHeap(m: seq<nat>, m': seq<nat>, seg: seq<nat>, brk: nat, blk: map<nat, Block>, prv: map<nat, nat>,
          lists: seq<seq<nat>>, pending: set<nat>, a: nat)
    requires Shape(brk, blk, prv) && Tags(m, brk, blk) && Lists(m, seg, blk, lists, pending)
    requires FreeBlock(blk, a) && FreeBlock(blk, a + blk[a].words) && a in pending && a + blk[a].words in pending
    requires OnlyBlock(m, m', a, MergeBlocks(blk, a)[a]) && TagOk(m', a, MergeBlocks(blk, a)[a])
    ensures Shape(brk, MergeBlocks(blk, a), MergeEnds(blk, prv, a))
    ensures Tags(m', brk, MergeBlocks(blk, a)) &&
            Lists(m', seg, MergeBlocks(blk, a), lists, pending - {a + blk[a].words})
    ensures KeepsLive(m, m', blk, MergeBlocks(blk, a), 0)
  {
    assert BlockOk(a, brk, blk, prv);
    MergeShape(brk, blk, prv, a);
    MergeTags(m, m', brk, blk, prv, a);
    MergeLists(m, m', seg, brk, blk, prv, lists, pending, a);
    MergeKeeps(m, m', seg, brk, blk, prv, lists, pending, a);
  }

  /** The same, with the merged maps as results. */
  lemma MergePair(m: seq<nat>, m': seq<nat>, seg: seq<nat>, brk: nat, blk: map<nat, Block>, prv: map<nat, nat>,
          lists: seq<seq<nat>>, pending: set<nat>, a: nat)
    returns (blk': map<nat, Block>, prv': map<nat, nat>)
    requires Shape(brk, blk, prv) && Tags(m, brk, blk) && Lists(m, seg, blk, lists, pending)
    requires FreePair(blk, a) && a in pending && a + blk[a].words in pending
    requires OnlyBlock(m, m', a, Block(blk[a].words + blk[a + blk[a].words].words, false))
    requires TagOk(m', a, Block(blk[a].words + blk[a + blk[a].words].words, false))
    ensures blk' == MergeBlocks(blk, a) && a in blk' && blk'[a].words == blk[a].words + blk[a + blk[a].words].words
    ensures Shape(brk, blk', prv') && Tags(m', brk, blk') && Lists(m', seg, blk', lists, pending - {a + blk[a].words})
    ensures KeepsLive(m, m', blk, blk', 0)
  {
    blk', prv' := MergeBlocks(blk, a), MergeEnds(blk, prv, a);
    MergeHeap(m, m', seg, brk, blk, prv, lists, pending, a);
  }

  /** Join the block at p with the two after it. */
  ghost function MergeThree(blk: map<nat, Block>, p: nat): map<nat, Block>
    requires p in blk && p + blk[p].words in blk
    requires p + blk[p].words + blk[p + blk[p].words].words in blk
  {
    var b := p + blk[p].words;
    var n := b + blk[b].words;
    (blk - {b, n})[p := Block(blk[p].words + blk[b].words + blk[n].words, false)]
  }

  ghost function MergeThreeEnds(blk: map<nat, Block>, prv: map<nat, nat>, p: nat): map<nat, nat>
    requires p in blk && p + blk[p].words in blk
    requires p + blk[p].words + blk[p + blk[p].words].words in blk
  {
    var b := p + blk[p].words;
    var n := b + blk[b].words;
    (prv - {b, n})[n + blk[n].words := p]
  }

  lemma MergeThreeTop(brk: nat, blk: map<nat, Block>, prv: map<nat, nat>, p: nat, b: nat, n: nat)
    requires Shape(brk, blk, prv) && FreePair(blk, p) && FreePair(blk, b)
    requires b == p + blk[p].words && n == b + blk[b].words
    ensures p in MergeThree(blk, p)
    ensures MergeThree(blk, p)[p] == Block(blk[p].words + blk[b].words + blk[n].words, false)
  {
    assert BlockOk(p, brk, blk, prv) && BlockOk(b, brk, blk, prv);
  }

  /** Write header and footer of a block. */
  ghost function PutTags(m: seq<nat>, a: nat, x: Block): seq<nat>
    requires 1 <= a && 2 <= a + x.words && a + x.words - 2 < |m| && a - 1 < |m|
  {
    m[a - 1 := Tag(x)][a + x.words - 2 := Tag(x)]
  }

  lemma PutTagsOk(m: seq<nat>, m': seq<nat>, a: nat, x: Block)
    requires 1 <= a && 2 <= x.words && a + x.words - 2 < |m|
    requires m' == PutTags(m, a, x) || m' == m[a + x.words - 2 := Tag(x)][a - 1 := Tag(x)]
    ensures OnlyBlock(m, m', a, x) && TagOk(m', a, x)
  {
  }

  lemma MergeThreeMaps(blk: map<nat, Block>, prv: map<nat, nat>, p: nat, b: nat, n: nat)
    requires p in blk && b == p + blk[p].words && b in blk && n == b + blk[b].words && n in blk
    requires blk[p].words > 0 && blk[b].words > 0 && blk[n].words > 0
    ensures n in MergeBlocks(blk, p) && MergeBlocks(blk, p)[n] == blk[n]
    ensures MergeBlocks(MergeBlocks(blk, p), p) == MergeThree(blk, p)
    ensures MergeEnds(MergeBlocks(blk, p), MergeEnds(blk, prv, p), p) == MergeThreeEnds(blk, prv, p)
  {
  }

  lemma OnlyLargerBlock(m: seq<nat>, m1: seq<nat>, m': seq<nat>, p: nat, small: Block, large: Block)
    requires OnlyBlock(m, m1, p, small) && OnlyBlock(m, m', p, large) && small.words <= large.words
    ensures OnlyBlock(m1, m', p, large)
  {
  }

  /** Merging three blocks is merging twice, whatever the tags in between say. */
  lemma MergeThreeHeap(m: seq<nat>, m': seq<nat>, seg: seq<nat>, brk: nat, blk: map<nat, Block>, prv: map<nat, nat>,
          lists: seq<seq<nat>>, p: nat, b: nat, n: nat)
    returns (blk': map<nat, Block>, prv': map<nat, nat>)
    requires Shape(brk, blk, prv) && Tags(m, brk, blk) && Lists(m, seg, blk, lists, {b, p, n})
    requires FreePair(blk, p) && FreePair(blk, b) && b == p + blk[p].words && n == b + blk[b].words
    requires OnlyBlock(m, m', p, Block(blk[p].words + blk[b].words + blk[n].words, false))
    requires TagOk(m', p, Block(blk[p].words + blk[b].words + blk[n].words, false))
    ensures blk' == MergeThree(blk, p) && p in blk' && blk'[p].words == blk[p].words + blk[b].words + blk[n].words
    ensures Shape(brk, blk', prv') && Tags(m', brk, blk') && Lists(m', seg, blk', lists, {p})
    ensures KeepsLive(m, m', blk, blk', 0)
  {
    blk', prv' := MergeThree(blk, p), MergeThreeEnds(blk, prv, p);
    var blk1, prv1 := MergeBlocks(blk, p), MergeEnds(blk, prv, p);
    MergeThreeTop(brk, blk, prv, p, b, n);
    MergedPair(brk, blk, prv, p, b, n);
    var m1 := MergeThreeFirst(m, seg, brk, blk, prv, lists, p, b, n);
    MergeThreeRest(m, m1, m', seg, brk, blk, blk1, prv1, lists, p, b, n);
  }

  /** After the first merge there is a pair again, and merging it gives the three. */
  lemma MergedPair(brk: nat, blk: map<nat, Block>, prv: map<nat, nat>, p: nat, b: nat, n: nat)
    requires Shape(brk, blk, prv) && FreePair(blk, p) && FreePair(blk, b) && b == p + blk[p].words &&
             n == b + blk[b].words
    ensures var blk1, prv1 := MergeBlocks(blk, p), MergeEnds(blk, prv, p);
      && FreePair(blk1, p) && n == p + blk1[p].words && b != p && b != n
      && MergeBlocks(blk1, p) == MergeThree(blk, p) && MergeEnds(blk1, prv1, p) == MergeThreeEnds(blk, prv, p)
  {
    assert BlockOk(p, brk, blk, prv) && BlockOk(b, brk, blk, prv) && BlockOk(n, brk, blk, prv);
    MergeThreeMaps(blk, prv, p, b, n);
  }

  lemma MergeThreeFirst(m: seq<nat>, seg: seq<nat>, brk: nat, blk: map<nat, Block>, prv: map<nat, nat>,
          lists: seq<seq<nat>>, p: nat, b: nat, n: nat)
    returns (m1: seq<nat>)
    requires Shape(brk, blk, prv) && Tags(m, brk, blk) && Lists(m, seg, blk, lists, {b, p, n})
    requires FreePair(blk, p) && b == p + blk[p].words
    ensures Shape(brk, MergeBlocks(blk, p), MergeEnds(blk, prv, p)) && Tags(m1, brk, MergeBlocks(blk, p))
    ensures Lists(m1, seg, MergeBlocks(blk, p), lists, {b, p, n} - {b})
    ensures OnlyBlock(m, m1, p, MergeBlocks(blk, p)[p]) && KeepsLive(m, m1, blk, MergeBlocks(blk, p), 0)
  {
    assert BlockOk(p, brk, blk, prv) && BlockOk(b, brk, blk, prv);
    var x := MergeBlocks(blk, p)[p];
    m1 := PutTags(m, p, x);
    PutTagsOk(m, m1, p, x);
    MergeHeap(m, m1, seg, brk, blk, prv, lists, {b, p, n}, p);
  }

  lemma MergeThreeRest(m: seq<nat>, m1: seq<nat>, m': seq<nat>, seg: seq<nat>, brk: nat, blk: map<nat, Block>,
          blk1: map<nat, Block>, prv1: map<nat, nat>, lists: seq<seq<nat>>, p: nat, b: nat, n: nat)
    requires FreePair(blk1, p) && n == p + blk1[p].words && b != p && b != n
    requires Shape(brk, blk1, prv1) && Tags(m1, brk, blk1) && Lists(m1, seg, blk1, lists, {b, p, n} - {b})
    requires OnlyBlock(m, m1, p, blk1[p]) && OnlyBlock(m, m', p, MergeBlocks(blk1, p)[p]) &&
             TagOk(m', p, MergeBlocks(blk1, p)[p])
    requires KeepsLive(m, m1, blk, blk1, 0)
    ensures Shape(brk, MergeBlocks(blk1, p), MergeEnds(blk1, prv1, p))
    ensures Tags(m', brk, MergeBlocks(blk1, p)) && Lists(m', seg, MergeBlocks(blk1, p), lists, {p})
    ensures KeepsLive(m, m', blk, MergeBlocks(blk1, p), 0)
  {
    OnlyLargerBlock(m, m1, m', p, blk1[p], MergeBlocks(blk1, p)[p]);
    MergeHeap(m1, m', seg, brk, blk1, prv1, lists, {b, p, n} - {b}, p);
    assert {b, p, n} - {b} - {n} == {p} by { assert BlockOk(p, brk, blk1, prv1); }
    KeepsLiveTrans(m, m1, m', blk, blk1, MergeBlocks(blk1, p), 0);
  }

  /** Rewriting block b keeps another block c. */
  lemma RewrittenKept(m: seq<nat>, m': seq<nat>, brk: nat, blk: map<nat, Block>, prv: map<nat, nat>,
          blk': map<nat, Block>, pending': set<nat>, b: nat, c: nat)
    requires Shape(brk, blk, prv) && Tags(m, brk, blk) && b in blk && OnlyBlock(m, m', b, blk[b])
    requires c in blk && c != b && c != PROLOGUE && c in blk' && blk'[c] == blk[c] && c !in pending'
    ensures KeptFree(m, m', blk, blk', pending', c) && LiveKept(m, m', blk, blk', c)
  {
    assert BlockOk(b, brk, blk, prv) && BlockOk(c, brk, blk, prv);
    OutsideKept(m, m', brk, blk, prv, b, blk[b], c);
  }

  /** The new block was in no list, and the lists keep theirs. */
  lemma SplitLists(m: seq<nat>, m': seq<nat>, seg: seq<nat>, brk: nat, blk: map<nat, Block>, prv: map<nat, nat>,
          lists: seq<seq<nat>>, b: nat, words: nat)
    requires Shape(brk, blk, prv) && Tags(m, brk, blk) && Lists(m, seg, blk, lists, {b}) && FreeBlock(blk, b)
    requires words % 2 == 0 && 4 <= words && words + 4 <= blk[b].words
    requires OnlyBlock(m, m', b, blk[b])
    ensures Lists(m', seg, SplitBlocks(blk, b, words), lists, {b + words})
  {
    var blk' := SplitBlocks(blk, b, words);
    NothingInside(brk, blk, prv, b);
    forall c: nat | FreeBlock(blk, c) && c !in {b} ensures KeptFree(m, m', blk, blk', {b + words}, c) {
      RewrittenKept(m, m', brk, blk, prv, blk', {b + words}, b, c);
    }
    ListsFrame(m, m', seg, blk, blk', lists, {b}, {b + words});
  }

  lemma SplitKeeps(m: seq<nat>, m': seq<nat>, seg: seq<nat>, brk: nat, blk: map<nat, Block>, prv: map<nat, nat>,
          lists: seq<seq<nat>>, b: nat, words: nat)
    requires Shape(brk, blk, prv) && Tags(m, brk, blk) && Lists(m, seg, blk, lists, {b}) && FreeBlock(blk, b)
    requires words % 2 == 0 && 4 <= words && words + 4 <= blk[b].words
    requires OnlyBlock(m, m', b, blk[b])
    ensures KeepsLive(m, m', blk, SplitBlocks(blk, b, words), b)
  {
    var blk' := SplitBlocks(blk, b, words);
    NothingInside(brk, blk, prv, b);
    forall c: nat | Live(blk, c) && c != b ensures LiveKept(m, m', blk, blk', c) {
      assert BlockOk(b, brk, blk, prv) && BlockOk(c, brk, blk, prv);
      if c != PROLOGUE { RewrittenKept(m, m', brk, blk, prv, blk', {b + words}, b, c); }
    }
  }

  lemma SplitHeap(m: seq<nat>, m': seq<nat>, seg: seq<nat>, brk: nat, blk: map<nat, Block>, prv: map<nat, nat>,
          lists: seq<seq<nat>>, b: nat, words: nat)
    requires Shape(brk, blk, prv) && Tags(m, brk, blk) && Lists(m, seg, blk, lists, {b}) && FreeBlock(blk, b)
    requires words % 2 == 0 && 4 <= words && words + 4 <= blk[b].words
    requires OnlyBlock(m, m', b, blk[b])
    requires TagOk(m', b, Block(words, true)) && TagOk(m', b + words, Block(blk[b].words - words, false))
    ensures Shape(brk, SplitBlocks(blk, b, words), SplitEnds(blk, prv, b, words))
    ensures Tags(m', brk, SplitBlocks(blk, b, words)) && Lists(m', seg, SplitBlocks(blk, b, words), lists, {b + words})
    ensures KeepsLive(m, m', blk, SplitBlocks(blk, b, words), b)
    ensures b + words !in blk
  {
    NothingInside(brk, blk, prv, b);
    SplitShape(brk, blk, prv, b, words);
    SplitTags(m, m', brk, blk, prv, b, words);
    SplitLists(m, m', seg, brk, blk, prv, lists, b, words);
    SplitKeeps(m, m', seg, brk, blk, prv, lists, b, words);
  }

  lemma MarkLists(m: seq<nat>, m': seq<nat>, seg: seq<nat>, brk: nat, blk: map<nat, Block>, prv: map<nat, nat>,
          lists: seq<seq<nat>>, b: nat, alloc: bool, pending: set<nat>)
    requires Shape(brk, blk, prv) && Tags(m, brk, blk) && Lists(m, seg, blk, lists, pending) && b in blk &&
             b != PROLOGUE
    requires pending == (if alloc then {b} else {}) && blk[b].alloc == !alloc
    requires OnlyBlock(m, m', b, blk[b]) && TagOk(m', b, Block(blk[b].words, alloc))
    ensures Lists(m', seg, blk[b := Block(blk[b].words, alloc)], lists, if alloc then {} else {b})
  {
    var blk' := blk[b := Block(blk[b].words, alloc)];
    var pending' := if alloc then {} else {b};
    forall c: nat | FreeBlock(blk, c) && c !in pending ensures KeptFree(m, m', blk, blk', pending', c) {
      RewrittenKept(m, m', brk, blk, prv, blk', pending', b, c);
    }
    ListsFrame(m, m', seg, blk, blk', lists, pending, pending');
  }

  lemma MarkKeeps(m: seq<nat>, m': seq<nat>, seg: seq<nat>, brk: nat, blk: map<nat, Block>, prv: map<nat, nat>,
          lists: seq<seq<nat>>, b: nat, alloc: bool, pending: set<nat>)
    requires Shape(brk, blk, prv) && Tags(m, brk, blk) && Lists(m, seg, blk, lists, pending) && b in blk &&
             b != PROLOGUE
    requires pending == (if alloc then {b} else {}) && blk[b].alloc == !alloc
    requires OnlyBlock(m, m', b, blk[b]) && TagOk(m', b, Block(blk[b].words, alloc))
    ensures KeepsLive(m, m', blk, blk[b := Block(blk[b].words, alloc)], b)
  {
    var blk' := blk[b := Block(blk[b].words, alloc)];
    forall c: nat | Live(blk, c) && c != b ensures LiveKept(m, m', blk, blk', c) {
      assert BlockOk(b, brk, blk, prv) && BlockOk(c, brk, blk, prv);
      if c != PROLOGUE { RewrittenKept(m, m', brk, blk, prv, blk', {b}, b, c); }
    }
  }

  lemma MarkHeap(m: seq<nat>, m': seq<nat>, seg: seq<nat>, brk: nat, blk: map<nat, Block>, prv: map<nat, nat>,
          lists: seq<seq<nat>>, b: nat, alloc: bool, pending: set<nat>)
    requires Shape(brk, blk, prv) && Tags(m, brk, blk) && Lists(m, seg, blk, lists, pending) && b in blk &&
             b != PROLOGUE
    requires pending == (if alloc then {b} else {}) && blk[b].alloc == !alloc
    requires OnlyBlock(m, m', b, blk[b]) && TagOk(m', b, Block(blk[b].words, alloc))
    ensures Shape(brk, blk[b := Block(blk[b].words, alloc)], prv)
    ensures Tags(m', brk, blk[b := Block(blk[b].words, alloc)])
    ensures Lists(m', seg, blk[b := Block(blk[b].words, alloc)], lists, if alloc then {} else {b})
    ensures KeepsLive(m, m', blk, blk[b := Block(blk[b].words, alloc)], b)
  {
    MarkShape(brk, blk, prv, b, alloc);
    MarkTags(m, m', brk, blk, prv, b, alloc);
    MarkLists(m, m', seg, brk, blk, prv, lists, b, alloc, pending);
    MarkKeeps(m, m', seg, brk, blk, prv, lists, b, alloc, pending);
  }

  lemma ExtendHeap(m: seq<nat>, m': seq<nat>, seg: seq<nat>, brk: nat, blk: map<nat, Block>, prv: map<nat, nat>,
          lists: seq<seq<nat>>, words: nat)
    requires Shape(brk, blk, prv) && Tags(m, brk, blk) && Lists(m, seg, blk, lists, {})
    requires words % 2 == 0 && words >= 4 && brk + words <= |m|
    requires |m'| == |m| && forall i :: 0 <= i < brk - 1 ==> m'[i] == m[i]
    requires TagOk(m', brk, Block(words, false)) && m'[brk + words - 1] == Pack(0, true)
    ensures brk !in blk
    ensures Shape(brk + words, blk[brk := Block(words, false)], prv[brk + words := brk])
    ensures Tags(m', brk + words, blk[brk := Block(words, false)])
    ensures Lists(m', seg, blk[brk := Block(words, false)], lists, {brk})
    ensures KeepsLive(m, m', blk, blk[brk := Block(words, false)], 0)
  {
    var blk' := blk[brk := Block(words, false)];
    ExtendShape(brk, blk, prv, words);
    ExtendTags(m, m', brk, blk, prv, words);
    forall c: nat | c in blk
      ensures (!blk[c].alloc ==> KeptFree(m, m', blk, blk', {brk}, c)) && LiveKept(m, m', blk, blk', c) &&
              blk'[c] == blk[c]
    {
      assert BlockOk(c, brk, blk, prv);
    }
    ListsFrame(m, m', seg, blk, blk', lists, {}, {brk});
  }

  // ---------------------------------------------------------------- adjacency

  /** A free pair after a merge was one before, at the merged block or elsewhere. */
  lemma PairAfterMerge(brk: nat, blk: map<nat, Block>, prv: map<nat, nat>, a: nat, b: nat)
    requires BlocksOk(brk, blk, prv) && FreePair(blk, a) && b in MergeBlocks(blk, a)
    ensures FreePair(MergeBlocks(blk, a), b) ==>
              if b == a then FreePair(blk, a + blk[a].words) else FreePair(blk, b)
  {
    assert BlockOk(a, brk, blk, prv) && BlockOk(b, brk, blk, prv) && BlockOk(a + blk[a].words, brk, blk, prv);
  }

  /** Only the block before a ends at a. */
  lemma EndsAt(brk: nat, blk: map<nat, Block>, prv: map<nat, nat>, a: nat, b: nat)
    requires BlocksOk(brk, blk, prv) && a in prv && b in blk
    ensures blk[b].words > 0 && (b + blk[b].words == a ==> b == prv[a])
  {
    assert BlockOk(b, brk, blk, prv);
  }

  /** Case 1: nothing to join. */
  lemma SettleAlone(brk: nat, blk: map<nat, Block>, prv: map<nat, nat>, a: nat)
    requires BlocksOk(brk, blk, prv) && Coalesced(blk, {a}) && a in prv
    requires !FreePair(blk, a) && !FreePair(blk, prv[a])
    ensures Coalesced(blk, {})
  {
    forall b: nat ensures !FreePair(blk, b) {
      if b in blk { EndsAt(brk, blk, prv, a, b); }
    }
  }

  /** Case 2: joined with the next block. */
  lemma SettleNext(brk: nat, blk: map<nat, Block>, prv: map<nat, nat>, a: nat)
    requires BlocksOk(brk, blk, prv) && FreePair(blk, a) && Coalesced(blk, {a}) && a in prv && !FreePair(blk, prv[a])
    ensures Coalesced(MergeBlocks(blk, a), {})
  {
    EndsAt(brk, blk, prv, a, a);
    EndsAt(brk, blk, prv, a, a + blk[a].words);
    forall b: nat ensures !FreePair(MergeBlocks(blk, a), b) {
      if b in MergeBlocks(blk, a) {
        PairAfterMerge(brk, blk, prv, a, b);
        EndsAt(brk, blk, prv, a, b);
      }
    }
  }

  /** Case 3: joined with the previous block p. */
  lemma SettlePrev(brk: nat, blk: map<nat, Block>, prv: map<nat, nat>, p: nat, a: nat)
    requires BlocksOk(brk, blk, prv) && FreePair(blk, p) && a == p + blk[p].words && Coalesced(blk, {a})
    requires !FreePair(blk, a) && a in prv && prv[a] == p
    ensures Coalesced(MergeBlocks(blk, p), {})
  {
    forall b: nat ensures !FreePair(MergeBlocks(blk, p), b) {
      if b in MergeBlocks(blk, p) {
        PairAfterMerge(brk, blk, prv, p, b);
        EndsAt(brk, blk, prv, a, b);
      }
    }
  }

  /** Case 4: joined with both. */
  lemma SettleBoth(brk: nat, blk: map<nat, Block>, prv: map<nat, nat>, p: nat, a: nat)
    requires BlocksOk(brk, blk, prv) && FreePair(blk, p) && a == p + blk[p].words && FreePair(blk, a)
    requires Coalesced(blk, {a}) && a in prv && prv[a] == p && p != PROLOGUE
    ensures Coalesced(MergeThree(blk, p), {})
  {
    var n := a + blk[a].words;
    EndsAt(brk, blk, prv, a, p);
    EndsAt(brk, blk, prv, a, a);
    EndsAt(brk, blk, prv, a, n);
    MergeThreeMaps(blk, prv, p, a, n);
    var blk1, prv1 := MergeBlocks(blk, p), MergeEnds(blk, prv, p);
    MergeBlocksOk(brk, blk, prv, p);
    forall b: nat ensures !FreePair(MergeThree(blk, p), b) {
      if b in MergeThree(blk, p) {
        assert FreePair(blk1, p);
        PairAfterMerge(brk, blk1, prv1, p, b);
        PairAfterMerge(brk, blk, prv, p, if b == p then n else b);
        EndsAt(brk, blk, prv, a, b);
      }
    }
  }

  // ---------------------------------------------------------------- malloc, free, realloc

  /** No listed block is large enough. */
  ghost predicate NoFit(blk: map<nat, Block>, asize: nat) {
    forall b: nat {:trigger FreeBlock(blk, b)} :: FreeBlock(blk, b) ==> 8 * blk[b].words < asize
  }

  /** A free block of minimum size among those that are large enough. */
  ghost predicate BestFit(blk: map<nat, Block>, asize: nat, p: nat) {
    FreeBlock(blk, p) && asize <= 8 * blk[p].words &&
    forall b: nat {:trigger FreeBlock(blk, b)} ::
      FreeBlock(blk, b) && asize <= 8 * blk[b].words ==> blk[p].words <= blk[b].words
  }

  lemma SplitCoalesced(brk: nat, blk: map<nat, Block>, prv: map<nat, nat>, b: nat, words: nat)
    requires BlocksOk(brk, blk, prv) && Coalesced(blk, {}) && FreeBlock(blk, b) && 0 < words < blk[b].words
    requires b + words !in blk
    ensures Coalesced(SplitBlocks(blk, b, words), {})
  {
    assert !FreePair(blk, b);
    assert BlockOk(b, brk, blk, prv);
    forall c: nat ensures !FreePair(SplitBlocks(blk, b, words), c) {
      assert !FreePair(blk, c);
      if c in blk { assert BlockOk(c, brk, blk, prv); }
    }
  }

  lemma MarkCoalesced(blk: map<nat, Block>, b: nat)
    requires Coalesced(blk, {}) && b in blk
    ensures Coalesced(blk[b := Block(blk[b].words, true)], {})
  {
    var blk' := blk[b := Block(blk[b].words, true)];
    forall c: nat ensures !FreePair(blk', c) { assert !FreePair(blk, c); }
  }

  lemma FreedCoalesced(blk: map<nat, Block>, b: nat)
    requires Coalesced(blk, {}) && b in blk
    ensures Coalesced(blk[b := Block(blk[b].words, false)], {b})
  {
    var blk' := blk[b := Block(blk[b].words, false)];
    forall c: nat | FreePair(blk', c) ensures c == b || c + blk'[c].words == b { assert !FreePair(blk, c); }
  }

  lemma ExtendedCoalesced(brk: nat, blk: map<nat, Block>, prv: map<nat, nat>, words: nat)
    requires Shape(brk, blk, prv) && Coalesced(blk, {}) && words > 0
    ensures Coalesced(blk[brk := Block(words, false)], {brk})
  {
    var blk' := blk[brk := Block(words, false)];
    forall c: nat | FreePair(blk', c) ensures c == brk || c + blk'[c].words == brk {
      assert !FreePair(blk, c);
      if c in blk { assert BlockOk(c, brk, blk, prv); }
    }
  }

  /** Writes inside the payload of a live block disturb nothing else. */
  lemma PayloadWrite(m: seq<nat>, m': seq<nat>, seg: seq<nat>, brk: nat, blk: map<nat, Block>, prv: map<nat, nat>,
          lists: seq<seq<nat>>, p: nat)
    requires Shape(brk, blk, prv) && Tags(m, brk, blk) && Lists(m, seg, blk, lists, {}) && Live(blk, p) && p != PROLOGUE
    requires OnlyBlock(m, m', p, blk[p]) && TagOk(m', p, blk[p])
    ensures Tags(m', brk, blk) && Lists(m', seg, blk, lists, {}) && KeepsLive(m, m', blk, blk, p)
  {
    MarkTags(m, m', brk, blk, prv, p, true);
    assert blk[p := Block(blk[p].words, true)] == blk;
    assert BlockOk(p, brk, blk, prv);
    forall c: nat | c in blk && c != p && c != PROLOGUE
      ensures KeptFree(m, m', blk, blk, {}, c) && LiveKept(m, m', blk, blk, c)
    {
      RewrittenKept(m, m', brk, blk, prv, blk, {}, p, c);
    }
    ListsFrame(m, m', seg, blk, blk, lists, {}, {});
  }
}
