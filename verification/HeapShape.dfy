/** The shape of the heap of p1-memory-management/mm.c: blocks that tile it, and
    the boundary tags that describe them.

    The heap is an array of 8-byte words; a pointer is a word index, and 0, the
    padding word, stands for NULL.  A block that starts at b with w words has its
    header at b - 1, its payload at b .. b + w - 2 and its footer at b + w - 2. */
module HeapShape {
  datatype Block = Block(words: nat, alloc: bool)

  /** PACK(size, alloc), with sizes in bytes. */
  function Pack(size: nat, alloc: bool): nat { if alloc then size + 1 else size }

  /** GET_SIZE: the word without its low three bits. */
  function GetSize(word: nat): nat { word - word % 8 }

  /** GET_ALLOC: the lowest bit. */
  function GetAlloc(word: nat): bool { word % 2 == 1 }

  function Tag(b: Block): nat { Pack(8 * b.words, b.alloc) }

  lemma TagReads(b: Block)
    requires b.words % 2 == 0
    ensures GetSize(Tag(b)) == 8 * b.words && GetAlloc(Tag(b)) == b.alloc
  {
  }

  /** The prologue block. */
  const PROLOGUE: nat := 2

  /** blk: the blocks by start; prv: for each end of a block, its start. */
  ghost predicate Shape(brk: nat, blk: map<nat, Block>, prv: map<nat, nat>) {
    PROLOGUE in blk && blk[PROLOGUE] == Block(2, true) && brk in prv && brk % 2 == 0 &&
    BlocksOk(brk, blk, prv) && EndsOk(blk, prv) && Apart(blk)
  }

  ghost predicate BlocksOk(brk: nat, blk: map<nat, Block>, prv: map<nat, nat>) {
    forall b {:trigger BlockOk(b, brk, blk, prv)} :: b in blk ==> BlockOk(b, brk, blk, prv)
  }

  ghost predicate EndsOk(blk: map<nat, Block>, prv: map<nat, nat>) {
    forall e {:trigger prv[e]} :: e in prv ==> prv[e] in blk && prv[e] + blk[prv[e]].words == e
  }

  /** Blocks do not overlap. */
  ghost predicate Apart(blk: map<nat, Block>) {
    forall b, c {:trigger blk[b], blk[c]} :: b in blk && c in blk && b < c ==> b + blk[b].words <= c
  }

  ghost predicate BlockOk(b: nat, brk: nat, blk: map<nat, Block>, prv: map<nat, nat>)
    requires b in blk
  {
    var w := blk[b].words;
    b % 2 == 0 && w % 2 == 0 && b >= 2 && w >= 2 && (b != PROLOGUE ==> w >= 4 && b in prv) &&
    b + w <= brk && b + w in prv && prv[b + w] == b && (b + w == brk || b + w in blk)
  }

  /** The padding word, header and footer of every block, and the epilogue header. */
  ghost predicate Tags(m: seq<nat>, brk: nat, blk: map<nat, Block>) {
    2 <= brk <= |m| && m[0] == 0 && m[brk - 1] == Pack(0, true) &&
    forall b {:trigger TagOk(m, b, blk[b])} :: b in blk ==> TagOk(m, b, blk[b])
  }

  ghost predicate TagOk(m: seq<nat>, b: nat, x: Block) {
    1 <= b && 2 <= b + x.words && b + x.words - 2 < |m| && b - 1 < |m| &&
    m[b - 1] == Tag(x) && m[b + x.words - 2] == Tag(x)
  }

  /** The block at b and the one after it are both free. */
  ghost predicate FreePair(blk: map<nat, Block>, b: nat) {
    b in blk && !blk[b].alloc && b + blk[b].words in blk && !blk[b + blk[b].words].alloc
  }

  /** No two adjacent free blocks, except where one of them is `loose`. */
  ghost predicate Coalesced(blk: map<nat, Block>, loose: set<nat>) {
    forall b: nat {:trigger FreePair(blk, b)} :: FreePair(blk, b) ==> b in loose || b + blk[b].words in loose
  }

  // ---------------------------------------------------------------- tiling

  /** Does word i belong to the block at b (header, payload or footer)? */
  predicate Owns(b: nat, x: Block, i: nat) {
    b - 1 <= i < b + x.words - 1
  }

  /** Blocks tile the heap: every word between the padding and the epilogue
      header belongs to exactly one block. */
  lemma BlocksTile(brk: nat, blk: map<nat, Block>, prv: map<nat, nat>, i: nat) returns (b: nat)
    requires Shape(brk, blk, prv) && 1 <= i < brk - 1
    ensures b in blk && Owns(b, blk[b], i)
    ensures forall c :: c in blk && Owns(c, blk[c], i) ==> c == b
  {
    b := OwnerBelow(brk, blk, prv, i, brk);
  }

  lemma OwnerBelow(brk: nat, blk: map<nat, Block>, prv: map<nat, nat>, i: nat, e: nat) returns (b: nat)
    requires Shape(brk, blk, prv) && e in prv && 1 <= i < e - 1
    ensures b in blk && Owns(b, blk[b], i)
    decreases e
  {
    b := prv[e];
    assert BlockOk(b, brk, blk, prv);
    if i < b - 1 { b := OwnerBelow(brk, blk, prv, i, b); }
  }

  /** The words of the blocks that end at or before e, prologue excluded. */
  ghost function WordsUpTo(brk: nat, blk: map<nat, Block>, prv: map<nat, nat>, e: nat): nat
    requires Shape(brk, blk, prv) && e in prv
    decreases e
  {
    assert BlockOk(prv[e], brk, blk, prv);
    if prv[e] == PROLOGUE then 0 else blk[prv[e]].words + WordsUpTo(brk, blk, prv, prv[e])
  }

  /** Walking the blocks from the epilogue back to the prologue meets words that
      sum up to the heap without the padding, the prologue and the epilogue. */
  lemma {:induction false} WordsSum(brk: nat, blk: map<nat, Block>, prv: map<nat, nat>, e: nat)
    requires Shape(brk, blk, prv) && e in prv
    ensures WordsUpTo(brk, blk, prv, e) == e - 4
    decreases e
  {
    var b := prv[e];
    assert BlockOk(b, brk, blk, prv);
    if b != PROLOGUE { WordsSum(brk, blk, prv, b); }
  }

  /** The words of the blocks in `bs`, in no particular order. */
  ghost function WordsOf(blk: map<nat, Block>, bs: set<nat>): nat
    requires bs <= blk.Keys
    decreases |bs|
  {
    if bs == {} then 0
    else
      var b :| b in bs;
      blk[b].words + WordsOf(blk, bs - {b})
  }

  lemma {:induction false} WordsOfWithout(blk: map<nat, Block>, bs: set<nat>, b: nat)
    requires bs <= blk.Keys && b in bs
    ensures WordsOf(blk, bs) == blk[b].words + WordsOf(blk, bs - {b})
    decreases |bs|
  {
    var a :| a in bs && WordsOf(blk, bs) == blk[a].words + WordsOf(blk, bs - {a});
    if a != b {
      WordsOfWithout(blk, bs - {a}, b);
      WordsOfWithout(blk, bs - {b}, a);
      assert bs - {a} - {b} == bs - {b} - {a};
    }
  }

  /** The blocks that end at or before e, prologue excluded. */
  ghost function EndingBy(blk: map<nat, Block>, e: nat): set<nat> {
    set b | b in blk && b != PROLOGUE && b + blk[b].words <= e
  }

  /** The walk back from e meets each of these blocks once. */
  lemma {:induction false} WalkMeetsAll(brk: nat, blk: map<nat, Block>, prv: map<nat, nat>, e: nat)
    requires Shape(brk, blk, prv) && e in prv
    ensures WordsOf(blk, EndingBy(blk, e)) == WordsUpTo(brk, blk, prv, e)
    decreases e
  {
    var b := prv[e];
    assert BlockOk(b, brk, blk, prv);
    LastBefore(brk, blk, prv, e);
    if b != PROLOGUE {
      WalkMeetsAll(brk, blk, prv, b);
      WordsOfWithout(blk, EndingBy(blk, e), b);
    }
  }

  /** Before the last block that ends by e come those that end by its start. */
  lemma LastBefore(brk: nat, blk: map<nat, Block>, prv: map<nat, nat>, e: nat)
    requires Shape(brk, blk, prv) && e in prv
    ensures var b := prv[e];
      if b == PROLOGUE then EndingBy(blk, e) == {}
      else b in EndingBy(blk, e) && EndingBy(blk, e) - {b} == EndingBy(blk, b)
  {
    var b := prv[e];
    assert BlockOk(b, brk, blk, prv) && BlockOk(PROLOGUE, brk, blk, prv);
    forall c | c in blk ensures c >= 2 && blk[c].words >= 2 && (c != b ==> c + blk[c].words <= b || e <= c) {
      assert BlockOk(c, brk, blk, prv);
    }
  }

  /** Accounting: the sizes in bytes of all blocks but the prologue sum up to the
      heap size minus 32. */
  lemma BlocksFillHeap(brk: nat, blk: map<nat, Block>, prv: map<nat, nat>)
    requires Shape(brk, blk, prv)
    ensures 8 * WordsOf(blk, blk.Keys - {PROLOGUE}) == 8 * brk - 32
  {
    AllEnd(brk, blk, prv);
    WalkMeetsAll(brk, blk, prv, brk);
    WordsSum(brk, blk, prv, brk);
  }

  lemma AllEnd(brk: nat, blk: map<nat, Block>, prv: map<nat, nat>)
    requires BlocksOk(brk, blk, prv)
    ensures EndingBy(blk, brk) == blk.Keys - {PROLOGUE}
  {
    forall b | b in blk ensures b + blk[b].words <= brk { assert BlockOk(b, brk, blk, prv); }
  }

  /** With nothing allocated, the heap is one free block. */
  lemma EmptyHeapIsOneBlock(brk: nat, blk: map<nat, Block>, prv: map<nat, nat>)
    requires Shape(brk, blk, prv) && Coalesced(blk, {}) && brk > 4
    requires forall b :: b in blk && blk[b].alloc ==> b == PROLOGUE
    ensures blk.Keys == {PROLOGUE, 4} && blk[4] == Block(brk - 4, false)
  {
    assert BlockOk(PROLOGUE, brk, blk, prv);
    assert 4 in blk && BlockOk(4, brk, blk, prv);
    assert !FreePair(blk, 4);
    forall b | b in blk ensures b == PROLOGUE || b == 4 {
      assert BlockOk(b, brk, blk, prv);
    }
  }

  // ---------------------------------------------------------------- changes of shape

  /** Join the block at a with the one after it; the result is free. */
  ghost function MergeBlocks(blk: map<nat, Block>, a: nat): map<nat, Block>
    requires a in blk && a + blk[a].words in blk
  {
    var n := a + blk[a].words;
    (blk - {n})[a := Block(blk[a].words + blk[n].words, false)]
  }

  ghost function MergeEnds(blk: map<nat, Block>, prv: map<nat, nat>, a: nat): map<nat, nat>
    requires a in blk && a + blk[a].words in blk
  {
    var n := a + blk[a].words;
    (prv - {n})[n + blk[n].words := a]
  }

  lemma MergeApart(blk: map<nat, Block>, a: nat)
    requires Apart(blk) && a in blk && a + blk[a].words in blk && blk[a].words > 0
    ensures Apart(MergeBlocks(blk, a))
  {
    var n := a + blk[a].words;
    var blk' := MergeBlocks(blk, a);
    forall b, c | b in blk' && c in blk' && b < c ensures b + blk'[b].words <= c {
      assert blk[b].words <= blk'[b].words;
      if b == a { assert n < c || c < n; }
    }
  }

  lemma MergeEndsOk(blk: map<nat, Block>, prv: map<nat, nat>, a: nat)
    requires EndsOk(blk, prv) && a in blk && a + blk[a].words in blk && blk[a].words > 0
    requires a + blk[a].words + blk[a + blk[a].words].words in prv
    requires prv[a + blk[a].words + blk[a + blk[a].words].words] == a + blk[a].words
    requires forall e :: e in prv && prv[e] == a + blk[a].words ==> e == a + blk[a].words + blk[a + blk[a].words].words
    ensures EndsOk(MergeBlocks(blk, a), MergeEnds(blk, prv, a))
  {
    var n := a + blk[a].words;
    var blk', prv' := MergeBlocks(blk, a), MergeEnds(blk, prv, a);
    forall e | e in prv' ensures prv'[e] in blk' && prv'[e] + blk'[prv'[e]].words == e {
      if e != n + blk[n].words {
        assert prv[e] in blk && prv[e] + blk[prv[e]].words == e;
      }
    }
  }

  lemma MergeBlocksOk(brk: nat, blk: map<nat, Block>, prv: map<nat, nat>, a: nat)
    requires BlocksOk(brk, blk, prv) && a in blk && a != PROLOGUE && a + blk[a].words in blk
    ensures BlocksOk(brk, MergeBlocks(blk, a), MergeEnds(blk, prv, a))
  {
    var blk', prv' := MergeBlocks(blk, a), MergeEnds(blk, prv, a);
    assert BlockOk(a, brk, blk, prv) && BlockOk(a + blk[a].words, brk, blk, prv);
    forall b | b in blk' ensures BlockOk(b, brk, blk', prv') {
      assert BlockOk(b, brk, blk, prv);
      MergeBlockOk(brk, blk, prv, a, b);
    }
  }

  lemma MergeShape(brk: nat, blk: map<nat, Block>, prv: map<nat, nat>, a: nat)
    requires Shape(brk, blk, prv) && a in blk && a != PROLOGUE && a + blk[a].words in blk
    ensures Shape(brk, MergeBlocks(blk, a), MergeEnds(blk, prv, a))
  {
    var n := a + blk[a].words;
    assert BlockOk(a, brk, blk, prv) && BlockOk(n, brk, blk, prv) && BlockOk(PROLOGUE, brk, blk, prv);
    MergeApart(blk, a);
    MergeEndsOk(blk, prv, a);
    MergeBlocksOk(brk, blk, prv, a);
    assert n != PROLOGUE && n != brk;
  }

  lemma MergeBlockOk(brk: nat, blk: map<nat, Block>, prv: map<nat, nat>, a: nat, b: nat)
    requires a in blk && a + blk[a].words in blk && b in blk && b != a + blk[a].words
    requires BlockOk(a, brk, blk, prv) && BlockOk(a + blk[a].words, brk, blk, prv) && BlockOk(b, brk, blk, prv)
    requires a != PROLOGUE
    ensures BlockOk(b, brk, MergeBlocks(blk, a), MergeEnds(blk, prv, a))
  {
  }

  /** Cut the block at b after `words` words: an allocated block and a free rest. */
  ghost function SplitBlocks(blk: map<nat, Block>, b: nat, words: nat): map<nat, Block>
    requires b in blk && words <= blk[b].words
  {
    blk[b := Block(words, true)][b + words := Block(blk[b].words - words, false)]
  }

  ghost function SplitEnds(blk: map<nat, Block>, prv: map<nat, nat>, b: nat, words: nat): map<nat, nat>
    requires b in blk
  {
    prv[b + words := b][b + blk[b].words := b + words]
  }

  /** No block begins or ends inside another one. */
  lemma NothingInside(brk: nat, blk: map<nat, Block>, prv: map<nat, nat>, b: nat)
    requires Shape(brk, blk, prv) && b in blk
    ensures forall r :: r in blk ==> !(b < r < b + blk[b].words)
    ensures forall r :: r in prv ==> !(b < r < b + blk[b].words)
  {
    forall r | r in prv ensures !(b < r < b + blk[b].words) {
      assert prv[r] in blk && prv[r] + blk[prv[r]].words == r;
    }
  }

  lemma SplitBlockOk(brk: nat, blk: map<nat, Block>, prv: map<nat, nat>, b: nat, words: nat, c: nat)
    requires b in blk && words % 2 == 0 && 4 <= words && words + 4 <= blk[b].words && b != PROLOGUE
    requires BlockOk(b, brk, blk, prv) && b + words !in blk && b + words !in prv
    requires c in SplitBlocks(blk, b, words) && (c in blk ==> BlockOk(c, brk, blk, prv))
    ensures BlockOk(c, brk, SplitBlocks(blk, b, words), SplitEnds(blk, prv, b, words))
  {
  }

  lemma SplitApart(blk: map<nat, Block>, b: nat, words: nat)
    requires Apart(blk) && b in blk && 0 < words < blk[b].words && b + words !in blk
    ensures Apart(SplitBlocks(blk, b, words))
  {
    var blk' := SplitBlocks(blk, b, words);
    forall c, d | c in blk' && d in blk' && c < d ensures c + blk'[c].words <= d {
      var c0 := if c == b + words then b else c;
      var d0 := if d == b + words then b else d;
      assert c0 in blk && d0 in blk;
      if c0 != d0 { assert blk[c0].words >= 0 && blk[d0].words >= 0; }
    }
  }

  lemma SplitEndsOk(blk: map<nat, Block>, prv: map<nat, nat>, b: nat, words: nat)
    requires EndsOk(blk, prv) && b in blk && 0 < words < blk[b].words && b + words !in blk && b + words !in prv
    requires forall e :: e in prv && prv[e] == b ==> e == b + blk[b].words
    ensures EndsOk(SplitBlocks(blk, b, words), SplitEnds(blk, prv, b, words))
  {
    var prv' := SplitEnds(blk, prv, b, words);
    var blk' := SplitBlocks(blk, b, words);
    forall e | e in prv' ensures prv'[e] in blk' && prv'[e] + blk'[prv'[e]].words == e {
      if e != b + words && e != b + blk[b].words { assert prv[e] in blk && prv[e] + blk[prv[e]].words == e; }
    }
  }

  lemma SplitBlocksOk(brk: nat, blk: map<nat, Block>, prv: map<nat, nat>, b: nat, words: nat)
    requires Shape(brk, blk, prv) && b in blk && b != PROLOGUE
    requires words % 2 == 0 && 4 <= words && words + 4 <= blk[b].words
    ensures BlocksOk(brk, SplitBlocks(blk, b, words), SplitEnds(blk, prv, b, words))
  {
    NothingInside(brk, blk, prv, b);
    var blk', prv' := SplitBlocks(blk, b, words), SplitEnds(blk, prv, b, words);
    forall c | c in blk' ensures BlockOk(c, brk, blk', prv') {
      assert BlockOk(b, brk, blk, prv) && (c in blk ==> BlockOk(c, brk, blk, prv));
      SplitBlockOk(brk, blk, prv, b, words, c);
    }
  }

  lemma SplitShape(brk: nat, blk: map<nat, Block>, prv: map<nat, nat>, b: nat, words: nat)
    requires Shape(brk, blk, prv) && b in blk && b != PROLOGUE
    requires words % 2 == 0 && 4 <= words && words + 4 <= blk[b].words
    ensures Shape(brk, SplitBlocks(blk, b, words), SplitEnds(blk, prv, b, words))
  {
    assert BlockOk(b, brk, blk, prv) && BlockOk(PROLOGUE, brk, blk, prv);
    NothingInside(brk, blk, prv, b);
    SplitApart(blk, b, words);
    SplitEndsOk(blk, prv, b, words);
    SplitBlocksOk(brk, blk, prv, b, words);
  }

  lemma MarkShape(brk: nat, blk: map<nat, Block>, prv: map<nat, nat>, b: nat, alloc: bool)
    requires Shape(brk, blk, prv) && b in blk && b != PROLOGUE
    ensures Shape(brk, blk[b := Block(blk[b].words, alloc)], prv)
  {
    MarkApart(blk, b, alloc);
    MarkEndsOk(blk, prv, b, alloc);
    MarkBlocksOk(brk, blk, prv, b, alloc);
  }

  lemma MarkBlocksOk(brk: nat, blk: map<nat, Block>, prv: map<nat, nat>, b: nat, alloc: bool)
    requires BlocksOk(brk, blk, prv) && b in blk
    ensures BlocksOk(brk, blk[b := Block(blk[b].words, alloc)], prv)
  {
    var blk' := blk[b := Block(blk[b].words, alloc)];
    forall c | c in blk' ensures BlockOk(c, brk, blk', prv) {
      assert BlockOk(c, brk, blk, prv);
      MarkBlockOk(brk, blk, prv, b, alloc, c);
    }
  }

  lemma MarkBlockOk(brk: nat, blk: map<nat, Block>, prv: map<nat, nat>, b: nat, alloc: bool, c: nat)
    requires b in blk && c in blk && BlockOk(c, brk, blk, prv)
    ensures BlockOk(c, brk, blk[b := Block(blk[b].words, alloc)], prv)
  {
  }

  lemma MarkApart(blk: map<nat, Block>, b: nat, alloc: bool)
    requires Apart(blk) && b in blk
    ensures Apart(blk[b := Block(blk[b].words, alloc)])
  {
    var blk' := blk[b := Block(blk[b].words, alloc)];
    forall c, d | c in blk' && d in blk' && c < d ensures c + blk'[c].words <= d {
      assert blk[c].words == blk'[c].words && blk[d].words == blk'[d].words;
    }
  }

  lemma MarkEndsOk(blk: map<nat, Block>, prv: map<nat, nat>, b: nat, alloc: bool)
    requires EndsOk(blk, prv) && b in blk
    ensures EndsOk(blk[b := Block(blk[b].words, alloc)], prv)
  {
  }

  /** Every block ends at or before the break. */
  lemma AllBelow(brk: nat, blk: map<nat, Block>, prv: map<nat, nat>)
    requires Shape(brk, blk, prv)
    ensures forall b {:trigger blk[b]} :: b in blk ==> b + blk[b].words <= brk && b < brk
    ensures forall b :: b in prv ==> b <= brk
  {
    forall b | b in blk ensures b + blk[b].words <= brk && b < brk { assert BlockOk(b, brk, blk, prv); }
    forall e | e in prv ensures e <= brk { assert BlockOk(prv[e], brk, blk, prv); }
  }

  lemma ExtendApart(brk: nat, blk: map<nat, Block>, x: Block)
    requires Apart(blk) && forall b {:trigger blk[b]} :: b in blk ==> b + blk[b].words <= brk && b < brk
    ensures Apart(blk[brk := x])
  {
  }

  lemma ExtendEndsOk(brk: nat, blk: map<nat, Block>, prv: map<nat, nat>, x: Block)
    requires EndsOk(blk, prv) && brk !in blk
    ensures EndsOk(blk[brk := x], prv[brk + x.words := brk])
  {
  }

  lemma ExtendBlockOk(brk: nat, blk: map<nat, Block>, prv: map<nat, nat>, words: nat, b: nat)
    requires Shape(brk, blk, prv) && words % 2 == 0 && words >= 4 && b in blk[brk := Block(words, false)]
    ensures BlockOk(b, brk + words, blk[brk := Block(words, false)], prv[brk + words := brk])
  {
    if b != brk {
      assert BlockOk(b, brk, blk, prv);
    } else {
      assert prv[brk] + blk[prv[brk]].words == brk;
      assert BlockOk(prv[brk], brk, blk, prv);
    }
  }

  lemma ExtendShape(brk: nat, blk: map<nat, Block>, prv: map<nat, nat>, words: nat)
    requires Shape(brk, blk, prv) && words % 2 == 0 && words >= 4
    ensures Shape(brk + words, blk[brk := Block(words, false)], prv[brk + words := brk])
    ensures brk !in blk
  {
    var blk', prv' := blk[brk := Block(words, false)], prv[brk + words := brk];
    ExtendParts(brk, blk, prv, words);
    ExtendBlocksOk(brk, blk, prv, words);
    assert PROLOGUE in blk' && blk'[PROLOGUE] == Block(2, true) && brk + words in prv';
  }

  lemma ExtendParts(brk: nat, blk: map<nat, Block>, prv: map<nat, nat>, words: nat)
    requires Shape(brk, blk, prv)
    ensures brk !in blk
    ensures Apart(blk[brk := Block(words, false)]) && EndsOk(blk[brk := Block(words, false)], prv[brk + words := brk])
  {
    AllBelow(brk, blk, prv);
    ExtendApart(brk, blk, Block(words, false));
    ExtendEndsOk(brk, blk, prv, Block(words, false));
  }

  lemma ExtendBlocksOk(brk: nat, blk: map<nat, Block>, prv: map<nat, nat>, words: nat)
    requires Shape(brk, blk, prv) && words % 2 == 0 && words >= 4
    ensures BlocksOk(brk + words, blk[brk := Block(words, false)], prv[brk + words := brk])
  {
    var blk', prv' := blk[brk := Block(words, false)], prv[brk + words := brk];
    forall b | b in blk' ensures BlockOk(b, brk + words, blk', prv') { ExtendBlockOk(brk, blk, prv, words, b); }
  }

  // ---------------------------------------------------------------- changes of tags

  /** m' differs from m only in words of the block x at b. */
  ghost predicate OnlyBlock(m: seq<nat>, m': seq<nat>, b: nat, x: Block) {
    |m'| == |m| && forall i :: 0 <= i < |m| && !Owns(b, x, i) ==> m'[i] == m[i]
  }

  /** Rewriting the tags of one block leaves all others in place. */
  lemma RetagBlock(m: seq<nat>, m': seq<nat>, brk: nat, blk: map<nat, Block>, prv: map<nat, nat>, b: nat, x: Block,
          c: nat)
    requires Shape(brk, blk, prv) && Tags(m, brk, blk) && b in blk && OnlyBlock(m, m', b, blk[b])
    requires c in blk && c != b
    ensures TagOk(m', c, blk[c])
  {
    assert BlockOk(b, brk, blk, prv) && BlockOk(c, brk, blk, prv) && TagOk(m, c, blk[c]);
  }

  lemma MarkTags(m: seq<nat>, m': seq<nat>, brk: nat, blk: map<nat, Block>, prv: map<nat, nat>, b: nat, alloc: bool)
    requires Shape(brk, blk, prv) && Tags(m, brk, blk) && b in blk && OnlyBlock(m, m', b, blk[b])
    requires TagOk(m', b, Block(blk[b].words, alloc))
    ensures Tags(m', brk, blk[b := Block(blk[b].words, alloc)])
  {
    assert BlockOk(b, brk, blk, prv);
    forall c | c in blk && c != b ensures TagOk(m', c, blk[c]) { RetagBlock(m, m', brk, blk, prv, b, blk[b], c); }
  }

  lemma MergeTags(m: seq<nat>, m': seq<nat>, brk: nat, blk: map<nat, Block>, prv: map<nat, nat>, a: nat)
    requires Shape(brk, blk, prv) && Tags(m, brk, blk) && a in blk && a != PROLOGUE && a + blk[a].words in blk
    requires OnlyBlock(m, m', a, MergeBlocks(blk, a)[a]) && TagOk(m', a, MergeBlocks(blk, a)[a])
    ensures Tags(m', brk, MergeBlocks(blk, a))
  {
    var n := a + blk[a].words;
    assert BlockOk(a, brk, blk, prv) && BlockOk(n, brk, blk, prv);
    forall c | c in blk && c != a && c != n ensures TagOk(m', c, blk[c]) {
      assert BlockOk(c, brk, blk, prv) && TagOk(m, c, blk[c]);
    }
  }

  lemma SplitTags(m: seq<nat>, m': seq<nat>, brk: nat, blk: map<nat, Block>, prv: map<nat, nat>, b: nat, words: nat)
    requires Shape(brk, blk, prv) && Tags(m, brk, blk) && b in blk && words <= blk[b].words
    requires OnlyBlock(m, m', b, blk[b])
    requires TagOk(m', b, Block(words, true)) && TagOk(m', b + words, Block(blk[b].words - words, false))
    ensures Tags(m', brk, SplitBlocks(blk, b, words))
  {
    assert BlockOk(b, brk, blk, prv);
    forall c | c in blk && c != b ensures TagOk(m', c, blk[c]) { RetagBlock(m, m', brk, blk, prv, b, blk[b], c); }
  }

  lemma ExtendTags(m: seq<nat>, m': seq<nat>, brk: nat, blk: map<nat, Block>, prv: map<nat, nat>, words: nat)
    requires Shape(brk, blk, prv) && Tags(m, brk, blk) && words >= 4 && brk + words <= |m|
    requires |m'| == |m| && forall i :: 0 <= i < brk - 1 ==> m'[i] == m[i]
    requires TagOk(m', brk, Block(words, false)) && m'[brk + words - 1] == Pack(0, true)
    ensures Tags(m', brk + words, blk[brk := Block(words, false)])
  {
    forall b | b in blk ensures TagOk(m', b, blk[b]) {
      assert BlockOk(b, brk, blk, prv) && TagOk(m, b, blk[b]);
    }
  }
}
