/** Four-level address translation: the walk the processor makes (AMD64
    Architecture Programmer's Manual, Volume 2, section 5.3), on the 64-bit words
    that hold the entries of p2-page-tables/kernel/kernel_code.c. */
module PageWalk {
  type Bit = b: int | 0 <= b < 2
  type Word = w: int | 0 <= w < 0x1_0000_0000_0000_0000

  type PageNumber = a: int | 0 <= a < 0x100_0000_0000
  type Avl = a: int | 0 <= a < 8
  type Avail = a: int | 0 <= a < 128
  type Key = a: int | 0 <= a < 16

  /** struct pte. */
  datatype Pte = Pte(p: Bit, rw: Bit, us: Bit, pwt: Bit, pcd: Bit, a: Bit, ign: Bit,
                     mbz1: Bit, mbz2: Bit, avl: Avl, pageAddr: PageNumber,
                     avail: Avail, pke: Key, nonexec: Bit)

  /** The word a struct pte occupies: its bit fields from the lowest bit up. */
  function Bits(e: Pte): Word {
    Low(e) + 0x1000 * Upper(e)
  }

  function Low(e: Pte): (w: int)
    ensures 0 <= w < 0x1000
  {
    e.p + 2 * e.rw + 4 * e.us + 8 * e.pwt + 0x10 * e.pcd + 0x20 * e.a + 0x40 * e.ign
    + 0x80 * e.mbz1 + 0x100 * e.mbz2 + 0x200 * e.avl
  }

  function High(e: Pte): (w: int)
    ensures 0 <= w < 0x1000
  {
    e.avail + 0x80 * e.pke + 0x800 * e.nonexec
  }

  /** What the processor sees in an entry. */
  datatype Fields = Fields(present: bool, writable: bool, user: bool, largePage: bool, global: bool,
                           frame: nat, noExecute: bool)

  /** Flags in bits 0, 1, 2, 7, 8 and 63, the physical address in bits 12 to 51. */
  function Decode(w: Word): Fields {
    Fields(w % 2 == 1, w / 2 % 2 == 1, w / 4 % 2 == 1, w / 0x80 % 2 == 1, w / 0x100 % 2 == 1,
           w / 0x1000 % 0x100_0000_0000 * 0x1000, w / 0x8000_0000_0000_0000 == 1)
  }

  lemma Times(d: int, x: int)
    requires d > 0
    ensures x >= 1 ==> d * x >= d
    ensures x <= -1 ==> d * x <= -d
  {
    if x >= 1 { assert d * (x - 1) >= 0; } else if x <= -1 { assert d * (-x - 1) >= 0; }
  }

  lemma SplitUnique(d: int, q: int, r: int, high: int, low: int)
    requires 0 <= r < d && 0 <= low < d && d * q + r == d * high + low
    ensures q == high && r == low
  {
    assert d * (q - high) == low - r;
    Times(d, q - high);
  }

  lemma DivideSum(low: int, d: int, high: int)
    requires 0 <= low < d
    ensures (low + d * high) / d == high && (low + d * high) % d == low
  {
    var n := low + d * high;
    SplitUnique(d, n / d, n % d, high, low);
  }

  /** A flag is read back whatever lies below and above it. */
  lemma FlagAt(w: Word, weight: nat, low: int, flag: Bit, more: int)
    requires weight > 0 && 0 <= low < weight && w == low + weight * (flag + 2 * more)
    ensures w / weight % 2 == flag
  {
    DivideSum(low, weight, flag + 2 * more);
    DivideSum(flag, 2, more);
  }

  /** The upper part of the word: address, and what lies above it. */
  function Upper(e: Pte): int { e.pageAddr + 0x100_0000_0000 * High(e) }

  /** The processor reads from the word what the program wrote into the fields:
      the flags in bits 0 to 2, those in bits 7 and 8, and all from bit 12 on. */
  lemma LowFlags(e: Pte)
    ensures var w := Bits(e); w % 2 == e.p && w / 2 % 2 == e.rw && w / 4 % 2 == e.us
  {
    var above := e.pwt + 2 * e.pcd + 4 * e.a + 8 * e.ign + 0x10 * e.mbz1 + 0x20 * e.mbz2 + 0x40 * e.avl +
      0x200 * Upper(e);
    FlagAt(Bits(e), 1, 0, e.p, e.rw + 2 * (e.us + 2 * above));
    FlagAt(Bits(e), 2, e.p, e.rw, e.us + 2 * above);
    FlagAt(Bits(e), 4, e.p + 2 * e.rw, e.us, above);
  }

  lemma SizeFlags(e: Pte)
    ensures var w := Bits(e); w / 0x80 % 2 == e.mbz1 && w / 0x100 % 2 == e.mbz2
  {
    var below := e.p + 2 * e.rw + 4 * e.us + 8 * e.pwt + 0x10 * e.pcd + 0x20 * e.a + 0x40 * e.ign;
    var above := e.avl + 8 * Upper(e);
    FlagAt(Bits(e), 0x80, below, e.mbz1, e.mbz2 + 2 * above);
    FlagAt(Bits(e), 0x100, below + 0x80 * e.mbz1, e.mbz2, above);
  }

  lemma UpperFields(e: Pte)
    ensures var w := Bits(e); w / 0x8000_0000_0000_0000 == e.nonexec && w / 0x1000 % 0x100_0000_0000 == e.pageAddr
  {
    DivideSum(Low(e), 0x1000, Upper(e));
    DivideSum(e.pageAddr, 0x100_0000_0000, High(e));
    var below := Low(e) + 0x1000 * e.pageAddr + 0x10_0000_0000_0000 * (e.avail + 0x80 * e.pke);
    DivideSum(below, 0x8000_0000_0000_0000, e.nonexec);
  }

  /** The fields the walk does not look at: pwt, pcd, a and ign in bits 3 to 6, avl
      from bit 9, avail from bit 52, pke from bit 59. */
  lemma OtherFlags(e: Pte)
    ensures var w := Bits(e);
      w / 8 % 2 == e.pwt && w / 0x10 % 2 == e.pcd && w / 0x20 % 2 == e.a && w / 0x40 % 2 == e.ign
  {
    var low, above := e.p + 2 * e.rw + 4 * e.us, e.mbz1 + 2 * e.mbz2 + 4 * e.avl + 0x20 * Upper(e);
    FlagAt(Bits(e), 8, low, e.pwt, e.pcd + 2 * (e.a + 2 * (e.ign + 2 * above)));
    FlagAt(Bits(e), 0x10, low + 8 * e.pwt, e.pcd, e.a + 2 * (e.ign + 2 * above));
    FlagAt(Bits(e), 0x20, low + 8 * e.pwt + 0x10 * e.pcd, e.a, e.ign + 2 * above);
    FlagAt(Bits(e), 0x40, low + 8 * e.pwt + 0x10 * e.pcd + 0x20 * e.a, e.ign, above);
  }

  lemma OtherFields(e: Pte)
    ensures var w := Bits(e);
      w / 0x200 % 8 == e.avl && w / 0x10_0000_0000_0000 % 128 == e.avail && w / 0x800_0000_0000_0000 % 16 == e.pke
  {
    DivideSum(Low(e) - 0x200 * e.avl, 0x200, e.avl + 8 * Upper(e));
    DivideSum(e.avl, 8, Upper(e));
    DivideSum(Low(e) + 0x1000 * e.pageAddr, 0x10_0000_0000_0000, High(e));
    DivideSum(e.avail, 128, e.pke + 16 * e.nonexec);
    DivideSum(Low(e) + 0x1000 * e.pageAddr + 0x10_0000_0000_0000 * e.avail, 0x800_0000_0000_0000,
      e.pke + 16 * e.nonexec);
    DivideSum(e.pke, 16, e.nonexec);
  }

  function FieldsOf(e: Pte): Fields {
    Fields(e.p == 1, e.rw == 1, e.us == 1, e.mbz1 == 1, e.mbz2 == 1, e.pageAddr * 0x1000, e.nonexec == 1)
  }

  /** Physical memory, by the addresses of 64-bit words. */
  type Ram = nat -> Word

  /** m is in memory from address `base` on. */
  ghost predicate Loaded(ram: Ram, m: seq<Pte>, base: nat) {
    forall k :: 0 <= k < |m| ==> ram(base + 8 * k) == Bits(m[k])
  }

  /** How the processor reads an entry. */
  function Entries(ram: Ram): nat -> Fields {
    (address: nat) => Decode(ram(address))
  }

  /** What becomes of a virtual address. */
  datatype Translation =
    | NotPresent
    | Mapped(physical: nat, writable: bool, user: bool, executable: bool)
    | Reserved

  /** A virtual address as a walk takes it apart: four indices of nine bits, and
      the offset in a page. */
  datatype Virtual = Virtual(top: nat, pointers: nat, directory: nat, page: nat, offset: nat)

  function Split(va: nat): Virtual {
    Virtual(va / 0x80_0000_0000 % 512, va / 0x4000_0000 % 512, va / 0x20_0000 % 512, va / 0x1000 % 512, va % 0x1000)
  }

  function Index(v: Virtual, level: nat): nat
    requires 1 <= level <= 4
  {
    if level == 4 then v.top else if level == 3 then v.pointers else if level == 2 then v.directory else v.page
  }

  /** The byte of a page of 2 MB or 1 GB. */
  function InLargePage(frame: nat, v: Virtual, level: nat): nat
  {
    if level == 2 then frame / 0x20_0000 * 0x20_0000 + v.page * 0x1000 + v.offset
    else frame / 0x4000_0000 * 0x4000_0000 + v.directory * 0x20_0000 + v.page * 0x1000 + v.offset
  }

  /** The rest of a walk, from a table of some level; the rights are those all
      entries so far agree on. */
  function WalkFrom(read: nat -> Fields, table: nat, v: Virtual, level: nat,
                    writable: bool, user: bool, executable: bool): Translation
    requires 1 <= level <= 4
    decreases level
  {
    var f := read(table + 8 * Index(v, level));
    if !f.present then NotPresent
    else
      var rw := writable && f.writable;
      var us := user && f.user;
      var ex := executable && !f.noExecute;
      if level == 4 && (f.largePage || f.global) then Reserved
      else if level == 1 then Mapped(f.frame + v.offset, rw, us, ex)
      else if f.largePage then Mapped(InLargePage(f.frame, v, level), rw, us, ex)
      else WalkFrom(read, f.frame, v, level - 1, rw, us, ex)
  }

  /** The walk from the table in CR3. */
  function Walk(ram: Ram, root: nat, va: nat): Translation {
    WalkFrom(Entries(ram), root, Split(va), 4, true, true, true)
  }

  /** The upper 17 bits of a canonical address are all equal. */
  predicate Canonical(va: nat) {
    va < 0x8000_0000_0000 || 0xffff_8000_0000_0000 <= va < 0x1_0000_0000_0000_0000
  }

  /** Through `read` the entries of m are seen at their addresses. */
  ghost predicate Sees(read: nat -> Fields, m: seq<Pte>, base: nat) {
    forall k :: 0 <= k < |m| ==> read(base + 8 * k) == FieldsOf(m[k])
  }

  lemma LoadedIsSeen(ram: Ram, m: seq<Pte>, base: nat)
    requires Loaded(ram, m, base)
    ensures Sees(Entries(ram), m, base)
  {
    forall k | 0 <= k < |m| ensures Entries(ram)(base + 8 * k) == FieldsOf(m[k]) {
      LowFlags(m[k]);
      SizeFlags(m[k]);
      UpperFields(m[k]);
    }
  }

  /** How a walk goes on after an entry with the fields of e. */
  function After(read: nat -> Fields, e: Pte, v: Virtual, level: nat, rw: bool, us: bool, ex: bool): Translation
    requires 1 <= level <= 4
  {
    if e.p == 0 then NotPresent
    else if level == 1 then
      Mapped(e.pageAddr * 0x1000 + v.offset, rw && e.rw == 1, us && e.us == 1, ex && e.nonexec == 0)
    else
      WalkFrom(read, e.pageAddr * 0x1000, v, level - 1, rw && e.rw == 1, us && e.us == 1, ex && e.nonexec == 0)
  }

  /** One level of a walk, in terms of the fields of the entry it meets. */
  lemma WalkOn(read: nat -> Fields, table: nat, v: Virtual, level: nat, rw: bool, us: bool, ex: bool, e: Pte)
    requires 1 <= level <= 4 && read(table + 8 * Index(v, level)) == FieldsOf(e)
    requires e.mbz1 == 0 && e.mbz2 == 0
    ensures WalkFrom(read, table, v, level, rw, us, ex) == After(read, e, v, level, rw, us, ex)
  {
  }

  /** The entry at position i of the table that starts at position t. */
  lemma SeenAt(read: nat -> Fields, m: seq<Pte>, base: nat, t: nat, i: nat)
    requires Sees(read, m, base) && t + i < |m|
    ensures read(base + 8 * t + 8 * i) == FieldsOf(m[t + i])
  {
    assert base + 8 * t + 8 * i == base + 8 * (t + i);
  }
}
