/** The page tables kernel_init builds in p2-page-tables/kernel/kernel_code.c, and
    what the processor finds when it walks them. */
module PageTables {
  import opened PageWalk

  /** Entries before each of the tables, in the order they follow each other. */
  const PAGES := 0x10_0000
  const P := 0
  const PD := P + PAGES
  const PDP := PD + 2048
  const PML := PDP + 512
  const PDP_USER := PML + 512
  const PD_USER := PDP_USER + 512
  const P_USER := PD_USER + 512
  const TOTAL := P_USER + 512

  /** What a 40-bit field keeps of an address shifted right by 12. */
  function PageField(address: nat): PageNumber {
    address / 0x1000 % 0x100_0000_0000
  }

  /** The address of entry k. */
  function Address(base: nat, k: nat): nat { base + 8 * k }

  /** ustack - 4096, on pointers of 64 bits. */
  function Below(address: Word): Word { (address - 4096) % 0x1_0000_0000_0000_0000 }

  function Entry(present: Bit, us: Bit, page: PageNumber): Pte {
    Pte(present, present, us, 0, 0, 0, 0, 0, 0, 0, page, 0, 0, 0)
  }

  const ABSENT := Entry(0, 0, 0)

  /** All fourteen fields, as every loop assigns them. */
  method Assign(memory: array<Pte>, k: nat, present: Bit, us: Bit, page: PageNumber)
    requires k < memory.Length
    modifies memory
    ensures memory[..] == old(memory[..])[k := Entry(present, us, page)]
  {
    memory[k] := memory[k].(p := present, rw := present, us := us);
    memory[k] := memory[k].(pwt := 0, pcd := 0, a := 0, ign := 0, mbz1 := 0, mbz2 := 0, avl := 0);
    memory[k] := memory[k].(pageAddr := page, avail := 0, pke := 0, nonexec := 0);
  }

  /** The `count` entries of m from `first` on are those of `table`, the others are
      as before. */
  ghost predicate Filled(before: seq<Pte>, m: seq<Pte>, first: nat, table: nat -> Pte, count: nat) {
    && |m| == |before| && first + count <= |m|
    && (forall i :: first <= i < first + count ==> m[i] == table(i - first))
    && (forall i :: 0 <= i < |m| && !(first <= i < first + count) ==> m[i] == before[i])
  }

  function PagesEntry(i: nat): Pte { Entry(1, 0, i % 0x100_0000_0000) }

  function DirectoryEntry(base: nat, i: nat): Pte { Entry(1, 0, PageField(Address(base, P + 512 * i))) }

  function PointersEntry(base: nat, i: nat): Pte {
    if i < 4 then Entry(1, 0, PageField(Address(base, PD + 512 * i))) else ABSENT
  }

  function TopEntry(base: nat, i: nat): Pte {
    if i < 1 then Entry(1, 0, PageField(Address(base, PDP + 512 * i))) else ABSENT
  }

  method FillPages(memory: array<Pte>)
    requires memory.Length >= TOTAL
    modifies memory
    ensures Filled(old(memory[..]), memory[..], P, (i: nat) => PagesEntry(i), PAGES)
  {
    for i := 0 to PAGES
      invariant Filled(old(memory[..]), memory[..], P, (i: nat) => PagesEntry(i), i)
    {
      Assign(memory, P + i, 1, 0, i % 0x100_0000_0000);
    }
  }

  method FillDirectory(memory: array<Pte>, base: nat)
    requires memory.Length >= TOTAL
    modifies memory
    ensures Filled(old(memory[..]), memory[..], PD, (i: nat) => DirectoryEntry(base, i), 2048)
  {
    for i := 0 to 2048
      invariant Filled(old(memory[..]), memory[..], PD, (i: nat) => DirectoryEntry(base, i), i)
    {
      var start := Address(base, P + 512 * i);
      Assign(memory, PD + i, 1, 0, PageField(start));
    }
  }

  method FillPointers(memory: array<Pte>, base: nat)
    requires memory.Length >= TOTAL
    modifies memory
    ensures Filled(old(memory[..]), memory[..], PDP, (i: nat) => PointersEntry(base, i), 512)
  {
    for i := 0 to 512
      invariant Filled(old(memory[..]), memory[..], PDP, (i: nat) => PointersEntry(base, i), i)
    {
      var start := Address(base, PD + 512 * i);
      if i < 4 { Assign(memory, PDP + i, 1, 0, PageField(start)); } else { Assign(memory, PDP + i, 0, 0, 0); }
    }
  }

  method FillTop(memory: array<Pte>, base: nat)
    requires memory.Length >= TOTAL
    modifies memory
    ensures Filled(old(memory[..]), memory[..], PML, (i: nat) => TopEntry(base, i), 512)
  {
    for i := 0 to 512
      invariant Filled(old(memory[..]), memory[..], PML, (i: nat) => TopEntry(base, i), i)
    {
      var start := Address(base, PDP + 512 * i);
      if i < 1 { Assign(memory, PML + i, 1, 0, PageField(start)); } else { Assign(memory, PML + i, 0, 0, 0); }
    }
  }

  /** One of the three loops that clear a table of the user. */
  method Clear(memory: array<Pte>, first: nat)
    requires first + 512 <= memory.Length
    modifies memory
    ensures Filled(old(memory[..]), memory[..], first, (i: nat) => ABSENT, 512)
  {
    for i := 0 to 512
      invariant Filled(old(memory[..]), memory[..], first, (i: nat) => ABSENT, i)
    {
      Assign(memory, first + i, 0, 0, 0);
    }
  }

  /** The four fields set for an entry of the user; the others stay. */
  method SetUser(memory: array<Pte>, k: nat, page: PageNumber)
    requires k < memory.Length && memory[k] == ABSENT
    modifies memory
    ensures memory[..] == old(memory[..])[k := Entry(1, 1, page)]
  {
    memory[k] := memory[k].(p := 1);
    memory[k] := memory[k].(rw := 1);
    memory[k] := memory[k].(us := 1);
    memory[k] := memory[k].(pageAddr := page);
  }

  /** Where the tables may be: at the start of a page, within physical memory. */
  predicate Placed(base: nat) { base % 0x1000 == 0 && base + 8 * TOTAL <= 0x10_0000_0000_0000 }

  /** An entry for the table at an address. */
  ghost predicate Leads(e: Pte, u: Bit, table: nat) {
    e == Entry(1, u, e.pageAddr) && e.pageAddr * 0x1000 == table
  }

  /** An entry for the table at position `next`. */
  ghost predicate Points(e: Pte, u: Bit, base: nat, next: nat) {
    Leads(e, u, base + 8 * next)
  }

  ghost predicate PageOk(m: seq<Pte>, i: nat)
    requires |m| >= TOTAL && i < PAGES
  {
    m[P + i] == Entry(1, 0, i)
  }

  ghost predicate DirectoryOk(m: seq<Pte>, base: nat, i: nat)
    requires |m| >= TOTAL && i < 2048
  {
    Points(m[PD + i], 0, base, P + 512 * i)
  }

  ghost predicate PointersOk(m: seq<Pte>, base: nat, i: nat)
    requires |m| >= TOTAL && i < 512
  {
    if i < 4 then Points(m[PDP + i], 0, base, PD + 512 * i) else m[PDP + i] == ABSENT
  }

  ghost predicate TopOk(m: seq<Pte>, base: nat, i: nat)
    requires |m| >= TOTAL && i < 512
  {
    if i == 0 then Points(m[PML], 0, base, PDP) else m[PML + i] == ABSENT
  }

  ghost predicate AbsentAt(m: seq<Pte>, k: nat)
    requires k < |m|
  {
    m[k] == ABSENT
  }

  /** The tables of the kernel: all of the lower 4 GB. */
  ghost predicate KernelTables(m: seq<Pte>, base: nat) {
    && |m| >= TOTAL
    && (forall i :: 0 <= i < PAGES ==> PageOk(m, i))
    && (forall i :: 0 <= i < 2048 ==> DirectoryOk(m, base, i))
    && (forall i :: 0 <= i < 512 ==> PointersOk(m, base, i))
    && (forall i :: 0 <= i < 511 ==> TopOk(m, base, i))
  }

  /** The tables of the user: two pages at the very top. */
  ghost predicate UserTables(m: seq<Pte>, base: nat, stackPage: PageNumber, programPage: PageNumber) {
    && |m| >= TOTAL
    && Points(m[PML + 511], 1, base, PDP_USER)
    && (forall k :: PDP_USER <= k < PDP_USER + 511 ==> AbsentAt(m, k))
    && Points(m[PDP_USER + 511], 1, base, PD_USER)
    && (forall k :: PD_USER <= k < PD_USER + 511 ==> AbsentAt(m, k))
    && Points(m[PD_USER + 511], 1, base, P_USER)
    && (forall k :: P_USER <= k < P_USER + 510 ==> AbsentAt(m, k))
    && m[P_USER + 510] == Entry(1, 1, stackPage)
    && m[P_USER + 511] == Entry(1, 1, programPage)
  }

  /** A table that starts a page is found again through the field that holds its
      page number. */
  lemma TableFound(base: nat, k: nat, j: nat)
    requires Placed(base) && k == 512 * j && k < TOTAL
    ensures PageField(Address(base, k)) == base / 0x1000 + j
  {
    PageFound(base / 0x1000 + j);
    assert base + 8 * k == 0x1000 * (base / 0x1000 + j);
  }

  lemma PageFound(x: nat)
    requires x < 0x100_0000_0000
    ensures PageField(0x1000 * x) == x
  {
    DivideSum(0, 0x1000, x);
  }

  /** The four loops one after the other. */
  lemma KernelFilled(m0: seq<Pte>, m1: seq<Pte>, m2: seq<Pte>, m3: seq<Pte>, m4: seq<Pte>, base: nat)
    requires Placed(base) && |m0| >= TOTAL
    requires Filled(m0, m1, P, (i: nat) => PagesEntry(i), PAGES)
    requires Filled(m1, m2, PD, (i: nat) => DirectoryEntry(base, i), 2048)
    requires Filled(m2, m3, PDP, (i: nat) => PointersEntry(base, i), 512)
    requires Filled(m3, m4, PML, (i: nat) => TopEntry(base, i), 512)
    ensures KernelTables(m4, base) && AbsentAt(m4, PML + 511)
    ensures m4[TOTAL..] == m0[TOTAL..]
  {
    forall i | 0 <= i < PAGES ensures PageOk(m4, i) {
      assert m4[P + i] == m3[P + i] == m2[P + i] == m1[P + i];
    }
    forall i | 0 <= i < 2048 ensures DirectoryOk(m4, base, i) {
      assert m4[PD + i] == m3[PD + i] == m2[PD + i];
      TableFound(base, P + 512 * i, i);
    }
    forall i | 0 <= i < 512 ensures PointersOk(m4, base, i) {
      assert m4[PDP + i] == m3[PDP + i];
      if i < 4 { TableFound(base, PD + 512 * i, 2048 + i); }
    }
    forall i | 0 <= i < 512 ensures TopOk(m4, base, i) {
      assert m4[PML + i] == TopEntry(base, i);
      if i == 0 { TableFound(base, PDP, 2052); }
    }
    assert TopOk(m4, base, 511);
  }

  /** Entries from the user's tables on may change without any effect on the
      kernel's. */
  lemma KernelKept(m: seq<Pte>, m': seq<Pte>, base: nat)
    requires KernelTables(m, base) && |m'| == |m|
    requires forall k :: 0 <= k < PML + 511 ==> m'[k] == m[k]
    ensures KernelTables(m', base)
  {
    forall i | 0 <= i < PAGES ensures PageOk(m', i) { assert PageOk(m, i); }
    forall i | 0 <= i < 2048 ensures DirectoryOk(m', base, i) { assert DirectoryOk(m, base, i); }
    forall i | 0 <= i < 512 ensures PointersOk(m', base, i) { assert PointersOk(m, base, i); }
    forall i | 0 <= i < 511 ensures TopOk(m', base, i) { assert TopOk(m, base, i); }
  }

  /** What the user's part writes, after the three tables are cleared. */
  function WithUser(m: seq<Pte>, base: nat, ustack: Word, uprogram: Word): seq<Pte>
    requires |m| >= TOTAL
  {
    m[PML + 511 := Entry(1, 1, PageField(Address(base, PDP_USER)))]
     [PDP_USER + 511 := Entry(1, 1, PageField(Address(base, PD_USER)))]
     [PD_USER + 511 := Entry(1, 1, PageField(Address(base, P_USER)))]
     [P_USER + 511 := Entry(1, 1, PageField(uprogram))]
     [P_USER + 510 := Entry(1, 1, PageField(Below(ustack)))]
  }

  lemma UserFilled(m: seq<Pte>, base: nat, ustack: Word, uprogram: Word)
    requires Placed(base) && |m| >= TOTAL
    requires forall k :: PDP_USER <= k < TOTAL ==> m[k] == ABSENT
    ensures UserTables(WithUser(m, base, ustack, uprogram), base, PageField(Below(ustack)), PageField(uprogram))
  {
    TableFound(base, PDP_USER, 2054);
    TableFound(base, PD_USER, 2055);
    TableFound(base, P_USER, 2056);
  }

  // ---------------------------------------------------------------- the words

  /** The 64-bit word of each of the 1053184 entries: pages 0 to 1048575 for the
      kernel (flags 3: present, writable), the kernel's tables one after the other
      from base on, the links and pages of the user (flags 7), and 0 elsewhere. */
  function WordAt(k: nat, base: nat, stackPage: PageNumber, programPage: PageNumber): nat {
    if k < 1048576 then 0x1000 * k + 3
    else if k < 1050624 then base + 0x1000 * (k - 1048576) + 3
    else if k < 1050628 then base + 8388608 + 0x1000 * (k - 1050624) + 3
    else if k == 1051136 then base + 8404992 + 3
    else if k == 1051647 then base + 8413184 + 7
    else if k == 1052159 then base + 8417280 + 7
    else if k == 1052671 then base + 8421376 + 7
    else if k == 1053182 then 0x1000 * stackPage + 7
    else if k == 1053183 then 0x1000 * programPage + 7
    else 0
  }

  lemma EntryWord(present: Bit, us: Bit, page: PageNumber)
    ensures Bits(Entry(present, us, page)) == 3 * present + 4 * us + 0x1000 * page
  {
  }

  lemma LinkWord(e: Pte, u: Bit, table: nat)
    requires Leads(e, u, table)
    ensures Bits(e) == table + 3 + 4 * u
  {
    EntryWord(1, u, e.pageAddr);
  }

  /** The words of the four kernel tables. */
  lemma PageWord(m: seq<Pte>, base: nat, i: nat)
    requires KernelTables(m, base) && i < PAGES
    ensures Bits(m[i]) == 0x1000 * i + 3
  {
    assert PageOk(m, i);
    EntryWord(1, 0, i);
  }

  lemma DirectoryWord(m: seq<Pte>, base: nat, i: nat)
    requires KernelTables(m, base) && i < 2048
    ensures Bits(m[PD + i]) == base + 0x1000 * i + 3
  {
    assert DirectoryOk(m, base, i);
    LinkWord(m[PD + i], 0, base + 8 * (P + 512 * i));
  }

  lemma PointersWord(m: seq<Pte>, base: nat, i: nat)
    requires KernelTables(m, base) && i < 512
    ensures Bits(m[PDP + i]) == if i < 4 then base + 8 * (PD + 512 * i) + 3 else 0
  {
    assert PointersOk(m, base, i);
    if i < 4 { LinkWord(m[PDP + i], 0, base + 8 * (PD + 512 * i)); } else { EntryWord(0, 0, 0); }
  }

  lemma TopWord(m: seq<Pte>, base: nat, i: nat)
    requires KernelTables(m, base) && i < 511
    ensures Bits(m[PML + i]) == if i == 0 then base + 8 * PDP + 3 else 0
  {
    assert TopOk(m, base, i);
    if i == 0 { LinkWord(m[PML], 0, base + 8 * PDP); } else { EntryWord(0, 0, 0); }
  }

  lemma KernelWord(m: seq<Pte>, base: nat, stackPage: PageNumber, programPage: PageNumber, k: nat)
    requires KernelTables(m, base) && k < PML + 511
    ensures Bits(m[k]) == WordAt(k, base, stackPage, programPage)
  {
    if k < PD { PageWord(m, base, k); }
    else if k < PDP { DirectoryWord(m, base, k - PD); }
    else if k < PML { PointersWord(m, base, k - PDP); }
    else { TopWord(m, base, k - PML); }
  }

  lemma AbsentWord(m: seq<Pte>, k: nat)
    requires k < |m| && AbsentAt(m, k)
    ensures Bits(m[k]) == 0
  {
    EntryWord(0, 0, 0);
  }

  /** The words of the user's links and pages. */
  lemma UserLinkWord(m: seq<Pte>, base: nat, stackPage: PageNumber, programPage: PageNumber, k: nat)
    requires UserTables(m, base, stackPage, programPage)
    requires k == PML + 511 || k == PDP_USER + 511 || k == PD_USER + 511 || k == P_USER + 510 || k == P_USER + 511
    ensures Bits(m[k]) ==
      7 + if k == PML + 511 then base + 8 * PDP_USER else if k == PDP_USER + 511 then base + 8 * PD_USER
          else if k == PD_USER + 511 then base + 8 * P_USER
          else 0x1000 * if k == P_USER + 510 then stackPage else programPage
  {
    if k == PML + 511 { LinkWord(m[k], 1, base + 8 * PDP_USER); }
    else if k == PDP_USER + 511 { LinkWord(m[k], 1, base + 8 * PD_USER); }
    else if k == PD_USER + 511 { LinkWord(m[k], 1, base + 8 * P_USER); }
    else { EntryWord(1, 1, m[k].pageAddr); }
  }

  lemma UserTableWord(m: seq<Pte>, base: nat, stackPage: PageNumber, programPage: PageNumber, first: nat, k: nat)
    requires UserTables(m, base, stackPage, programPage) && first <= k < first + 510
    requires first == PDP_USER || first == PD_USER || first == P_USER
    ensures Bits(m[k]) == 0
  {
    AbsentWord(m, k);
  }

  lemma UserWord(m: seq<Pte>, base: nat, stackPage: PageNumber, programPage: PageNumber, k: nat)
    requires UserTables(m, base, stackPage, programPage) && PML + 511 <= k < TOTAL
    ensures Bits(m[k]) == WordAt(k, base, stackPage, programPage)
  {
    if PDP_USER <= k < PDP_USER + 510 {
      UserTableWord(m, base, stackPage, programPage, PDP_USER, k);
    } else if PD_USER <= k < PD_USER + 510 {
      UserTableWord(m, base, stackPage, programPage, PD_USER, k);
    } else if P_USER <= k < P_USER + 510 {
      UserTableWord(m, base, stackPage, programPage, P_USER, k);
    } else if k == PDP_USER + 510 || k == PD_USER + 510 {
      AbsentWord(m, k);
    } else {
      UserLinkWord(m, base, stackPage, programPage, k);
    }
  }

  /** Linked tables hold exactly these words. */
  lemma WordsExact(m: seq<Pte>, base: nat, stackPage: PageNumber, programPage: PageNumber)
    requires KernelTables(m, base) && UserTables(m, base, stackPage, programPage)
    ensures |m| >= 1053184 && forall k: nat :: k < 1053184 ==> Bits(m[k]) == WordAt(k, base, stackPage, programPage)
  {
    forall k: nat | k < 1053184 ensures Bits(m[k]) == WordAt(k, base, stackPage, programPage) {
      if k < PML + 511 { KernelWord(m, base, stackPage, programPage, k); }
      else { UserWord(m, base, stackPage, programPage, k); }
    }
  }

  /** Down one level, through an entry that leads to the next table. */
  lemma Descend(read: nat -> Fields, table: nat, v: Virtual, level: nat, us: bool, u: Bit, e: Pte, next: nat)
    requires 2 <= level <= 4 && read(table + 8 * Index(v, level)) == FieldsOf(e) && Leads(e, u, next)
    ensures WalkFrom(read, table, v, level, true, us, true)
         == WalkFrom(read, next, v, level - 1, true, us && u == 1, true)
  {
    WalkOn(read, table, v, level, true, us, true, e);
  }

  /** On any level the entry may be missing. */
  lemma NoEntry(read: nat -> Fields, table: nat, v: Virtual, level: nat, us: bool)
    requires 1 <= level <= 4 && read(table + 8 * Index(v, level)) == FieldsOf(ABSENT)
    ensures WalkFrom(read, table, v, level, true, us, true) == NotPresent
  {
    WalkOn(read, table, v, level, true, us, true, ABSENT);
  }

  /** From a directory to the page, if it is there. */
  lemma TwoLevels(read: nat -> Fields, v: Virtual, level: nat, t2: nat, t1: nat, us: bool, u: Bit, e2: Pte, e1: Pte)
    requires level == 2
    requires read(t2 + 8 * v.directory) == FieldsOf(e2) && Leads(e2, u, t1)
    requires read(t1 + 8 * v.page) == FieldsOf(e1) && (e1 == ABSENT || e1 == Entry(1, u, e1.pageAddr))
    ensures WalkFrom(read, t2, v, level, true, us, true) ==
      if e1 == ABSENT then NotPresent else Mapped(e1.pageAddr * 0x1000 + v.offset, true, us && u == 1, true)
  {
    Descend(read, t2, v, level, us, u, e2, t1);
    WalkOn(read, t1, v, level - 1, true, us && u == 1, true, e1);
  }

  /** From the top table to a directory. */
  lemma TwoDown(read: nat -> Fields, v: Virtual, level: nat, t4: nat, t3: nat, t2: nat, us: bool, u: Bit, e4: Pte,
          e3: Pte)
    requires level == 4
    requires read(t4 + 8 * v.top) == FieldsOf(e4) && Leads(e4, u, t3)
    requires read(t3 + 8 * v.pointers) == FieldsOf(e3) && Leads(e3, u, t2)
    ensures WalkFrom(read, t4, v, level, true, us, true)
         == WalkFrom(read, t2, v, level - 2, true, us && u == 1, true)
  {
    Descend(read, t4, v, level, us, u, e4, t3);
    Descend(read, t3, v, level - 1, us && u == 1, u, e3, t2);
  }

  /** A top entry, and no entry on the next level. */
  lemma NoPointer(read: nat -> Fields, v: Virtual, level: nat, t4: nat, t3: nat, u: Bit, e4: Pte)
    requires level == 4
    requires read(t4 + 8 * v.top) == FieldsOf(e4) && Leads(e4, u, t3)
    requires read(t3 + 8 * v.pointers) == FieldsOf(ABSENT)
    ensures WalkFrom(read, t4, v, level, true, true, true) == NotPresent
  {
    Descend(read, t4, v, level, true, u, e4, t3);
    NoEntry(read, t3, v, level - 1, u == 1);
  }

  /** All four levels; the entry on level 3, 2 or 1 may be missing. */
  lemma FourLevels(read: nat -> Fields, v: Virtual, level: nat, t4: nat, t3: nat, t2: nat, t1: nat, u: Bit,
                   e4: Pte, e3: Pte, e2: Pte, e1: Pte)
    requires level == 4
    requires read(t4 + 8 * v.top) == FieldsOf(e4) && Leads(e4, u, t3)
    requires read(t3 + 8 * v.pointers) == FieldsOf(e3) && (e3 == ABSENT || Leads(e3, u, t2))
    requires read(t2 + 8 * v.directory) == FieldsOf(e2) && (e2 == ABSENT || Leads(e2, u, t1))
    requires read(t1 + 8 * v.page) == FieldsOf(e1) && (e1 == ABSENT || e1 == Entry(1, u, e1.pageAddr))
    ensures WalkFrom(read, t4, v, level, true, true, true) ==
      if e3 == ABSENT || e2 == ABSENT || e1 == ABSENT then NotPresent
      else Mapped(e1.pageAddr * 0x1000 + v.offset, true, u == 1, true)
  {
    if e3 == ABSENT {
      NoPointer(read, v, level, t4, t3, u, e4);
    } else {
      TwoDown(read, v, level, t4, t3, t2, true, u, e4, e3);
      if e2 == ABSENT { NoEntry(read, t2, v, level - 2, u == 1); }
      else { TwoLevels(read, v, level - 2, t2, t1, u == 1, u, e2, e1); }
    }
  }

  /** The entries on the way to a kernel page. */
  lemma KernelEntries(m: seq<Pte>, base: nat, v: Virtual)
    requires KernelTables(m, base) && v.top == 0 && v.pointers < 4 && v.directory < 512 && v.page < 512
    ensures Leads(m[PML + v.top], 0, base + 8 * PDP)
    ensures Leads(m[PDP + v.pointers], 0, base + 8 * (PD + 512 * v.pointers))
    ensures Leads(m[PD + 512 * v.pointers + v.directory], 0, base + 8 * (P + 512 * (512 * v.pointers + v.directory)))
    ensures m[P + 512 * (512 * v.pointers + v.directory) + v.page] ==
            Entry(1, 0, 512 * (512 * v.pointers + v.directory) + v.page)
  {
    var i2 := 512 * v.pointers + v.directory;
    assert TopOk(m, base, 0) && PointersOk(m, base, v.pointers) && DirectoryOk(m, base, i2) &&
           PageOk(m, 512 * i2 + v.page);
  }

  lemma KernelPath(read: nat -> Fields, m: seq<Pte>, base: nat, v: Virtual) returns (e4: Pte, e3: Pte, e2: Pte, e1: Pte)
    requires KernelTables(m, base) && Sees(read, m, base)
    requires v.top == 0 && v.pointers < 4 && v.directory < 512 && v.page < 512
    ensures read(base + 8 * PML + 8 * v.top) == FieldsOf(e4) && Leads(e4, 0, base + 8 * PDP)
    ensures read(base + 8 * PDP + 8 * v.pointers) == FieldsOf(e3) && Leads(e3, 0, base + 8 * (PD + 512 * v.pointers))
    ensures var i2 := 512 * v.pointers + v.directory;
      && read(base + 8 * (PD + 512 * v.pointers) + 8 * v.directory) == FieldsOf(e2) &&
      Leads(e2, 0, base + 8 * (P + 512 * i2))
      && read(base + 8 * (P + 512 * i2) + 8 * v.page) == FieldsOf(e1) && e1 == Entry(1, 0, 512 * i2 + v.page)
  {
    var t2, t1 := PD + 512 * v.pointers, P + 512 * (512 * v.pointers + v.directory);
    KernelEntries(m, base, v);
    e4, e3, e2, e1 := m[PML + v.top], m[PDP + v.pointers], m[t2 + v.directory], m[t1 + v.page];
    SeenAt(read, m, base, PML, v.top);
    SeenAt(read, m, base, PDP, v.pointers);
    SeenAt(read, m, base, t2, v.directory);
    SeenAt(read, m, base, t1, v.page);
  }

  /** A kernel page is found through the four levels. */
  lemma WalkKernel(read: nat -> Fields, m: seq<Pte>, base: nat, v: Virtual, level: nat)
    requires level == 4 && KernelTables(m, base) && Sees(read, m, base)
    requires v.top == 0 && v.pointers < 4 && v.directory < 512 && v.page < 512
    ensures WalkFrom(read, base + 8 * PML, v, level, true, true, true)
         == Mapped((512 * (512 * v.pointers + v.directory) + v.page) * 0x1000 + v.offset, true, false, true)
  {
    var e4, e3, e2, e1 := KernelPath(read, m, base, v);
    var i2 := 512 * v.pointers + v.directory;
    FourLevels(read, v, level, base + 8 * PML, base + 8 * PDP, base + 8 * (PD + 512 * v.pointers),
               base + 8 * (P + 512 * i2), 0, e4, e3, e2, e1);
  }

  /** The entries a walk between the regions meets. */
  lemma NowherePath(read: nat -> Fields, m: seq<Pte>, base: nat, v: Virtual) returns (e4: Pte)
    requires KernelTables(m, base) && Sees(read, m, base)
    requires v.top < 511 && v.pointers < 512 && (v.top == 0 ==> v.pointers >= 4)
    ensures read(base + 8 * PML + 8 * v.top) == FieldsOf(e4)
    ensures if v.top == 0 then Leads(e4, 0, base + 8 * PDP) else e4 == ABSENT
    ensures v.top == 0 ==> read(base + 8 * PDP + 8 * v.pointers) == FieldsOf(ABSENT)
  {
    assert TopOk(m, base, v.top) && PointersOk(m, base, v.pointers);
    e4 := m[PML + v.top];
    SeenAt(read, m, base, PML, v.top);
    SeenAt(read, m, base, PDP, v.pointers);
  }

  /** Outside both regions there is nothing. */
  lemma WalkNowhere(read: nat -> Fields, m: seq<Pte>, base: nat, v: Virtual, level: nat)
    requires level == 4 && KernelTables(m, base) && Sees(read, m, base)
    requires v.top < 511 && v.pointers < 512 && (v.top == 0 ==> v.pointers >= 4)
    ensures WalkFrom(read, base + 8 * PML, v, level, true, true, true) == NotPresent
  {
    var e4 := NowherePath(read, m, base, v);
    if v.top == 0 {
      NoPointer(read, v, level, base + 8 * PML, base + 8 * PDP, 0, e4);
    } else {
      NoEntry(read, base + 8 * PML, v, level, true);
    }
  }

  /** The entries a walk into the upper 512 GB meets. */
  lemma UserEntries(m: seq<Pte>, base: nat, stackPage: PageNumber, programPage: PageNumber, v: Virtual)
    requires UserTables(m, base, stackPage, programPage)
    requires v.top == 511 && v.pointers < 512 && v.directory < 512 && v.page < 512
    ensures Leads(m[PML + v.top], 1, base + 8 * PDP_USER)
    ensures var e := m[PDP_USER + v.pointers]; if v.pointers < 511 then e == ABSENT else Leads(e, 1, base + 8 * PD_USER)
    ensures var e := m[PD_USER + v.directory]; if v.directory < 511 then e == ABSENT else Leads(e, 1, base + 8 * P_USER)
    ensures m[P_USER + v.page] ==
      if v.page < 510 then ABSENT else Entry(1, 1, if v.page == 511 then programPage else stackPage)
  {
    assert v.pointers < 511 ==> AbsentAt(m, PDP_USER + v.pointers);
    assert v.directory < 511 ==> AbsentAt(m, PD_USER + v.directory);
    assert v.page < 510 ==> AbsentAt(m, P_USER + v.page);
  }

  lemma UserPath(read: nat -> Fields, m: seq<Pte>, base: nat, stackPage: PageNumber, programPage: PageNumber,
          v: Virtual)
    returns (e4: Pte, e3: Pte, e2: Pte, e1: Pte)
    requires UserTables(m, base, stackPage, programPage) && Sees(read, m, base)
    requires v.top == 511 && v.pointers < 512 && v.directory < 512 && v.page < 512
    ensures read(base + 8 * PML + 8 * v.top) == FieldsOf(e4) && Leads(e4, 1, base + 8 * PDP_USER)
    ensures read(base + 8 * PDP_USER + 8 * v.pointers) == FieldsOf(e3)
    ensures if v.pointers < 511 then e3 == ABSENT else Leads(e3, 1, base + 8 * PD_USER)
    ensures read(base + 8 * PD_USER + 8 * v.directory) == FieldsOf(e2)
    ensures if v.directory < 511 then e2 == ABSENT else Leads(e2, 1, base + 8 * P_USER)
    ensures read(base + 8 * P_USER + 8 * v.page) == FieldsOf(e1)
    ensures e1 == if v.page < 510 then ABSENT else Entry(1, 1, if v.page == 511 then programPage else stackPage)
  {
    UserEntries(m, base, stackPage, programPage, v);
    e4, e3, e2, e1 := m[PML + v.top], m[PDP_USER + v.pointers], m[PD_USER + v.directory], m[P_USER + v.page];
    SeenAt(read, m, base, PML, v.top);
    SeenAt(read, m, base, PDP_USER, v.pointers);
    SeenAt(read, m, base, PD_USER, v.directory);
    SeenAt(read, m, base, P_USER, v.page);
  }

  /** Of the upper 512 GB only the last two pages are there. */
  lemma WalkUser(read: nat -> Fields, m: seq<Pte>, base: nat, stackPage: PageNumber, programPage: PageNumber,
                 v: Virtual, level: nat)
    requires level == 4 && UserTables(m, base, stackPage, programPage) && Sees(read, m, base)
    requires v.top == 511 && v.pointers < 512 && v.directory < 512 && v.page < 512
    ensures WalkFrom(read, base + 8 * PML, v, level, true, true, true) ==
      if v.pointers < 511 || v.directory < 511 || v.page < 510 then NotPresent
      else Mapped((if v.page == 511 then programPage else stackPage) * 0x1000 + v.offset, true, true, true)
  {
    var e4, e3, e2, e1 := UserPath(read, m, base, stackPage, programPage, v);
    FourLevels(read, v, level, base + 8 * PML, base + 8 * PDP_USER, base + 8 * PD_USER, base + 8 * P_USER,
               1, e4, e3, e2, e1);
  }

  /** What the virtual address space is meant to be. */
  function Intended(ustack: Word, uprogram: Word, va: nat): Translation {
    if va < 0x1_0000_0000 then Mapped(va, true, false, true)
    else if va >= 0xffff_ffff_ffff_f000 then Mapped(PageField(uprogram) * 0x1000 + va % 0x1000, true, true, true)
    else if va >= 0xffff_ffff_ffff_e000 then Mapped(PageField(Below(ustack)) * 0x1000 + va % 0x1000, true, true, true)
    else NotPresent
  }

  /** For addresses of pages in physical memory these are the page of the program
      and the page under the stack address. */
  lemma UserPages(ustack: Word, uprogram: Word, offset: nat)
    requires uprogram % 0x1000 == 0 && uprogram < 0x10_0000_0000_0000
    requires ustack % 0x1000 == 0 && 0x1000 <= ustack <= 0x10_0000_0000_0000 && offset < 0x1000
    ensures Intended(ustack, uprogram, 0xffff_ffff_ffff_f000 + offset) == Mapped(uprogram + offset, true, true, true)
    ensures Intended(ustack, uprogram, 0xffff_ffff_ffff_e000 + offset) ==
            Mapped(ustack - 0x1000 + offset, true, true, true)
  {
    PageFound(uprogram / 0x1000);
    PageFound(ustack / 0x1000 - 1);
  }

  /** The indices of an address below 4 GB, ... */
  lemma LowIndices(va: nat)
    requires va < 0x1_0000_0000
    ensures var v := Split(va);
      && v.top == 0 && v.pointers < 4 && v.directory < 512 && v.page < 512
      && (512 * (512 * v.pointers + v.directory) + v.page) * 0x1000 + v.offset == va
  {
    var q := va / 0x1000;
    assert va / 0x20_0000 == q / 512 && va / 0x4000_0000 == q / 512 / 512;
  }

  /** ... of one between the regions, ... */
  lemma MiddleIndices(va: nat)
    requires 0x1_0000_0000 <= va < 0xffff_ff80_0000_0000 && Canonical(va)
    ensures var v := Split(va); v.top < 511 && v.pointers < 512 && (v.top == 0 ==> v.pointers >= 4)
  {
  }

  lemma TopIndices(va: nat)
    requires 0xffff_ff80_0000_0000 <= va < 0x1_0000_0000_0000_0000
    ensures va / 0x80_0000_0000 == 0x1ff_ffff && va / 0x4000_0000 == 0x1ff_ffff * 512 + Split(va).pointers
    ensures Split(va).top == 511 && Split(va).pointers < 512
  {
  }

  /** The nine bits of an index and the bits above them. */
  lemma NineBits(va: nat)
    ensures var v := Split(va);
      && va / 0x1000 == va / 0x20_0000 * 512 + v.page && va / 0x20_0000 == va / 0x4000_0000 * 512 + v.directory
      && v.directory < 512 && v.page < 512
  {
    var q := va / 0x1000;
    assert va / 0x20_0000 == q / 512;
    assert va / 0x4000_0000 == va / 0x20_0000 / 512;
  }

  /** The page number q is the last one, or the last but one, of the address space
      when its indices say so. */
  lemma LastPages(q: nat, q1: nat, q2: nat, v: Virtual)
    requires q == q1 * 512 + v.page && q1 == q2 * 512 + v.directory && q2 == 0x1ff_ffff * 512 + v.pointers
    requires v.pointers < 512 && v.directory < 512 && v.page < 512
    ensures v.pointers == 511 && v.directory == 511 && v.page == 511 <==> q >= 0xf_ffff_ffff_ffff
    ensures v.pointers == 511 && v.directory == 511 && v.page == 510 <==> q == 0xf_ffff_ffff_fffe
  {
  }

  lemma PageNumberOf(va: nat)
    ensures va / 0x1000 >= 0xf_ffff_ffff_ffff <==> va >= 0xffff_ffff_ffff_f000
    ensures va / 0x1000 == 0xf_ffff_ffff_fffe <==> 0xffff_ffff_ffff_e000 <= va < 0xffff_ffff_ffff_f000
  {
  }

  /** ... and of one in the upper 512 GB. */
  lemma HighIndices(va: nat)
    requires 0xffff_ff80_0000_0000 <= va < 0x1_0000_0000_0000_0000
    ensures var v := Split(va);
      && v.top == 511 && v.pointers < 512 && v.directory < 512 && v.page < 512
      && (v.pointers == 511 && v.directory == 511 && v.page == 511 <==> va >= 0xffff_ffff_ffff_f000)
      && (v.pointers == 511 && v.directory == 511 && v.page == 510 <==>
          0xffff_ffff_ffff_e000 <= va < 0xffff_ffff_ffff_f000)
  {
    NineBits(va);
    TopIndices(va);
    LastPages(va / 0x1000, va / 0x20_0000, va / 0x4000_0000, Split(va));
    PageNumberOf(va);
  }

  /** The walk of every canonical address ends as intended. */
  lemma WalkFromExact(read: nat -> Fields, m: seq<Pte>, base: nat, ustack: Word, uprogram: Word, va: nat, level: nat)
    requires level == 4 && Sees(read, m, base) && Canonical(va)
    requires KernelTables(m, base) && UserTables(m, base, PageField(Below(ustack)), PageField(uprogram))
    ensures WalkFrom(read, base + 8 * PML, Split(va), level, true, true, true) == Intended(ustack, uprogram, va)
  {
    var v := Split(va);
    if va < 0x1_0000_0000 {
      LowIndices(va);
      WalkKernel(read, m, base, v, level);
    } else if va < 0xffff_ff80_0000_0000 {
      MiddleIndices(va);
      WalkNowhere(read, m, base, v, level);
    } else {
      HighIndices(va);
      WalkUser(read, m, base, PageField(Below(ustack)), PageField(uprogram), v, level);
    }
  }

  /** The tables of the kernel. */
  method MapKernel(memory: array<Pte>, base: nat)
    requires Placed(base) && memory.Length >= TOTAL
    modifies memory
    ensures KernelTables(memory[..], base) && AbsentAt(memory[..], PML + 511)
    ensures memory[..][TOTAL..] == old(memory[..])[TOTAL..]
  {
    ghost var m0 := memory[..];
    FillPages(memory);
    ghost var m1 := memory[..];
    FillDirectory(memory, base);
    ghost var m2 := memory[..];
    FillPointers(memory, base);
    ghost var m3 := memory[..];
    FillTop(memory, base);
    KernelFilled(m0, m1, m2, m3, memory[..], base);
  }

  /** The tables of the user, after those of the kernel. */
  method MapUser(memory: array<Pte>, base: nat, ustack: Word, uprogram: Word)
    requires Placed(base) && memory.Length >= TOTAL
    requires KernelTables(memory[..], base) && AbsentAt(memory[..], PML + 511)
    modifies memory
    ensures KernelTables(memory[..], base)
    ensures UserTables(memory[..], base, PageField(Below(ustack)), PageField(uprogram))
    ensures memory[..][TOTAL..] == old(memory[..])[TOTAL..]
  {
    Clear(memory, PDP_USER);
    Clear(memory, PD_USER);
    Clear(memory, P_USER);
    ghost var cleared := memory[..];
    SetUser(memory, PML + 511, PageField(Address(base, PDP_USER)));
    SetUser(memory, PDP_USER + 511, PageField(Address(base, PD_USER)));
    SetUser(memory, PD_USER + 511, PageField(Address(base, P_USER)));
    SetUser(memory, P_USER + 511, PageField(uprogram));
    SetUser(memory, P_USER + 510, PageField(Below(ustack)));
    assert memory[..] == WithUser(cleared, base, ustack, uprogram);
    UserFilled(cleared, base, ustack, uprogram);
    KernelKept(old(memory[..]), memory[..], base);
  }

  /** kernel_init, up to loading the table; `base` is the address of `memory`.  The
      processor then finds every address below 4 GB where it is, for the kernel
      only, the two pages of the user at the top, and nothing else; words after the
      tables are untouched. */
  method KernelInit(ustack: Word, uprogram: Word, memory: array<Pte>, base: nat)
    returns (pageTable: nat, userStack: Word, userProgram: Word)
    requires Placed(base) && memory.Length >= TOTAL
    modifies memory
    ensures forall ram: Ram, va: nat :: Loaded(ram, memory[..], base) && Canonical(va) ==>
      Walk(ram, pageTable, va) == Intended(ustack, uprogram, va)
    ensures pageTable == base + 8409088 && userStack == 0xffff_ffff_ffff_ffff && userProgram == 0xffff_ffff_ffff_f000
    ensures Intended(ustack, uprogram, userStack) == Mapped(PageField(uprogram) * 0x1000 + 0xfff, true, true, true)
    ensures Intended(ustack, uprogram, userProgram) == Mapped(PageField(uprogram) * 0x1000, true, true, true)
    ensures memory.Length >= 1053184
    ensures forall k: nat :: k < 1053184 ==>
            Bits(memory[k]) == WordAt(k, base, PageField(Below(ustack)), PageField(uprogram))
    ensures memory[..][TOTAL..] == old(memory[..])[TOTAL..]
  {
    MapKernel(memory, base);
    MapUser(memory, base, ustack, uprogram);
    ghost var m, stackPage, programPage := memory[..], PageField(Below(ustack)), PageField(uprogram);
    WordsExact(m, base, stackPage, programPage);
    pageTable := Address(base, PML);
    userStack := 0xffff_ffff_ffff_ffff;
    userProgram := 0xffff_ffff_ffff_f000;
    forall ram: Ram, va: nat | Loaded(ram, m, base) && Canonical(va)
      ensures Walk(ram, pageTable, va) == Intended(ustack, uprogram, va)
    {
      LoadedIsSeen(ram, m, base);
      WalkFromExact(Entries(ram), m, base, ustack, uprogram, va, 4);
    }
  }
}
