/** Long-mode page tables, written byte by byte into guest memory, and the four-level walk the
    processor makes over them (AMD64 Architecture Programmer's Manual, Volume 2, section 5.3). */
module PageTables {
  import opened Options
  import opened Protocol

  const PAGE_SIZE_4K: nat := 0x1000
  const PAGE_SIZE_2M: nat := 0x20_0000
  const PAGE_TABLE_ENTRIES: nat := 512
  const GUEST_START_ADDR: nat := 0x8000

  const PRESENT: nat := 1
  const RW: nat := 2
  const USER: nat := 4
  const PS: nat := 128

  type Memory = seq<Byte>

  // ----- 64-bit words in memory, little endian

  function FromBytes(s: Memory): nat {
    if s == [] then 0 else (s[0] as int) + 256 * FromBytes(s[1..])
  }

  function ToBytes(n: nat, k: nat): (s: Memory)
    ensures |s| == k
  {
    if k == 0 then [] else [n % 256] + ToBytes(n / 256, k - 1)
  }

  function Power256(k: nat): nat {
    if k == 0 then 1 else 256 * Power256(k - 1)
  }

  lemma {:induction false} BytesRoundTrip(n: nat, k: nat)
    requires n < Power256(k)
    ensures FromBytes(ToBytes(n, k)) == n
  {
    if k > 0 {
      BytesRoundTrip(n / 256, k - 1);
      assert ToBytes(n, k)[1..] == ToBytes(n / 256, k - 1);
    }
  }

  lemma Power256Of8()
    ensures Power256(8) == 0x1_0000_0000_0000_0000
  {
    assert Power256(4) == 0x1_0000_0000;
    assert Power256(6) == 0x1_0000_0000_0000;
  }

  /** Entry `index` of the table in page number `page`. */
  function Entry(m: Memory, page: nat, index: nat): nat
    requires PAGE_SIZE_4K * page + PAGE_SIZE_4K <= |m| && index < PAGE_TABLE_ENTRIES
  {
    FromBytes(m[PAGE_SIZE_4K * page + 8 * index..PAGE_SIZE_4K * page + 8 * index + 8])
  }

  ghost predicate InTable(m: Memory, page: nat, index: nat) {
    PAGE_SIZE_4K * page + PAGE_SIZE_4K <= |m| && index < PAGE_TABLE_ENTRIES
  }

  /** Bitwise or. */
  function BitOr(a: nat, b: nat): nat {
    if a == 0 && b == 0 then 0
    else 2 * BitOr(a / 2, b / 2) + (if a % 2 == 1 || b % 2 == 1 then 1 else 0)
  }

  lemma {:induction false} OrZero(a: nat)
    ensures BitOr(a, 0) == a
  {
    if a > 0 { OrZero(a / 2); }
  }

  function Shifted(q: nat, k: nat): nat {
    if k == 0 then q else 2 * Shifted(q, k - 1)
  }

  /** Or-ing low bits leaves what is shifted above them alone. */
  lemma {:induction false} OrLowBits(q: nat, low: nat, b: nat, k: nat)
    requires low < Shifted(1, k) && b < Shifted(1, k)
    ensures BitOr(Shifted(q, k) + low, b) == Shifted(q, k) + BitOr(low, b)
  {
    if k == 0 {
      OrZero(q);
    } else {
      OrLowBits(q, low / 2, b / 2, k - 1);
    }
  }

  lemma PageShift(q: nat)
    ensures Shifted(q, 12) == PAGE_SIZE_4K * q
  {
    assert Shifted(q, 1) == 2 * q;
    assert Shifted(q, 2) == 4 * q;
    assert Shifted(q, 4) == 16 * q;
    assert Shifted(q, 6) == 64 * q;
    assert Shifted(q, 8) == 256 * q;
    assert Shifted(q, 10) == 1024 * q;
  }

  lemma {:induction false} OrSymmetric(a: nat, b: nat)
    ensures BitOr(a, b) == BitOr(b, a)
  {
    if a != 0 || b != 0 { OrSymmetric(a / 2, b / 2); }
  }

  function Flagged(address: nat): nat {
    BitOr(BitOr(BitOr(address, PRESENT), RW), USER)
  }

  lemma FlagBits()
    ensures BitOr(0, 1) == 1 && BitOr(1, 2) == 3 && BitOr(3, 4) == 7 && BitOr(0, 7) == 7 && BitOr(7, 128) == 0x87
  {
  }

  lemma OrIntoPage(address: nat, page: nat, low: nat, b: nat)
    requires address == PAGE_SIZE_4K * page + low && low < PAGE_SIZE_4K && b < PAGE_SIZE_4K
    ensures BitOr(address, b) == PAGE_SIZE_4K * page + BitOr(low, b)
  {
    PageShift(1);
    PageShift(page);
    OrLowBits(page, low, b, 12);
  }

  /** The entries the builders compute, as sums of a page address and flag bits. */
  lemma FlaggedPage(page: nat, address: nat)
    requires address == PAGE_SIZE_4K * page
    ensures Flagged(address) == address + 7
    ensures BitOr(Flagged(address), PS) == address + 0x87
    ensures BitOr(BitOr(BitOr(PRESENT, RW), USER), address) == address + 7
  {
    FlagBits();
    OrIntoPage(address, page, 0, 1);
    OrIntoPage(address + 1, page, 1, 2);
    OrIntoPage(address + 3, page, 3, 4);
    OrIntoPage(address + 7, page, 7, 128);
    OrIntoPage(address, page, 0, 7);
    OrSymmetric(7, address);
  }

  // ----- the processor's walk

  datatype Translation = Translation(physical: nat, writable: bool, user: bool)

  predicate Canonical(va: nat) {
    va < 0x8000_0000_0000 || 0xffff_8000_0000_0000 <= va < 0x1_0000_0000_0000_0000
  }

  predicate IsPresent(e: nat) { e % 2 == 1 }
  predicate IsWritable(e: nat) { e / 2 % 2 == 1 }
  predicate IsUser(e: nat) { e / 4 % 2 == 1 }
  predicate IsLarge(e: nat) { e / 128 % 2 == 1 }

  /** Bits 51..12: the page an entry refers to. */
  function PageOf(e: nat): nat {
    e / 0x1000 % 0x100_0000_0000
  }

  /** An entry the processor fetches; a table outside memory reads as not present. */
  function Fetch(m: Memory, page: nat, index: nat): nat {
    if PAGE_SIZE_4K * page + PAGE_SIZE_4K <= |m| && index < PAGE_TABLE_ENTRIES then Entry(m, page, index) else 0
  }

  /** A virtual address as the walk takes it apart: an index for each level, and the low 12 bits. */
  datatype Indices = Indices(i4: nat, i3: nat, i2: nat, i1: nat, offset: nat)

  function Split(va: nat): Indices {
    Indices(va / 0x80_0000_0000 % 512, va / 0x4000_0000 % 512, va / 0x20_0000 % 512, va / 0x1000 % 512, va % 0x1000)
  }

  /** Four levels from the table in CR3; None is a page fault (or, for a non-canonical address, a
      general-protection fault). A level's PS bit ends the walk early, except in the PML4, where it
      is reserved. */
  function Walk(m: Memory, cr3: nat, va: nat): Option<Translation> {
    if Canonical(va) then WalkPml4(m, cr3 / 0x1000, Split(va)) else None
  }

  function WalkPml4(m: Memory, pml4: nat, x: Indices): Option<Translation> {
    var e := Fetch(m, pml4, x.i4);
    if !IsPresent(e) || IsLarge(e) then None else WalkPdpt(m, PageOf(e), x, IsWritable(e), IsUser(e))
  }

  function WalkPdpt(m: Memory, pdpt: nat, x: Indices, writable: bool, user: bool): Option<Translation> {
    var e := Fetch(m, pdpt, x.i3);
    var w, u := writable && IsWritable(e), user && IsUser(e);
    if !IsPresent(e) then None
    else if IsLarge(e) then
      Some(Translation((PageOf(e) / 0x4_0000 * 0x4_0000 + x.i2 * 512 + x.i1) * 0x1000 + x.offset, w, u))
    else WalkDirectory(m, PageOf(e), x, w, u)
  }

  function WalkDirectory(m: Memory, pd: nat, x: Indices, writable: bool, user: bool): Option<Translation> {
    var e := Fetch(m, pd, x.i2);
    var w, u := writable && IsWritable(e), user && IsUser(e);
    if !IsPresent(e) then None
    else if IsLarge(e) then Some(Translation((PageOf(e) / 512 * 512 + x.i1) * 0x1000 + x.offset, w, u))
    else WalkTable(m, PageOf(e), x, w, u)
  }

  function WalkTable(m: Memory, pt: nat, x: Indices, writable: bool, user: bool): Option<Translation> {
    var e := Fetch(m, pt, x.i1);
    if !IsPresent(e) then None
    else Some(Translation(PageOf(e) * 0x1000 + x.offset, writable && IsWritable(e), user && IsUser(e)))
  }

  // ----- what the builders leave in memory

  /** The entries of the upper two levels, and the unused ones of the page directory. */
  ghost predicate UpperLevels(m: Memory, count: nat) {
    && |m| == PAGE_SIZE_2M * count && 1 <= count <= 4
    && Entry(m, 1, 0) == 0x2007 && Entry(m, 2, 0) == 0x3007
    && (forall i :: 1 <= i < PAGE_TABLE_ENTRIES ==> Entry(m, 1, i) == 0)
    && (forall i :: 1 <= i < PAGE_TABLE_ENTRIES ==> Entry(m, 2, i) == 0)
    && (forall i :: count <= i < PAGE_TABLE_ENTRIES ==> Entry(m, 3, i) == 0)
  }

  ghost predicate Built4K(m: Memory, count: nat) {
    && UpperLevels(m, count)
    && (forall i :: 0 <= i < count ==> Entry(m, 3, i) == PAGE_SIZE_4K * (4 + i) + 7)
    && (forall p, j :: 4 <= p < 4 + count && 0 <= j < PAGE_TABLE_ENTRIES ==>
          Entry(m, p, j) == PAGE_SIZE_4K * (512 * (p - 4) + j) + 7)
  }

  ghost predicate Built2M(m: Memory, count: nat) {
    && UpperLevels(m, count)
    && (forall i :: 0 <= i < count ==> Entry(m, 3, i) == PAGE_SIZE_4K * (512 * i) + 0x87)
  }

  /** The parts of an entry a builder writes: a page, and flags 7 or (for a large page) 0x87. */
  lemma SmallEntry(page: nat, e: nat)
    requires page < 0x100_0000_0000 && e == PAGE_SIZE_4K * page + 7
    ensures IsPresent(e) && IsWritable(e) && IsUser(e) && !IsLarge(e) && PageOf(e) == page
  {
    LowBits(512 * page, e);
    SizeBit(16 * page, 0, 7, e);
    PageBits(page, 7, e);
  }

  lemma LargeEntry(page: nat, e: nat)
    requires page < 0x100_0000_0000 && e == PAGE_SIZE_4K * page + 0x87
    ensures IsPresent(e) && IsWritable(e) && IsUser(e) && IsLarge(e) && PageOf(e) == page
  {
    LowBits(512 * page + 16, e);
    SizeBit(16 * page, 1, 7, e);
    PageBits(page, 0x87, e);
  }

  lemma LowBits(q: nat, e: nat)
    requires e == 8 * q + 7
    ensures e % 2 == 1 && e / 2 % 2 == 1 && e / 4 % 2 == 1
  {
    assert e == 2 * (4 * q + 3) + 1;
    assert e / 2 == 4 * q + 3 == 2 * (2 * q + 1) + 1;
    assert e / 4 == 2 * q + 1;
  }

  lemma SizeBit(q: nat, bit: nat, r: nat, e: nat)
    requires e == 128 * (2 * q + bit) + r && bit < 2 && r < 128
    ensures e / 128 % 2 == bit
  {
    assert e / 128 == 2 * q + bit;
  }

  lemma PageBits(page: nat, r: nat, e: nat)
    requires page < 0x100_0000_0000 && e == 0x1000 * page + r && r < 0x1000
    ensures e / 0x1000 % 0x100_0000_0000 == page
  {
    assert e / 0x1000 == page;
  }

  lemma PdptWalk(m: Memory, count: nat, x: Indices)
    requires UpperLevels(m, count) && x.i3 < 512
    ensures WalkPdpt(m, 2, x, true, true) == if x.i3 == 0 then WalkDirectory(m, 3, x, true, true) else None
  {
    SmallEntry(3, 0x3007);
    assert x.i3 > 0 ==> Entry(m, 2, x.i3) == 0;
  }

  /** Entry 0 of the two upper tables is the only one in use. */
  lemma UpperWalk(m: Memory, count: nat, x: Indices)
    requires UpperLevels(m, count) && x.i4 < 512 && x.i3 < 512
    ensures WalkPml4(m, 1, x) ==
            if x.i4 == 0 && x.i3 == 0 then WalkDirectory(m, 3, x, true, true) else None
  {
    SmallEntry(2, 0x2007);
    assert x.i4 > 0 ==> Entry(m, 1, x.i4) == 0;
    PdptWalk(m, count, x);
  }

  lemma DirectoryWalk4K(m: Memory, count: nat, x: Indices)
    requires Built4K(m, count) && x.i2 < 512 && x.i1 < 512
    ensures WalkDirectory(m, 3, x, true, true) ==
            if x.i2 < count then Some(Translation((512 * x.i2 + x.i1) * 0x1000 + x.offset, true, true)) else None
  {
    if x.i2 < count {
      var e2, e1 := Fetch(m, 3, x.i2), Fetch(m, 4 + x.i2, x.i1);
      SmallEntry(4 + x.i2, e2);
      SmallEntry(512 * x.i2 + x.i1, e1);
    } else {
      assert Fetch(m, 3, x.i2) == 0;
    }
  }

  lemma DirectoryWalk2M(m: Memory, count: nat, x: Indices)
    requires Built2M(m, count) && x.i2 < 512 && x.i1 < 512
    ensures WalkDirectory(m, 3, x, true, true) ==
            if x.i2 < count then Some(Translation((512 * x.i2 + x.i1) * 0x1000 + x.offset, true, true)) else None
  {
    if x.i2 < count {
      var e2 := Fetch(m, 3, x.i2);
      LargeEntry(512 * x.i2, e2);
    } else {
      assert Fetch(m, 3, x.i2) == 0;
    }
  }

  /** Which addresses reach an entry in use, and that the indices put together are the address. */
  lemma SplitFacts(va: nat, count: nat)
    requires Canonical(va) && 1 <= count <= 4
    ensures var x := Split(va);
            && x.i4 < 512 && x.i3 < 512 && x.i2 < 512 && x.i1 < 512
            && (x.i4 == 0 && x.i3 == 0 && x.i2 < count <==> va < PAGE_SIZE_2M * count)
            && (va < PAGE_SIZE_2M * count ==> (512 * x.i2 + x.i1) * 0x1000 + x.offset == va)
  {
    SplitLow(va);
  }

  lemma SplitLow(va: nat)
    requires Canonical(va)
    ensures va / 0x80_0000_0000 % 512 == 0 && va / 0x4000_0000 % 512 == 0 <==> va < 0x4000_0000
  {
  }

  /** The tables are the identity exactly below the memory size, present, writable and user. */
  lemma Identity4K(m: Memory, count: nat, va: nat)
    requires Built4K(m, count)
    ensures Walk(m, 0x1000, va) == if va < |m| then Some(Translation(va, true, true)) else None
  {
    if Canonical(va) {
      SplitFacts(va, count);
      UpperWalk(m, count, Split(va));
      DirectoryWalk4K(m, count, Split(va));
    }
  }

  lemma Identity2M(m: Memory, count: nat, va: nat)
    requires Built2M(m, count)
    ensures Walk(m, 0x1000, va) == if va < |m| then Some(Translation(va, true, true)) else None
  {
    if Canonical(va) {
      SplitFacts(va, count);
      UpperWalk(m, count, Split(va));
      DirectoryWalk2M(m, count, Split(va));
    }
  }

  /** Both page sizes give the same translation of every address. */
  lemma SameTranslation(m: Memory, m': Memory, count: nat, va: nat)
    requires Built4K(m, count) && Built2M(m', count)
    ensures Walk(m, 0x1000, va) == Walk(m', 0x1000, va)
  {
    Identity4K(m, count, va);
    Identity2M(m', count, va);
  }

  /** The tables depend on memory below the load address only. */
  lemma BelowLoadAddress(m: Memory, m': Memory, count: nat)
    requires |m'| == |m| >= GUEST_START_ADDR && m'[..GUEST_START_ADDR] == m[..GUEST_START_ADDR]
    ensures Built4K(m, count) ==> Built4K(m', count)
    ensures Built2M(m, count) ==> Built2M(m', count)
  {
    forall p: nat, i: nat | p < 8 && i < PAGE_TABLE_ENTRIES
      ensures Entry(m', p, i) == Entry(m, p, i)
    {
      SameSlice(m, m', GUEST_START_ADDR, PAGE_SIZE_4K * p + 8 * i);
    }
  }

  lemma SameSlice(m: Memory, m': Memory, bound: nat, a: nat)
    requires a + 8 <= bound <= |m| == |m'| && m'[..bound] == m[..bound]
    ensures m'[a..a + 8] == m[a..a + 8]
  {
    assert m'[a..a + 8] == m'[..bound][a..a + 8];
    assert m[a..a + 8] == m[..bound][a..a + 8];
  }

  /** The bound is tight: the 4 KiB tables of a memory of `count` large pages stay below the load
      address iff the memory is at most 8 MiB, and with 8 MiB they end exactly there. */
  lemma TableRegionIsTight(count: nat)
    ensures PAGE_SIZE_4K * (4 + count) <= GUEST_START_ADDR <==> PAGE_SIZE_2M * count <= 0x80_0000
    ensures PAGE_SIZE_4K * (4 + count) == GUEST_START_ADDR <==> PAGE_SIZE_2M * count == 0x80_0000
  {
  }

  // ----- the builders

  method WriteEntry(mem: array<Byte>, page: nat, index: nat, value: nat)
    requires InTable(mem[..], page, index) && value < 0x1_0000_0000_0000_0000
    modifies mem
    ensures Entry(mem[..], page, index) == value
    ensures forall p: nat, i: nat :: InTable(mem[..], p, i) && (p != page || i != index) ==>
              Entry(mem[..], p, i) == Entry(old(mem[..]), p, i)
  {
    var a := PAGE_SIZE_4K * page + 8 * index;
    var bytes := ToBytes(value, 8);
    forall k | 0 <= k < 8 {
      mem[a + k] := bytes[k];
    }
    assert mem[..][a..a + 8] == bytes;
    Power256Of8();
    BytesRoundTrip(value, 8);
    forall p: nat, i: nat | InTable(mem[..], p, i) && (p != page || i != index)
      ensures Entry(mem[..], p, i) == Entry(old(mem[..]), p, i)
    {
      var b := PAGE_SIZE_4K * p + 8 * i;
      assert mem[..][b..b + 8] == old(mem[..])[b..b + 8];
    }
  }

  method SetupPageTables2M(mem: array<Byte>)
    requires mem.Length % PAGE_SIZE_2M == 0 && PAGE_SIZE_2M <= mem.Length <= 0x80_0000
    modifies mem
    ensures var count := mem.Length / PAGE_SIZE_2M;
            && (forall i :: 0 <= i < count ==> Entry(mem[..], 3, i) == PAGE_SIZE_4K * (512 * i) + 0x87)
            && (forall p: nat, i: nat :: InTable(mem[..], p, i) && (p != 3 || i >= count) ==>
                  Entry(mem[..], p, i) == Entry(old(mem[..]), p, i))
  {
    var count := mem.Length / PAGE_SIZE_2M;
    for i := 0 to count
      invariant forall k :: 0 <= k < i ==> Entry(mem[..], 3, k) == PAGE_SIZE_4K * (512 * k) + 0x87
      invariant forall p: nat, k: nat :: InTable(mem[..], p, k) && (p != 3 || k >= i) ==>
                  Entry(mem[..], p, k) == Entry(old(mem[..]), p, k)
    {
      var guestAddress := i * PAGE_SIZE_2M;
      FlaggedPage(512 * i, guestAddress);
      WriteEntry(mem, 3, i, BitOr(Flagged(guestAddress), PS));
    }
  }

  /** The inner loop: the table in `page`, for page-directory entry page - 4. */
  method FillPageTable(mem: array<Byte>, page: nat)
    requires 4 <= page < 8 && mem.Length >= PAGE_SIZE_2M
    modifies mem
    ensures forall j :: 0 <= j < PAGE_TABLE_ENTRIES ==>
              Entry(mem[..], page, j) == PAGE_SIZE_4K * (512 * (page - 4) + j) + 7
    ensures forall p: nat, i: nat :: InTable(mem[..], p, i) && p != page ==>
              Entry(mem[..], p, i) == Entry(old(mem[..]), p, i)
  {
    for j := 0 to PAGE_TABLE_ENTRIES
      invariant forall k :: 0 <= k < j ==> Entry(mem[..], page, k) == PAGE_SIZE_4K * (512 * (page - 4) + k) + 7
      invariant forall p: nat, i: nat :: InTable(mem[..], p, i) && p != page ==>
                  Entry(mem[..], p, i) == Entry(old(mem[..]), p, i)
    {
      var guestAddress := ((page - 4) * PAGE_TABLE_ENTRIES + j) * PAGE_SIZE_4K;
      FlaggedPage(512 * (page - 4) + j, guestAddress);
      WriteEntry(mem, page, j, Flagged(guestAddress));
    }
  }

  /** One page-directory entry with its page table. */
  method LinkPageTable(mem: array<Byte>, page: nat)
    requires 4 <= page < 8 && mem.Length >= PAGE_SIZE_2M
    modifies mem
    ensures Entry(mem[..], 3, page - 4) == PAGE_SIZE_4K * page + 7
    ensures forall j :: 0 <= j < PAGE_TABLE_ENTRIES ==>
              Entry(mem[..], page, j) == PAGE_SIZE_4K * (512 * (page - 4) + j) + 7
    ensures forall p: nat, i: nat :: InTable(mem[..], p, i) && !(p == 3 && i == page - 4) && p != page ==>
              Entry(mem[..], p, i) == Entry(old(mem[..]), p, i)
  {
    var tableAddress := page * PAGE_SIZE_4K;
    FlaggedPage(page, tableAddress);
    WriteEntry(mem, 3, page - 4, Flagged(tableAddress));
    FillPageTable(mem, page);
  }

  method SetupPageTables4K(mem: array<Byte>)
    requires mem.Length % PAGE_SIZE_2M == 0 && PAGE_SIZE_2M <= mem.Length <= 0x80_0000
    modifies mem
    ensures var count := mem.Length / PAGE_SIZE_2M;
            && (forall i :: 0 <= i < count ==> Entry(mem[..], 3, i) == PAGE_SIZE_4K * (4 + i) + 7)
            && (forall p, j :: 4 <= p < 4 + count && 0 <= j < PAGE_TABLE_ENTRIES ==>
                  Entry(mem[..], p, j) == PAGE_SIZE_4K * (512 * (p - 4) + j) + 7)
            && (forall p: nat, i: nat :: InTable(mem[..], p, i) && !(p == 3 && i < count) && !(4 <= p < 4 + count) ==>
                  Entry(mem[..], p, i) == Entry(old(mem[..]), p, i))
  {
    var count := mem.Length / PAGE_SIZE_2M;
    for n := 0 to count
      invariant forall i :: 0 <= i < n ==> Entry(mem[..], 3, i) == PAGE_SIZE_4K * (4 + i) + 7
      invariant forall p, j :: 4 <= p < 4 + n && 0 <= j < PAGE_TABLE_ENTRIES ==>
                  Entry(mem[..], p, j) == PAGE_SIZE_4K * (512 * (p - 4) + j) + 7
      invariant forall p: nat, i: nat :: InTable(mem[..], p, i) && !(p == 3 && i < n) && !(4 <= p < 4 + n) ==>
                  Entry(mem[..], p, i) == Entry(old(mem[..]), p, i)
    {
      LinkPageTable(mem, 4 + n);
    }
  }

  /** A zeroed memory has zero entries. */
  lemma ZeroEntry(m: Memory, page: nat, index: nat)
    requires InTable(m, page, index) && forall k :: 0 <= k < |m| ==> m[k] == 0
    ensures Entry(m, page, index) == 0
  {
    var a := PAGE_SIZE_4K * page + 8 * index;
    ZeroBytes(m[a..a + 8]);
  }

  lemma {:induction false} ZeroBytes(s: Memory)
    requires forall k :: 0 <= k < |s| ==> s[k] == 0
    ensures FromBytes(s) == 0
  {
    if s != [] { ZeroBytes(s[1..]); }
  }

  /** The PML4 and PDPT entries. */
  method WriteUpperLevels(mem: array<Byte>)
    requires mem.Length >= PAGE_SIZE_2M
    modifies mem
    ensures Entry(mem[..], 1, 0) == 0x2007 && Entry(mem[..], 2, 0) == 0x3007
    ensures forall p: nat, i: nat :: InTable(mem[..], p, i) && !((p == 1 || p == 2) && i == 0) ==>
              Entry(mem[..], p, i) == Entry(old(mem[..]), p, i)
  {
    var pdptAddress: nat, pdAddress: nat := 0x2000, 0x3000;
    FlaggedPage(2, pdptAddress);
    FlaggedPage(3, pdAddress);
    WriteEntry(mem, 1, 0, BitOr(BitOr(BitOr(PRESENT, RW), USER), pdptAddress));
    WriteEntry(mem, 2, 0, BitOr(BitOr(BitOr(PRESENT, RW), USER), pdAddress));
  }

  /** The entries the builders fill. */
  ghost predicate IsTableEntry(small: bool, count: nat, page: nat, index: nat) {
    || ((page == 1 || page == 2) && index == 0)
    || (page == 3 && index < count)
    || (small && 4 <= page < 4 + count)
  }

  ghost predicate ZeroElsewhere(m: Memory, small: bool, count: nat) {
    forall p: nat, i: nat :: InTable(m, p, i) && !IsTableEntry(small, count, p, i) ==> Entry(m, p, i) == 0
  }

  /** Entries written over zeroed memory, in two steps. */
  lemma StillZeroElsewhere(m0: Memory, m1: Memory, m2: Memory, small: bool, count: nat)
    requires |m0| == |m1| == |m2| && forall k :: 0 <= k < |m0| ==> m0[k] == 0
    requires forall p: nat, i: nat :: InTable(m1, p, i) && !((p == 1 || p == 2) && i == 0) ==>
               Entry(m1, p, i) == Entry(m0, p, i)
    requires forall p: nat, i: nat :: InTable(m2, p, i) && !(p == 3 && i < count) && !(small && 4 <= p < 4 + count) ==>
               Entry(m2, p, i) == Entry(m1, p, i)
    ensures ZeroElsewhere(m2, small, count)
  {
    forall p: nat, i: nat | InTable(m2, p, i) && !IsTableEntry(small, count, p, i)
      ensures Entry(m2, p, i) == 0
    {
      ZeroEntry(m0, p, i);
      assert Entry(m2, p, i) == Entry(m1, p, i) == Entry(m0, p, i);
    }
  }

  lemma UpperLevelsFrom(m: Memory, small: bool, count: nat)
    requires |m| == PAGE_SIZE_2M * count && 1 <= count <= 4 && ZeroElsewhere(m, small, count)
    requires Entry(m, 1, 0) == 0x2007 && Entry(m, 2, 0) == 0x3007
    ensures UpperLevels(m, count)
  {
  }

  // ----- the tables as bytes

  /** Memory holds this 64-bit value, lowest byte first. */
  ghost predicate Holds64(m: Memory, address: nat, value: nat) {
    && address + 8 <= |m| && value < 0x1_0000_0000_0000_0000
    && m[address] == value % 0x100
    && m[address + 1] == value / 0x100 % 0x100
    && m[address + 2] == value / 0x1_0000 % 0x100
    && m[address + 3] == value / 0x100_0000 % 0x100
    && m[address + 4] == value / 0x1_0000_0000 % 0x100
    && m[address + 5] == value / 0x100_0000_0000 % 0x100
    && m[address + 6] == value / 0x1_0000_0000_0000 % 0x100
    && m[address + 7] == value / 0x100_0000_0000_0000 % 0x100
  }

  lemma LowByte(s: Memory)
    requires s != []
    ensures FromBytes(s) % 0x100 == s[0] && FromBytes(s) / 0x100 == FromBytes(s[1..])
  {
  }

  lemma DivideAgain(v: nat)
    ensures v / 0x1_0000 == v / 0x100 / 0x100
    ensures v / 0x100_0000 == v / 0x1_0000 / 0x100
    ensures v / 0x1_0000_0000 == v / 0x100_0000 / 0x100
    ensures v / 0x100_0000_0000 == v / 0x1_0000_0000 / 0x100
    ensures v / 0x1_0000_0000_0000 == v / 0x100_0000_0000 / 0x100
    ensures v / 0x100_0000_0000_0000 == v / 0x1_0000_0000_0000 / 0x100
  {
  }

  lemma EightBytes(m: Memory, a: nat)
    requires a + 8 <= |m|
    ensures Holds64(m, a, FromBytes(m[a..a + 8]))
  {
    var s := m[a..a + 8];
    var v := FromBytes(s);
    DivideAgain(v);
    LowByte(s);
    LowByte(s[1..]);
    LowByte(s[1..][1..]);
    LowByte(s[1..][1..][1..]);
    LowByte(s[1..][1..][1..][1..]);
    LowByte(s[1..][1..][1..][1..][1..]);
    LowByte(s[1..][1..][1..][1..][1..][1..]);
    LowByte(s[1..][1..][1..][1..][1..][1..][1..]);
    assert s[1..][1..] == s[2..] && s[2..][1..] == s[3..] && s[3..][1..] == s[4..];
    assert s[4..][1..] == s[5..] && s[5..][1..] == s[6..] && s[6..][1..] == s[7..] && s[7..][1..] == [];
  }

  /** An entry of a table is the eight bytes at its place. */
  lemma EntryBytes(m: Memory, page: nat, index: nat)
    requires InTable(m, page, index)
    ensures Holds64(m, 0x1000 * page + 8 * index, Entry(m, page, index))
  {
    EightBytes(m, 0x1000 * page + 8 * index);
  }

  /** The 4 KiB tables: PML4 at 0x1000, PDPT at 0x2000, directory at 0x3000, and from 0x4000 on one entry for
      every page of memory. */
  ghost predicate SmallTables(m: Memory) {
    && Holds64(m, 0x1000, 0x2007) && Holds64(m, 0x2000, 0x3007)
    && (forall i :: 0 <= i < |m| / 0x20_0000 ==> Holds64(m, 0x3000 + 8 * i, 0x4007 + 0x1000 * i))
    && (forall n :: 0 <= n < |m| / 0x1000 ==> Holds64(m, 0x4000 + 8 * n, 0x1000 * n + 7))
  }

  ghost predicate LargeTables(m: Memory) {
    && Holds64(m, 0x1000, 0x2007) && Holds64(m, 0x2000, 0x3007)
    && (forall i :: 0 <= i < |m| / 0x20_0000 ==> Holds64(m, 0x3000 + 8 * i, 0x20_0000 * i + 0x87))
  }

  lemma SmallTablesBuilt(m: Memory, count: nat)
    requires Built4K(m, count)
    ensures SmallTables(m)
  {
    EntryBytes(m, 1, 0);
    EntryBytes(m, 2, 0);
    forall i | 0 <= i < |m| / 0x20_0000
      ensures Holds64(m, 0x3000 + 8 * i, 0x4007 + 0x1000 * i)
    {
      EntryBytes(m, 3, i);
    }
    forall n | 0 <= n < |m| / 0x1000
      ensures Holds64(m, 0x4000 + 8 * n, 0x1000 * n + 7)
    {
      SmallEntryBytes(m, count, n / 512, n % 512);
    }
  }

  lemma SmallEntryBytes(m: Memory, count: nat, table: nat, index: nat)
    requires Built4K(m, count) && table < count && index < 512
    ensures Holds64(m, 0x4000 + 8 * (512 * table + index), 0x1000 * (512 * table + index) + 7)
  {
    EntryBytes(m, 4 + table, index);
    assert Entry(m, 4 + table, index) == PAGE_SIZE_4K * (512 * (4 + table - 4) + index) + 7;
  }

  lemma LargeTablesBuilt(m: Memory, count: nat)
    requires Built2M(m, count)
    ensures LargeTables(m)
  {
    EntryBytes(m, 1, 0);
    EntryBytes(m, 2, 0);
    forall i | 0 <= i < |m| / 0x20_0000
      ensures Holds64(m, 0x3000 + 8 * i, 0x20_0000 * i + 0x87)
    {
      EntryBytes(m, 3, i);
    }
  }

  /** setup_long_mode on freshly mapped memory. */
  method SetupLongMode(mem: array<Byte>, pageSize: nat) returns (cr3: nat)
    requires mem.Length % PAGE_SIZE_2M == 0 && PAGE_SIZE_2M <= mem.Length <= 0x80_0000
    requires forall k :: 0 <= k < mem.Length ==> mem[k] == 0
    modifies mem
    ensures cr3 == 0x1000
    ensures var count := mem.Length / PAGE_SIZE_2M;
            && (if pageSize == PAGE_SIZE_4K then Built4K(mem[..], count) else Built2M(mem[..], count))
            && ZeroElsewhere(mem[..], pageSize == PAGE_SIZE_4K, count)
    ensures if pageSize == 0x1000 then SmallTables(mem[..]) else LargeTables(mem[..])
  {
    ghost var m0, count := mem[..], mem.Length / PAGE_SIZE_2M;
    WriteUpperLevels(mem);
    ghost var m1 := mem[..];
    if pageSize == PAGE_SIZE_4K {
      SetupPageTables4K(mem);
    } else {
      SetupPageTables2M(mem);
    }
    StillZeroElsewhere(m0, m1, mem[..], pageSize == PAGE_SIZE_4K, count);
    assert Entry(mem[..], 1, 0) == Entry(m1, 1, 0) && Entry(mem[..], 2, 0) == Entry(m1, 2, 0);
    UpperLevelsFrom(mem[..], pageSize == PAGE_SIZE_4K, count);
    if pageSize == PAGE_SIZE_4K {
      SmallTablesBuilt(mem[..], count);
    } else {
      LargeTablesBuilt(mem[..], count);
    }
    cr3 := 0x1000;
  }

  /** load_guest_image: `readable` bytes is what the read of the image file delivers. */
  method LoadGuestImage(mem: array<Byte>, image: Memory, isOpen: bool, readable: nat) returns (loaded: bool)
    requires mem.Length >= GUEST_START_ADDR && readable <= |image|
    modifies mem
    ensures loaded <==> isOpen && |image| <= mem.Length - GUEST_START_ADDR && readable == |image|
    ensures loaded ==> mem[GUEST_START_ADDR..GUEST_START_ADDR + |image|] == image
    ensures mem[..GUEST_START_ADDR] == old(mem[..GUEST_START_ADDR])
    ensures if isOpen && |image| <= mem.Length - GUEST_START_ADDR
            then mem[GUEST_START_ADDR..] == image[..readable] + old(mem[GUEST_START_ADDR + readable..])
            else mem[..] == old(mem[..])
  {
    if !isOpen || |image| > mem.Length - GUEST_START_ADDR {
      return false;
    }
    forall k | 0 <= k < readable {
      mem[GUEST_START_ADDR + k] := image[k];
    }
    loaded := readable == |image|;
  }

  lemma StillIdentity(built: Memory, m: Memory, count: nat, pageSize: nat)
    requires if pageSize == PAGE_SIZE_4K then Built4K(built, count) else Built2M(built, count)
    requires |m| == |built| >= GUEST_START_ADDR && m[..GUEST_START_ADDR] == built[..GUEST_START_ADDR]
    ensures IsIdentity(m, 0x1000)
  {
    BelowLoadAddress(built, m, count);
    forall va: nat
      ensures Walk(m, 0x1000, va) == if va < |m| then Some(Translation(va, true, true)) else None
    {
      if pageSize == PAGE_SIZE_4K {
        Identity4K(m, count, va);
      } else {
        Identity2M(m, count, va);
      }
    }
  }

  ghost predicate IsIdentity(m: Memory, cr3: nat) {
    forall va: nat :: Walk(m, cr3, va) == if va < |m| then Some(Translation(va, true, true)) else None
  }

  /** The guest reads this byte at this virtual address. */
  ghost predicate ReadsAt(m: Memory, cr3: nat, va: nat, value: Byte) {
    var t := Walk(m, cr3, va);
    t.Some? && t.value.physical < |m| && m[t.value.physical] == value
  }

  lemma IdentityReads(m: Memory, cr3: nat, va: nat, value: Byte)
    requires IsIdentity(m, cr3) && va < |m| && m[va] == value
    ensures ReadsAt(m, cr3, va, value)
  {
    assert Walk(m, cr3, va) == Some(Translation(va, true, true));
  }

  lemma ImageByte(m: Memory, image: Memory, k: nat)
    requires GUEST_START_ADDR + |image| <= |m| && k < |image|
    requires m[GUEST_START_ADDR..GUEST_START_ADDR + |image|] == image
    ensures m[GUEST_START_ADDR + k] == image[k]
  {
    assert m[GUEST_START_ADDR..GUEST_START_ADDR + |image|][k] == image[k];
  }

  lemma ImageIsRead(m: Memory, cr3: nat, image: Memory)
    requires IsIdentity(m, cr3) && GUEST_START_ADDR + |image| <= |m|
    requires m[GUEST_START_ADDR..GUEST_START_ADDR + |image|] == image
    ensures forall k :: 0 <= k < |image| ==> ReadsAt(m, cr3, GUEST_START_ADDR + k, image[k])
  {
    forall k | 0 <= k < |image|
      ensures ReadsAt(m, cr3, GUEST_START_ADDR + k, image[k])
    {
      ImageByte(m, image, k);
      IdentityReads(m, cr3, GUEST_START_ADDR + k, image[k]);
    }
  }

  lemma GuestReady(built: Memory, m: Memory, count: nat, pageSize: nat, image: Memory, loaded: bool)
    requires if pageSize == PAGE_SIZE_4K then Built4K(built, count) else Built2M(built, count)
    requires |m| == |built| >= GUEST_START_ADDR && m[..GUEST_START_ADDR] == built[..GUEST_START_ADDR]
    requires loaded ==> GUEST_START_ADDR + |image| <= |m| && m[GUEST_START_ADDR..GUEST_START_ADDR + |image|] == image
    ensures IsIdentity(m, 0x1000)
    ensures loaded ==> forall k :: 0 <= k < |image| ==> ReadsAt(m, 0x1000, 0x8000 + k, image[k])
  {
    StillIdentity(built, m, count, pageSize);
    if loaded {
      ImageIsRead(m, 0x1000, image);
    }
  }

  /** Before a guest starts: tables, then image. Every address below the memory size still translates
      to itself and no other address translates at all; byte k of the image is what the guest reads
      at virtual address 0x8000 + k. */
  method PrepareGuest(mem: array<Byte>, pageSize: nat, image: Memory, isOpen: bool, readable: nat)
    returns (loaded: bool, cr3: nat)
    requires mem.Length % PAGE_SIZE_2M == 0 && PAGE_SIZE_2M <= mem.Length <= 0x80_0000
    requires forall k :: 0 <= k < mem.Length ==> mem[k] == 0
    requires readable <= |image|
    modifies mem
    ensures IsIdentity(mem[..], cr3)
    ensures loaded ==> forall k :: 0 <= k < |image| ==> ReadsAt(mem[..], cr3, 0x8000 + k, image[k])
  {
    cr3 := SetupLongMode(mem, pageSize);
    ghost var built := mem[..];
    loaded := LoadGuestImage(mem, image, isOpen, readable);
    assert mem[..][..GUEST_START_ADDR] == mem[..GUEST_START_ADDR] == built[..GUEST_START_ADDR];
    assert loaded ==> mem[..][GUEST_START_ADDR..GUEST_START_ADDR + |image|] == image;
    GuestReady(built, mem[..], mem.Length / PAGE_SIZE_2M, pageSize, image, loaded);
  }
}
