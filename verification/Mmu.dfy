/** The 32-bit paging format and the user memory layout: page-table words, their flag bits,
    the constants of the layout, and the error codes that the system calls return.

    A 32-bit word is kept as its two halves, the 20-bit frame number and the 12 flag bits
    (section 4.3 of the Intel SDM, volume 3A), so PTE_ADDR and the flag tests are projections. */
module Mmu {

  const PTSIZE: nat := 0x400000
  const NPTENTRIES: nat := 1024
  const UTOP: nat := 0xEEC00000
  const USTACKTOP: nat := 0xEEBFE000
  const PFTEMP: nat := 0x7FF000
  const UVPT: nat := 0xEF400000

  // PDX(UTOP): the user part of a page directory
  const USER_TABLES: nat := 955

  const E_BAD_ENV: int := 2
  const E_INVAL: int := 3
  const E_NO_MEM: int := 4
  const E_NO_FREE_ENV: int := 5
  const E_IPC_NOT_RECV: int := 7

  datatype Option<+T> = None | Some(value: T)

  /** The flag bits of a page-table word, lowest first; share and cow are the bits 0x400 and 0x800
      of PTE_AVAIL, soft its bit 0x200. */
  datatype Flags = Flags(p: bool, w: bool, u: bool, pwt: bool, pcd: bool, a: bool, d: bool, ps: bool, g: bool,
                         soft: bool, share: bool, cow: bool)

  const NO_FLAGS: Flags := Flags(false, false, false, false, false, false, false, false, false, false, false, false)

  const TABLE_FLAGS: Flags := NO_FLAGS.(p := true, w := true, u := true)

  datatype Word = Word(frame: nat, flags: Flags)

  const ZERO_WORD: Word := Word(0, NO_FLAGS)

  /** A permission argument: the bits above the low twelve, and the low twelve. */
  datatype Perm = Perm(high: nat, low: Flags)

  /** A physical page, seen as 1024 words. */
  type Page = s: seq<Word> | |s| == NPTENTRIES witness seq(NPTENTRIES, i => ZERO_WORD)

  /** What memset(page, 0, PGSIZE) leaves. */
  function ZeroPage(): (z: Page)
    ensures forall i :: 0 <= i < NPTENTRIES ==> z[i] == ZERO_WORD
  {
    seq(NPTENTRIES, i => ZERO_WORD)
  }

  predicate Present(w: Word) {
    w.flags.p
  }

  /** perm | PTE_P. */
  function WithP(perm: Flags): Flags {
    perm.(p := true)
  }

  /** What the MMU makes of the flags when user code stores through the entry. */
  function Touched(flags: Flags): Flags {
    flags.(a := true, d := true)
  }

  /** The word that page_insert stores: PTE_ADDR(pa) | perm | PTE_P. */
  function EntryWord(page: nat, perm: Flags): (w: Word)
    ensures Present(w) && w.frame == page && w.flags == WithP(perm)
  {
    Word(page, WithP(perm))
  }

  /** The permission test of the page system calls: PTE_U and PTE_P set, nothing outside PTE_SYSCALL. */
  predicate SyscallPerm(perm: Perm) {
    var f := perm.low;
    perm.high == 0 && f.u && f.p && !(f.pwt || f.pcd || f.a || f.d || f.ps || f.g)
  }

  predicate PageAligned(va: nat) {
    va % 4096 == 0
  }

  /** The address test of the page system calls. */
  predicate UserPageAddress(va: nat) {
    va < UTOP && PageAligned(va)
  }

  function Pdx(va: nat): (d: nat)
    ensures va < UTOP ==> d < USER_TABLES
  {
    va / 0x400000 % 1024
  }

  function Ptx(va: nat): (t: nat)
    ensures t < NPTENTRIES
  {
    va / 4096 % 1024
  }

  /** The word of its page that an address falls into. */
  function WordAt(va: nat): (i: nat)
    ensures i < NPTENTRIES
  {
    va % 4096 / 4
  }
}
