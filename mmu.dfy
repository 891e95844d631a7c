/** The x86 paging constants and the JOS user address-space layout that the fork
    library and the kernel monitor are written against. */
module Mmu {

  /** A page-table entry word, or its permission bits. */
  type Word = bv32

  const PGSIZE: nat := 4096
  const NPTENTRIES: nat := 1024
  /** Bytes mapped by one page table (one page-directory entry). */
  const PTSIZE: nat := PGSIZE * NPTENTRIES
  /** Entries of `uvpt`: one per virtual page of the 32-bit address space. */
  const NVPAGES: nat := 0x10_0000

  // Hardware-defined entry bits.
  const PTE_P: Word := 0x001
  const PTE_W: Word := 0x002
  const PTE_U: Word := 0x004
  const PTE_PWT: Word := 0x008
  const PTE_PCD: Word := 0x010
  const PTE_A: Word := 0x020
  const PTE_D: Word := 0x040
  const PTE_PS: Word := 0x080
  const PTE_G: Word := 0x100
  /** The three bits the hardware leaves to software. */
  const PTE_AVAIL: Word := 0xE00
  /** Convention bit: map the page through on fork, never copy it. */
  const PTE_SHARE: Word := 0x400
  /** Convention bit: the page is copy-on-write. */
  const PTE_COW: Word := 0x800
  /** The bits a user environment may pass to the page syscalls. */
  const PTE_SYSCALL: Word := PTE_AVAIL | PTE_P | PTE_W | PTE_U

  /** Page-fault error code bit: the faulting access was a write. */
  const FEC_WR: Word := 0x2

  const UTOP: nat := 0xEEC0_0000
  /** Top of the one-page user exception stack. */
  const UXSTACKTOP: nat := UTOP
  /** Top of the normal user stack; one empty guard page lies between it and the exception stack. */
  const USTACKTOP: nat := UTOP - 2 * PGSIZE
  const UTEMP: nat := PTSIZE
  /** Scratch page the copy-on-write fault handler maps its new frame at. */
  const PFTEMP: nat := UTEMP + PTSIZE - PGSIZE

  predicate Has(w: Word, bit: Word) {
    w & bit != 0
  }

  /** PGNUM(va): the virtual page number of `va`. */
  function PageNumber(va: nat): nat {
    va / PGSIZE
  }

  /** PDX(va): the page-directory index of `va`. */
  function DirIndex(va: nat): nat {
    va / PTSIZE
  }

  /** ROUNDDOWN(a, PGSIZE). */
  function RoundDown(a: nat): (r: nat)
    ensures r <= a < r + PGSIZE && r % PGSIZE == 0
  {
    a - a % PGSIZE
  }
}
