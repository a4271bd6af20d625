/** Constants of the machine: pages of 4 KB in a 32-bit address space. */
module Machine {
  const PAGE_SIZE := 4096
  const WORD_LIMIT := 0x1_0000_0000

  /** C's ROUNDUP(size, PAGE_SIZE) / PAGE_SIZE on 32-bit numbers: the sum wraps. */
  function PagesFor(size: nat): nat {
    var sum := (size + PAGE_SIZE - 1) % WORD_LIMIT;
    (sum - sum % PAGE_SIZE) / PAGE_SIZE
  }
}
