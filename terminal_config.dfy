/**
 * The terminal's two bus addresses. One 16-bit seed (from external storage, or
 * entered locally) determines the even/odd pair (A, A + 1) of reader addresses.
 */
module TerminalConfig {
  import opened Common
  import opened AcsProtocol

  /** Reader addresses before any configuration. */
  const DEFAULT_READER_A_ADDR: bv16 := 0x4
  const DEFAULT_READER_B_ADDR: bv16 := 0x5

  /** The 10-bit address mask. */
  const ADDR_BIT_MASK: bv16 := 0x3FF

  /** The (A, B) pair a seed selects: the seed's address bits, rounded to an even/odd pair. */
  function Pair(seed: bv16): (r: (bv16, bv16))
    ensures r.0 & 1 == 0 && r.1 == r.0 + 1 && r.1 <= 1023
    ensures seed & ADDR_BIT_MASK == r.0 || seed & ADDR_BIT_MASK == r.1
  {
    var addr := seed & ADDR_BIT_MASK;
    if addr & 0x1 != 0 then (addr - 1, addr) else (addr, addr + 1)
  }

  /** The pair is the masked seed with its low bit cleared, and that bit set. */
  lemma PairReference(seed: bv16)
    ensures Pair(seed) == (seed & 0x3FE, (seed & 0x3FE) | 1)
  {
  }

  /**
   * Storing A and loading it back selects the same pair, and so does B: the address
   * saved to storage restores the configuration it came from.
   */
  lemma PairRoundTrip(seed: bv16)
    ensures Pair(Pair(seed).0) == Pair(seed)
    ensures Pair(Pair(seed).1) == Pair(seed)
  {
  }

  /**
   * Both readers get panel addresses exactly when the masked seed is in 4..1021; seeds
   * 0..3 pair a reader with the reserved or a master address, and 1022..1023 with broadcast.
   */
  lemma PairIsPanelPair(seed: bv16)
    ensures var (a, b) := Pair(seed);
      IsPanelAddr(a as bv32) && IsPanelAddr(b as bv32) <==> 4 <= seed & ADDR_BIT_MASK <= 1021
    ensures Pair(0) == (0, 1) && Pair(1) == (0, 1) && Pair(0x400) == (0, 1)
    ensures Pair(1022) == (1022, 1023) && Pair(1023) == (1022, 1023)
  {
  }

  /** The reader addresses, the globals _READER_A_ADDR and _READER_B_ADDR. */
  class AddressConfig {
    var readerA: bv16
    var readerB: bv16

    /** The pair shape every configuration keeps: A even, B = A + 1, both within 10 bits. */
    ghost predicate Valid()
      reads this
    {
      readerA & 1 == 0 && readerB == readerA + 1 && readerB <= 1023
    }

    /** The statically initialised addresses 4 and 5. */
    constructor ()
      ensures Valid()
      ensures readerA == DEFAULT_READER_A_ADDR && readerB == DEFAULT_READER_B_ADDR
    {
      readerA := DEFAULT_READER_A_ADDR;
      readerB := DEFAULT_READER_B_ADDR;
    }

    /** set_reader_addr. */
    method SetReaderAddr(seed: bv16)
      modifies this
      ensures Valid()
      ensures (readerA, readerB) == Pair(seed)
    {
      var addr := seed & ADDR_BIT_MASK;
      if addr & 0x1 != 0 {
        readerB := addr;
        readerA := addr - 1;
      } else {
        readerA := addr;
        readerB := addr + 1;
      }
    }

    /**
     * _load_acs_addrs_from_ext_stor: `read` is the outcome of reading the stored word
     * (None when the read fails). The pair changes only on a successful read.
     */
    method LoadFromStorage(read: Option<bv16>) returns (ok: bool)
      requires Valid()
      modifies this
      ensures Valid()
      ensures ok <==> read.Some?
      ensures ok ==> (readerA, readerB) == Pair(read.value)
      ensures !ok ==> readerA == old(readerA) && readerB == old(readerB)
    {
      ok := read.Some?;
      if ok {
        SetReaderAddr(read.value);
      }
    }

    /**
     * terminal_config_init: a non-zero locally entered address is applied and its A
     * address written back to storage (`written`, with `writeOk` the write's outcome);
     * a zero address loads the pair from storage instead.
     */
    method Init(localAddr: bv16, read: Option<bv16>, writeOk: bool) returns (ok: bool, written: Option<bv16>)
      requires Valid()
      modifies this
      ensures Valid()
      ensures localAddr != 0 ==>
        && (readerA, readerB) == Pair(localAddr)
        && written == Some(readerA) && ok == writeOk
      ensures localAddr == 0 ==>
        && written == None && (ok <==> read.Some?)
        && (ok ==> (readerA, readerB) == Pair(read.value))
        && (!ok ==> readerA == old(readerA) && readerB == old(readerB))
    {
      ok := true;
      if localAddr != 0 {
        SetReaderAddr(localAddr);
        written := Some(readerA);
        ok := ok && writeOk;
      } else {
        var loaded := LoadFromStorage(read);
        written := None;
        ok := ok && loaded;
      }
    }
  }
}
