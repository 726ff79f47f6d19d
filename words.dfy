/**
 * Machine words, address halves and the symbolic command-stream words that
 * the command processor consumes.
 *
 * The PACKET3 header macro and the PACKET3_*_xxx / WRITE_DATA_xxx /
 * WAIT_REG_MEM_xxx field macros live in headers that are not part of this
 * model, so a ring word is kept symbolic: a literal value, a type-3 header
 * naming its opcode and count, or a control word given as the list of field
 * macros OR-ed together.
 */
module Words {

  const TWO32: nat := 0x1_0000_0000
  const TWO64: nat := 0x1_0000_0000_0000_0000

  type byte = x: nat | x < 256
  type u32 = x: nat | x < 0x1_0000_0000
  type u64 = x: nat | x < 0x1_0000_0000_0000_0000

  datatype Option<+T> = None | Some(value: T)

  /** Return codes of the driver: 0 or a negated errno. */
  datatype Status = Ok | Err(errno: nat)

  /** The outcome of an allocator call that yields a value or an errno. */
  datatype Alloc<T> = Got(value: T) | Failed(errno: nat)

  /** Registers the modelled code writes by MMIO. */
  datatype Reg =
    | Scratch(offset: u32)          // a scratch register handed out by amdgpu_gfx_scratch_get
    | RlcCpSchedulers
    | RlcHypBootloadAddrHi | RlcHypBootloadAddrLo | RlcHypBootloadSize

  /** One WREG32: the MMIO writes are the model's outputs, in order. */
  datatype RegWrite = RegWrite(reg: Reg, value: u32)

  const EINVAL: nat := 22
  const ENOMEM: nat := 12

  /** lower_32_bits */
  function Lo(x: nat): (r: u32)
    ensures x < TWO32 ==> r == x
  {
    x % TWO32
  }

  /** upper_32_bits of a 64-bit value */
  function Hi(x: u64): (r: u32)
    ensures x < TWO32 ==> r == 0
  {
    x / TWO32
  }

  /** The two halves of a 64-bit value give it back. */
  lemma LoHi(x: u64)
    ensures Hi(x) * TWO32 + Lo(x) == x
  {
  }

  /** A 64-bit value from its lower and upper halves. */
  function Join(lo: u32, hi: u32): (x: u64)
    ensures Lo(x) == lo && Hi(x) == hi
  {
    hi * TWO32 + lo
  }

  lemma JoinLoHi(x: u64)
    ensures Join(Lo(x), Hi(x)) == x
  {
    LoHi(x);
  }

  /** Unsigned 32-bit subtraction, wrapping as C does. */
  function Sub32(a: u32, b: nat): (r: u32)
    ensures b <= a ==> r == a - b
  {
    (a - b) % TWO32
  }

  /** Unsigned 64-bit addition, wrapping as C does. */
  function Add64(a: u64, b: nat): (r: u64)
    ensures a + b < TWO64 ==> r == a + b
  {
    (a + b) % TWO64
  }

  function Pow2(k: nat): (r: nat)
    ensures r >= 1
    ensures k >= 1 ==> r % 2 == 0
  {
    if k == 0 then 1 else 2 * Pow2(k - 1)
  }

  ghost predicate IsPow2(n: nat) {
    exists k: nat :: Pow2(k) == n
  }

  /** order_base_2(n): the least k with 2^k >= n (0 for n <= 1). */
  function OrderBase2(n: nat): (k: nat)
    decreases n
  {
    if n <= 1 then 0 else 1 + OrderBase2((n + 1) / 2)
  }

  lemma {:induction false} OrderBase2OfPow2(k: nat)
    ensures OrderBase2(Pow2(k)) == k
  {
    if k > 0 {
      OrderBase2OfPow2(k - 1);
      assert (Pow2(k) + 1) / 2 == Pow2(k - 1);
    }
  }

  /** PAGE_SIZE of the host (4 KiB). */
  const PAGE_SIZE: nat := 4096

  /** ALIGN(x, PAGE_SIZE): x rounded up to the next page boundary. */
  function AlignPage(x: nat): (r: nat)
    ensures r % PAGE_SIZE == 0 && x <= r < x + PAGE_SIZE
  {
    (x + PAGE_SIZE - 1) / PAGE_SIZE * PAGE_SIZE
  }

  /** PACKET3 opcodes used by this file. */
  datatype Opcode =
    | Nop | SetResources | MapQueues | UnmapQueues | QueryStatus
    | WriteData | WaitRegMem | ReleaseMem | CondExec | SetUconfigReg
    | PreambleCntl | ContextControl | SetContextReg | ClearState

  /** Names of the packet and register field macros (their bit positions are not modelled). */
  datatype Field =
    // SET_RESOURCES
    | VmidMask | QueueType
    // MAP_QUEUES / UNMAP_QUEUES / QUERY_STATUS
    | QueueSel | Vmid | Queue | Pipe | Me | AllocFormat | EngineSel | NumQueues
    | DoorbellOffset | Action | ContextId | InterruptSel | Command
    // WRITE_DATA
    | DstSel | WrConfirm
    // WAIT_REG_MEM
    | MemSpace | Operation | Function
    // RELEASE_MEM
    | GcrSeq | GcrGl2Wb | GcrGlmInv | GcrGlmWb | CachePolicy
    | EventTypeCacheFlushAndInvTs | EventIndex | DataSel | IntSel
    // PREAMBLE_CNTL
    | PreambleBeginClearState | PreambleEndClearState
    // register fields set by REG_SET_FIELD
    | DoorbellEn | DoorbellSource | DoorbellHit | EopSize | QueueSize
    | RptrBlockSize | UnordDispatch | TunnelDispatch | PrivState | KmdQueue
    | PreloadSize | MinIbAvailSize | PriorityLevel | QuantumEn | RbBufsz | RbBlksz

  /** One 32-bit word of a command stream. */
  datatype Word =
    | Raw(v: u32)                               // a literal value
    | Header(op: Opcode, count: nat)            // PACKET3(op, count)
    | Fields(op: Opcode, fs: map<Field, int>)   // OR of the op's field macros

  /** The value a control word gives a field macro; a macro that is absent contributes 0. */
  function FieldValue(fs: map<Field, int>, f: Field): int {
    if f in fs then fs[f] else 0
  }

  /** The type-3 NOP that fills a cleared ring: PACKET3(PACKET3_NOP, 0x3FFF). */
  const RingNop: Word := Header(Nop, 0x3FFF)

  /**
   * A register value as the driver computes it: a base value (a register
   * read or a constant) with the fields REG_SET_FIELD replaced; a later
   * REG_SET_FIELD of the same field overrides an earlier one.
   */
  datatype RegVal = RegVal(base: u32, fields: map<Field, int>)

  function Plain(v: u32): RegVal {
    RegVal(v, map[])
  }

  /** REG_SET_FIELD(r, f, x) */
  function SetField(r: RegVal, f: Field, x: int): (r': RegVal)
    ensures r'.base == r.base && f in r'.fields && r'.fields[f] == x
    ensures forall g :: g in r.fields && g != f ==> g in r'.fields && r'.fields[g] == r.fields[g]
    ensures forall g :: g in r'.fields ==> g == f || g in r.fields
  {
    RegVal(r.base, r.fields[f := x])
  }
}
