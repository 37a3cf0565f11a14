/** The memory operations the checker orders, and how addresses are grouped. */
module Actions {

  type Pid = int
  type Tid = nat
  type Address = nat
  type Clock = nat

  datatype Kind =
    | AtomicInit
    | AtomicStore
    | NonAtomicStore
    | Rmw
    | Sfence
    | Clflush
    | ClflushOpt
    | Load

  /** One operation. `seqNum` is its place in the order of evictions, `effect` the
      earliest time a `ClflushOpt` can take effect. */
  datatype Action = Action(
    tid: Tid,
    pid: Pid,
    kind: Kind,
    loc: Address,
    size: nat,
    value: nat,
    seqNum: Clock,
    effect: Clock
  )

  predicate IsWrite(k: Kind) {
    k == AtomicInit || k == AtomicStore || k == NonAtomicStore || k == Rmw
  }

  const CACHELINE_SIZE: nat := 64
  const MAX_CRASHES: nat := 1

  /** The cache line of an address. */
  function Line(a: Address): Address {
    a - a % CACHELINE_SIZE
  }

  /** The eight-byte slot of an address. */
  function Slot(a: Address): Address {
    a - a % 8
  }

  /** Naturally aligned accesses of one, two, four or eight bytes. */
  predicate Aligned(a: Action) {
    a.size in {1, 2, 4, 8} && a.loc % a.size == 0
  }

  /** `equivalent`: same value at the same place. */
  predicate Equivalent(a: Action, b: Action) {
    a.value == b.value && a.size == b.size && a.loc == b.loc
  }

  /** Byte `a` is among those `w` writes. */
  predicate Covers(w: Action, a: Address) {
    w.loc <= a < w.loc + w.size
  }

  function Pow256(n: nat): (r: nat)
    ensures r >= 1
  {
    if n == 0 then 1 else 256 * Pow256(n - 1)
  }

  /** Byte `n` of `v`, counted from the least significant. */
  function ByteOf(v: nat, n: nat): nat {
    (v / Pow256(n)) % 256
  }

  /** The byte that `w` leaves at address `a`. */
  function ByteAt(w: Action, a: Address): nat
    requires w.loc <= a
  {
    ByteOf(w.value, a - w.loc)
  }
}
