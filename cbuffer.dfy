/*
 * The control block `cbuffer_t` of a single-reader/single-writer circular
 * byte buffer, and the two operations that set it up: `cb_init`, which binds
 * caller-owned storage and clamps the requested size, and `cb_clear`, which
 * resets both cursors and the overflow counter.
 *
 * The block is modelled twice: as the class `CircularBuffer`, whose methods
 * assign its fields in place as the C functions do through their `cb`
 * pointer, and as the value `Block`, a snapshot of those fields on which the
 * specification functions `InitState` and `ClearState` and the lemmas work.
 */
module CBuffer {

  /** The values of a C `uint32_t`. */
  type uint32 = x: int | 0 <= x < 0x1_0000_0000

  /** The largest slot count a buffer may claim; larger requests are clamped. */
  const CB_MAX_SIZE: uint32 := 0x00800000

  /** A snapshot of the fields of a `cbuffer_t`. */
  datatype Block = Block(
    data: array?<bv8>,   // caller-owned storage, never owned by the block
    size: uint32,        // slot count; one slot always stays free
    writer: uint32,      // next slot to write
    reader: uint32,      // next slot to read
    overflow: uint32,    // overflow counter, reset by both operations
    active: bool)        // set by `cb_init`, kept by `cb_clear`

  /** No byte is stored: the read cursor has caught up with the write cursor. */
  predicate IsEmpty(b: Block)
  {
    b.reader == b.writer
  }

  /** Both cursors name a slot of the buffer (an empty range when `size` is 0). */
  predicate CursorsInRange(b: Block)
  {
    b.size > 0 ==> b.writer < b.size && b.reader < b.size
  }

  /** What `cb_init` guarantees and `cb_clear` keeps: a clamped size and cursors in range. */
  predicate Valid(b: Block)
  {
    b.size <= CB_MAX_SIZE && CursorsInRange(b)
  }

  /** The block of a file-scope `cbuffer_t` before `cb_init`: C zero-initialises it. */
  function Zeroed(): (b: Block)
    ensures Valid(b) && IsEmpty(b) && !b.active && b.data == null
  {
    Block(null, 0, 0, 0, 0, false)
  }

  // ---------------------------------------------------------------------
  // cb_init and cb_clear as functions on the snapshot

  /** The size `cb_init` keeps for a request: the request, or the maximum if it is larger. */
  function ClampSize(requested: uint32): (r: uint32)
    ensures r <= requested && r <= CB_MAX_SIZE
    ensures r == requested || r == CB_MAX_SIZE
  {
    if requested <= CB_MAX_SIZE then requested else CB_MAX_SIZE
  }

  /**
   * The block after `cb_init(cb, buf, requested)`. Nothing of the previous
   * block survives. The size is not compared with the storage's length.
   */
  function InitState(buf: array?<bv8>, requested: uint32): (r: Block)
    ensures r.data == buf && r.active
    ensures r.size <= CB_MAX_SIZE
    ensures requested <= CB_MAX_SIZE ==> r.size == requested
    ensures requested > CB_MAX_SIZE ==> r.size == CB_MAX_SIZE
    ensures r.writer == 0 && r.reader == 0 && r.overflow == 0
    ensures Valid(r) && IsEmpty(r)
  {
    Block(buf, ClampSize(requested), 0, 0, 0, true)
  }

  /** The block after `cb_clear(cb)`: cursors and overflow reset, everything else kept. */
  function ClearState(b: Block): (r: Block)
    ensures r.writer == 0 && r.reader == 0 && r.overflow == 0
    ensures r.data == b.data && r.size == b.size && r.active == b.active
    ensures IsEmpty(r) && CursorsInRange(r)
    ensures Valid(b) ==> Valid(r)
  {
    b.(writer := 0, reader := 0, overflow := 0)
  }

  // ---------------------------------------------------------------------
  // The control block as the C code handles it: fields assigned in place

  class CircularBuffer {
    var data: array?<bv8>
    var size: uint32
    var writer: uint32
    var reader: uint32
    var overflow: uint32
    var active: bool

    /** The current fields as a value. */
    function Snapshot(): Block
      reads this
    {
      Block(data, size, writer, reader, overflow, active)
    }

    /** A `cbuffer_t` declared at file scope, before any call: all fields zero. */
    constructor ()
      ensures Snapshot() == Zeroed()
    {
      data, size, writer, reader, overflow, active := null, 0, 0, 0, 0, false;
    }

    /** `cb_init`: bind `buf`, clamp `requested`, reset the cursors and the counter, activate. */
    method Init(buf: array?<bv8>, requested: uint32)
      modifies this
      ensures Snapshot() == InitState(buf, requested)
      ensures data == buf && active
      ensures size == ClampSize(requested) && size <= CB_MAX_SIZE
      ensures writer == 0 && reader == 0 && overflow == 0
      ensures buf != null ==> buf[..] == old(buf[..])
    {
      data := buf;
      if requested <= CB_MAX_SIZE {
        size := requested;
      } else {
        size := CB_MAX_SIZE;
      }
      writer := 0;
      reader := 0;
      overflow := 0;
      active := true;
    }

    /** `cb_clear`: reset the cursors and the counter; storage, size and gate are kept. */
    method Clear()
      modifies this
      ensures Snapshot() == ClearState(old(Snapshot()))
      ensures writer == 0 && reader == 0 && overflow == 0
      ensures data == old(data) && size == old(size) && active == old(active)
      ensures data != null ==> data[..] == old(data[..])
    {
      writer := 0;
      reader := 0;
      overflow := 0;
    }
  }

  // ---------------------------------------------------------------------
  // Occupancy: the header's "Capacity = <size> - 1" read off the cursors

  /** The number of bytes between the read cursor and the write cursor, going forward. */
  function Stored(b: Block): (n: nat)
    requires b.size > 0 && CursorsInRange(b)
    ensures n <= b.size - 1
    ensures n == 0 <==> IsEmpty(b)
  {
    if b.reader <= b.writer then b.writer - b.reader else b.size - b.reader + b.writer
  }

  /** No further byte fits: advancing the write cursor would reach the read cursor. */
  predicate IsFull(b: Block)
    requires b.size > 0
  {
    (b.writer + 1) % b.size == b.reader
  }

  /** The cursor one slot further on, wrapping at `size`. */
  lemma NextSlot(size: uint32, i: uint32)
    requires i < size
    ensures (i + 1) % size == if i + 1 < size then i + 1 else 0
  {
    var m: int := size;
    var next: int := i + 1;
    if next < m {
      assert next % m == next;
    } else {
      assert next == m;
      assert m % m == 0;
    }
  }

  /** Full is exactly holding `size - 1` bytes: at most `size - 1` bytes are ever held. */
  lemma FullIffAtCapacity(b: Block)
    requires b.size > 0 && CursorsInRange(b)
    ensures IsFull(b) <==> Stored(b) == b.size - 1
  {
    NextSlot(b.size, b.writer);
  }

  /** After a reset there are `size - 1` free slots; a one-slot buffer is empty and full at once. */
  lemma ResetLeavesCapacityFree(b: Block)
    requires b.size > 0 && CursorsInRange(b) && IsEmpty(b)
    ensures Stored(b) == 0 && b.size - 1 - Stored(b) == b.size - 1
    ensures IsFull(b) <==> b.size == 1
  {
    FullIffAtCapacity(b);
  }

  // ---------------------------------------------------------------------
  // Single steps

  /** Clearing twice is clearing once. */
  lemma ClearIdempotent(b: Block)
    ensures ClearState(ClearState(b)) == ClearState(b)
  {
  }

  /** Clearing right after `cb_init`, as the usage example does, changes nothing. */
  lemma ClearAfterInit(buf: array?<bv8>, requested: uint32)
    ensures ClearState(InitState(buf, requested)) == InitState(buf, requested)
  {
  }

  /**
   * On an initialised block, `cb_clear` gives the block a fresh `cb_init`
   * over the same storage and size would give.
   */
  lemma ClearIsReinit(b: Block)
    requires b.active && Valid(b)
    ensures ClearState(b) == InitState(b.data, b.size)
  {
  }

  /**
   * `cb_init` takes the requested size on trust: with the usage example's
   * six-byte storage and a request of 100 the block claims 100 slots.
   */
  lemma InitTrustsRequestedSize(buf: array<bv8>)
    requires buf.Length == 6
    ensures InitState(buf, 100).size == 100 > buf.Length
  {
  }

  // ---------------------------------------------------------------------
  // Any sequence of the two operations

  /** A call of one of the two operations. */
  datatype Op = InitOp(buf: array?<bv8>, requested: uint32) | ClearOp

  /** The block after one call. */
  function Apply(b: Block, op: Op): Block
  {
    match op
    case InitOp(buf, requested) => InitState(buf, requested)
    case ClearOp => ClearState(b)
  }

  /** The block after a sequence of calls, first call first. */
  function Run(b: Block, ops: seq<Op>): Block
    decreases |ops|
  {
    if ops == [] then b else Run(Apply(b, ops[0]), ops[1..])
  }

  /** Neither operation breaks `Valid`, in any order and number. */
  lemma {:induction false} RunPreservesValid(b: Block, ops: seq<Op>)
    requires Valid(b)
    ensures Valid(Run(b, ops))
    decreases |ops|
  {
    if ops != [] {
      RunPreservesValid(Apply(b, ops[0]), ops[1..]);
    }
  }

  /** After at least one call, whatever the block held before, it is empty with no overflow. */
  lemma {:induction false} RunLeavesEmpty(b: Block, ops: seq<Op>)
    requires ops != []
    ensures Run(b, ops).writer == 0 && Run(b, ops).reader == 0
    ensures Run(b, ops).overflow == 0 && IsEmpty(Run(b, ops))
    decreases |ops|
  {
    if |ops| > 1 {
      RunLeavesEmpty(Apply(b, ops[0]), ops[1..]);
    }
  }

  /** Any positive number of `cb_clear` calls acts as one: storage, size and gate stay. */
  lemma {:induction false} ClearsActAsOne(b: Block, ops: seq<Op>)
    requires ops != []
    requires forall i :: 0 <= i < |ops| ==> ops[i].ClearOp?
    ensures Run(b, ops) == ClearState(b)
    decreases |ops|
  {
    if |ops| > 1 {
      ClearsActAsOne(ClearState(b), ops[1..]);
      ClearIdempotent(b);
    }
  }

  /** Once `cb_init` has run, the block is active and clamped, whatever follows. */
  lemma {:induction false} InitThenAnything(b: Block, buf: array?<bv8>, requested: uint32, ops: seq<Op>)
    ensures Run(b, [InitOp(buf, requested)] + ops).active
    ensures Run(b, [InitOp(buf, requested)] + ops).size <= CB_MAX_SIZE
    ensures Valid(Run(b, [InitOp(buf, requested)] + ops))
  {
    var all := [InitOp(buf, requested)] + ops;
    assert all[1..] == ops;
    RunPreservesValid(InitState(buf, requested), ops);
    RunKeepsActive(InitState(buf, requested), ops);
  }

  /** No operation clears the gate once it is set. */
  lemma {:induction false} RunKeepsActive(b: Block, ops: seq<Op>)
    requires b.active
    ensures Run(b, ops).active
    decreases |ops|
  {
    if ops != [] {
      RunKeepsActive(Apply(b, ops[0]), ops[1..]);
    }
  }
}
