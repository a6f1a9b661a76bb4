# cbuffer control block in Dafny

This project models the control block `cbuffer_t` of a circular byte buffer.
The buffer is meant for one reader and one writer, for example an interrupt
handler and main-line code. Only the two functions that `cbuffer.c` defines
are modelled:

- `cb_init(cb, buf, size)` binds caller-owned storage. It keeps `size` when it
  is at most `CB_MAX_SIZE` (0x00800000 = 8388608) and `CB_MAX_SIZE` otherwise.
  It zeroes `writer`, `reader` and `overflow` and sets `active`.
- `cb_clear(cb)` zeroes `writer`, `reader` and `overflow` and touches nothing else.

Everything is in `cbuffer.dfy`, module `CBuffer`:

- `CircularBuffer` is a class with the six fields of `cbuffer_t` (`data`,
  `size`, `writer`, `reader`, `overflow`, `active`). Its methods `Init` and
  `Clear` assign those fields in place, as the C functions do through `cb`.
  `Init`'s contract ties the new fields to a specification function of its
  arguments alone, since `cb_init` overwrites every field; `Clear`'s ties them
  to a specification function of the old fields.
- `Block` is a value holding the same six fields. `InitState` and `ClearState`
  are the specification functions for the two operations on it.
- `uint32` is the `uint32_t` range. Storage is `array?<bv8>`, because the C
  code takes a `void *` that it never checks for NULL.
- `Valid` holds when the size is at most `CB_MAX_SIZE` and both cursors are
  below `size` (when `size > 0`). `IsEmpty` holds when `reader == writer`.
- `Stored` and `IsFull` read the header note "Capacity = <size> - 1" off the
  cursors. `Stored` is the number of bytes between the read and write cursors.
  `IsFull` holds when `(writer + 1) % size == reader`.
- `Op`, `Apply` and `Run` describe any sequence of calls to the two
  operations. The lemmas about `Run` show what holds after any such sequence.

`cb_init` never compares the requested size with the storage's length. The
usage example (cbuffer.c:16, cbuffer.c:20) passes a request of 100 with 6
bytes of storage. So `Init` has no precondition linking `requested` to
`buf.Length`, and `InitTrustsRequestedSize` shows the resulting claim of 100
slots.

## Model

| member | source | states |
|---|---|---|
| `CBuffer.ClampSize` | cbuffer.c:81-84 | the kept size is at most the request and at most `CB_MAX_SIZE`, and equals one of them; so it is the request when that fits and `CB_MAX_SIZE` otherwise |
| `CBuffer.InitState` | cbuffer.c:78-89 | after `cb_init` the storage is the supplied one and the buffer is active; the size is the request when it is at most `CB_MAX_SIZE` and `CB_MAX_SIZE` otherwise; cursors and overflow are 0; the block is valid and empty |
| `CBuffer.ClearState` | cbuffer.c:91-96 | after `cb_clear` cursors and overflow are 0; storage, size and gate are those of before; the block is empty, cursors are in range, and validity is kept |
| `CBuffer.Zeroed` | cbuffer.c:15 | a file-scope `cbuffer_t` before `cb_init` is inactive, has no storage, and is valid and empty |
| `CBuffer.CircularBuffer.constructor` | cbuffer.c:15 | a control block declared at file scope, before `cb_init`, holds the zeroed fields (C zero-initialises static storage; a local `cbuffer_t` is not modelled) |
| `CBuffer.CircularBuffer.Init` | cbuffer.c:78-89 | the fields become `InitState(buf, requested)`: `data == buf`, clamped size, cursors and overflow 0, `active`; the storage bytes are not touched |
| `CBuffer.CircularBuffer.Clear` | cbuffer.c:91-96 | the fields become `ClearState` of the old ones: cursors and overflow 0; `data`, `size`, `active` and the storage bytes unchanged |
| `CBuffer.Stored` | cbuffer.c:13 | with cursors in range, at most `size - 1` bytes are held, and none exactly when `reader == writer` |
| `CBuffer.FullIffAtCapacity` | cbuffer.c:13 | the buffer is full (`(writer + 1) % size == reader`) if and only if it holds `size - 1` bytes |
| `CBuffer.ResetLeavesCapacityFree` | cbuffer.c:13 | an empty buffer holds nothing and has `size - 1` free slots; it is also full exactly when `size == 1` |
| `CBuffer.ClearIdempotent` | cbuffer.c:91-96 | two `cb_clear` calls give the same block as one |
| `CBuffer.ClearAfterInit` | cbuffer.c:20-21 | `cb_clear` right after `cb_init`, as in the usage example, changes nothing |
| `CBuffer.ClearIsReinit` | cbuffer.c:78-96 | on an active, valid block, `cb_clear` gives exactly the block `cb_init` gives for the same storage and size, so a cleared buffer is a freshly initialised one of the same capacity |
| `CBuffer.InitTrustsRequestedSize` | cbuffer.c:16-20 | with 6 bytes of storage and a request of 100, the block claims 100 slots, more than the storage has |
| `CBuffer.RunPreservesValid` | cbuffer.c:78-96 | any sequence of `cb_init` and `cb_clear` calls keeps the size clamped and the cursors in range |
| `CBuffer.RunLeavesEmpty` | cbuffer.c:78-96 | after at least one call, whatever the prior state, cursors and overflow are 0 and the buffer is empty |
| `CBuffer.ClearsActAsOne` | cbuffer.c:91-96 | any positive number of `cb_clear` calls in a row gives the block one call gives |
| `CBuffer.InitThenAnything` | cbuffer.c:78-96 | once `cb_init` has run, any later calls leave the block active, clamped and valid |
| `CBuffer.RunKeepsActive` | cbuffer.c:88-96 | no call of either operation turns `active` off once it is set |

## Left out

- `cb_write` and `cb_read`: they are only called in the usage example (cbuffer.c:25, cbuffer.c:27). Their bodies are not in `cbuffer.c`, so the model has no enqueue, dequeue, FIFO order or overflow counting. `Stored` and `IsFull` only interpret the cursors.
- `cbuffer.h` is not part of this model. The field layout comes from the comment at cbuffer.c:44-52.
- The claim that the buffer is safe in interrupts with one reader and one writer (cbuffer.c:10-11) is about concurrency and memory ordering. A sequential model cannot state it.
- The `void *` to `uint8_t *` cast and the lifetime of the caller's storage (cbuffer.c:80): storage is an array reference, with no reasoning about aliasing or lifetime.
- The standard headers (cbuffer.c:32-36) and the template comment and macro (cbuffer.c:56-69): the two functions make no library calls, and the template holds no logic.
- Integer width: both functions only store constants, a clamped `uint32_t`, or a pointer, so no wrap-around arises. The fields are bounded by the `uint32` type.
- A size of 0 is deliberately allowed, as `cb_init` keeps it (cbuffer.c:81-82). No cursor then names a slot, and the fullness test `% size` would divide by zero. So `CursorsInRange` only constrains cursors when `size > 0`, and `Stored` and `IsFull` require `size > 0`.
