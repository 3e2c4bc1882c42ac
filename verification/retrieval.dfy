/** The bounded buffer-growth protocol behind `netdef_get_id` and
    `error_get_message`: hand the C library a zero-filled buffer of 128
    bytes, and while it answers -2 ("buffer too small") double the buffer
    and ask again, giving up once the size would pass 1 MiB. The C copy
    call is an oracle: for a buffer size it returns a status and the bytes
    it wrote into the buffer. */
module Retrieval {
  import opened Common

  /** Size of the first buffer handed to the library. */
  const InitialSize: nat := 128

  /** Largest buffer the binding is willing to allocate (1 MiB). */
  const MaxSize: nat := 1048576

  /** Number of buffer sizes from `InitialSize` up to `MaxSize`. */
  const MaxAttempts: nat := 14

  /** Status the library returns when the buffer is too small. */
  const BufferTooSmall: int := -2

  const CopiedIsZero: string := "copied is zero"
  const DataIsTooBig: string := "data is too big"

  /** What one C copy call returned, and the bytes it wrote from the start
      of the buffer. */
  datatype Reply = Reply(ret: int, written: Bytes)

  /** The C copy call, as a function of the buffer size offered. */
  type CopyFn = nat -> Reply

  /** How a retrieval ends: with the bytes before the first NUL, with the
      binding's error string, or with no NUL in the buffer, where the
      source's `from_bytes_until_nul(..).unwrap()` panics. */
  datatype Retrieved = Copied(data: Bytes) | Failed(reason: string) | Unterminated

  function Pow2(k: nat): (p: nat)
    ensures p >= 1
  {
    if k == 0 then 1 else 2 * Pow2(k - 1)
  }

  /** Size of the buffer offered on attempt `k` (counting from 0). */
  function SizeAt(k: nat): nat
  {
    InitialSize * Pow2(k)
  }

  lemma {:induction false} SizeAtMonotone(j: nat, k: nat)
    requires j <= k
    ensures SizeAt(j) <= SizeAt(k)
    decreases k - j
  {
    if j < k {
      SizeAtMonotone(j, k - 1);
    }
  }

  /** Attempt `k` stays within the cap exactly when it is one of the first
      `MaxAttempts` attempts. */
  lemma SizeAtWithinCap(k: nat)
    ensures SizeAt(k) <= MaxSize <==> k < MaxAttempts
  {
    assert Pow2(13) == 8192;
    assert SizeAt(MaxAttempts - 1) == MaxSize;
    assert SizeAt(MaxAttempts) == 2 * MaxSize;
    if k < MaxAttempts {
      SizeAtMonotone(k, MaxAttempts - 1);
    } else {
      SizeAtMonotone(MaxAttempts, k);
    }
  }

  lemma SizeAtDouble(k: nat)
    ensures SizeAt(k + 1) == 2 * SizeAt(k)
  {
  }

  /** Doubling leaves the cap only after the last permitted attempt. */
  lemma DoublingPastCap(k: nat)
    requires SizeAt(k) <= MaxSize < 2 * SizeAt(k)
    ensures k == MaxAttempts - 1
  {
    SizeAtWithinCap(k);
    SizeAtDouble(k);
    SizeAtWithinCap(k + 1);
  }

  /** No attempt the loop can make asks for more than `MaxSize` bytes. */
  lemma AttemptsWithinCap()
    ensures forall k :: 0 <= k < MaxAttempts ==> SizeAt(k) <= MaxSize
  {
    forall k | 0 <= k < MaxAttempts {
      SizeAtWithinCap(k);
    }
  }

  /** The contents of a zero-filled buffer of `size` bytes after the library
      wrote `written` into it (never past its end). */
  function Buffer(written: Bytes, size: nat): (buf: Bytes)
    ensures |buf| == size
    ensures forall i :: 0 <= i < size ==> buf[i] == (if i < |written| then written[i] else NUL)
  {
    if |written| >= size then written[..size]
    else written + seq(size - |written|, _ => NUL)
  }

  /** The bytes of `buf` before its first NUL, like Rust's
      `CStr::from_bytes_until_nul`; `Unterminated` when there is no NUL. */
  function UntilNul(buf: Bytes): (r: Retrieved)
    ensures r.Copied? <==> NUL in buf
    ensures !r.Failed?
    ensures r.Copied? ==>
              && |r.data| < |buf|
              && buf[..|r.data|] == r.data
              && buf[|r.data|] == NUL
              && NUL !in r.data
    decreases |buf|
  {
    if |buf| == 0 then Unterminated
    else if buf[0] == NUL then Copied([])
    else
      var rest := UntilNul(buf[1..]);
      if rest.Copied? then Copied([buf[0]] + rest.data) else rest
  }

  /** How a reply other than "too small" settles the retrieval. */
  function Settle(reply: Reply, size: nat): Retrieved
    requires reply.ret != BufferTooSmall
  {
    if reply.ret == 0 then Failed(CopiedIsZero)
    else UntilNul(Buffer(reply.written, size))
  }

  /** The retrieval as a recursion on the buffer size: a reference for the
      loop in `Retrieve`. */
  function Fetch(copy: CopyFn, size: nat): (r: Retrieved)
    requires 0 < size <= MaxSize
    ensures r.Copied? ==> NUL !in r.data && |r.data| < MaxSize
    ensures r.Failed? ==> r.reason == CopiedIsZero || r.reason == DataIsTooBig
    decreases MaxSize - size
  {
    var reply := copy(size);
    if reply.ret == 0 then Failed(CopiedIsZero)
    else if reply.ret == BufferTooSmall then
      if size * 2 > MaxSize then Failed(DataIsTooBig) else Fetch(copy, size * 2)
    else UntilNul(Buffer(reply.written, size))
  }

  /** How the retrieval protocol ends for a copy call, starting from the
      first buffer size: what `netdef_get_id` and `error_get_message`
      compute. */
  function Outcome(copy: CopyFn): Retrieved
  {
    Fetch(copy, InitialSize)
  }

  /** The retrieval loop. `attempts` is the number of copy calls made. The
      first `attempts - 1` calls all answered "too small", each on a buffer
      twice the size of the one before, and the last call decides: a further
      "too small" only when the cap is reached, on the 14th call. */
  method Retrieve(copy: CopyFn) returns (r: Retrieved, attempts: nat)
    ensures 1 <= attempts <= MaxAttempts
    ensures forall k :: 0 <= k < attempts ==> SizeAt(k) <= MaxSize
    ensures forall k :: 0 <= k < attempts - 1 ==> copy(SizeAt(k)).ret == BufferTooSmall
    ensures copy(SizeAt(attempts - 1)).ret == BufferTooSmall ==>
              attempts == MaxAttempts && r == Failed(DataIsTooBig)
    ensures copy(SizeAt(attempts - 1)).ret != BufferTooSmall ==>
              r == Settle(copy(SizeAt(attempts - 1)), SizeAt(attempts - 1))
    ensures r == Outcome(copy)
  {
    AttemptsWithinCap();
    var size := InitialSize;
    attempts := 0;
    while true
      invariant attempts < MaxAttempts
      invariant size == SizeAt(attempts) && 0 < size <= MaxSize
      invariant forall k :: 0 <= k < attempts ==> copy(SizeAt(k)).ret == BufferTooSmall
      invariant Fetch(copy, size) == Outcome(copy)
      decreases MaxSize - size
    {
      var reply := copy(size);
      attempts := attempts + 1;
      if reply.ret == 0 {
        r := Failed(CopiedIsZero);
        return;
      }
      if reply.ret == BufferTooSmall {
        SizeAtDouble(attempts - 1);
        size := size * 2;
        if size > MaxSize {
          DoublingPastCap(attempts - 1);
          r := Failed(DataIsTooBig);
          return;
        }
        SizeAtWithinCap(attempts);
        continue;
      }
      r := UntilNul(Buffer(reply.written, size));
      return;
    }
  }

  /** `netdef_get_id`: the retrieval protocol applied to a netdef's id. */
  method NetdefGetId(copyId: CopyFn) returns (r: Retrieved)
    ensures r == Outcome(copyId)
    ensures r.Copied? ==> NUL !in r.data && |r.data| < MaxSize
  {
    var attempts;
    r, attempts := Retrieve(copyId);
  }

  /** `error_get_message`: the retrieval protocol applied to an error's
      message. */
  method ErrorGetMessage(copyMessage: CopyFn) returns (r: Retrieved)
    ensures r == Outcome(copyMessage)
    ensures r.Copied? ==> NUL !in r.data && |r.data| < MaxSize
  {
    var attempts;
    r, attempts := Retrieve(copyMessage);
  }

  /** What the Rust function returns when it does not panic. */
  function AsResult(r: Retrieved): (res: Result<Bytes, string>)
    requires !r.Unterminated?
    ensures res.Ok? <==> r.Copied?
    ensures res.Ok? ==> res.value == r.data
    ensures res.Err? ==> res.error == r.reason
  {
    match r
    case Copied(d) => Ok(d)
    case Failed(why) => Err(why)
  }
}
