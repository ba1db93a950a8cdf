/** Failure-compatible datatypes, and the byte and word types shared by every module. */
module Wrappers {

  datatype Option<+T> = None | Some(value: T)

  datatype Result<+T> = Ok(value: T) | Err(reason: Reason) {
    predicate IsFailure() { Err? }

    function PropagateFailure<U>(): Result<U>
      requires Err?
    {
      Err(reason)
    }

    function Extract(): T
      requires Ok?
    {
      value
    }
  }

  /** Why the original stops: a thrown exception, a failed `assert`, or a read past the image. */
  datatype Reason =
    | Overflow          // LEB128 value wider than 64 bits
    | PastEnd           // read beyond the end of the image
    | BadOpcode         // unknown or unsupported opcode byte
    | BadSegment        // segment index with no segment
    | NotFound          // address or offset in no segment, section or blob
    | Unsupported       // instruction form that is not translated
    | Misplaced         // placeholder that is not at the start of a blob
    | TooManySections   // section numbers run out
    | OutOfFuel         // recursion deeper than the given bound

  /** Puts what is already there in front of what is still to come. */
  function Prefixed<T>(done: seq<T>, r: Result<seq<T>>): Result<seq<T>>
  {
    match r
    case Err(reason) => Err(reason)
    case Ok(rest) => Ok(done + rest)
  }

  lemma {:induction false} PrefixedTwice<T>(a: seq<T>, b: seq<T>, r: Result<seq<T>>)
    ensures Prefixed(a, Prefixed(b, r)) == Prefixed(a + b, r)
    ensures Prefixed([], r) == r
    ensures r == Ok([]) ==> Prefixed(a, r) == Ok(a)
  {
    if r.Ok? {
      assert a + (b + r.value) == a + b + r.value && [] + r.value == r.value && a + [] == a;
    }
  }

  type byte = b: int | 0 <= b < 256

  type bytes = seq<byte>

  const TWO_32: int := 0x1_0000_0000
  const TWO_64: int := 0x1_0000_0000_0000_0000

  /** std::size_t, uintmax_t and uint64_t. */
  type uint64 = n: int | 0 <= n < 0x1_0000_0000_0000_0000

  /** uint32_t. */
  type uint32 = n: int | 0 <= n < 0x1_0000_0000
}
