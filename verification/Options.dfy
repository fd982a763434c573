/** How the post functions read their options. */
module PostOptions {
  import opened Results
  import opened Bytes

  const TIMEOUT_INFINITE: u64 := 0xFFFF_FFFF_FFFF_FFFF
  const TIMEOUT_NONBLOCK: u64 := 0
  const TIMEOUT_MAX: u64 := 86_400_000_000

  /** The bit of IDs that the blocking modes are read from, and the payload. */
  datatype Options = Options(timeoutBit: bool, timeoutUS: u64)

  predicate IsNonBlockMode(o: Option<Options>) {
    o.Some? && o.value.timeoutBit && o.value.timeoutUS == TIMEOUT_NONBLOCK
  }

  function GetTimeoutUS(o: Option<Options>): u64 {
    if o.Some? && o.value.timeoutBit then o.value.timeoutUS else TIMEOUT_INFINITE
  }

  predicate IsTimeoutMode(o: Option<Options>) {
    0 < GetTimeoutUS(o) < TIMEOUT_MAX
  }

  predicate IsMayBlockMode(o: Option<Options>) {
    !IsNonBlockMode(o) && !IsTimeoutMode(o)
  }

  /** What a post is classified as, by the order in which the post functions ask. */
  datatype Mode = NonBlock | Timeout | MayBlock | Bug

  function ModeOf(o: Option<Options>): (m: Mode)
    ensures m == match GetTimeoutUS(o) case t => if t == 0 then NonBlock else if t < TIMEOUT_MAX then Timeout else MayBlock
    ensures (m == NonBlock <==> IsNonBlockMode(o)) && (m == Timeout <==> IsTimeoutMode(o)) && (m == MayBlock <==> IsMayBlockMode(o))
  {
    if IsMayBlockMode(o) then MayBlock
    else if IsNonBlockMode(o) then NonBlock
    else if IsTimeoutMode(o) then Timeout
    else Bug
  }
}
