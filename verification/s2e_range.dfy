// s2e_range(): a symbolic int confined to [start, end) by ending every path on
// which it lies outside. s2e_make_symbolic is the choice of the 32-bit value,
// s2e_kill_state the end of the path.
module S2eRange {
  import opened Arithmetic

  predicate IsInt(x: int) {
    -INT_MAX - 1 <= x <= INT_MAX
  }

  // The same 32 bits read as an unsigned value.
  function Unsigned(x: int): (u: int)
    requires IsInt(x)
    ensures 0 <= u < INT_RANGE && ToInt(u) == x
  {
    if x < 0 then x + INT_RANGE else x
  }

  datatype Path = Killed(status: int) | Returned(value: int)

  // The path on which the symbolic value is x.
  function RangePath(start: int, end: int, x: int): Path
    requires IsInt(start) && IsInt(end) && IsInt(x)
  {
    if start >= end then Killed(1)
    else if start + 1 == end then Returned(start)
    else if start == 0 then
      if Unsigned(x) >= Unsigned(end) then Killed(0) else Returned(x)
    else
      if x < start || x >= end then Killed(0) else Returned(x)
  }

  // Sound and complete: the values returned are exactly those in [start, end),
  // none when the range is empty. No path that gets past the first test
  // overflows start + 1.
  lemma RangeIsExact(start: int, end: int, v: int)
    requires IsInt(start) && IsInt(end)
    ensures (exists x :: IsInt(x) && RangePath(start, end, x) == Returned(v)) <==> start <= v < end
    ensures start < end ==> IsInt(start + 1)
  {
    if start <= v < end {
      assert RangePath(start, end, v) == Returned(v);
    }
  }

  // Every path: an empty range ends it with status 1, a single value is
  // returned whatever the symbolic value would be, and otherwise a value inside
  // is returned on its own path and any other path ends with status 0.
  lemma EveryPath(start: int, end: int, x: int)
    requires IsInt(start) && IsInt(end) && IsInt(x)
    ensures start >= end ==> RangePath(start, end, x) == Killed(1)
    ensures start + 1 == end ==> RangePath(start, end, x) == Returned(start)
    ensures start + 1 < end && start <= x < end ==> RangePath(start, end, x) == Returned(x)
    ensures start + 1 < end && !(start <= x < end) ==> RangePath(start, end, x) == Killed(0)
  {
  }

  // One unsigned comparison decides both signed ones, on every bit pattern,
  // exactly when the upper bound is not negative.
  lemma UnsignedTestAgreesIff(end: int)
    requires IsInt(end)
    ensures (forall x :: IsInt(x) ==> (Unsigned(x) >= Unsigned(end) <==> x < 0 || x >= end))
       <==> 0 <= end
  {
    if end < 0 {
      assert IsInt(0) && Unsigned(0) < Unsigned(end);
    }
  }
}
