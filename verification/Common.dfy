/** Types shared by every module of the project. */
module Common {
  datatype Option<+T> = None | Some(value: T)

  /** The width of the generation counters in `RuntimeState`. */
  const U64_MAX: nat := 0xFFFF_FFFF_FFFF_FFFF

  type u64 = n: nat | n <= U64_MAX witness 0

  /** Rust's `saturating_add(1)` on a `u64`. */
  function SaturatingInc(n: u64): (r: u64) {
    if n < U64_MAX then n + 1 else n
  }

  lemma HasMember(s: set<int>)
    ensures s == {} || exists x :: x in s
  {
    if forall x :: x !in s {
      assert s == {};
    }
  }
}
