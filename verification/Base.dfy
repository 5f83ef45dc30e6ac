/** Machine widths and small helpers shared by every component. */
module Base {
  const U32: nat := 0x1_0000_0000
  const U64: nat := 0x1_0000_0000_0000_0000
  const NANOS_PER_SEC: nat := 1_000_000_000

  type byte = x: int | 0 <= x < 256
  type u32 = x: int | 0 <= x < 0x1_0000_0000
  type u64 = x: int | 0 <= x < 0x1_0000_0000_0000_0000

  datatype Option<+T> = None | Some(value: T)

  function Min(a: int, b: int): int {
    if a < b then a else b
  }

  function Max(a: int, b: int): int {
    if a < b then b else a
  }

  function Abs(x: int): nat {
    if x < 0 then -x else x
  }

  /** `u32::wrapping_add(1)`. */
  function Succ32(x: nat): (r: nat) {
    if x == 0xFFFF_FFFF then 0 else x + 1
  }

  /** The low 64 bits. */
  function Wrap64(x: nat): (r: u64)
    ensures x < U64 ==> r == x
  {
    if x < U64 then x else Wrap64(x - U64)
  }

  lemma {:induction false} Wrap64IsModulo(x: nat)
    ensures Wrap64(x) == x % 0x1_0000_0000_0000_0000
  {
    if x >= U64 {
      Wrap64IsModulo(x - U64);
    }
  }

  /** `AtomicU64::fetch_add`: additions wrap silently. */
  function FetchAdd(counter: nat, amount: nat): u64 {
    Wrap64(counter + amount)
  }

  lemma FetchAddModulo(counter: nat, amount: nat)
    ensures FetchAdd(counter, amount) == (counter + amount) % 0x1_0000_0000_0000_0000
  {
    Wrap64IsModulo(counter + amount);
  }

  lemma {:induction false} FetchAddWraps(total: nat, more: nat)
    ensures FetchAdd(Wrap64(total), more) == Wrap64(total + more)
  {
    if total >= U64 {
      FetchAddWraps(total - U64, more);
    }
  }

  lemma FetchAddTwice(counter: nat, a: nat, b: nat)
    ensures FetchAdd(FetchAdd(counter, a), b) == FetchAdd(counter, a + b)
  {
    FetchAddWraps(counter + a, b);
  }

  /** The last `n` elements, or all of them when there are fewer. */
  function LastN<T>(s: seq<T>, n: nat): seq<T> {
    if |s| <= n then s else s[|s| - n..]
  }

  ghost predicate Distinct<T>(s: seq<T>) {
    forall i, j :: 0 <= i < j < |s| ==> s[i] != s[j]
  }
}
