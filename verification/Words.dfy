/** Machine words, failure-carrying results and the few sequence helpers the other modules share.

    Integers are unbounded in Dafny, so every width that matters is a subset type and every
    saturating or checked operation is written out. */
module Words {

  const U64_MAX: nat := 0xFFFF_FFFF_FFFF_FFFF
  const U128_MAX: nat := 0xFFFF_FFFF_FFFF_FFFF_FFFF_FFFF_FFFF_FFFF

  type u8 = n: nat | n <= 0xFF
  type u16 = n: nat | n <= 0xFFFF
  type u64 = n: nat | n <= 0xFFFF_FFFF_FFFF_FFFF

  datatype Option<+T> = None | Some(value: T)

  datatype Result<+T, +E> = Ok(value: T) | Err(error: E)

  function SaturatingSub(a: nat, b: nat): nat {
    if a < b then 0 else a - b
  }

  function SaturatingAdd(a: u64, b: u64): u64 {
    if a + b > U64_MAX then U64_MAX else a + b
  }

  function CheckedAdd(a: u64, b: u64): Option<u64> {
    if a + b > U64_MAX then None else Some(a + b)
  }

  function CheckedMul(a: u64, b: u64): Option<u64> {
    if a * b > U64_MAX then None else Some(a * b)
  }

  /** A wrapping product or an `as u64` cast keeps the low 64 bits. */
  function Wrap64(n: nat): u64 {
    n % (U64_MAX + 1)
  }

  lemma WrapFits(n: nat)
    requires n <= U64_MAX
    ensures Wrap64(n) == n
  {}

  function Sum(s: seq<nat>): nat {
    if s == [] then 0 else s[0] + Sum(s[1..])
  }

  lemma {:induction false} SumAppend(s: seq<nat>, t: seq<nat>)
    ensures Sum(s + t) == Sum(s) + Sum(t)
  {
    if s == [] {
      assert s + t == t;
    } else {
      SumAppend(s[1..], t);
      assert (s + t)[1..] == s[1..] + t;
    }
  }

  lemma SumSnoc(s: seq<nat>, n: nat)
    ensures Sum(s + [n]) == Sum(s) + n
  {
    SumAppend(s, [n]);
    assert Sum([n]) == n + Sum([]);
  }

  lemma MulMono(x: nat, y: nat, z: nat)
    requires y <= z
    ensures x * y <= x * z && y * x <= z * x
  {
    assert x * z == x * y + x * (z - y);
  }

  lemma OneMore(n: nat, g: nat)
    ensures n * g + g == (n + 1) * g
  {}

  ghost predicate Distinct<T>(s: seq<T>) {
    forall i, j :: 0 <= i < j < |s| ==> s[i] != s[j]
  }
}
