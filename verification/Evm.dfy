/** Machine words, addresses and block times, as the contracts see them. */
module Evm {
  datatype Option<+T> = None | Some(value: T)

  const TWO_64: nat := 0x1_0000_0000_0000_0000
  const TWO_160: nat := 0x1_0000000000_0000000000_0000000000_0000000000
  const TWO_256: nat := 0x1_00000000_00000000_00000000_00000000_00000000_00000000_00000000_00000000

  type Bytes32 = x: nat | x < TWO_256
  type Address = x: nat | x < TWO_160
  type Uint8 = x: nat | x < 256
  type Uint64 = x: nat | x < TWO_64

  /** A block time. Zero is excluded: a record whose issuedAt is zero is an unknown record. */
  type Timestamp = t: Uint64 | 0 < t witness 1

  ghost predicate Distinct<T>(s: seq<T>) {
    forall i, j :: 0 <= i < j < |s| ==> s[i] != s[j]
  }

  lemma {:induction false} DistinctFits<T>(s: seq<T>, bound: set<T>)
    requires Distinct(s) && forall i :: 0 <= i < |s| ==> s[i] in bound
    ensures |s| <= |bound|
  {
    if s != [] {
      var last := |s| - 1;
      DistinctFits(s[..last], bound - {s[last]});
    }
  }

  lemma LastUpdateWins<K, V>(m: map<K, V>, k: K, v: V, w: V)
    ensures m[k := v][k := w] == m[k := w]
  {
  }
}
