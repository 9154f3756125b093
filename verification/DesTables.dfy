/**
  The constant tables of smbdes.c.
 */
module DesTables {

  /** Tables give bit numbers counted from 1. */
  const PERM1: seq<nat> :=
    [57, 49, 41, 33, 25, 17, 9, 1] +
    [58, 50, 42, 34, 26, 18, 10, 2] +
    [59, 51, 43, 35, 27, 19, 11, 3] +
    [60, 52, 44, 36, 63, 55, 47, 39] +
    [31, 23, 15, 7, 62, 54, 46, 38] +
    [30, 22, 14, 6, 61, 53, 45, 37] +
    [29, 21, 13, 5, 28, 20, 12, 4]

  const PERM2: seq<nat> :=
    [14, 17, 11, 24, 1, 5, 3, 28] +
    [15, 6, 21, 10, 23, 19, 12, 4] +
    [26, 8, 16, 7, 27, 20, 13, 2] +
    [41, 52, 31, 37, 47, 55, 30, 40] +
    [51, 45, 33, 48, 44, 49, 39, 56] +
    [34, 53, 46, 42, 50, 36, 29, 32]

  const PERM3: seq<nat> :=
    [58, 50, 42, 34, 26, 18, 10, 2] +
    [60, 52, 44, 36, 28, 20, 12, 4] +
    [62, 54, 46, 38, 30, 22, 14, 6] +
    [64, 56, 48, 40, 32, 24, 16, 8] +
    [57, 49, 41, 33, 25, 17, 9, 1] +
    [59, 51, 43, 35, 27, 19, 11, 3] +
    [61, 53, 45, 37, 29, 21, 13, 5] +
    [63, 55, 47, 39, 31, 23, 15, 7]

  const PERM4: seq<nat> :=
    [32, 1, 2, 3, 4, 5, 4, 5] +
    [6, 7, 8, 9, 8, 9, 10, 11] +
    [12, 13, 12, 13, 14, 15, 16, 17] +
    [16, 17, 18, 19, 20, 21, 20, 21] +
    [22, 23, 24, 25, 24, 25, 26, 27] +
    [28, 29, 28, 29, 30, 31, 32, 1]

  const PERM5: seq<nat> :=
    [16, 7, 20, 21, 29, 12, 28, 17] +
    [1, 15, 23, 26, 5, 18, 31, 10] +
    [2, 8, 24, 14, 32, 27, 3, 9] +
    [19, 13, 30, 6, 22, 11, 4, 25]

  const PERM6: seq<nat> :=
    [40, 8, 48, 16, 56, 24, 64, 32] +
    [39, 7, 47, 15, 55, 23, 63, 31] +
    [38, 6, 46, 14, 54, 22, 62, 30] +
    [37, 5, 45, 13, 53, 21, 61, 29] +
    [36, 4, 44, 12, 52, 20, 60, 28] +
    [35, 3, 43, 11, 51, 19, 59, 27] +
    [34, 2, 42, 10, 50, 18, 58, 26] +
    [33, 1, 41, 9, 49, 17, 57, 25]

  const SC: seq<nat> :=
    [1, 1, 2, 2, 2, 2, 2, 2] +
    [1, 2, 2, 2, 2, 2, 2, 1]

  const SBOX0: seq<nat> :=
    [14, 4, 13, 1, 2, 15, 11, 8, 3, 10, 6, 12, 5, 9, 0, 7] +
    [0, 15, 7, 4, 14, 2, 13, 1, 10, 6, 12, 11, 9, 5, 3, 8] +
    [4, 1, 14, 8, 13, 6, 2, 11, 15, 12, 9, 7, 3, 10, 5, 0] +
    [15, 12, 8, 2, 4, 9, 1, 7, 5, 11, 3, 14, 10, 0, 6, 13]

  const SBOX1: seq<nat> :=
    [15, 1, 8, 14, 6, 11, 3, 4, 9, 7, 2, 13, 12, 0, 5, 10] +
    [3, 13, 4, 7, 15, 2, 8, 14, 12, 0, 1, 10, 6, 9, 11, 5] +
    [0, 14, 7, 11, 10, 4, 13, 1, 5, 8, 12, 6, 9, 3, 2, 15] +
    [13, 8, 10, 1, 3, 15, 4, 2, 11, 6, 7, 12, 0, 5, 14, 9]

  const SBOX2: seq<nat> :=
    [10, 0, 9, 14, 6, 3, 15, 5, 1, 13, 12, 7, 11, 4, 2, 8] +
    [13, 7, 0, 9, 3, 4, 6, 10, 2, 8, 5, 14, 12, 11, 15, 1] +
    [13, 6, 4, 9, 8, 15, 3, 0, 11, 1, 2, 12, 5, 10, 14, 7] +
    [1, 10, 13, 0, 6, 9, 8, 7, 4, 15, 14, 3, 11, 5, 2, 12]

  const SBOX3: seq<nat> :=
    [7, 13, 14, 3, 0, 6, 9, 10, 1, 2, 8, 5, 11, 12, 4, 15] +
    [13, 8, 11, 5, 6, 15, 0, 3, 4, 7, 2, 12, 1, 10, 14, 9] +
    [10, 6, 9, 0, 12, 11, 7, 13, 15, 1, 3, 14, 5, 2, 8, 4] +
    [3, 15, 0, 6, 10, 1, 13, 8, 9, 4, 5, 11, 12, 7, 2, 14]

  const SBOX4: seq<nat> :=
    [2, 12, 4, 1, 7, 10, 11, 6, 8, 5, 3, 15, 13, 0, 14, 9] +
    [14, 11, 2, 12, 4, 7, 13, 1, 5, 0, 15, 10, 3, 9, 8, 6] +
    [4, 2, 1, 11, 10, 13, 7, 8, 15, 9, 12, 5, 6, 3, 0, 14] +
    [11, 8, 12, 7, 1, 14, 2, 13, 6, 15, 0, 9, 10, 4, 5, 3]

  const SBOX5: seq<nat> :=
    [12, 1, 10, 15, 9, 2, 6, 8, 0, 13, 3, 4, 14, 7, 5, 11] +
    [10, 15, 4, 2, 7, 12, 9, 5, 6, 1, 13, 14, 0, 11, 3, 8] +
    [9, 14, 15, 5, 2, 8, 12, 3, 7, 0, 4, 10, 1, 13, 11, 6] +
    [4, 3, 2, 12, 9, 5, 15, 10, 11, 14, 1, 7, 6, 0, 8, 13]

  const SBOX6: seq<nat> :=
    [4, 11, 2, 14, 15, 0, 8, 13, 3, 12, 9, 7, 5, 10, 6, 1] +
    [13, 0, 11, 7, 4, 9, 1, 10, 14, 3, 5, 12, 2, 15, 8, 6] +
    [1, 4, 11, 13, 12, 3, 7, 14, 10, 15, 6, 8, 0, 5, 9, 2] +
    [6, 11, 13, 8, 1, 4, 10, 7, 9, 5, 0, 15, 14, 2, 3, 12]

  const SBOX7: seq<nat> :=
    [13, 2, 8, 4, 6, 15, 11, 1, 10, 9, 3, 14, 5, 0, 12, 7] +
    [1, 15, 13, 8, 10, 3, 7, 4, 12, 5, 6, 11, 0, 14, 9, 2] +
    [7, 11, 4, 1, 9, 12, 14, 2, 0, 6, 10, 13, 15, 3, 5, 8] +
    [2, 1, 14, 7, 4, 10, 8, 13, 15, 12, 9, 0, 3, 5, 6, 11]

  /** The tables together, so that what holds of DES whatever its tables is proved without them. */
  datatype Tables = Tables(perm1: seq<nat>, perm2: seq<nat>, perm3: seq<nat>, perm4: seq<nat>, perm5: seq<nat>,
                           perm6: seq<nat>, sc: seq<nat>, sbox: seq<seq<nat>>)

  const TABLES := Tables(PERM1, PERM2, PERM3, PERM4, PERM5, PERM6, SC,
                         [SBOX0, SBOX1, SBOX2, SBOX3, SBOX4, SBOX5, SBOX6, SBOX7])

  ghost predicate InRange(p: seq<nat>, n: nat) {
    forall i | 0 <= i < |p| :: 1 <= p[i] <= n
  }

  ghost predicate Selects(p: seq<nat>, size: nat, n: nat) {
    |p| == size && InRange(p, n)
  }

  /** Sizes and ranges, all the code needs to stay in bounds. */
  ghost predicate Usable(t: Tables) {
    && Selects(t.perm1, 56, 64) && Selects(t.perm2, 48, 56) && Selects(t.perm3, 64, 64)
    && Selects(t.perm4, 48, 32) && Selects(t.perm5, 32, 32) && Selects(t.perm6, 64, 64)
    && |t.sc| == 16 && (forall i | 0 <= i < 16 :: t.sc[i] <= 28)
    && |t.sbox| == 8 && forall j | 0 <= j < 8 :: |t.sbox[j]| == 64
  }

  /** perm6 undoes perm3, and the other way round. */
  ghost predicate Inverse(t: Tables)
    requires Usable(t)
  {
    forall i | 0 <= i < 64 :: t.perm6[t.perm3[i] - 1] == i + 1 && t.perm3[t.perm6[i] - 1] == i + 1
  }

  lemma KeyTablesInRange()
    ensures Selects(PERM1, 56, 64)
  {
  }

  lemma SubkeyTableInRange()
    ensures Selects(PERM2, 48, 56)
  {
  }

  lemma RoundTablesInRange()
    ensures Selects(PERM4, 48, 32) && Selects(PERM5, 32, 32)
  {
  }

  lemma ShiftsInRange()
    ensures |SC| == 16 && forall i | 0 <= i < 16 :: SC[i] <= 2
  {
  }

  /** The tables of FIPS PUB 46-3 go by even and odd columns of the 8 x 8 block of bits. */
  lemma InitialUpper(a: nat, b: nat)
    requires a < 4 && b < 8
    ensures PERM3[8 * a + b] == 58 + 2 * a - 8 * b
  {
    if a == 0 {} else if a == 1 {} else if a == 2 {} else {}
  }

  lemma InitialLower(a: nat, b: nat)
    requires 4 <= a < 8 && b < 8
    ensures PERM3[8 * a + b] == 49 + 2 * a - 8 * b
  {
    if a == 4 {} else if a == 5 {} else if a == 6 {} else {}
  }

  lemma InitialEntry(a: nat, b: nat)
    requires a < 8 && b < 8
    ensures |PERM3| == 64 && PERM3[8 * a + b] == (if a < 4 then 58 else 49) + 2 * a - 8 * b
  {
    if a < 4 {
      InitialUpper(a, b);
    } else {
      InitialLower(a, b);
    }
  }

  lemma FinalUpper(a: nat, b: nat)
    requires a < 4 && b < 8
    ensures PERM6[8 * a + b] == 4 * b + (if b % 2 == 0 then 40 else 4) - a
  {
    if a == 0 {} else if a == 1 {} else if a == 2 {} else {}
  }

  lemma FinalLower(a: nat, b: nat)
    requires 4 <= a < 8 && b < 8
    ensures PERM6[8 * a + b] == 4 * b + (if b % 2 == 0 then 40 else 4) - a
  {
    if a == 4 {} else if a == 5 {} else if a == 6 {} else {}
  }

  lemma FinalEntry(a: nat, b: nat)
    requires a < 8 && b < 8
    ensures |PERM6| == 64 && PERM6[8 * a + b] == 4 * b + (if b % 2 == 0 then 40 else 4) - a
  {
    if a < 4 {
      FinalUpper(a, b);
    } else {
      FinalLower(a, b);
    }
  }

  /** A table laid out like PERM3. */
  ghost predicate LikeInitial(p: seq<nat>) {
    |p| == 64 && forall a: nat, b: nat | a < 8 && b < 8 :: Entry(p, a, b) == (if a < 4 then 58 else 49) + 2 * a - 8 * b
  }

  /** A table laid out like PERM6. */
  ghost predicate LikeFinal(p: seq<nat>) {
    |p| == 64 && forall a: nat, b: nat | a < 8 && b < 8 :: Entry(p, a, b) == 4 * b + (if b % 2 == 0 then 40 else 4) - a
  }

  function Entry(p: seq<nat>, a: nat, b: nat): nat
    requires |p| == 64 && a < 8 && b < 8
  {
    p[8 * a + b]
  }

  lemma InitialTable()
    ensures LikeInitial(PERM3)
  {
    forall a: nat, b: nat | a < 8 && b < 8
      ensures |PERM3| == 64 && Entry(PERM3, a, b) == (if a < 4 then 58 else 49) + 2 * a - 8 * b
    {
      InitialEntry(a, b);
    }
  }

  lemma FinalTable()
    ensures LikeFinal(PERM6)
  {
    forall a: nat, b: nat | a < 8 && b < 8
      ensures |PERM6| == 64 && Entry(PERM6, a, b) == 4 * b + (if b % 2 == 0 then 40 else 4) - a
    {
      FinalEntry(a, b);
    }
  }

  /** The final permutation is the inverse of the initial one. */
  lemma FinalInverts(initial: seq<nat>, final: seq<nat>, i: nat)
    requires LikeInitial(initial) && LikeFinal(final) && i < 64
    ensures 1 <= initial[i] <= 64 && final[initial[i] - 1] == i + 1
  {
    var a, b := i / 8, i % 8;
    var row, column := 7 - b, if a < 4 then 2 * a + 1 else 2 * a - 8;
    assert Entry(initial, a, b) == initial[i];
    assert Entry(final, row, column) == final[8 * row + column];
  }

  lemma InitialInverts(initial: seq<nat>, final: seq<nat>, i: nat)
    requires LikeInitial(initial) && LikeFinal(final) && i < 64
    ensures 1 <= final[i] <= 64 && initial[final[i] - 1] == i + 1
  {
    var a, b := i / 8, i % 8;
    var row, column := if b % 2 == 0 then 4 + b / 2 else b / 2, 7 - a;
    assert Entry(final, a, b) == final[i];
    assert Entry(initial, row, column) == initial[8 * row + column];
  }

  lemma BlockTables()
    ensures Selects(PERM3, 64, 64) && Selects(PERM6, 64, 64)
    ensures forall i | 0 <= i < 64 :: PERM6[PERM3[i] - 1] == i + 1 && PERM3[PERM6[i] - 1] == i + 1
  {
    InitialTable();
    FinalTable();
    InverseTables(PERM3, PERM6);
  }

  lemma InverseTables(initial: seq<nat>, final: seq<nat>)
    requires LikeInitial(initial) && LikeFinal(final)
    ensures Selects(initial, 64, 64) && Selects(final, 64, 64)
    ensures forall i | 0 <= i < 64 :: final[initial[i] - 1] == i + 1 && initial[final[i] - 1] == i + 1
  {
    forall i | 0 <= i < 64
      ensures 1 <= initial[i] <= 64 && 1 <= final[i] <= 64
      ensures final[initial[i] - 1] == i + 1 && initial[final[i] - 1] == i + 1
    {
      FinalInverts(initial, final, i);
      InitialInverts(initial, final, i);
    }
  }

  lemma SBoxSizes()
    ensures |SBOX0| == |SBOX1| == |SBOX2| == |SBOX3| == |SBOX4| == |SBOX5| == |SBOX6| == |SBOX7| == 64
  {
  }

  /** The tables of the source are usable, and the final permutation is the inverse of the initial one. */
  lemma SourceTables()
    ensures Usable(TABLES) && Inverse(TABLES)
  {
    KeyTablesInRange();
    SubkeyTableInRange();
    RoundTablesInRange();
    ShiftsInRange();
    BlockTables();
    SBoxSizes();
  }
}
