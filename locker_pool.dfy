/**
 * The fixed pool of lockers both initialisers create: twenty lockers with ids
 * `L001`..`L020`, five to a floor, the first ten small and the rest large.
 */
module LockerPool {
  import Text

  const LockerCount: nat := 20
  const LockersPerFloor: nat := 5
  const SmallLockerCount: nat := 10

  /** `` `L${i.toString().padStart(3, '0')}` ``. */
  function LockerId(i: nat): string {
    "L" + Text.PadStart(Text.DecimalString(i), 3, '0')
  }

  /** `Math.ceil(i / 5)`: the floor locker `i` stands on. */
  function Floor(i: nat): (f: nat)
    ensures i > 0 ==> LockersPerFloor * (f - 1) < i <= LockersPerFloor * f
    ensures 1 <= i <= LockerCount ==> 1 <= f <= LockerCount / LockersPerFloor
  {
    (i + LockersPerFloor - 1) / LockersPerFloor
  }

  /** `` `Floor ${Math.ceil(i / 5)}` ``. */
  function FloorLabel(i: nat): string {
    "Floor " + Text.DecimalString(Floor(i))
  }

  /** `i <= 10 ? 'Small' : 'Large'`. */
  predicate IsSmall(i: nat) {
    i <= SmallLockerCount
  }

  /** The number can be read back from a locker id: 'L' followed by the zero-padded numeral. */
  lemma LockerIdRoundTrip(i: nat)
    ensures |LockerId(i)| >= 4 && LockerId(i)[0] == 'L'
    ensures Text.AllDigits(LockerId(i)[1..]) && Text.ParseDecimal(LockerId(i)[1..]) == i
  {
    Text.PaddedDecimalRoundTrip(i, 3);
    assert LockerId(i)[1..] == Text.PadStart(Text.DecimalString(i), 3, '0');
  }

  /** Different locker numbers give different ids. */
  lemma LockerIdsDistinct(i: nat, j: nat)
    requires i != j
    ensures LockerId(i) != LockerId(j)
  {
    LockerIdRoundTrip(i);
    LockerIdRoundTrip(j);
  }

  /** Ids of lockers 1..999 are exactly four characters long. */
  lemma LockerIdWidth(i: nat)
    requires 1 <= i <= 999
    ensures |LockerId(i)| == 4
  {
    var k := if i < 10 then 1 else if i < 100 then 2 else 3;
    Text.DecimalLength(i, k);
  }

  /** The ids of the pool as the source writes them. */
  lemma LockerIdExamples()
    ensures LockerId(1) == "L001" && LockerId(10) == "L010" && LockerId(20) == "L020"
    ensures FloorLabel(1) == "Floor 1" && FloorLabel(5) == "Floor 1" && FloorLabel(6) == "Floor 2"
    ensures FloorLabel(20) == "Floor 4"
  {
  }
}
