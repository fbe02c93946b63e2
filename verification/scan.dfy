/** The booking step as the source writes it: two counted loops that stop at
    the first match, with -1 meaning "no room of this kind was taken". */
module BookingScan {
  import opened Rooms
  import opened Booking

  /** How the two indices are read afterwards: the double index is tested
      first, then the single index; both -1 means out of service. */
  function OutcomeOf(usedSingle: int, usedDouble: int): Outcome
  {
    if usedDouble >= 0 then DoubleRoom(usedDouble)
    else if usedSingle >= 0 then SingleRoom(usedSingle)
    else OutOfService
  }

  method ClaimByScan(l: Ledger, gender: int) returns (usedSingle: int, usedDouble: int, after: Ledger)
    ensures usedSingle == -1 || usedDouble == -1
    ensures -1 <= usedSingle < |l.singles| && -1 <= usedDouble < |l.doubles|
    ensures Claim(l, gender) == Claimed(OutcomeOf(usedSingle, usedDouble), after)
  {
    usedSingle := -1;
    usedDouble := -1;
    var singles := l.singles;
    var doubles := l.doubles;

    var i := 0;
    while i < |singles|
      invariant 0 <= i <= |singles| && singles == l.singles
      invariant forall k :: 0 <= k < i ==> singles[k] != Freed
      decreases |singles| - i
    {
      if singles[i] == Freed {
        singles := singles[i := Full];
        usedSingle := i;
        break;
      }
      i := i + 1;
    }

    if usedSingle == -1 {
      var j := 0;
      while j < |doubles|
        invariant 0 <= j <= |doubles| && doubles == l.doubles
        invariant forall k :: 0 <= k < j ==> !Admits(doubles[k], gender)
        decreases |doubles| - j
      {
        if doubles[j] == Freed {
          doubles := doubles[j := if gender == 0 then BusiedByMan else BusiedByWoman];
          usedDouble := j;
          break;
        } else if (doubles[j] == BusiedByMan && gender == 0) || (doubles[j] == BusiedByWoman && gender == 1) {
          doubles := doubles[j := Full];
          usedDouble := j;
          break;
        }
        j := j + 1;
      }
    }

    after := Ledger(singles, doubles);
    ClaimSpecDeterminesClaim(l, gender, OutcomeOf(usedSingle, usedDouble), after);
  }
}
