/** Concrete bookings and releases on small, fully described ledgers. */
module Scenarios {
  import opened Rooms
  import opened Booking

  function AllOf(s: RoomStatus, n: nat): seq<RoomStatus>
  {
    seq(n, _ => s)
  }

  /** On an empty hotel a client takes single room 0 and nothing else
      changes. */
  lemma FirstClientTakesSingleZero(gender: int)
    ensures Claim(Initial(), gender).outcome == SingleRoom(0)
    ensures Claim(Initial(), gender).ledger.singles == [Full] + AllOf(Freed, SingleCount - 1)
    ensures Claim(Initial(), gender).ledger.doubles == Initial().doubles
  {
    assert Initial().singles[0] == Freed;
  }

  /** With every single room full and every double room freed, a woman
      takes double room 0 and leaves it half-occupied by a woman. */
  lemma WomanTakesFreedDouble()
    ensures var l := Ledger(AllOf(Full, SingleCount), AllOf(Freed, DoubleCount));
            Claim(l, 1).outcome == DoubleRoom(0) && Claim(l, 1).ledger.doubles[0] == BusiedByWoman
  {
    var l := Ledger(AllOf(Full, SingleCount), AllOf(Freed, DoubleCount));
    assert !Claim(l, 1).outcome.SingleRoom?;
  }

  /** A second woman joins the woman in double room 0, even though room 1
      is freed: the same-gender half room comes first in the scan. */
  lemma SecondWomanJoinsFirst()
    ensures var l := Ledger(AllOf(Full, SingleCount), [BusiedByWoman] + AllOf(Freed, DoubleCount - 1));
            Claim(l, 1).outcome == DoubleRoom(0) && Claim(l, 1).ledger.doubles[0] == Full
  {
    var l := Ledger(AllOf(Full, SingleCount), [BusiedByWoman] + AllOf(Freed, DoubleCount - 1));
    assert !Claim(l, 1).outcome.SingleRoom?;
  }

  /** A man skips a double room half-occupied by a woman and takes the next
      freed one. */
  lemma ManSkipsWomansRoom()
    ensures var l := Ledger(AllOf(Full, SingleCount), [BusiedByWoman] + AllOf(Freed, DoubleCount - 1));
            Claim(l, 0).outcome == DoubleRoom(1) && Claim(l, 0).ledger.doubles[1] == BusiedByMan
  {
    var l := Ledger(AllOf(Full, SingleCount), [BusiedByWoman] + AllOf(Freed, DoubleCount - 1));
    assert !Claim(l, 0).outcome.SingleRoom?;
    assert !Admits(l.doubles[0], 0) && Admits(l.doubles[1], 0);
  }

  /** When every room is full the client is out of service and the ledger
      is unchanged. */
  lemma FullHotelTurnsAway(gender: int)
    ensures var l := Ledger(AllOf(Full, SingleCount), AllOf(Full, DoubleCount));
            Claim(l, gender) == Claimed(OutOfService, l)
  {
    var l := Ledger(AllOf(Full, SingleCount), AllOf(Full, DoubleCount));
    assert !Claim(l, gender).outcome.SingleRoom?;
    assert !Claim(l, gender).outcome.DoubleRoom?;
  }

  /** Releasing single room 3 frees it and changes nothing else. */
  lemma ReleaseOfSingleThree(l: Ledger, gender: int)
    requires l.Valid() && l.singles[3] == Full
    ensures Release(l, SingleRoom(3), gender) == l.(singles := l.singles[3 := Freed])
  {
  }
}
