/** The hotel's room ledger: the status of every single and double room,
    the two ways a client's gender is read, and a headcount of guests. */
module Rooms {

  /** Status of one room, in the declaration order of the source enum
      (`freed` is 0, which is what lets the hotel zero the ledger). */
  datatype RoomStatus = Freed | BusiedByMan | BusiedByWoman | Full

  const SingleCount: nat := 10
  const DoubleCount: nat := 15

  /** The shared ledger: one status per single room and per double room.
      A room's index is its identity. */
  datatype Ledger = Ledger(singles: seq<RoomStatus>, doubles: seq<RoomStatus>)
  {
    /** The arrays have the hotel's fixed sizes. */
    predicate Valid()
    {
      |singles| == SingleCount && |doubles| == DoubleCount
    }
  }

  /** A value that may be absent: a room index a scan found, or a ledger a
      release produced. */
  datatype Option<T> = None | Some(value: T)

  /** The ledger every hotel variant starts from: all rooms freed. */
  function Initial(): (l: Ledger)
    ensures l.Valid()
    ensures forall k :: 0 <= k < |l.singles| ==> l.singles[k] == Freed
    ensures forall k :: 0 <= k < |l.doubles| ==> l.doubles[k] == Freed
  {
    Ledger(seq(SingleCount, _ => Freed), seq(DoubleCount, _ => Freed))
  }

  /** The half-occupied status a client leaves on a freed double room.
      Gender 0 is a man; every other value is read as a woman. */
  function Occupied(gender: int): RoomStatus
  {
    if gender == 0 then BusiedByMan else BusiedByWoman
  }

  /** A half-occupied double room whose occupant shares the client's gender.
      Here only 0 matches a man and only 1 matches a woman. */
  predicate SameGender(s: RoomStatus, gender: int)
  {
    (s == BusiedByMan && gender == 0) || (s == BusiedByWoman && gender == 1)
  }

  /** Guests a room holds: a single room holds one unless freed; a double
      room holds one when half-occupied and two when full. */
  function Weight(s: RoomStatus, isDouble: bool): nat
  {
    match s
    case Freed => 0
    case BusiedByMan => 1
    case BusiedByWoman => 1
    case Full => if isDouble then 2 else 1
  }

  function Headcount(rooms: seq<RoomStatus>, isDouble: bool): nat
  {
    if |rooms| == 0 then 0 else Weight(rooms[0], isDouble) + Headcount(rooms[1..], isDouble)
  }

  /** Number of guests the whole ledger accounts for. */
  function Guests(l: Ledger): nat
  {
    Headcount(l.singles, false) + Headcount(l.doubles, true)
  }

  /** Changing one room changes the headcount by exactly the difference of
      the two statuses' weights. */
  lemma {:induction false} HeadcountUpdate(rooms: seq<RoomStatus>, i: nat, v: RoomStatus, isDouble: bool)
    requires i < |rooms|
    ensures Headcount(rooms[i := v], isDouble) + Weight(rooms[i], isDouble)
            == Headcount(rooms, isDouble) + Weight(v, isDouble)
  {
    if i == 0 {
      assert rooms[i := v][1..] == rooms[1..];
    } else {
      HeadcountUpdate(rooms[1..], i - 1, v, isDouble);
      assert rooms[i := v][1..] == rooms[1..][i - 1 := v];
    }
  }

  /** A headcount is zero exactly when every room is freed. */
  lemma {:induction false} HeadcountZeroIffFreed(rooms: seq<RoomStatus>, isDouble: bool)
    ensures Headcount(rooms, isDouble) == 0 <==> forall k :: 0 <= k < |rooms| ==> rooms[k] == Freed
  {
    if |rooms| > 0 {
      HeadcountZeroIffFreed(rooms[1..], isDouble);
      if Headcount(rooms, isDouble) == 0 {
        forall k | 0 <= k < |rooms| ensures rooms[k] == Freed {
          if k > 0 { assert rooms[k] == rooms[1..][k - 1]; }
        }
      }
    }
  }

  /** The initial ledger is the one valid ledger with nobody in it. */
  lemma InitialIsTheEmptyLedger(l: Ledger)
    requires l.Valid()
    ensures Initial().Valid()
    ensures Guests(l) == 0 <==> l == Initial()
  {
    HeadcountZeroIffFreed(l.singles, false);
    HeadcountZeroIffFreed(l.doubles, true);
    HeadcountZeroIffFreed(Initial().singles, false);
    HeadcountZeroIffFreed(Initial().doubles, true);
    if Guests(l) == 0 {
      assert l.singles == Initial().singles;
      assert l.doubles == Initial().doubles;
    }
  }
}
