/** The booking step and the release step a client runs against the ledger,
    as pure functions, with a declarative description of the booking step
    that the function is proved to meet and that determines it. */
module Booking {
  import opened Rooms

  /** What a client ended up with: nothing ("out of service"), or the index
      of the single or double room it took. */
  datatype Outcome = OutOfService | SingleRoom(index: nat) | DoubleRoom(index: nat)

  /** Result of the booking step: the outcome and the ledger it leaves. */
  datatype Claimed = Claimed(outcome: Outcome, ledger: Ledger)

  predicate IsFreed(s: RoomStatus)
  {
    s == Freed
  }

  /** A double room the client may move into: freed, or half-occupied by
      someone of the client's own gender. */
  predicate Admits(s: RoomStatus, gender: int)
  {
    s == Freed || SameGender(s, gender)
  }

  /** The status a double room takes when the client moves in. */
  function MoveIn(s: RoomStatus, gender: int): RoomStatus
  {
    if s == Freed then Occupied(gender) else Full
  }

  /** The status a double room takes when the client moves out. */
  function Vacate(s: RoomStatus, gender: int): RoomStatus
  {
    if s == Full then Occupied(gender)
    else if s == BusiedByMan || s == BusiedByWoman then Freed
    else s
  }

  /** The first index at or after `from` whose room satisfies `p`, if any. */
  function FirstWhere(rooms: seq<RoomStatus>, p: RoomStatus -> bool, from: nat): (r: Option<nat>)
    requires from <= |rooms|
    ensures r.Some? ==> from <= r.value < |rooms| && p(rooms[r.value])
    ensures r.Some? ==> forall k :: from <= k < r.value ==> !p(rooms[k])
    ensures r.None? ==> forall k :: from <= k < |rooms| ==> !p(rooms[k])
    decreases |rooms| - from
  {
    if from == |rooms| then None
    else if p(rooms[from]) then Some(from)
    else FirstWhere(rooms, p, from + 1)
  }

  /** `a` and `b` agree everywhere except possibly at index `i`. */
  ghost predicate OnlyChanged(a: seq<RoomStatus>, b: seq<RoomStatus>, i: nat)
  {
    |a| == |b| && i < |a| && forall k :: 0 <= k < |a| && k != i ==> a[k] == b[k]
  }

  ghost predicate NoFreedSingle(l: Ledger)
  {
    forall k :: 0 <= k < |l.singles| ==> l.singles[k] != Freed
  }

  ghost predicate NoAdmittingDouble(l: Ledger, gender: int)
  {
    forall k :: 0 <= k < |l.doubles| ==> !Admits(l.doubles[k], gender)
  }

  /** The booking step described room by room: the lowest freed single room
      becomes full; only when there is none, the lowest double room that
      admits the client is moved into; when neither exists nothing changes. */
  ghost predicate ClaimSpec(l: Ledger, gender: int, o: Outcome, after: Ledger)
  {
    match o
    case SingleRoom(i) =>
      OnlyChanged(l.singles, after.singles, i) && after.doubles == l.doubles
      && l.singles[i] == Freed && after.singles[i] == Full
      && (forall k :: 0 <= k < i ==> l.singles[k] != Freed)
    case DoubleRoom(i) =>
      NoFreedSingle(l) && OnlyChanged(l.doubles, after.doubles, i) && after.singles == l.singles
      && Admits(l.doubles[i], gender) && after.doubles[i] == MoveIn(l.doubles[i], gender)
      && (forall k :: 0 <= k < i ==> !Admits(l.doubles[k], gender))
    case OutOfService =>
      NoFreedSingle(l) && NoAdmittingDouble(l, gender) && after == l
  }

  /** The booking step: one ascending scan of the single rooms, then, only if
      it found nothing, one ascending scan of the double rooms testing each
      index for "freed" and for "same-gender half room" together. */
  function Claim(l: Ledger, gender: int): (r: Claimed)
    ensures ClaimSpec(l, gender, r.outcome, r.ledger)
  {
    match FirstWhere(l.singles, IsFreed, 0)
    case Some(i) => Claimed(SingleRoom(i), l.(singles := l.singles[i := Full]))
    case None =>
      match FirstWhere(l.doubles, s => Admits(s, gender), 0)
      case Some(j) => Claimed(DoubleRoom(j), l.(doubles := l.doubles[j := MoveIn(l.doubles[j], gender)]))
      case None => Claimed(OutOfService, l)
  }

  /** The room-by-room description has exactly one solution, the one Claim
      computes: the outcome and the resulting ledger are both determined. */
  lemma ClaimSpecDeterminesClaim(l: Ledger, gender: int, o: Outcome, after: Ledger)
    requires ClaimSpec(l, gender, o, after)
    ensures Claim(l, gender) == Claimed(o, after)
  {
    var r := Claim(l, gender);
    match o
    case SingleRoom(i) =>
      assert r.outcome == SingleRoom(i);
      assert r.ledger.singles == after.singles;
    case DoubleRoom(i) =>
      assert r.outcome == DoubleRoom(i);
      assert r.ledger.doubles == after.doubles;
    case OutOfService =>
  }

  /** Claim keeps the fixed ledger sizes, and its index fits that ledger. */
  lemma ClaimPreservesValid(l: Ledger, gender: int)
    requires l.Valid()
    ensures Claim(l, gender).ledger.Valid()
    ensures Fits(l, Claim(l, gender).outcome)
  {
  }

  /** Claim reports "out of service" exactly when no single room is freed and
      no double room is freed or half-occupied by the client's gender. */
  lemma OutOfServiceIff(l: Ledger, gender: int)
    ensures Claim(l, gender).outcome == OutOfService
            <==> NoFreedSingle(l) && NoAdmittingDouble(l, gender)
    ensures Claim(l, gender).outcome == OutOfService ==> Claim(l, gender).ledger == l
  {
  }

  /** A full double room, or one half-occupied by the other gender, is never
      taken; with gender 0 or 1, the room taken holds at most one guest of
      the client's own gender. */
  lemma NeverJoinsFullOrOtherGender(l: Ledger, gender: int)
    requires Claim(l, gender).outcome.DoubleRoom?
    ensures l.doubles[Claim(l, gender).outcome.index] != Full
    ensures gender == 0 ==> l.doubles[Claim(l, gender).outcome.index] != BusiedByWoman
    ensures gender == 1 ==> l.doubles[Claim(l, gender).outcome.index] != BusiedByMan
  {
  }

  /** A gender code other than 0 or 1 moves in as a woman but never matches a
      half room, so such a client only ever takes a freed double room. */
  lemma OtherGenderCodesNeverShare(l: Ledger, gender: int)
    requires gender != 0 && gender != 1
    requires Claim(l, gender).outcome.DoubleRoom?
    ensures l.doubles[Claim(l, gender).outcome.index] == Freed
    ensures Claim(l, gender).ledger.doubles[Claim(l, gender).outcome.index] == BusiedByWoman
  {
  }

  /** The outcome's index addresses a room of the ledger. */
  predicate Fits(l: Ledger, o: Outcome)
  {
    match o
    case OutOfService => true
    case SingleRoom(i) => i < |l.singles|
    case DoubleRoom(i) => i < |l.doubles|
  }

  /** The release step, on the claimed index only: a single room is freed;
      a full double room keeps one guest of the releaser's gender; a
      half-occupied double room is freed; a freed double room stays freed. */
  function Release(l: Ledger, o: Outcome, gender: int): (r: Ledger)
    requires Fits(l, o)
    ensures o.OutOfService? ==> r == l
    ensures o.SingleRoom? ==>
      OnlyChanged(l.singles, r.singles, o.index) && r.doubles == l.doubles && r.singles[o.index] == Freed
    ensures o.DoubleRoom? ==>
      OnlyChanged(l.doubles, r.doubles, o.index) && r.singles == l.singles
      && r.doubles[o.index] == Vacate(l.doubles[o.index], gender)
    ensures r.Valid() <==> l.Valid()
  {
    match o
    case OutOfService => l
    case SingleRoom(i) => l.(singles := l.singles[i := Freed])
    case DoubleRoom(i) => l.(doubles := l.doubles[i := Vacate(l.doubles[i], gender)])
  }

  /** Moving out undoes moving in, for every gender code. */
  lemma VacateUndoesMoveIn(s: RoomStatus, gender: int)
    requires Admits(s, gender)
    ensures Vacate(MoveIn(s, gender), gender) == s
  {
  }

  /** Releasing right after claiming, with nothing in between, gives back
      the ledger the client started from. */
  lemma ReleaseUndoesClaim(l: Ledger, gender: int)
    ensures Fits(Claim(l, gender).ledger, Claim(l, gender).outcome)
    ensures Release(Claim(l, gender).ledger, Claim(l, gender).outcome, gender) == l
  {
    var c := Claim(l, gender);
    match c.outcome
    case OutOfService =>
    case SingleRoom(i) =>
      assert Release(c.ledger, c.outcome, gender).singles == l.singles;
    case DoubleRoom(i) =>
      VacateUndoesMoveIn(l.doubles[i], gender);
      assert Release(c.ledger, c.outcome, gender).doubles == l.doubles;
  }

  /** A successful booking adds exactly one guest to the ledger. */
  lemma ClaimAddsOneGuest(l: Ledger, gender: int)
    ensures Claim(l, gender).outcome.OutOfService? ==> Guests(Claim(l, gender).ledger) == Guests(l)
    ensures !Claim(l, gender).outcome.OutOfService? ==> Guests(Claim(l, gender).ledger) == Guests(l) + 1
  {
    var c := Claim(l, gender);
    match c.outcome
    case OutOfService =>
    case SingleRoom(i) =>
      HeadcountUpdate(l.singles, i, Full, false);
      assert c.ledger.singles == l.singles[i := Full];
    case DoubleRoom(i) =>
      HeadcountUpdate(l.doubles, i, MoveIn(l.doubles[i], gender), true);
      assert c.ledger.doubles == l.doubles[i := MoveIn(l.doubles[i], gender)];
  }

  /** Releasing removes exactly one guest, unless the released room was
      already freed, in which case nothing changes. */
  lemma ReleaseRemovesOneGuest(l: Ledger, o: Outcome, gender: int)
    requires Fits(l, o) && !o.OutOfService?
    ensures o.SingleRoom? && l.singles[o.index] != Freed ==> Guests(Release(l, o, gender)) + 1 == Guests(l)
    ensures o.DoubleRoom? && l.doubles[o.index] != Freed ==> Guests(Release(l, o, gender)) + 1 == Guests(l)
    ensures o.SingleRoom? && l.singles[o.index] == Freed ==> Release(l, o, gender) == l
    ensures o.DoubleRoom? && l.doubles[o.index] == Freed ==> Release(l, o, gender) == l
  {
    match o
    case SingleRoom(i) =>
      HeadcountUpdate(l.singles, i, Freed, false);
      assert Release(l, o, gender).singles == l.singles[i := Freed];
      if l.singles[i] == Freed { assert l.singles[i := Freed] == l.singles; }
    case DoubleRoom(i) =>
      HeadcountUpdate(l.doubles, i, Vacate(l.doubles[i], gender), true);
      assert Release(l, o, gender).doubles == l.doubles[i := Vacate(l.doubles[i], gender)];
      if l.doubles[i] == Freed { assert l.doubles[i := Freed] == l.doubles; }
  }
}
