/** One client's visit to the hotel: the booking step, the rent time, and the
    release step, over the two ways the ledger is shared. In the mapped
    variants every client works on the one shared ledger; in the brokered
    variant the client asks the hotel process for a snapshot (GET), books on
    it, and sends the whole snapshot back (SET). Claim and release are
    assumed to run under the hotel's lock; the last lemmas show what the
    brokered variant loses without it. */
module Agent {
  import opened Rooms
  import opened Booking
  import opened Host

  /** A client record: id, gender code and rent time in seconds. Only the
      gender reaches the ledger; the id is logged and the rent time slept. */
  datatype Client = Client(id: int, gender: int, rentTime: int)

  /** What one visit does to a mapped ledger: the outcome, the ledger right
      after booking, and the ledger right after release, if a release ran. */
  datatype Visit = Visit(outcome: Outcome, booked: Ledger, released: Option<Ledger>)

  /** A visit on the shared ledger. `later` is the ledger the client finds
      after its rent time, which other clients may have changed meanwhile.
      An out-of-service client returns at once and releases nothing. */
  function MappedVisit(start: Ledger, c: Client, later: Ledger): (v: Visit)
    requires start.Valid() && later.Valid()
    ensures Claimed(v.outcome, v.booked) == Claim(start, c.gender)
    ensures v.released.None? <==> v.outcome.OutOfService?
    ensures v.released.Some? ==> Fits(later, v.outcome) && v.released.value == Release(later, v.outcome, c.gender)
    ensures v.outcome.OutOfService? ==> v.booked == start
    ensures v.released.Some? ==> v.released.value.Valid()
    ensures later == v.booked && v.released.Some? ==> v.released.value == start
  {
    var booked := Claim(start, c.gender);
    ClaimPreservesValid(start, c.gender);
    ReleaseUndoesClaim(start, c.gender);
    if booked.outcome.OutOfService? then Visit(OutOfService, start, None)
    else Visit(booked.outcome, booked.ledger, Some(Release(later, booked.outcome, c.gender)))
  }

  /** The GET request. Its payload is whatever the client's buffer holds;
      the host never reads it. */
  function GetRequest(junk: Ledger): Message
  {
    Message(GetPacket, junk)
  }

  /** The SET request, carrying the client's whole snapshot. */
  function SetRequest(snapshot: Ledger): Message
  {
    Message(SetPacket, snapshot)
  }

  /** The host's ledger after a brokered booking, the outcome, and the
      ledger the client reads back after its SET. */
  datatype Booked = Booked(host: Ledger, outcome: Outcome, view: Ledger)

  /** GET, book on the snapshot, SET the snapshot. The SET is sent even when
      nothing was booked. */
  function BrokeredBook(host: Ledger, gender: int, junk: Ledger): (b: Booked)
    ensures Claimed(b.outcome, b.host) == Claim(host, gender)
    ensures b.outcome.OutOfService? ==> b.host == host
    ensures b.view == b.host
  {
    var get := HostStep(host, GetRequest(junk));
    var booked := Claim(get.reply, gender);
    var put := HostStep(get.state, SetRequest(booked.ledger));
    Booked(put.state, booked.outcome, put.reply)
  }

  /** GET again after the rent time, release the booked room on the fresh
      snapshot, SET the result. Runs only when a room was booked. */
  function BrokeredRelease(host: Ledger, o: Outcome, gender: int, junk: Ledger): (h: Ledger)
    requires Fits(host, o) && !o.OutOfService?
    ensures h == Release(host, o, gender)
  {
    var get := HostStep(host, GetRequest(junk));
    var put := HostStep(get.state, SetRequest(Release(get.reply, o, gender)));
    put.state
  }

  /** Booking then releasing through the host, with no other client in
      between, leaves the host's ledger as it was. */
  lemma BrokeredVisitRestoresHost(host: Ledger, gender: int, junk1: Ledger, junk2: Ledger)
    requires host.Valid()
    ensures var b := BrokeredBook(host, gender, junk1);
            !b.outcome.OutOfService? ==> Fits(b.host, b.outcome) && BrokeredRelease(b.host, b.outcome, gender, junk2) == host
  {
    ReleaseUndoesClaim(host, gender);
  }

  /** The same booking, written as the request sequence the host serves. */
  lemma BookingAsRequests(host: Ledger, gender: int, junk: Ledger)
    ensures var ms := [GetRequest(junk), SetRequest(Claim(host, gender).ledger)];
            Replies(host, ms)[0] == host && Serve(host, ms) == BrokeredBook(host, gender, junk).host
  {
    var ms := [GetRequest(junk), SetRequest(Claim(host, gender).ledger)];
    LastSetWins(host, ms, 1);
  }

  /** Two clients booked one after the other under the lock both count: the
      ledger gains two guests and two single rooms taken are different. */
  lemma GatedBookingsBothCount(host: Ledger, g1: int, g2: int, junk: Ledger)
    ensures var b1 := BrokeredBook(host, g1, junk);
            var b2 := BrokeredBook(b1.host, g2, junk);
            !b1.outcome.OutOfService? && !b2.outcome.OutOfService? ==> Guests(b2.host) == Guests(host) + 2
    ensures var b1 := BrokeredBook(host, g1, junk);
            var b2 := BrokeredBook(b1.host, g2, junk);
            b1.outcome.SingleRoom? && b2.outcome.SingleRoom? ==> b1.outcome.index != b2.outcome.index
  {
    var b1 := BrokeredBook(host, g1, junk);
    ClaimAddsOneGuest(host, g1);
    ClaimAddsOneGuest(b1.host, g2);
  }

  /** Without the lock, two clients that both GET before either SETs see the
      same snapshot; when a single room is free they both take the same one,
      and the second SET overwrites the first, so only one guest is
      recorded although both clients hold the room. */
  lemma UngatedBookingsLoseAnUpdate(host: Ledger, g1: int, g2: int, junk: Ledger)
    requires Claim(host, g1).outcome.SingleRoom?
    ensures var c1 := Claim(host, g1);
            var c2 := Claim(host, g2);
            var ms := [GetRequest(junk), GetRequest(junk), SetRequest(c1.ledger), SetRequest(c2.ledger)];
            Replies(host, ms)[0] == host && Replies(host, ms)[1] == host
            && c1.outcome == c2.outcome
            && Serve(host, ms) == c2.ledger
            && Guests(Serve(host, ms)) == Guests(host) + 1
  {
    var c1 := Claim(host, g1);
    var c2 := Claim(host, g2);
    var ms := [GetRequest(junk), GetRequest(junk), SetRequest(c1.ledger), SetRequest(c2.ledger)];
    ClaimSpecDeterminesClaim(host, g2, c1.outcome, c1.ledger);
    LastSetWins(host, ms, 3);
    ClaimAddsOneGuest(host, g2);
  }
}
