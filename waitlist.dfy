/** `/api/waitlist`: joining the waitlist of a bootcamp that is not yet open
    (POST), and asking whether one is on it (GET). The user is the session's
    user id. */
module Waitlist {
  import opened Base
  import opened Store

  datatype JoinReply = JoinUnauthorized | JoinMissingBootcamp | BootcampNotFound | BootcampActive
                     | AlreadyOnWaitlist | Joined | JoinFailed

  function JoinStatus(r: JoinReply): int {
    match r
    case JoinUnauthorized => 401
    case JoinMissingBootcamp => 400
    case BootcampNotFound => 404
    case BootcampActive => 400
    case AlreadyOnWaitlist => 409
    case Joined => 200
    case JoinFailed => 500
  }

  datatype JoinOutcome = JoinOutcome(reply: JoinReply, added: Option<WaitlistEntry>)

  /** POST, given the bootcamps, the waitlist, the session's user id and the
      body's `bootcampId` ("" when absent). */
  function Join(bootcamps: seq<Bootcamp>, wl: seq<WaitlistEntry>, userId: string, bootcampId: string): (o: JoinOutcome)
    ensures o.added.Some? ==> o.added.value !in wl
  {
    if !Present(userId) then JoinOutcome(JoinUnauthorized, None)
    else if !Present(bootcampId) then JoinOutcome(JoinMissingBootcamp, None)
    else match FindBootcamp(bootcamps, bootcampId)
      case None => JoinOutcome(BootcampNotFound, None)
      case Some(b) =>
        if b.isActive then JoinOutcome(BootcampActive, None)
        else if HasEntry(wl, userId, bootcampId) then JoinOutcome(AlreadyOnWaitlist, None)
        else if WaitlistEntry(userId, bootcampId) !in wl then JoinOutcome(Joined, Some(WaitlistEntry(userId, bootcampId)))
        else JoinOutcome(JoinFailed, None)
  }

  function Append(wl: seq<WaitlistEntry>, added: Option<WaitlistEntry>): seq<WaitlistEntry> {
    if added.Some? then wl + [added.value] else wl
  }

  method PostJoin(db: Db, userId: string, bootcampId: string) returns (reply: JoinReply)
    modifies db`waitlist
    ensures var o := Join(db.bootcamps, old(db.waitlist), userId, bootcampId);
            reply == o.reply && db.waitlist == Append(old(db.waitlist), o.added)
  {
    if !Present(userId) {
      return JoinUnauthorized;
    }
    if !Present(bootcampId) {
      return JoinMissingBootcamp;
    }
    var bootcamp := FindBootcamp(db.bootcamps, bootcampId);
    if bootcamp.None? {
      return BootcampNotFound;
    }
    if bootcamp.value.isActive {
      return BootcampActive;
    }
    if HasEntry(db.waitlist, userId, bootcampId) {
      return AlreadyOnWaitlist;
    }
    var ok := db.CreateWaitlistEntry(WaitlistEntry(userId, bootcampId));
    if !ok {
      return JoinFailed;
    }
    return Joined;
  }

  datatype CheckReply = CheckUnauthorized | CheckMissingBootcamp | OnWaitlist(on: bool)

  /** GET, given the waitlist, the session's user id and the `bootcampId`
      query parameter ("" when absent). */
  function Check(wl: seq<WaitlistEntry>, userId: string, bootcampId: string): (r: CheckReply)
    ensures r.OnWaitlist? <==> Present(userId) && Present(bootcampId)
    ensures r.OnWaitlist? ==> (r.on <==> exists i :: 0 <= i < |wl| && wl[i].userId == userId && wl[i].bootcampId == bootcampId)
  {
    if !Present(userId) then CheckUnauthorized
    else if !Present(bootcampId) then CheckMissingBootcamp
    else OnWaitlist(HasEntry(wl, userId, bootcampId))
  }

  // ---- properties of the routes ----

  /** A successful join is seen by the status check. */
  lemma JoinThenCheck(bootcamps: seq<Bootcamp>, wl: seq<WaitlistEntry>, userId: string, bootcampId: string)
    requires Join(bootcamps, wl, userId, bootcampId).reply == Joined
    ensures Check(Append(wl, Join(bootcamps, wl, userId, bootcampId).added), userId, bootcampId) == OnWaitlist(true)
  {
    var wl' := Append(wl, Join(bootcamps, wl, userId, bootcampId).added);
    assert wl'[|wl|] == WaitlistEntry(userId, bootcampId);
  }

  /** Joining only adds to the waitlist of an existing bootcamp that is not
      active; a second join of the same pair is refused with 409. */
  lemma JoinOnlyInactive(bootcamps: seq<Bootcamp>, wl: seq<WaitlistEntry>, userId: string, bootcampId: string)
    ensures var o := Join(bootcamps, wl, userId, bootcampId);
            o.added.Some? ==> FindBootcamp(bootcamps, bootcampId).Some? && !FindBootcamp(bootcamps, bootcampId).value.isActive
                              && o.added.value == WaitlistEntry(userId, bootcampId)
    ensures var o := Join(bootcamps, wl, userId, bootcampId);
            o.reply == Joined ==> Join(bootcamps, Append(wl, o.added), userId, bootcampId).reply == AlreadyOnWaitlist
  {
    var o := Join(bootcamps, wl, userId, bootcampId);
    if o.reply == Joined {
      assert Append(wl, o.added)[|wl|] == WaitlistEntry(userId, bootcampId);
    }
  }

  /** Conversely, a signed-in user's join of an existing inactive bootcamp
      whose waitlist does not list them adds exactly that entry. */
  lemma InactiveBootcampJoined(bootcamps: seq<Bootcamp>, wl: seq<WaitlistEntry>, userId: string, bootcampId: string, b: Bootcamp)
    requires Present(userId) && Present(bootcampId)
    requires FindBootcamp(bootcamps, bootcampId) == Some(b) && !b.isActive
    requires !HasEntry(wl, userId, bootcampId)
    ensures Join(bootcamps, wl, userId, bootcampId) == JoinOutcome(Joined, Some(WaitlistEntry(userId, bootcampId)))
  {
  }

  /** Joining keeps the waitlist free of duplicate pairs, and its own check
      keeps the insert from ever being refused. */
  lemma JoinKeepsUnique(bootcamps: seq<Bootcamp>, wl: seq<WaitlistEntry>, userId: string, bootcampId: string)
    requires UniqueEntries(wl)
    ensures UniqueEntries(Append(wl, Join(bootcamps, wl, userId, bootcampId).added))
    ensures Join(bootcamps, wl, userId, bootcampId).reply != JoinFailed
  {
    var o := Join(bootcamps, wl, userId, bootcampId);
    if o.added.Some? {
      var wl' := wl + [o.added.value];
      forall i, j | 0 <= i < j < |wl'|
        ensures wl'[i] != wl'[j]
      {
        if j == |wl| {
          assert wl'[i] in wl;
        }
      }
    }
  }
}
