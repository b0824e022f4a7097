/**
 * The athlete check-in: find the caller's attendance whose session lies in today's
 * window [today, tomorrow) in the caller's academy, and move it from PENDING to
 * PRESENT. An attendance already PRESENT or COMPLETED is reported and left alone.
 */
module AttendanceRoutes {
  import opened Common
  import opened Query
  import opened Store

  /** The profile owned by a user (profiles are unique per user). */
  function FindProfile(athletes: seq<AthleteProfile>, userId: Id): (r: Option<AthleteProfile>)
    ensures r.Some? ==> r.value in athletes && r.value.userId == userId
    ensures r.None? <==> forall p :: p in athletes ==> p.userId != userId
  {
    First(athletes, (p: AthleteProfile) => p.userId == userId)
  }

  /** The attendance's session is dated within [today, tomorrow) and belongs to the academy. */
  predicate SessionToday(sessions: seq<Session>, a: Attendance, academyId: Id,
                         today: Timestamp, tomorrow: Timestamp) {
    exists s :: s in sessions && s.id == a.sessionId && today <= s.date < tomorrow && s.academyId == academyId
  }

  predicate IsTodays(sessions: seq<Session>, athleteId: Id, academyId: Id,
                     today: Timestamp, tomorrow: Timestamp, a: Attendance) {
    a.athleteId == athleteId && SessionToday(sessions, a, academyId, today, tomorrow)
  }

  /** Index of the first of the athlete's attendances of today in the academy. */
  function FindTodayAttendance(attendances: seq<Attendance>, sessions: seq<Session>, athleteId: Id,
                               academyId: Id, today: Timestamp, tomorrow: Timestamp): (r: Option<nat>)
    ensures r.Some? ==> r.value < |attendances|
                        && attendances[r.value].athleteId == athleteId
                        && exists s :: s in sessions && s.id == attendances[r.value].sessionId
                                       && today <= s.date < tomorrow && s.academyId == academyId
    ensures r.None? <==> forall k :: 0 <= k < |attendances| ==>
                           !IsTodays(sessions, athleteId, academyId, today, tomorrow, attendances[k])
  {
    FindFirst(attendances, (a: Attendance) => IsTodays(sessions, athleteId, academyId, today, tomorrow, a))
  }

  /** The status is not part of the search: changing one attendance's status leaves
      the attendance found for today where it was. */
  lemma FindTodayIgnoresStatus(attendances: seq<Attendance>, sessions: seq<Session>, k: nat,
                               status: AttendanceStatus, athleteId: Id, academyId: Id,
                               today: Timestamp, tomorrow: Timestamp)
    requires k < |attendances|
    ensures FindTodayAttendance(attendances[k := attendances[k].(status := status)], sessions,
                                athleteId, academyId, today, tomorrow)
         == FindTodayAttendance(attendances, sessions, athleteId, academyId, today, tomorrow)
  {
    FindFirstAgree(attendances[k := attendances[k].(status := status)], attendances,
                   (a: Attendance) => IsTodays(sessions, athleteId, academyId, today, tomorrow, a));
  }

  predicate CheckedInAlready(s: AttendanceStatus) {
    s == PRESENT || s == COMPLETED
  }

  datatype CheckInReply = AlreadyCheckedIn(sessionId: Id) | CheckedIn(sessionId: Id)

  /** POST /checkin for the authenticated athlete user `userId` of academy `academyId`;
      `today` is the server's local midnight and `tomorrow` the next one. */
  method CheckIn(db: Store, userId: Id, academyId: Id, today: Timestamp, tomorrow: Timestamp)
    returns (r: Result<CheckInReply>)
    requires db.Valid()
    modifies db`attendances
    ensures db.Valid()
    ensures FindProfile(db.athletes, userId).None? ==>
              r == Err(ProfileNotFound) && db.attendances == old(db.attendances)
    ensures FindProfile(db.athletes, userId).Some? ==>
              var found := FindTodayAttendance(old(db.attendances), db.sessions,
                                               FindProfile(db.athletes, userId).value.id,
                                               academyId, today, tomorrow);
              && (found.None? ==> r == Err(NoSessionToday) && db.attendances == old(db.attendances))
              && (found.Some? ==>
                    var a := old(db.attendances)[found.value];
                    if CheckedInAlready(a.status) then
                      r == Ok(AlreadyCheckedIn(a.sessionId)) && db.attendances == old(db.attendances)
                    else
                      r == Ok(CheckedIn(a.sessionId))
                      && db.attendances == old(db.attendances)[found.value := a.(status := PRESENT)])
    ensures r.Ok? ==> exists a :: a in db.attendances && a.sessionId == r.value.sessionId && CheckedInAlready(a.status)
  {
    var profile := FindProfile(db.athletes, userId);
    if profile.None? {
      return Err(ProfileNotFound);
    }
    var found := FindTodayAttendance(db.attendances, db.sessions, profile.value.id, academyId, today, tomorrow);
    if found.None? {
      return Err(NoSessionToday);
    }
    var k := found.value;
    var a := db.attendances[k];
    if CheckedInAlready(a.status) {
      return Ok(AlreadyCheckedIn(a.sessionId));
    }
    var updated := a.(status := PRESENT);
    StatusChanged(db.attendances, db.sessions, db.nextAttendanceId, k, PRESENT);
    db.attendances := db.attendances[k := updated];
    assert db.attendances[k] == updated;
    r := Ok(CheckedIn(a.sessionId));
  }

  /** Check-in is idempotent: once a check-in succeeded, a second one the same day
      reports "already checked in" for the same session and writes nothing. */
  method CheckInTwice(db: Store, userId: Id, academyId: Id, today: Timestamp, tomorrow: Timestamp)
    returns (first: Result<CheckInReply>, second: Result<CheckInReply>)
    requires db.Valid()
    modifies db`attendances
    ensures db.Valid()
    ensures first.Ok? ==> second == Ok(AlreadyCheckedIn(first.value.sessionId))
    ensures first.Err? ==> second == first
    ensures (first.Err? || first.value.AlreadyCheckedIn?) ==> db.attendances == old(db.attendances)
    // the first call moved one attendance to PRESENT and the second wrote nothing
    ensures first.Ok? && first.value.CheckedIn? ==>
              exists k :: 0 <= k < |old(db.attendances)|
                          && db.attendances == old(db.attendances)[k := old(db.attendances)[k].(status := PRESENT)]
  {
    ghost var before := db.attendances;
    first := CheckIn(db, userId, academyId, today, tomorrow);
    if FindProfile(db.athletes, userId).Some? {
      var athleteId := FindProfile(db.athletes, userId).value.id;
      var found := FindTodayAttendance(before, db.sessions, athleteId, academyId, today, tomorrow);
      if found.Some? {
        FindTodayIgnoresStatus(before, db.sessions, found.value, PRESENT, athleteId, academyId, today, tomorrow);
        if first.Ok? && first.value.CheckedIn? {
          assert db.attendances == before[found.value := before[found.value].(status := PRESENT)];
        }
      }
    }
    ghost var afterFirst := db.attendances;
    second := CheckIn(db, userId, academyId, today, tomorrow);
    assert first.Ok? ==> db.attendances == afterFirst;
  }
}
