/**
 * The coach page's safety check: a per-athlete record of the condition score (1 to 5)
 * and a pain flag, the rule that forces the recovery workout (type D), and the
 * open/close toggle of the session being managed. Rendering and fetching are not
 * part of this model.
 */
module CoachDashboard {
  import opened Common

  /** What the coach recorded for one athlete. */
  datatype Entry = Entry(condition: int, pain: bool)

  /** The state an athlete shows before anything is recorded. */
  const Unrecorded: Entry := Entry(3, false)

  function StateOf(checkIns: map<Id, Entry>, athleteId: Id): Entry {
    if athleteId in checkIns then checkIns[athleteId] else Unrecorded
  }

  /** The athlete is forced to the recovery workout: condition 1 or pain. */
  predicate IsForcedD(e: Entry) {
    e.condition == 1 || e.pain
  }

  /** An athlete with nothing recorded is not forced. */
  lemma UnrecordedNotForced(checkIns: map<Id, Entry>, athleteId: Id)
    requires athleteId !in checkIns
    ensures !IsForcedD(StateOf(checkIns, athleteId))
  {
  }

  /** Of the low scores only 1 forces: a 2 without pain does not. */
  lemma OnlyConditionOneForces(score: int)
    ensures IsForcedD(Entry(score, false)) <==> score == 1
  {
  }

  /** Clicking a score: the athlete's condition becomes the score, the pain flag stays. */
  function ChooseCondition(checkIns: map<Id, Entry>, athleteId: Id, score: int): (r: map<Id, Entry>)
    ensures StateOf(r, athleteId).condition == score
    ensures StateOf(r, athleteId).pain == StateOf(checkIns, athleteId).pain
    ensures forall other :: other != athleteId ==> StateOf(r, other) == StateOf(checkIns, other)
    ensures r.Keys == checkIns.Keys + {athleteId}
  {
    checkIns[athleteId := StateOf(checkIns, athleteId).(condition := score)]
  }

  /** Clicking the pain button: the athlete's pain flag flips, the condition stays. */
  function TogglePain(checkIns: map<Id, Entry>, athleteId: Id): (r: map<Id, Entry>)
    ensures StateOf(r, athleteId).pain == !StateOf(checkIns, athleteId).pain
    ensures StateOf(r, athleteId).condition == StateOf(checkIns, athleteId).condition
    ensures forall other :: other != athleteId ==> StateOf(r, other) == StateOf(checkIns, other)
    ensures r.Keys == checkIns.Keys + {athleteId}
  {
    var e := StateOf(checkIns, athleteId);
    checkIns[athleteId := e.(pain := !e.pain)]
  }

  /** After a score is chosen, the athlete is forced exactly when the score is 1 or
      pain was already flagged. */
  lemma ForcedAfterChoice(checkIns: map<Id, Entry>, athleteId: Id, score: int)
    ensures IsForcedD(StateOf(ChooseCondition(checkIns, athleteId, score), athleteId))
            <==> score == 1 || StateOf(checkIns, athleteId).pain
  {
  }

  /** Two pain clicks show the athlete as before. */
  lemma TogglePainTwice(checkIns: map<Id, Entry>, athleteId: Id)
    ensures forall a :: StateOf(TogglePain(TogglePain(checkIns, athleteId), athleteId), a) == StateOf(checkIns, a)
  {
    var once := TogglePain(checkIns, athleteId);
    var twice := TogglePain(once, athleteId);
    assert StateOf(twice, athleteId) == StateOf(checkIns, athleteId);
  }

  /** Clicking "Manage Session" on a session: closes it when it is the open one,
      otherwise opens it (closing whichever was open). */
  function Toggle(active: Option<Id>, sessionId: Id): (r: Option<Id>)
    ensures r.None? <==> active == Some(sessionId)
    ensures r.Some? ==> r.value == sessionId
  {
    if active == Some(sessionId) then None else Some(sessionId)
  }

  /** Two clicks on the same session restore the prior state exactly when no session,
      or that same session, was open; from another open session they leave none open. */
  lemma ToggleTwice(active: Option<Id>, sessionId: Id)
    ensures Toggle(Toggle(active, sessionId), sessionId) == active <==> active.None? || active == Some(sessionId)
    ensures active.Some? && active != Some(sessionId) ==> Toggle(Toggle(active, sessionId), sessionId) == None
  {
  }

  /** The page's state: the session being managed and the recorded check-ins. */
  class Dashboard {
    var activeSessionId: Option<Id>
    var checkIns: map<Id, Entry>

    constructor ()
      ensures activeSessionId == None && checkIns == map[]
    {
      activeSessionId := None;
      checkIns := map[];
    }

    method ManageClicked(sessionId: Id)
      modifies this`activeSessionId
      ensures activeSessionId == Toggle(old(activeSessionId), sessionId)
    {
      activeSessionId := if activeSessionId == Some(sessionId) then None else Some(sessionId);
    }

    method ScoreClicked(athleteId: Id, score: int)
      modifies this`checkIns
      ensures checkIns == ChooseCondition(old(checkIns), athleteId, score)
    {
      var e := if athleteId in checkIns then checkIns[athleteId] else Unrecorded;
      checkIns := checkIns[athleteId := e.(condition := score)];
    }

    method PainClicked(athleteId: Id)
      modifies this`checkIns
      ensures checkIns == TogglePain(old(checkIns), athleteId)
    {
      var e := if athleteId in checkIns then checkIns[athleteId] else Unrecorded;
      checkIns := checkIns[athleteId := e.(pain := !e.pain)];
    }
  }
}
