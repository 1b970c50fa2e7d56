/** GET /api/availabilities/counts: for each requested event, how many
    distinct children answered "present" or "absent", leaving out children
    that no longer exist and children known to belong to another team than
    the event's. */
module AvailabilityCounts {

  import opened Common
  import opened Store
  import opened Availabilities

  const EventIdsRequired: string := "eventIds requis (séparés par des virgules)"

  // ---------------------------------------------------------------------
  // Parsing the `eventIds` parameter

  /** String.prototype.split with a one-character separator: the pieces between
      separators, always at least one. */
  function Split(s: string, sep: char): (r: seq<string>)
    ensures |r| >= 1
    ensures forall i :: 0 <= i < |r| ==> sep !in r[i]
  {
    if s == [] then [""]
    else
      var rest := Split(s[1..], sep);
      if s[0] == sep then [""] + rest else [[s[0]] + rest[0]] + rest[1..]
  }

  /** Array.prototype.join with a one-character separator. */
  function Join(ps: seq<string>, sep: char): string
  {
    if ps == [] then ""
    else if |ps| == 1 then ps[0]
    else ps[0] + [sep] + Join(ps[1..], sep)
  }

  /** Joining the pieces back gives the parameter. */
  lemma {:induction false} JoinSplit(s: string, sep: char)
    ensures Join(Split(s, sep), sep) == s
  {
    if s != [] {
      JoinSplit(s[1..], sep);
      var rest := Split(s[1..], sep);
      if s[0] == sep {
        assert s == [sep] + s[1..];
      } else if |rest| == 1 {
        assert s == [s[0]] + s[1..];
      } else {
        assert Join(rest, sep) == rest[0] + [sep] + Join(rest[1..], sep);
        assert s == [s[0]] + s[1..];
      }
    }
  }

  /** Splitting a join of separator-free pieces gives the pieces back. */
  lemma {:induction false} SplitJoin(ps: seq<string>, sep: char)
    requires |ps| >= 1
    requires forall i :: 0 <= i < |ps| ==> sep !in ps[i]
    ensures Split(Join(ps, sep), sep) == ps
    decreases |ps|, |ps[0]|
  {
    if ps[0] != [] {
      var tail := [ps[0][1..]] + ps[1..];
      assert forall i :: 0 <= i < |tail| ==> sep !in tail[i] by {
        forall i | 0 <= i < |tail| ensures sep !in tail[i] {
          if i == 0 {
            assert forall c :: c in ps[0][1..] ==> c in ps[0];
          } else {
            assert tail[i] == ps[i];
          }
        }
      }
      SplitJoin(tail, sep);
      var s := Join(ps, sep);
      if |ps| == 1 {
        assert s == ps[0];
        assert Join(tail, sep) == ps[0][1..];
        assert s[1..] == Join(tail, sep);
      } else {
        assert s == ps[0] + [sep] + Join(ps[1..], sep);
        assert Join(tail, sep) == ps[0][1..] + [sep] + Join(ps[1..], sep);
        assert s[1..] == Join(tail, sep);
      }
      assert s[0] == ps[0][0];
      assert ps[0] == [ps[0][0]] + ps[0][1..];
    } else if |ps| > 1 {
      SplitJoin(ps[1..], sep);
      assert Join(ps, sep) == [sep] + Join(ps[1..], sep);
      assert Join(ps, sep)[1..] == Join(ps[1..], sep);
    }
  }

  function TrimAll(ps: seq<string>): (r: seq<string>)
    ensures |r| == |ps|
    ensures forall i :: 0 <= i < |r| ==> r[i] == Trim(ps[i])
  {
    if ps == [] then [] else [Trim(ps[0])] + TrimAll(ps[1..])
  }

  /** filter(Boolean) on strings: keep the non-empty ones, in order. */
  function DropEmpty(ps: seq<string>): (r: seq<string>)
    ensures forall p :: p in r <==> p in ps && p != ""
  {
    if ps == [] then [] else (if ps[0] != "" then [ps[0]] else []) + DropEmpty(ps[1..])
  }

  /** `split(',').map(trim).filter(Boolean)`. */
  function ParseEventIds(param: string): seq<Id>
  {
    DropEmpty(TrimAll(Split(param, ',')))
  }

  /** An id is requested iff it is a non-empty trimmed piece of the parameter;
      none is empty, contains a comma, or has white space at either end. */
  lemma ParsedIds(param: string)
    ensures forall id :: id in ParseEventIds(param) <==>
      id != "" && exists p :: p in Split(param, ',') && Trim(p) == id
    ensures forall id :: id in ParseEventIds(param) ==> id != "" && ',' !in id && Trim(id) == id
  {
    var pieces := Split(param, ',');
    var trimmed := TrimAll(pieces);
    forall id ensures id in trimmed <==> exists p :: p in pieces && Trim(p) == id {
      if id in trimmed {
        var k :| 0 <= k < |trimmed| && trimmed[k] == id;
        assert pieces[k] in pieces;
      }
      if exists p :: p in pieces && Trim(p) == id {
        var p :| p in pieces && Trim(p) == id;
        var k :| 0 <= k < |pieces| && pieces[k] == p;
        assert trimmed[k] == id;
      }
    }
    forall id | id in ParseEventIds(param) ensures ',' !in id && Trim(id) == id {
      var k :| 0 <= k < |trimmed| && trimmed[k] == id;
      TrimChars(pieces[k]);
      TrimIdempotent(pieces[k]);
    }
  }

  // ---------------------------------------------------------------------
  // What is counted

  /** The statuses the availability query asks for. */
  predicate Answered(av: Availability)
  {
    av.status == "present" || av.status == "absent"
  }

  /** `Availability.find({ eventId: { $in }, status: { $in: ['present', 'absent'] } })`. */
  function Answers(avs: seq<Availability>, ids: seq<Id>): (r: seq<Availability>)
    ensures forall av :: av in r <==> av in avs && av.eventId in ids && Answered(av)
  {
    if avs == [] then []
    else (if avs[0].eventId in ids && Answered(avs[0]) then [avs[0]] else []) + Answers(avs[1..], ids)
  }

  /** `Event.find({ _id: { $in } })`. */
  function EventsWithIds(events: seq<Event>, ids: seq<Id>): (r: seq<Event>)
    ensures forall e :: e in r ==> e.id in ids
  {
    if events == [] then []
    else (if events[0].id in ids then [events[0]] else []) + EventsWithIds(events[1..], ids)
  }

  /** The team recorded for an event in `eventTeamMap`: the `teamId` of the last
      event read with that id (read without populate, so the team need not
      exist), or None when no such event was found. */
  function LeanTeam(events: seq<Event>, eid: Id): Option<Id>
  {
    if events == [] then None
    else if events[|events| - 1].id == eid then Some(events[|events| - 1].teamId)
    else LeanTeam(events[..|events| - 1], eid)
  }

  /** The record passes the loop's two skips: its child exists, and the child's
      (populated) team and the event's team are not both known and different. */
  predicate Countable(av: Availability, children: seq<Child>, teams: seq<Team>, eventTeam: Option<Id>)
  {
    FindChild(children, av.childId).Some? &&
    !(eventTeam.Some? && ChildTeam(children, teams, av.childId).Some? &&
      eventTeam != ChildTeam(children, teams, av.childId))
  }

  /** The children counted for `eid` over the records, first to last. */
  function Counted(avs: seq<Availability>, children: seq<Child>, teams: seq<Team>, eventTeam: Option<Id>, eid: Id): set<Id>
  {
    if avs == [] then {}
    else
      var av := avs[|avs| - 1];
      Counted(avs[..|avs| - 1], children, teams, eventTeam, eid) +
      (if av.eventId == eid && Answered(av) && Countable(av, children, teams, eventTeam) then {av.childId} else {})
  }

  /** The count of an event is a number of distinct children: a child is
      counted iff some present/absent answer of it for that event passes the
      skips, however many such answers there are. */
  lemma {:induction false} CountedMeans(avs: seq<Availability>, children: seq<Child>, teams: seq<Team>,
                                        eventTeam: Option<Id>, eid: Id, c: Id)
    ensures c in Counted(avs, children, teams, eventTeam, eid) <==>
      exists av :: av in avs && av.eventId == eid && av.childId == c && Answered(av) &&
        Countable(av, children, teams, eventTeam)
  {
    if avs != [] {
      var init := avs[..|avs| - 1];
      CountedMeans(init, children, teams, eventTeam, eid, c);
      assert avs == init + [avs[|avs| - 1]];
      if exists av :: (av in avs && av.eventId == eid && av.childId == c && Answered(av) &&
                       Countable(av, children, teams, eventTeam)) {
        var av :| av in avs && av.eventId == eid && av.childId == c && Answered(av) &&
          Countable(av, children, teams, eventTeam);
        if av != avs[|avs| - 1] {
          assert av in init;
        }
      }
    }
  }

  /** No event gets more than the number of its present/absent records. */
  lemma {:induction false} CountedBound(avs: seq<Availability>, children: seq<Child>, teams: seq<Team>,
                                        eventTeam: Option<Id>, eid: Id)
    ensures |Counted(avs, children, teams, eventTeam, eid)| <= |avs|
  {
    if avs != [] {
      CountedBound(avs[..|avs| - 1], children, teams, eventTeam, eid);
    }
  }

  /** Only the records of the event matter, so the count over the queried
      records is the count over the whole table. */
  lemma {:induction false} CountedAnswers(avs: seq<Availability>, ids: seq<Id>, children: seq<Child>, teams: seq<Team>,
                                          eventTeam: Option<Id>, eid: Id)
    requires eid in ids
    ensures Counted(Answers(avs, ids), children, teams, eventTeam, eid) == Counted(avs, children, teams, eventTeam, eid)
  {
    forall c ensures c in Counted(Answers(avs, ids), children, teams, eventTeam, eid) <==>
                     c in Counted(avs, children, teams, eventTeam, eid) {
      CountedMeans(Answers(avs, ids), children, teams, eventTeam, eid, c);
      CountedMeans(avs, children, teams, eventTeam, eid, c);
    }
  }

  /** Looking only at the requested events does not change a requested
      event's team. */
  lemma {:induction false} LeanTeamOfRequested(events: seq<Event>, ids: seq<Id>, eid: Id)
    requires eid in ids
    ensures LeanTeam(EventsWithIds(events, ids), eid) == LeanTeam(events, eid)
  {
    if events != [] {
      var init := events[..|events| - 1];
      var last := events[|events| - 1];
      LeanTeamOfRequested(init, ids, eid);
      EventsWithIdsLast(events, ids);
      var found := EventsWithIds(init, ids);
      if last.id in ids {
        assert EventsWithIds(events, ids) == found + [last];
        LeanTeamSnoc(found, last, eid);
      } else {
        assert EventsWithIds(events, ids) == found && last.id != eid;
      }
    }
  }

  /** Reading one more event: its team if it has the id, else as before. */
  lemma LeanTeamSnoc(events: seq<Event>, e: Event, eid: Id)
    ensures LeanTeam(events + [e], eid) == if e.id == eid then Some(e.teamId) else LeanTeam(events, eid)
  {
    assert (events + [e])[..|events|] == events;
  }

  lemma EventsWithIdsLast(events: seq<Event>, ids: seq<Id>)
    requires events != []
    ensures EventsWithIds(events, ids) ==
      EventsWithIds(events[..|events| - 1], ids) + (if events[|events| - 1].id in ids then [events[|events| - 1]] else [])
  {
    EventsWithIdsAppend(events[..|events| - 1], events[|events| - 1], ids);
    SplitLast(events);
  }

  lemma {:induction false} EventsWithIdsAppend(events: seq<Event>, e: Event, ids: seq<Id>)
    ensures EventsWithIds(events + [e], ids) == EventsWithIds(events, ids) + (if e.id in ids then [e] else [])
  {
    if events != [] {
      EventsWithIdsAppend(events[1..], e, ids);
      assert (events + [e])[1..] == events[1..] + [e];
    } else {
      assert [e][1..] == [];
    }
  }

  // ---------------------------------------------------------------------
  // The handler

  /** Build `eventTeamMap`: null for every requested id, then the team of each
      event read. */
  method EventTeams(ids: seq<Id>, found: seq<Event>) returns (m: map<Id, Option<Id>>)
    requires forall e :: e in found ==> e.id in ids
    ensures forall k :: k in m <==> k in ids
    ensures forall k :: k in ids ==> m[k] == LeanTeam(found, k)
  {
    m := map[];
    for i := 0 to |ids|
      invariant forall k :: k in m <==> k in ids[..i]
      invariant forall k :: k in m ==> m[k] == None
    {
      m := m[ids[i] := None];
    }
    assert ids[..|ids|] == ids;
    for j := 0 to |found|
      invariant forall k :: k in m <==> k in ids
      invariant forall k :: k in ids ==> m[k] == LeanTeam(found[..j], k)
    {
      assert found[..j + 1][..j] == found[..j];
      assert found[j] in found;
      m := m[found[j].id := Some(found[j].teamId)];
    }
    assert found[..|found|] == found;
  }

  /** One more record extends an event's counted set by at most its child. */
  lemma CountedSnoc(answers: seq<Availability>, j: nat, children: seq<Child>, teams: seq<Team>,
                    eventTeam: Option<Id>, eid: Id)
    requires j < |answers|
    ensures Counted(answers[..j + 1], children, teams, eventTeam, eid) ==
      Counted(answers[..j], children, teams, eventTeam, eid) +
      (if answers[j].eventId == eid && Answered(answers[j]) && Countable(answers[j], children, teams, eventTeam)
       then {answers[j].childId} else {})
  {
    assert answers[..j + 1][..j] == answers[..j];
  }

  /** One event's entry after the record at `j`: its set gains the record's
      child exactly when the record is for it and passes the skips. */
  lemma TallyEntry(answers: seq<Availability>, j: nat, children: seq<Child>, teams: seq<Team>,
                   eventTeam: Option<Id>, k: Id, before: set<Id>, n: nat, after: set<Id>, n': nat)
    requires j < |answers| && Answered(answers[j])
    requires before == Counted(answers[..j], children, teams, eventTeam, k) && n == |before|
    requires var add := answers[j].eventId == k && Countable(answers[j], children, teams, eventTeam) &&
                        answers[j].childId !in before;
      after == (if add then before + {answers[j].childId} else before) && n' == (if add then n + 1 else n)
    ensures after == Counted(answers[..j + 1], children, teams, eventTeam, k) && n' == |after|
  {
    CountedSnoc(answers, j, children, teams, eventTeam, k);
  }

  /** The body of the counting loop for the record at position `j`: a record
      whose child is gone, or whose child's team differs from the event's, is
      skipped; otherwise its child joins the event's set if not yet there. */
  method Tally(ids: seq<Id>, teamOf: map<Id, Option<Id>>, children: seq<Child>, teams: seq<Team>,
               answers: seq<Availability>, j: nat, seen: map<Id, set<Id>>, counts: map<Id, nat>)
    returns (seen': map<Id, set<Id>>, counts': map<Id, nat>)
    requires j < |answers|
    requires forall k :: k in teamOf <==> k in ids
    requires forall k :: k in seen <==> k in ids
    requires forall k :: k in counts <==> k in ids
    requires answers[j].eventId in ids && Answered(answers[j])
    requires forall k :: k in ids ==>
      seen[k] == Counted(answers[..j], children, teams, teamOf[k], k) && counts[k] == |seen[k]|
    ensures forall k :: k in seen' <==> k in ids
    ensures forall k :: k in counts' <==> k in ids
    ensures forall k :: k in ids ==>
      seen'[k] == Counted(answers[..j + 1], children, teams, teamOf[k], k) && counts'[k] == |seen'[k]|
  {
    seen', counts' := seen, counts;
    var av := answers[j];
    var eid := av.eventId;
    var add := false;
    if FindChild(children, av.childId).Some? {
      var eventTeam := teamOf[eid];
      var childTeam := ChildTeam(children, teams, av.childId);
      if !(eventTeam.Some? && childTeam.Some? && eventTeam != childTeam) && av.childId !in seen[eid] {
        add := true;
        seen' := seen[eid := seen[eid] + {av.childId}];
        counts' := counts[eid := counts[eid] + 1];
      }
    }
    assert add <==> Countable(av, children, teams, teamOf[eid]) && av.childId !in seen[eid];
    forall k | k in ids
      ensures seen'[k] == Counted(answers[..j + 1], children, teams, teamOf[k], k) && counts'[k] == |seen'[k]|
    {
      TallyEntry(answers, j, children, teams, teamOf[k], k, seen[k], counts[k], seen'[k], counts'[k]);
    }
  }

  /** `counts[eid] = 0` and an empty `seenPerEvent` set for every requested id. */
  method NothingSeen(ids: seq<Id>) returns (seen: map<Id, set<Id>>, counts: map<Id, nat>)
    ensures forall k :: k in counts <==> k in ids
    ensures forall k :: k in seen <==> k in ids
    ensures forall k :: k in ids ==> counts[k] == 0 && seen[k] == {}
  {
    counts, seen := map[], map[];
    for i := 0 to |ids|
      invariant forall k :: k in counts <==> k in ids[..i]
      invariant forall k :: k in seen <==> k in ids[..i]
      invariant forall k :: k in counts ==> counts[k] == 0 && seen[k] == {}
    {
      counts := counts[ids[i] := 0];
      seen := seen[ids[i] := {}];
    }
    assert ids[..|ids|] == ids;
  }

  /** The counting loop over the queried records: every requested id keeps a
      key, and its value is the number of distinct children counted so far. */
  method CountLoop(ids: seq<Id>, answers: seq<Availability>, teamOf: map<Id, Option<Id>>,
                   children: seq<Child>, teams: seq<Team>) returns (counts: map<Id, nat>)
    requires forall k :: k in teamOf <==> k in ids
    requires forall av :: av in answers ==> av.eventId in ids && Answered(av)
    ensures forall k :: k in counts <==> k in ids
    ensures forall k :: k in ids ==> counts[k] == |Counted(answers, children, teams, teamOf[k], k)|
  {
    var seen;
    seen, counts := NothingSeen(ids);
    for j := 0 to |answers|
      invariant forall k :: k in counts <==> k in ids
      invariant forall k :: k in seen <==> k in ids
      invariant forall k :: k in ids ==>
        seen[k] == Counted(answers[..j], children, teams, teamOf[k], k) && counts[k] == |seen[k]|
    {
      assert answers[j] in answers;
      seen, counts := Tally(ids, teamOf, children, teams, answers, j, seen, counts);
    }
    assert answers[..|answers|] == answers;
  }

  /** GET: 403 unless educator or admin, 400 without the parameter, an empty
      map when no id survives parsing, else one count per requested id. */
  method CountAvailabilities(db: Db, auth: Option<AuthUser>, eventIds: Option<string>)
    returns (resp: Response<map<Id, nat>>)
    ensures auth.None? || !IsStaff(auth.value.role) ==> resp == Fail(403, NotAuthorized)
    ensures auth.Some? && IsStaff(auth.value.role) && !Truthy(eventIds) ==> resp == Fail(400, EventIdsRequired)
    ensures auth.Some? && IsStaff(auth.value.role) && Truthy(eventIds) ==>
      var ids := ParseEventIds(eventIds.value);
      resp.Ok? && resp.status == 200 &&
      (forall k :: k in resp.body <==> k in ids) &&
      forall k :: k in ids ==>
        resp.body[k] == |Counted(db.availabilities, db.children, db.teams, LeanTeam(db.events, k), k)|
  {
    if auth.None? || !IsStaff(auth.value.role) {
      return Fail(403, NotAuthorized);
    }
    if !Truthy(eventIds) {
      return Fail(400, EventIdsRequired);
    }
    var ids := ParseEventIds(eventIds.value);
    if |ids| == 0 {
      return Ok(200, map[]);
    }
    var found := EventsWithIds(db.events, ids);
    var teamOf := EventTeams(ids, found);
    var answers := Answers(db.availabilities, ids);
    var counts := CountLoop(ids, answers, teamOf, db.children, db.teams);
    forall k | k in ids
      ensures counts[k] == |Counted(db.availabilities, db.children, db.teams, LeanTeam(db.events, k), k)|
    {
      LeanTeamOfRequested(db.events, ids, k);
      CountedAnswers(db.availabilities, ids, db.children, db.teams, teamOf[k], k);
    }
    resp := Ok(200, counts);
  }
}
