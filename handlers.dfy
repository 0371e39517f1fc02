/**
 * The views of registrations/views.py carried out on the stored tables: `register` with its
 * four writes and their notification mails, `remove_exhibit`, and `printout`. The decisions
 * are those of module Views; here they change a `Registry`.
 */
module Handlers {
  import opened Records
  import opened Query
  import opened Store
  import opened Printouts
  import opened Views

  /** What a view returns: a redirect, the registration page, or the printout page. */
  datatype Response = RedirectTo(to: Target) | Render(page: Page) | RenderPrintout(sections: seq<Section>)

  /** The mails sent: none, or the one composed. */
  function Sent(m: Option<Mail>): (r: seq<Mail>)
    ensures |r| <= 1 && (r == [] <==> m.None?)
  {
    if m.Some? then [m.value] else []
  }

  /** Whatever a user's own records are, a valid database can print them. */
  lemma OwnRecordsPrintable(db: Registry, p: Participant)
    requires db.Valid() && p in db.participants
    ensures ParticipantChoicesValid(db.config, p)
    ensures AppointmentsOf(db.appointments, p.id).Some? ==>
              AppointmentsChoicesValid(AppointmentsOf(db.appointments, p.id).value)
    ensures ExhibitsPrintable(ExhibitsOf(db.exhibits, p.id)) && RowsPrintable(db.participations)
    ensures p.id in ParticipantIds(db.participants)
  {
    var i :| 0 <= i < |db.participants| && db.participants[i] == p;
    assert ParticipantIds(db.participants)[i] == p.id;
  }

  // ---------------------------------------------------------------------------
  // The writes of `register`
  // ---------------------------------------------------------------------------

  /**
   * What the personal form does to the tables: the user's participant record takes the posted
   * data under its own key, or the data is stored under the next key. Afterwards the user's
   * record is the posted data, every other account's record is still stored, and no other
   * table changes.
   */
  function PersonalWrite(t: Tables, user: int, form: Participant): (r: Tables)
    ensures UserParticipant(r.participants, user).Some?
    ensures var s := UserParticipant(r.participants, user).value; s == form.(id := s.id, user := Some(user))
    ensures forall q :: q in t.participants && q.user != Some(user) ==> q in r.participants
    ensures r.federations == t.federations && r.appointments == t.appointments && r.exhibits == t.exhibits
    ensures r.participations == t.participations && r.travels == t.travels && t.nextId <= r.nextId
  {
    var k := UserIndex(t.participants, user);
    if k.Some? then
      var s := form.(id := t.participants[k.value].id, user := Some(user));
      UserParticipantSaved(t.participants, user, s);
      UpdateKeepsOthers(t.participants, k.value, s);
      t.(participants := t.participants[k.value := s])
    else
      var s := form.(id := t.nextId, user := Some(user));
      UserParticipantSaved(t.participants, user, s);
      t.(participants := t.participants + [s], nextId := t.nextId + 1)
  }

  /**
   * What the appointments form does to the tables: the participant's first appointments
   * record takes the posted data, or the data is stored under the next key. Afterwards that
   * lookup finds the posted data, every other participant's record is still stored, and no
   * other table changes.
   */
  function AppointmentsWrite(t: Tables, pid: int, form: Appointments): (r: Tables)
    ensures AppointmentsOf(r.appointments, pid).Some?
    ensures var s := AppointmentsOf(r.appointments, pid).value; s == form.(id := s.id, participant := pid)
    ensures forall a :: a in t.appointments && a.participant != pid ==> a in r.appointments
    ensures r.participants == t.participants && r.federations == t.federations && r.exhibits == t.exhibits
    ensures r.participations == t.participations && r.travels == t.travels && t.nextId <= r.nextId
  {
    var k := AppointmentsIndex(t.appointments, pid);
    if k.Some? then
      var s := form.(id := t.appointments[k.value].id, participant := pid);
      AppointmentsSaved(t.appointments, pid, s);
      UpdateKeepsOthers(t.appointments, k.value, s);
      t.(appointments := t.appointments[k.value := s])
    else
      var s := form.(id := t.nextId, participant := pid);
      AppointmentsSaved(t.appointments, pid, s);
      t.(appointments := t.appointments + [s], nextId := t.nextId + 1)
  }

  /**
   * What the travel form does to the tables: the participant's first travel record takes the
   * posted data, or the data is stored under the next key; nothing else changes.
   */
  function TravelWrite(t: Tables, pid: int, form: TravelDetails): (r: Tables)
    ensures TravelOf(r.travels, pid).Some?
    ensures var s := TravelOf(r.travels, pid).value; s == form.(id := s.id, participant := pid)
    ensures forall x :: x in t.travels && x.participant != pid ==> x in r.travels
    ensures r.participants == t.participants && r.federations == t.federations && r.appointments == t.appointments
    ensures r.exhibits == t.exhibits && r.participations == t.participations && t.nextId <= r.nextId
  {
    var k := TravelIndex(t.travels, pid);
    if k.Some? then
      var s := form.(id := t.travels[k.value].id, participant := pid);
      TravelSaved(t.travels, pid, s);
      UpdateKeepsOthers(t.travels, k.value, s);
      t.(travels := t.travels[k.value := s])
    else
      var s := form.(id := t.nextId, participant := pid);
      TravelSaved(t.travels, pid, s);
      t.(travels := t.travels + [s], nextId := t.nextId + 1)
  }

  /**
   * The entry the entry form stores: the posted data under the edited entry's key, with that
   * entry's ISBN and rejection mark, or under the next key, without ISBN and not rejected.
   */
  function SavedExhibit(t: Tables, pid: int, existing: Option<int>, form: Exhibit): (e: Exhibit)
    ensures e == form.(id := e.id, participant := pid, isbn := e.isbn, rejected := e.rejected)
    ensures existing.Some? && existing.value in ExhibitIds(t.exhibits) ==>
              e.id == existing.value &&
              exists i :: 0 <= i < |t.exhibits| && t.exhibits[i].id == e.id &&
                          e.isbn == t.exhibits[i].isbn && e.rejected == t.exhibits[i].rejected
    ensures !(existing.Some? && existing.value in ExhibitIds(t.exhibits)) ==>
              e.id == t.nextId && e.isbn == "" && !e.rejected
  {
    var k := if existing.Some? then ExhibitIndex(t.exhibits, existing.value) else None;
    if k.Some? then
      form.(id := existing.value, participant := pid, isbn := t.exhibits[k.value].isbn,
            rejected := t.exhibits[k.value].rejected)
    else
      form.(id := t.nextId, participant := pid, isbn := "", rejected := false)
  }

  /**
   * What storing the entry form does to the tables: the entry `SavedExhibit` describes
   * overwrites the edited entry, or is added after the others under the next key. Afterwards
   * it is stored, every entry under another key is still stored, and only the entry table and
   * the key counter change.
   */
  function EntryWrite(t: Tables, pid: int, existing: Option<int>, form: Exhibit): (r: Tables)
    ensures SavedExhibit(t, pid, existing, form) in r.exhibits
    ensures forall x :: x in t.exhibits && x.id != SavedExhibit(t, pid, existing, form).id ==> x in r.exhibits
    ensures r == t.(exhibits := r.exhibits, nextId := r.nextId) && t.nextId <= r.nextId
  {
    var e := SavedExhibit(t, pid, existing, form);
    var k := if existing.Some? then ExhibitIndex(t.exhibits, existing.value) else None;
    if k.Some? then
      UpdateKeepsOthers(t.exhibits, k.value, e);
      t.(exhibits := t.exhibits[k.value := e])
    else
      t.(exhibits := t.exhibits + [e], nextId := t.nextId + 1)
  }

  /**
   * What the entry form does to the tables: the entry is stored as `EntryWrite` says, then its
   * participations become the posted rows under new keys. Afterwards the saved entry is
   * stored, its participations are the posted rows, every other entry and every other entry's
   * participations are kept, and the participant, federation, appointments and travel tables
   * do not change.
   */
  function ExhibitWrite(t: Tables, pid: int, existing: Option<int>, form: Exhibit,
                        rows: seq<ExhibitParticipation>): (r: Tables)
    ensures var e := SavedExhibit(t, pid, existing, form);
            e in r.exhibits &&
            ParticipationsOf(r.participations, e.id) == Renumbered(rows, e.id, r.nextId - |rows|) &&
            (forall x :: x in t.exhibits && x.id != e.id ==> x in r.exhibits) &&
            (forall other :: other != e.id ==> ParticipationsOf(r.participations, other) == ParticipationsOf(t.participations, other))
    ensures r.participants == t.participants && r.federations == t.federations
    ensures r.appointments == t.appointments && r.travels == t.travels && t.nextId + |rows| <= r.nextId
  {
    ParticipationsWrite(EntryWrite(t, pid, existing, form), SavedExhibit(t, pid, existing, form).id, rows)
  }

  /**
   * What a POST the dispatch lets through does to the tables, for the user as looked up in
   * them; any other action leaves them as they are. No action changes the federations or
   * hands out a key twice.
   */
  function StepWrite(t: Tables, user: int, action: Action, posted: Posted): (r: Tables)
    ensures !Saves(action) ==> r == t
    ensures r.federations == t.federations && t.nextId <= r.nextId
  {
    var participant := UserParticipant(t.participants, user);
    if action.SavePersonal? then PersonalWrite(t, user, posted.personal)
    else if participant.None? then t
    else if action.SaveAppointments? then AppointmentsWrite(t, participant.value.id, posted.appointments)
    else if action.SaveExhibit? then
      ExhibitWrite(t, participant.value.id, action.existing, posted.exhibit, posted.rows)
    else if action.SaveTravel? then TravelWrite(t, participant.value.id, posted.travel)
    else t
  }

  /**
   * The personal form saved: the user's participant record takes the posted data, keeping
   * its key, or a record is created under the next key; either way it belongs to the user.
   */
  method SavePersonal(db: Registry, user: int, form: Participant) returns (saved: Participant)
    requires db.Valid() && ParticipantChoicesValid(db.config, form)
    modifies db
    ensures db.Valid()
    ensures saved == form.(id := saved.id, user := Some(user))
    ensures UserParticipant(db.participants, user) == Some(saved)
    ensures var k := UserIndex(old(db.participants), user);
            if k.Some? then
              saved.id == old(db.participants)[k.value].id &&
              db.participants == old(db.participants)[k.value := saved] && db.nextId == old(db.nextId)
            else
              saved.id == old(db.nextId) &&
              db.participants == old(db.participants) + [saved] && db.nextId == old(db.nextId) + 1
    ensures db.federations == old(db.federations) && db.appointments == old(db.appointments)
    ensures db.exhibits == old(db.exhibits) && db.participations == old(db.participations)
    ensures db.travels == old(db.travels)
    ensures db.Snapshot() == PersonalWrite(old(db.Snapshot()), user, form)
  {
    ghost var before := db.Snapshot();
    var k := UserIndex(db.participants, user);
    if k.Some? {
      saved := form.(id := db.participants[k.value].id, user := Some(user));
      UserParticipantSaved(db.participants, user, saved);
      db.UpdateParticipant(k.value, saved);
      assert db.Snapshot() == PersonalWrite(before, user, form);
    } else {
      UserParticipantSaved(db.participants, user, form.(id := db.nextId, user := Some(user)));
      saved := db.InsertParticipant(form.(user := Some(user)));
      assert db.Snapshot() == PersonalWrite(before, user, form);
    }
  }

  /**
   * The appointments form saved: the participant's first appointments record takes the
   * posted data, or one is created under the next key.
   */
  method SaveAppointments(db: Registry, pid: int, form: Appointments) returns (saved: Appointments)
    requires db.Valid() && pid in ParticipantIds(db.participants)
    requires form.federation.Some? && form.federation.value in FederationIds(db.federations)
    requires AppointmentsChoicesValid(form)
    modifies db
    ensures db.Valid()
    ensures saved == form.(id := saved.id, participant := pid)
    ensures AppointmentsOf(db.appointments, pid) == Some(saved)
    ensures var k := AppointmentsIndex(old(db.appointments), pid);
            if k.Some? then
              saved.id == old(db.appointments)[k.value].id &&
              db.appointments == old(db.appointments)[k.value := saved] && db.nextId == old(db.nextId)
            else
              saved.id == old(db.nextId) &&
              db.appointments == old(db.appointments) + [saved] && db.nextId == old(db.nextId) + 1
    ensures db.participants == old(db.participants) && db.federations == old(db.federations)
    ensures db.exhibits == old(db.exhibits) && db.participations == old(db.participations)
    ensures db.travels == old(db.travels)
    ensures db.Snapshot() == AppointmentsWrite(old(db.Snapshot()), pid, form)
  {
    ghost var before := db.Snapshot();
    var k := AppointmentsIndex(db.appointments, pid);
    if k.Some? {
      saved := form.(id := db.appointments[k.value].id, participant := pid);
      AppointmentsSaved(db.appointments, pid, saved);
      db.UpdateAppointments(k.value, saved);
      assert db.Snapshot() == AppointmentsWrite(before, pid, form);
    } else {
      AppointmentsSaved(db.appointments, pid, form.(id := db.nextId, participant := pid));
      saved := db.InsertAppointments(form.(participant := pid));
      assert db.Snapshot() == AppointmentsWrite(before, pid, form);
    }
  }

  /**
   * The travel form saved: the participant's first travel record takes the posted data, or
   * one is created under the next key.
   */
  method SaveTravel(db: Registry, pid: int, form: TravelDetails) returns (saved: TravelDetails)
    requires db.Valid() && pid in ParticipantIds(db.participants)
    modifies db
    ensures db.Valid()
    ensures saved == form.(id := saved.id, participant := pid)
    ensures TravelOf(db.travels, pid) == Some(saved)
    ensures var k := TravelIndex(old(db.travels), pid);
            if k.Some? then
              saved.id == old(db.travels)[k.value].id &&
              db.travels == old(db.travels)[k.value := saved] && db.nextId == old(db.nextId)
            else
              saved.id == old(db.nextId) &&
              db.travels == old(db.travels) + [saved] && db.nextId == old(db.nextId) + 1
    ensures db.participants == old(db.participants) && db.federations == old(db.federations)
    ensures db.appointments == old(db.appointments)
    ensures db.exhibits == old(db.exhibits) && db.participations == old(db.participations)
    ensures db.Snapshot() == TravelWrite(old(db.Snapshot()), pid, form)
  {
    ghost var before := db.Snapshot();
    var k := TravelIndex(db.travels, pid);
    if k.Some? {
      saved := form.(id := db.travels[k.value].id, participant := pid);
      TravelSaved(db.travels, pid, saved);
      db.UpdateTravel(k.value, saved);
      assert db.Snapshot() == TravelWrite(before, pid, form);
    } else {
      TravelSaved(db.travels, pid, form.(id := db.nextId, participant := pid));
      saved := db.InsertTravel(form.(participant := pid));
      assert db.Snapshot() == TravelWrite(before, pid, form);
    }
  }

  /**
   * The entry form saved: an edited entry takes the posted data and keeps its key, its ISBN
   * and its rejection mark (fields the form does not carry); a new entry is created under the
   * next key, not rejected and without ISBN.
   */
  method StoreExhibit(db: Registry, pid: int, existing: Option<int>, form: Exhibit) returns (saved: Exhibit)
    requires db.Valid() && pid in ParticipantIds(db.participants) && ExhibitChoicesValid(form)
    requires existing.Some? ==> existing.value in ExhibitIds(db.exhibits)
    modifies db
    ensures db.Valid() && saved.id in ExhibitIds(db.exhibits)
    ensures saved == form.(id := saved.id, participant := pid, isbn := saved.isbn, rejected := saved.rejected)
    ensures existing.Some? ==>
              var k := ExhibitIndex(old(db.exhibits), existing.value);
              k.Some? && saved.id == existing.value &&
              saved.isbn == old(db.exhibits)[k.value].isbn && saved.rejected == old(db.exhibits)[k.value].rejected &&
              db.exhibits == old(db.exhibits)[k.value := saved] && db.nextId == old(db.nextId)
    ensures existing.None? ==>
              saved.id == old(db.nextId) && saved.isbn == "" && !saved.rejected &&
              db.exhibits == old(db.exhibits) + [saved] && db.nextId == old(db.nextId) + 1
    ensures db.participants == old(db.participants) && db.federations == old(db.federations)
    ensures db.appointments == old(db.appointments) && db.participations == old(db.participations)
    ensures db.travels == old(db.travels)
    ensures saved == SavedExhibit(old(db.Snapshot()), pid, existing, form)
    ensures db.Snapshot() == EntryWrite(old(db.Snapshot()), pid, existing, form)
  {
    if existing.Some? {
      var k := ExhibitIndex(db.exhibits, existing.value);
      if k.None? {
        assert false;
      }
      saved := form.(id := existing.value, participant := pid, isbn := db.exhibits[k.value].isbn,
                     rejected := db.exhibits[k.value].rejected);
      db.UpdateExhibit(k.value, saved);
      assert ExhibitIds(db.exhibits)[k.value] == saved.id;
    } else {
      saved := db.InsertExhibit(form.(participant := pid, isbn := "", rejected := false));
      assert ExhibitIds(db.exhibits)[|db.exhibits| - 1] == saved.id;
    }
  }

  /**
   * The entry form saved with its participation rows: after the entry is stored, the
   * participation table holds the other entries' rows followed by the posted rows, each under a
   * new key from `first` on (`ReplacedParticipationsOf` says what each entry then reads back).
   */
  method SaveExhibit(db: Registry, pid: int, existing: Option<int>, form: Exhibit,
                     rows: seq<ExhibitParticipation>) returns (saved: Exhibit, first: int)
    requires db.Valid() && pid in ParticipantIds(db.participants) && ExhibitChoicesValid(form)
    requires forall j :: 0 <= j < |rows| ==> ParticipationChoicesValid(rows[j])
    requires existing.Some? ==> existing.value in ExhibitIds(db.exhibits)
    modifies db
    ensures db.Valid()
    ensures saved == form.(id := saved.id, participant := pid, isbn := saved.isbn, rejected := saved.rejected)
    ensures existing.Some? ==>
              var k := ExhibitIndex(old(db.exhibits), existing.value);
              saved.id == existing.value && k.Some? && db.exhibits == old(db.exhibits)[k.value := saved]
    ensures existing.None? ==> saved.id == old(db.nextId) && db.exhibits == old(db.exhibits) + [saved]
    ensures saved in db.exhibits
    ensures first == old(db.nextId) + (if existing.None? then 1 else 0) && db.nextId == first + |rows|
    ensures db.participations == OtherParticipations(old(db.participations), saved.id) + Renumbered(rows, saved.id, first)
    ensures db.participants == old(db.participants) && db.federations == old(db.federations)
    ensures db.appointments == old(db.appointments) && db.travels == old(db.travels)
    ensures db.Snapshot() == ExhibitWrite(old(db.Snapshot()), pid, existing, form, rows)
  {
    saved := StoreExhibit(db, pid, existing, form);
    first := db.nextId;
    db.ReplaceParticipations(saved.id, rows);
  }

  // ---------------------------------------------------------------------------
  // `register`
  // ---------------------------------------------------------------------------

  /** What `register` does with a request, given the database as it stands. */
  function Decision(db: Registry, req: Request, posted: Posted): Action
    reads db
  {
    Dispatch(db.config, UserParticipant(db.participants, req.user.id), db.exhibits, req,
             FormValid(db.config, db.federations, req.step, posted), FormsetValid(posted))
  }

  /** The registration page with a form, for the database as it stands. */
  function PageFor(db: Registry, req: Request, title: string, removeExhibit: Option<int>): Page
    reads db
  {
    RegisterPage(UserParticipant(db.participants, req.user.id), db.appointments, db.exhibits, db.travels,
                 req, title, removeExhibit)
  }

  /** The mail sent about a participant's appointments as stored. */
  function AppointmentsMailSent(db: Registry, p: Participant): seq<Mail>
    reads db
    requires db.Valid() && p in db.participants && AppointmentsOf(db.appointments, p.id).Some?
  {
    OwnRecordsPrintable(db, p);
    Sent(AppointmentsMail(db.config, db.federations, p, AppointmentsOf(db.appointments, p.id).value))
  }

  /** The mail sent about a participant's entry as stored, with its participations as stored. */
  function EntryMailSent(db: Registry, p: Participant, e: Exhibit): seq<Mail>
    reads db
    requires db.Valid() && p in db.participants && e in db.exhibits
  {
    OwnRecordsPrintable(db, p);
    RowsOfPrintable(db.participations, e.id);
    Sent(EntryMail(db.config, db.participants, db.federations, db.appointments, p, e,
                   ParticipationsOf(db.participations, e.id)))
  }

  /** A valid personal form: the user's participant record takes the posted data, and the page reloads the step. */
  method RegisterPersonal(db: Registry, user: int, form: Participant) returns (resp: Response, mails: seq<Mail>)
    requires db.Valid() && ParticipantChoicesValid(db.config, form)
    modifies db
    ensures db.Valid()
    ensures resp == RedirectTo(StepPage("personal")) && mails == []
    ensures UserParticipant(db.participants, user).Some?
    ensures var s := UserParticipant(db.participants, user).value; s == form.(id := s.id, user := Some(user))
    ensures db.Snapshot() == PersonalWrite(old(db.Snapshot()), user, form)
  {
    var saved := SavePersonal(db, user, form);
    resp, mails := RedirectTo(StepPage("personal")), [];
  }

  /** A valid travel form: the participant's travel details take the posted data, and the page reloads the step. */
  method RegisterTravel(db: Registry, p: Participant, form: TravelDetails) returns (resp: Response, mails: seq<Mail>)
    requires db.Valid() && p in db.participants
    modifies db
    ensures db.Valid()
    ensures resp == RedirectTo(StepPage("travel")) && mails == []
    ensures TravelOf(db.travels, p.id).Some?
    ensures var s := TravelOf(db.travels, p.id).value; s == form.(id := s.id, participant := p.id)
    ensures db.Snapshot() == TravelWrite(old(db.Snapshot()), p.id, form)
  {
    var ps := db.participants;
    assert p.id in ParticipantIds(ps) by {
      OwnRecordsPrintable(db, p);
    }
    var saved := SaveTravel(db, p.id, form);
    resp, mails := RedirectTo(StepPage("travel")), [];
  }

  /**
   * A valid appointments form: the participant's appointments take the posted data, the
   * federation is notified, and the page reloads the step.
   */
  method RegisterAppointments(db: Registry, p: Participant, form: Appointments) returns (resp: Response, mails: seq<Mail>)
    requires db.Valid() && p in db.participants
    requires form.federation.Some? && form.federation.value in FederationIds(db.federations)
    requires AppointmentsChoicesValid(form)
    modifies db
    ensures db.Valid() && p in db.participants
    ensures resp == RedirectTo(StepPage("appointments"))
    ensures AppointmentsOf(db.appointments, p.id).Some?
    ensures var s := AppointmentsOf(db.appointments, p.id).value;
            s == form.(id := s.id, participant := p.id) && mails == AppointmentsMailSent(db, p)
    ensures db.participants == old(db.participants) && db.federations == old(db.federations)
    ensures db.exhibits == old(db.exhibits) && db.participations == old(db.participations)
    ensures db.travels == old(db.travels)
    ensures db.Snapshot() == AppointmentsWrite(old(db.Snapshot()), p.id, form)
  {
    OwnRecordsPrintable(db, p);
    var saved := SaveAppointments(db, p.id, form);
    mails := AppointmentsMailSent(db, p);
    resp := RedirectTo(StepPage("appointments"));
  }

  /**
   * A valid entry form with valid rows: the entry and its participations are saved, the
   * commissioner of the exhibitor's country is notified, and the page of the saved entry
   * follows.
   */
  method RegisterEntry(db: Registry, p: Participant, existing: Option<int>, form: Exhibit,
                       rows: seq<ExhibitParticipation>) returns (resp: Response, mails: seq<Mail>, saved: Exhibit)
    requires db.Valid() && p in db.participants && ExhibitChoicesValid(form)
    requires forall j :: 0 <= j < |rows| ==> ParticipationChoicesValid(rows[j])
    requires existing.Some? ==> Owns(Some(p), db.exhibits, existing.value)
    modifies db
    ensures db.Valid() && p in db.participants && saved in db.exhibits
    ensures resp == RedirectTo(EditExhibitPage(saved.id))
    ensures saved == form.(id := saved.id, participant := p.id, isbn := saved.isbn, rejected := saved.rejected)
    ensures existing.Some? ==> saved.id == existing.value
    ensures existing.None? ==> saved.id == old(db.nextId)
    ensures mails == EntryMailSent(db, p, saved)
    ensures ExhibitIndex(db.exhibits, saved.id).Some? && db.exhibits[ExhibitIndex(db.exhibits, saved.id).value] == saved
    ensures db.participants == old(db.participants) && db.federations == old(db.federations)
    ensures db.appointments == old(db.appointments) && db.travels == old(db.travels)
    ensures db.Snapshot() == ExhibitWrite(old(db.Snapshot()), p.id, existing, form, rows)
  {
    var ps := db.participants;
    assert p.id in ParticipantIds(ps) by { OwnRecordsPrintable(db, p); }
    if existing.Some? {
      var i :| 0 <= i < |db.exhibits| && db.exhibits[i].id == existing.value && db.exhibits[i].participant == p.id;
      assert ExhibitIds(db.exhibits)[i] == existing.value;
    }
    var first;
    saved, first := SaveExhibit(db, p.id, existing, form, rows);
    mails := EntryMailSent(db, p, saved);
    resp := RedirectTo(EditExhibitPage(saved.id));
    ExhibitIndexFinds(db.exhibits, saved);
  }

  /**
   * What the write of a step leaves behind, for the user's participant record as looked up
   * before it: the response, the mails, and the step's record as the lookup now finds it,
   * holding the posted data.
   */
  predicate StepSaved(db: Registry, user: int, participant: Option<Participant>, action: Action, posted: Posted,
                      resp: Response, mails: seq<Mail>)
    reads db
    requires db.Valid()
  {
    (action.SavePersonal? ==>
       resp == RedirectTo(StepPage("personal")) && mails == [] &&
       UserParticipant(db.participants, user).Some? &&
       var s := UserParticipant(db.participants, user).value;
       s == posted.personal.(id := s.id, user := Some(user))) &&
    (action.SaveAppointments? ==>
       participant.Some? && participant.value in db.participants && resp == RedirectTo(StepPage("appointments")) &&
       AppointmentsOf(db.appointments, participant.value.id).Some? &&
       var s := AppointmentsOf(db.appointments, participant.value.id).value;
       s == posted.appointments.(id := s.id, participant := participant.value.id) &&
       mails == AppointmentsMailSent(db, participant.value)) &&
    (action.SaveExhibit? ==>
       participant.Some? && participant.value in db.participants && resp.RedirectTo? && resp.to.EditExhibitPage? &&
       (action.existing.Some? ==> resp.to.id == action.existing.value) &&
       ExhibitIndex(db.exhibits, resp.to.id).Some? &&
       var e := db.exhibits[ExhibitIndex(db.exhibits, resp.to.id).value];
       e == posted.exhibit.(id := e.id, participant := participant.value.id, isbn := e.isbn, rejected := e.rejected) &&
       mails == EntryMailSent(db, participant.value, e)) &&
    (action.SaveTravel? ==>
       participant.Some? && resp == RedirectTo(StepPage("travel")) && mails == [] &&
       TravelOf(db.travels, participant.value.id).Some? &&
       var s := TravelOf(db.travels, participant.value.id).value;
       s == posted.travel.(id := s.id, participant := participant.value.id))
  }

  /**
   * The write of a POST the dispatch lets through, for the user's participant record as
   * looked up: the step's record takes the posted form, the notifications of the step are
   * composed, and the response redirects to the step (to the saved entry's page for an entry).
   */
  method SaveStep(db: Registry, user: int, participant: Option<Participant>, action: Action, posted: Posted)
      returns (resp: Response, mails: seq<Mail>)
    requires db.Valid() && participant == UserParticipant(db.participants, user) && Saves(action)
    requires action.SavePersonal? ==> ParticipantChoicesValid(db.config, posted.personal)
    requires action.SaveAppointments? ==>
               participant.Some? && posted.appointments.federation.Some? &&
               posted.appointments.federation.value in FederationIds(db.federations) &&
               AppointmentsChoicesValid(posted.appointments)
    requires action.SaveExhibit? ==>
               participant.Some? && ExhibitChoicesValid(posted.exhibit) &&
               (forall j :: 0 <= j < |posted.rows| ==> ParticipationChoicesValid(posted.rows[j])) &&
               (action.existing.Some? ==> Owns(participant, db.exhibits, action.existing.value))
    requires action.SaveTravel? ==> participant.Some?
    modifies db
    ensures db.Valid()
    ensures StepSaved(db, user, participant, action, posted, resp, mails)
    ensures db.Snapshot() == StepWrite(old(db.Snapshot()), user, action, posted)
  {
    ghost var before := db.Snapshot();
    if action.SavePersonal? {
      resp, mails := RegisterPersonal(db, user, posted.personal);
    } else if action.SaveAppointments? {
      resp, mails := RegisterAppointments(db, participant.value, posted.appointments);
    } else if action.SaveExhibit? {
      var saved;
      resp, mails, saved := RegisterEntry(db, participant.value, action.existing, posted.exhibit, posted.rows);
    } else {
      resp, mails := RegisterTravel(db, participant.value, posted.travel);
    }
    assert db.Snapshot() == StepWrite(before, user, action, posted);
  }

  /**
   * `register`: the dispatch decides; a request that writes nothing is redirected or shown the
   * page with the step's form and changes nothing; any other request makes the write of its
   * step.
   */
  method Register(db: Registry, req: Request, posted: Posted) returns (resp: Response, mails: seq<Mail>)
    requires db.Valid()
    modifies db
    ensures db.Valid()
    ensures var a := old(Decision(db, req, posted));
            !Saves(a) ==>
              mails == [] && unchanged(db) &&
              (a.Redirect? ==> resp == RedirectTo(a.to)) &&
              (a.ShowForm? ==> resp == Render(old(PageFor(db, req, a.title, a.removeExhibit))))
    ensures Saves(old(Decision(db, req, posted))) ==>
              StepSaved(db, req.user.id, old(UserParticipant(db.participants, req.user.id)),
                        old(Decision(db, req, posted)), posted, resp, mails)
    ensures old(Decision(db, req, posted)).SaveExhibit? && req.exhibitId.Some? ==>
              resp.RedirectTo? && resp.to.EditExhibitPage? && resp.to.id == req.exhibitId.value
    ensures db.Snapshot() == StepWrite(old(db.Snapshot()), req.user.id, old(Decision(db, req, posted)), posted)
  {
    ghost var before := db.Snapshot();
    var participant := UserParticipant(db.participants, req.user.id);
    var formValid := FormValid(db.config, db.federations, req.step, posted);
    var formsetValid := FormsetValid(posted);
    var action := Dispatch(db.config, participant, db.exhibits, req, formValid, formsetValid);
    DispatchSavesIff(db.config, participant, db.exhibits, req, formValid, formsetValid);
    DispatchRoutes(db.config, participant, db.exhibits, req, formValid, formsetValid);
    if !Saves(action) {
      mails := [];
      if action.Redirect? {
        resp := RedirectTo(action.to);
      } else {
        resp := Render(PageFor(db, req, action.title, action.removeExhibit));
      }
    } else {
      resp, mails := SaveStep(db, req.user.id, participant, action, posted);
    }
    assert db.Snapshot() == StepWrite(before, req.user.id, action, posted);
  }

  // ---------------------------------------------------------------------------
  // `remove_exhibit`
  // ---------------------------------------------------------------------------

  /**
   * `remove_exhibit`: the user's own entry is deleted together with its previous
   * participations; a request for any other key changes nothing. Either way the
   * answer is the exhibit step, and afterwards the user owns no entry under that key.
   */
  method RemoveExhibit(db: Registry, user: int, id: int) returns (resp: Response)
    requires db.Valid()
    modifies db
    ensures db.Valid()
    ensures resp == RedirectTo(StepPage("exhibit"))
    ensures old(Owns(UserParticipant(db.participants, user), db.exhibits, id)) ==>
              db.exhibits == OtherExhibits(old(db.exhibits), id) &&
              db.participations == OtherParticipations(old(db.participations), id)
    ensures !old(Owns(UserParticipant(db.participants, user), db.exhibits, id)) ==> unchanged(db)
    ensures forall e :: e in old(db.exhibits) && e.id != id ==> e in db.exhibits
    ensures !Owns(UserParticipant(db.participants, user), db.exhibits, id)
    ensures db.participants == old(db.participants) && db.federations == old(db.federations)
    ensures db.appointments == old(db.appointments) && db.travels == old(db.travels)
  {
    var participant := UserParticipant(db.participants, user);
    if RemoveDecision(participant, db.exhibits, id) == Delete(id) {
      db.DeleteExhibit(id);
      var es := db.exhibits;
      assert forall k :: 0 <= k < |es| ==> es[k].id != id;
    }
    resp := RedirectTo(StepPage("exhibit"));
  }

  // ---------------------------------------------------------------------------
  // The `printout` view
  // ---------------------------------------------------------------------------

  /** The printout page of a stored participant, from the records stored for them. */
  function PrintoutPage(db: Registry, p: Participant): seq<Section>
    reads db
    requires db.Valid() && p in db.participants
  {
    OwnRecordsPrintable(db, p);
    PrintoutSections(db.config, db.federations, p, AppointmentsOf(db.appointments, p.id),
                     ExhibitsOf(db.exhibits, p.id), db.participations, TravelOf(db.travels, p.id))
  }

  /** The loop of the `printout` view over the participant's entries: one section per entry, numbered from 1. */
  method BuildEntrySections(es: seq<Exhibit>, xs: seq<ExhibitParticipation>) returns (sections: seq<Section>)
    requires ExhibitsPrintable(es) && RowsPrintable(xs)
    ensures sections == EntrySections(es, xs)
  {
    sections := [];
    var i := 0;
    while i < |es|
      invariant 0 <= i <= |es|
      invariant ExhibitsPrintable(es[..i])
      invariant sections == EntrySections(es[..i], xs)
    {
      EntrySectionsSnoc(es, xs, i);
      sections := sections + [EntrySection(EntryTitle(i), es[i], xs)];
      i := i + 1;
    }
    assert es[..i] == es;
  }

  /**
   * The `printout` view: a user without personal data is sent to the personal step;
   * anyone else gets their printout page, built section by section.
   */
  method Printout(db: Registry, user: int) returns (resp: Response)
    requires db.Valid()
    ensures UserParticipant(db.participants, user).None? ==> resp == RedirectTo(StepPage("personal"))
    ensures UserParticipant(db.participants, user).Some? ==>
              UserParticipant(db.participants, user).value in db.participants &&
              resp == RenderPrintout(PrintoutPage(db, UserParticipant(db.participants, user).value))
  {
    var participant := UserParticipant(db.participants, user);
    if participant.None? {
      resp := RedirectTo(StepPage("personal"));
      return;
    }
    var p := participant.value;
    OwnRecordsPrintable(db, p);
    var xs := db.participations;
    var personal := Section("Personal", ParticipantPrintout(p, db.config), []);
    var app := AppointmentsOf(db.appointments, p.id);
    var second: Option<Section> := None;
    if app.Some? {
      second := Some(Section("Appointments", AppointmentsPrintout(app.value, AppointmentsFederation(db.federations, app.value)), []));
    }
    var mine := ExhibitsOf(db.exhibits, p.id);
    var entries := BuildEntrySections(mine, xs);
    var travel := TravelOf(db.travels, p.id);
    var last: Option<Section> := None;
    if travel.Some? {
      last := Some(Section("Travel details", TravelPrintout(travel.value, false), []));
    }
    var sections := Assemble(personal, second, entries, last);
    resp := RenderPrintout(sections);
  }
}
