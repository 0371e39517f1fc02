/**
 * The database the registration views read and write: one table per model of
 * registrations/models.py, each a sequence of records in primary-key order, and the
 * integrity the schema and the views keep between them (keys unique and ascending in table
 * order, foreign keys that point at stored records, one participant per user account, choice
 * fields holding keys of their choice tables, required file fields holding a file).
 */
module Store {
  import opened Records
  import opened Query

  /** Keys strictly ascending in table order: each key once, records in primary-key order. */
  predicate Ascending(ids: seq<int>) {
    forall i, j :: 0 <= i < j < |ids| ==> ids[i] < ids[j]
  }

  /** Every key is a non-negative number below the next key to hand out. */
  predicate Below(ids: seq<int>, next: int) {
    forall i :: 0 <= i < |ids| ==> 0 <= ids[i] < next
  }

  function ParticipantIds(ps: seq<Participant>): (ids: seq<int>)
    ensures |ids| == |ps| && forall i :: 0 <= i < |ps| ==> ids[i] == ps[i].id
  {
    seq(|ps|, i requires 0 <= i < |ps| => ps[i].id)
  }

  function FederationIds(fs: seq<Federation>): (ids: seq<int>)
    ensures |ids| == |fs| && forall i :: 0 <= i < |fs| ==> ids[i] == fs[i].id
  {
    seq(|fs|, i requires 0 <= i < |fs| => fs[i].id)
  }

  function AppointmentsIds(apps: seq<Appointments>): (ids: seq<int>)
    ensures |ids| == |apps| && forall i :: 0 <= i < |apps| ==> ids[i] == apps[i].id
  {
    seq(|apps|, i requires 0 <= i < |apps| => apps[i].id)
  }

  function ExhibitIds(es: seq<Exhibit>): (ids: seq<int>)
    ensures |ids| == |es| && forall i :: 0 <= i < |es| ==> ids[i] == es[i].id
  {
    seq(|es|, i requires 0 <= i < |es| => es[i].id)
  }

  function ParticipationIds(xs: seq<ExhibitParticipation>): (ids: seq<int>)
    ensures |ids| == |xs| && forall i :: 0 <= i < |xs| ==> ids[i] == xs[i].id
  {
    seq(|xs|, i requires 0 <= i < |xs| => xs[i].id)
  }

  function TravelIds(ts: seq<TravelDetails>): (ids: seq<int>)
    ensures |ids| == |ts| && forall i :: 0 <= i < |ts| ==> ids[i] == ts[i].id
  {
    seq(|ts|, i requires 0 <= i < |ts| => ts[i].id)
  }

  // ---------------------------------------------------------------------------
  // Choice fields hold keys of their tables (the model forms accept nothing else)
  // ---------------------------------------------------------------------------

  predicate ParticipantChoicesValid(cfg: Config, p: Participant) {
    HasKey(TitleChoices, p.title) && HasKey(LanguageChoices(cfg), p.language)
  }

  predicate AppointmentsChoicesValid(a: Appointments) {
    a.accreditedJuror == "" || HasKey(AccreditedJurorChoices, a.accreditedJuror)
  }

  /** An entry's class is a key of its table, and its introductory page, a required file, is there. */
  predicate ExhibitChoicesValid(e: Exhibit) {
    HasKey(ExhibitClassChoices, e.exhibitClass) && e.introductoryPage != ""
  }

  predicate ParticipationChoicesValid(x: ExhibitParticipation) {
    HasKey(ExhibitionLevelChoices, x.exhibitionLevel) && (x.medal == "" || HasKey(MedalChoices, x.medal))
  }

  // ---------------------------------------------------------------------------
  // Table integrity
  // ---------------------------------------------------------------------------

  /**
   * No user account has two participant records. The schema allows it (`user` is a plain
   * foreign key) but the views never add a second one; with it `.get(user=...)` would fail.
   */
  predicate OneParticipantPerUser(ps: seq<Participant>) {
    forall i, j :: 0 <= i < j < |ps| && ps[i].user.Some? ==> ps[i].user != ps[j].user
  }

  predicate ParticipantsValid(cfg: Config, ps: seq<Participant>, next: int) {
    Ascending(ParticipantIds(ps)) && Below(ParticipantIds(ps), next) && OneParticipantPerUser(ps) &&
    forall i :: 0 <= i < |ps| ==> ParticipantChoicesValid(cfg, ps[i])
  }

  predicate FederationsValid(fs: seq<Federation>, next: int) {
    Ascending(FederationIds(fs)) && Below(FederationIds(fs), next)
  }

  predicate AppointmentsValid(apps: seq<Appointments>, ps: seq<Participant>, fs: seq<Federation>, next: int) {
    Ascending(AppointmentsIds(apps)) && Below(AppointmentsIds(apps), next) &&
    forall i :: 0 <= i < |apps| ==>
      apps[i].participant in ParticipantIds(ps) &&
      (apps[i].federation.Some? ==> apps[i].federation.value in FederationIds(fs)) &&
      AppointmentsChoicesValid(apps[i])
  }

  predicate ExhibitsValid(es: seq<Exhibit>, ps: seq<Participant>, next: int) {
    Ascending(ExhibitIds(es)) && Below(ExhibitIds(es), next) &&
    forall i :: 0 <= i < |es| ==> es[i].participant in ParticipantIds(ps) && ExhibitChoicesValid(es[i])
  }

  predicate ParticipationsValid(xs: seq<ExhibitParticipation>, es: seq<Exhibit>, next: int) {
    Ascending(ParticipationIds(xs)) && Below(ParticipationIds(xs), next) &&
    forall i :: 0 <= i < |xs| ==> xs[i].exhibit in ExhibitIds(es) && ParticipationChoicesValid(xs[i])
  }

  predicate TravelsValid(ts: seq<TravelDetails>, ps: seq<Participant>, next: int) {
    Ascending(TravelIds(ts)) && Below(TravelIds(ts), next) &&
    forall i :: 0 <= i < |ts| ==> ts[i].participant in ParticipantIds(ps)
  }

  /** The integrity of the whole database. */
  predicate TablesValid(cfg: Config, ps: seq<Participant>, fs: seq<Federation>, apps: seq<Appointments>,
                        es: seq<Exhibit>, xs: seq<ExhibitParticipation>, ts: seq<TravelDetails>, next: int)
  {
    0 <= next &&
    ParticipantsValid(cfg, ps, next) && FederationsValid(fs, next) && AppointmentsValid(apps, ps, fs, next) &&
    ExhibitsValid(es, ps, next) && ParticipationsValid(xs, es, next) && TravelsValid(ts, ps, next)
  }

  // ---------------------------------------------------------------------------
  // Queries
  // ---------------------------------------------------------------------------

  /** `Participant.objects.get(user=user)`, None for `DoesNotExist` (one record at most, by `OneParticipantPerUser`). */
  function UserParticipant(ps: seq<Participant>, user: int): Option<Participant> {
    First(ps, (p: Participant) => p.user == Some(user))
  }

  /** Under the one-participant-per-user rule the participant found is the user's only one. */
  lemma UserParticipantUnique(ps: seq<Participant>, user: int)
    requires OneParticipantPerUser(ps)
    ensures UserParticipant(ps, user).None? <==> forall i :: 0 <= i < |ps| ==> ps[i].user != Some(user)
    ensures UserParticipant(ps, user).Some? ==>
              forall i :: 0 <= i < |ps| && ps[i].user == Some(user) ==> ps[i] == UserParticipant(ps, user).value
  {
    var r := UserParticipant(ps, user);
    if r.Some? {
      var k :| 0 <= k < |ps| && ps[k] == r.value && ps[k].user == Some(user) &&
               forall j :: 0 <= j < k ==> ps[j].user != Some(user);
      forall i | 0 <= i < |ps| && ps[i].user == Some(user) ensures ps[i] == r.value {
        if k < i {
          assert false;
        }
      }
    }
  }

  /** `participant.exhibits.all()`. */
  function ExhibitsOf(es: seq<Exhibit>, participant: int): seq<Exhibit> {
    Filter(es, (e: Exhibit) => e.participant == participant)
  }

  /** `exhibit.participations.all()`. */
  function ParticipationsOf(xs: seq<ExhibitParticipation>, exhibit: int): seq<ExhibitParticipation> {
    Filter(xs, (x: ExhibitParticipation) => x.exhibit == exhibit)
  }

  /** `participant.appointments.first()`. */
  function AppointmentsOf(apps: seq<Appointments>, participant: int): Option<Appointments> {
    First(apps, (a: Appointments) => a.participant == participant)
  }

  /** `participant.travel_details.first()`. */
  function TravelOf(ts: seq<TravelDetails>, participant: int): Option<TravelDetails> {
    First(ts, (t: TravelDetails) => t.participant == participant)
  }

  /** The federation a foreign key names. */
  function FederationById(fs: seq<Federation>, id: int): Option<Federation> {
    First(fs, (f: Federation) => f.id == id)
  }

  /** The participant a foreign key names. */
  function ParticipantById(ps: seq<Participant>, id: int): Option<Participant> {
    First(ps, (p: Participant) => p.id == id)
  }

  /** Where the record `UserParticipant` finds is stored. */
  function UserIndex(ps: seq<Participant>, user: int): (r: Option<nat>)
    ensures r.None? <==> forall i :: 0 <= i < |ps| ==> ps[i].user != Some(user)
    ensures r.Some? ==> r.value < |ps| && ps[r.value].user == Some(user)
  {
    FirstIndex(ps, (p: Participant) => p.user == Some(user))
  }

  /** Where the record `AppointmentsOf` finds is stored. */
  function AppointmentsIndex(apps: seq<Appointments>, participant: int): (r: Option<nat>)
    ensures r.None? <==> forall i :: 0 <= i < |apps| ==> apps[i].participant != participant
    ensures r.Some? ==> r.value < |apps| && apps[r.value].participant == participant
  {
    FirstIndex(apps, (a: Appointments) => a.participant == participant)
  }

  /** Where the record `TravelOf` finds is stored. */
  function TravelIndex(ts: seq<TravelDetails>, participant: int): (r: Option<nat>)
    ensures r.None? <==> forall i :: 0 <= i < |ts| ==> ts[i].participant != participant
    ensures r.Some? ==> r.value < |ts| && ts[r.value].participant == participant
  {
    FirstIndex(ts, (t: TravelDetails) => t.participant == participant)
  }

  /** Where the entry with a key is stored. */
  function ExhibitIndex(es: seq<Exhibit>, id: int): (r: Option<nat>)
    ensures r.None? <==> forall i :: 0 <= i < |es| ==> es[i].id != id
    ensures r.Some? ==> r.value < |es| && es[r.value].id == id
  {
    FirstIndex(es, (e: Exhibit) => e.id == id)
  }

  /** Keys being unique, the entry stored under a key is the one found by it. */
  lemma ExhibitIndexFinds(es: seq<Exhibit>, e: Exhibit)
    requires Ascending(ExhibitIds(es)) && e in es
    ensures ExhibitIndex(es, e.id).Some? && es[ExhibitIndex(es, e.id).value] == e
  {
    var i :| 0 <= i < |es| && es[i] == e;
    var k := ExhibitIndex(es, e.id).value;
    assert ExhibitIds(es)[i] == ExhibitIds(es)[k];
  }

  /**
   * Overwriting the record a lookup finds with another record of the same owner, or appending
   * one when there is none, makes the lookup find the new record.
   */
  lemma UserParticipantSaved(ps: seq<Participant>, user: int, q: Participant)
    requires q.user == Some(user)
    ensures UserIndex(ps, user).Some? ==> UserParticipant(ps[UserIndex(ps, user).value := q], user) == Some(q)
    ensures UserIndex(ps, user).None? ==> UserParticipant(ps + [q], user) == Some(q)
  {
    var k := UserIndex(ps, user);
    if k.Some? {
      FirstIndexUpdate(ps, (p: Participant) => p.user == Some(user), k.value, q);
    } else {
      FirstIndexSnoc(ps, (p: Participant) => p.user == Some(user), q);
    }
  }

  lemma AppointmentsSaved(apps: seq<Appointments>, participant: int, a: Appointments)
    requires a.participant == participant
    ensures AppointmentsIndex(apps, participant).Some? ==>
              AppointmentsOf(apps[AppointmentsIndex(apps, participant).value := a], participant) == Some(a)
    ensures AppointmentsIndex(apps, participant).None? ==> AppointmentsOf(apps + [a], participant) == Some(a)
  {
    var k := AppointmentsIndex(apps, participant);
    if k.Some? {
      FirstIndexUpdate(apps, (x: Appointments) => x.participant == participant, k.value, a);
    } else {
      FirstIndexSnoc(apps, (x: Appointments) => x.participant == participant, a);
    }
  }

  lemma TravelSaved(ts: seq<TravelDetails>, participant: int, t: TravelDetails)
    requires t.participant == participant
    ensures TravelIndex(ts, participant).Some? ==>
              TravelOf(ts[TravelIndex(ts, participant).value := t], participant) == Some(t)
    ensures TravelIndex(ts, participant).None? ==> TravelOf(ts + [t], participant) == Some(t)
  {
    var k := TravelIndex(ts, participant);
    if k.Some? {
      FirstIndexUpdate(ts, (x: TravelDetails) => x.participant == participant, k.value, t);
    } else {
      FirstIndexSnoc(ts, (x: TravelDetails) => x.participant == participant, t);
    }
  }

  // ---------------------------------------------------------------------------
  // Writes that keep the database's integrity
  // ---------------------------------------------------------------------------

  /** A record added under the next key keeps the keys unique and below the advanced counter. */
  lemma AscendingSnoc(ids: seq<int>, next: int)
    requires 0 <= next && Ascending(ids) && Below(ids, next)
    ensures Ascending(ids + [next]) && Below(ids + [next], next + 1)
  {
  }

  /** Saving a participant over its stored record, with its key and account kept. */
  lemma ParticipantUpdateKeepsValid(cfg: Config, ps: seq<Participant>, fs: seq<Federation>,
                                    apps: seq<Appointments>, es: seq<Exhibit>,
                                    xs: seq<ExhibitParticipation>, ts: seq<TravelDetails>, next: int,
                                    k: int, q: Participant)
    requires TablesValid(cfg, ps, fs, apps, es, xs, ts, next)
    requires 0 <= k < |ps| && q.id == ps[k].id && q.user == ps[k].user && ParticipantChoicesValid(cfg, q)
    ensures TablesValid(cfg, ps[k := q], fs, apps, es, xs, ts, next)
  {
    assert ParticipantIds(ps[k := q]) == ParticipantIds(ps);
  }

  /** Adding a participant under the next key, for an account that has none yet. */
  lemma ParticipantAddKeepsValid(cfg: Config, ps: seq<Participant>, fs: seq<Federation>,
                                 apps: seq<Appointments>, es: seq<Exhibit>,
                                 xs: seq<ExhibitParticipation>, ts: seq<TravelDetails>, next: int,
                                 q: Participant)
    requires TablesValid(cfg, ps, fs, apps, es, xs, ts, next)
    requires q.id == next && ParticipantChoicesValid(cfg, q)
    requires forall i :: 0 <= i < |ps| ==> ps[i].user != q.user
    ensures TablesValid(cfg, ps + [q], fs, apps, es, xs, ts, next + 1)
  {
    assert ParticipantIds(ps + [q]) == ParticipantIds(ps) + [next];
    AscendingSnoc(ParticipantIds(ps), next);
  }

  /** What an appointments record needs to be stored: its references resolve, its choices are keys. */
  predicate AppointmentsStorable(a: Appointments, ps: seq<Participant>, fs: seq<Federation>) {
    a.participant in ParticipantIds(ps) &&
    (a.federation.Some? ==> a.federation.value in FederationIds(fs)) &&
    AppointmentsChoicesValid(a)
  }

  lemma AppointmentsUpdateKeepsValid(cfg: Config, ps: seq<Participant>, fs: seq<Federation>,
                                     apps: seq<Appointments>, es: seq<Exhibit>,
                                     xs: seq<ExhibitParticipation>, ts: seq<TravelDetails>, next: int,
                                     k: int, a: Appointments)
    requires TablesValid(cfg, ps, fs, apps, es, xs, ts, next)
    requires 0 <= k < |apps| && a.id == apps[k].id && AppointmentsStorable(a, ps, fs)
    ensures TablesValid(cfg, ps, fs, apps[k := a], es, xs, ts, next)
  {
    assert AppointmentsIds(apps[k := a]) == AppointmentsIds(apps);
  }

  lemma AppointmentsAddKeepsValid(cfg: Config, ps: seq<Participant>, fs: seq<Federation>,
                                  apps: seq<Appointments>, es: seq<Exhibit>,
                                  xs: seq<ExhibitParticipation>, ts: seq<TravelDetails>, next: int,
                                  a: Appointments)
    requires TablesValid(cfg, ps, fs, apps, es, xs, ts, next)
    requires a.id == next && AppointmentsStorable(a, ps, fs)
    ensures TablesValid(cfg, ps, fs, apps + [a], es, xs, ts, next + 1)
  {
    assert AppointmentsIds(apps + [a]) == AppointmentsIds(apps) + [next];
    AscendingSnoc(AppointmentsIds(apps), next);
  }

  lemma TravelUpdateKeepsValid(cfg: Config, ps: seq<Participant>, fs: seq<Federation>,
                               apps: seq<Appointments>, es: seq<Exhibit>,
                               xs: seq<ExhibitParticipation>, ts: seq<TravelDetails>, next: int,
                               k: int, t: TravelDetails)
    requires TablesValid(cfg, ps, fs, apps, es, xs, ts, next)
    requires 0 <= k < |ts| && t.id == ts[k].id && t.participant in ParticipantIds(ps)
    ensures TablesValid(cfg, ps, fs, apps, es, xs, ts[k := t], next)
  {
    assert TravelIds(ts[k := t]) == TravelIds(ts);
  }

  lemma TravelAddKeepsValid(cfg: Config, ps: seq<Participant>, fs: seq<Federation>,
                            apps: seq<Appointments>, es: seq<Exhibit>,
                            xs: seq<ExhibitParticipation>, ts: seq<TravelDetails>, next: int,
                            t: TravelDetails)
    requires TablesValid(cfg, ps, fs, apps, es, xs, ts, next)
    requires t.id == next && t.participant in ParticipantIds(ps)
    ensures TablesValid(cfg, ps, fs, apps, es, xs, ts + [t], next + 1)
  {
    assert TravelIds(ts + [t]) == TravelIds(ts) + [next];
    AscendingSnoc(TravelIds(ts), next);
  }

  lemma ExhibitUpdateKeepsValid(cfg: Config, ps: seq<Participant>, fs: seq<Federation>,
                                apps: seq<Appointments>, es: seq<Exhibit>,
                                xs: seq<ExhibitParticipation>, ts: seq<TravelDetails>, next: int,
                                k: int, e: Exhibit)
    requires TablesValid(cfg, ps, fs, apps, es, xs, ts, next)
    requires 0 <= k < |es| && e.id == es[k].id && e.participant in ParticipantIds(ps) && ExhibitChoicesValid(e)
    ensures TablesValid(cfg, ps, fs, apps, es[k := e], xs, ts, next)
  {
    assert ExhibitIds(es[k := e]) == ExhibitIds(es);
  }

  lemma ExhibitAddKeepsValid(cfg: Config, ps: seq<Participant>, fs: seq<Federation>,
                             apps: seq<Appointments>, es: seq<Exhibit>,
                             xs: seq<ExhibitParticipation>, ts: seq<TravelDetails>, next: int,
                             e: Exhibit)
    requires TablesValid(cfg, ps, fs, apps, es, xs, ts, next)
    requires e.id == next && e.participant in ParticipantIds(ps) && ExhibitChoicesValid(e)
    ensures TablesValid(cfg, ps, fs, apps, es + [e], xs, ts, next + 1)
  {
    assert ExhibitIds(es + [e]) == ExhibitIds(es) + [next];
    AscendingSnoc(ExhibitIds(es), next);
  }

  /** The posted participation rows of an exhibit, numbered with keys from `start` on. */
  function Renumbered(rows: seq<ExhibitParticipation>, exhibit: int, start: int): (r: seq<ExhibitParticipation>)
    ensures |r| == |rows|
    ensures forall j :: 0 <= j < |rows| ==> r[j] == rows[j].(id := start + j, exhibit := exhibit)
  {
    seq(|rows|, j requires 0 <= j < |rows| => rows[j].(id := start + j, exhibit := exhibit))
  }

  /** The participations of every exhibit but one, in table order. */
  function OtherParticipations(xs: seq<ExhibitParticipation>, exhibit: int): seq<ExhibitParticipation> {
    Filter(xs, (x: ExhibitParticipation) => x.exhibit != exhibit)
  }

  lemma OtherParticipationsAscending(xs: seq<ExhibitParticipation>, exhibit: int)
    requires Ascending(ParticipationIds(xs))
    ensures Ascending(ParticipationIds(OtherParticipations(xs, exhibit)))
  {
    FilterKeepsAscendingKeys(xs, (x: ExhibitParticipation) => x.exhibit != exhibit,
                            (x: ExhibitParticipation) => x.id);
  }

  /**
   * The participation table with an exhibit's rows replaced by the posted ones under fresh
   * keys keeps its keys ascending, below the advanced counter, and refers to stored exhibits only.
   */
  lemma ReplacedParticipationsValid(xs: seq<ExhibitParticipation>, es: seq<Exhibit>, next: int,
                                    exhibit: int, rows: seq<ExhibitParticipation>)
    requires 0 <= next && ParticipationsValid(xs, es, next)
    requires exhibit in ExhibitIds(es)
    requires forall j :: 0 <= j < |rows| ==> ParticipationChoicesValid(rows[j])
    ensures ParticipationsValid(OtherParticipations(xs, exhibit) + Renumbered(rows, exhibit, next), es, next + |rows|)
  {
    var kept := OtherParticipations(xs, exhibit);
    var ys := kept + Renumbered(rows, exhibit, next);
    OtherParticipationsAscending(xs, exhibit);
    var ids := ParticipationIds(ys);
    forall i | 0 <= i < |kept| ensures kept[i] in xs {
    }
    forall i, j | 0 <= i < j < |ids| ensures ids[i] < ids[j] {
      if j < |kept| {
        assert ids[i] == ParticipationIds(kept)[i] && ids[j] == ParticipationIds(kept)[j];
      } else if i < |kept| {
        assert ids[i] < next;
      }
    }
  }

  /** Replacing an exhibit's participation rows keeps the whole database's integrity. */
  lemma ReplaceParticipationsKeepsValid(cfg: Config, ps: seq<Participant>, fs: seq<Federation>,
                                        apps: seq<Appointments>, es: seq<Exhibit>,
                                        xs: seq<ExhibitParticipation>, ts: seq<TravelDetails>, next: int,
                                        exhibit: int, rows: seq<ExhibitParticipation>)
    requires TablesValid(cfg, ps, fs, apps, es, xs, ts, next)
    requires exhibit in ExhibitIds(es)
    requires forall j :: 0 <= j < |rows| ==> ParticipationChoicesValid(rows[j])
    ensures TablesValid(cfg, ps, fs, apps, es, OtherParticipations(xs, exhibit) + Renumbered(rows, exhibit, next),
                        ts, next + |rows|)
  {
    ReplacedParticipationsValid(xs, es, next, exhibit, rows);
  }

  /**
   * After its rows are replaced, the entry's participations are exactly the posted rows under
   * their new keys, and every other entry keeps its own participations.
   */
  lemma ReplacedParticipationsOf(xs: seq<ExhibitParticipation>, exhibit: int,
                                 rows: seq<ExhibitParticipation>, start: int)
    ensures ParticipationsOf(OtherParticipations(xs, exhibit) + Renumbered(rows, exhibit, start), exhibit) ==
              Renumbered(rows, exhibit, start)
    ensures forall other :: other != exhibit ==>
              ParticipationsOf(OtherParticipations(xs, exhibit) + Renumbered(rows, exhibit, start), other) ==
              ParticipationsOf(xs, other)
  {
    var kept := OtherParticipations(xs, exhibit);
    var added := Renumbered(rows, exhibit, start);
    FilterAppend(kept, added, (x: ExhibitParticipation) => x.exhibit == exhibit);
    FilterNone(kept, (x: ExhibitParticipation) => x.exhibit == exhibit);
    FilterAll(added, (x: ExhibitParticipation) => x.exhibit == exhibit);
    forall other | other != exhibit
      ensures ParticipationsOf(kept + added, other) == ParticipationsOf(xs, other)
    {
      FilterAppend(kept, added, (x: ExhibitParticipation) => x.exhibit == other);
      FilterNone(added, (x: ExhibitParticipation) => x.exhibit == other);
      FilterFilter(xs, (x: ExhibitParticipation) => x.exhibit != exhibit, (x: ExhibitParticipation) => x.exhibit == other);
    }
  }

  /** The contents of the stored tables at one moment, with the next key to hand out. */
  datatype Tables = Tables(participants: seq<Participant>, federations: seq<Federation>,
                           appointments: seq<Appointments>, exhibits: seq<Exhibit>,
                           participations: seq<ExhibitParticipation>, travels: seq<TravelDetails>,
                           nextId: int)

  /**
   * What replacing an entry's participation rows does to the tables: the entry's rows become
   * the posted rows under keys from the counter on, every other entry keeps its rows, and
   * only the participation table and the counter change.
   */
  function ParticipationsWrite(t: Tables, exhibit: int, rows: seq<ExhibitParticipation>): (r: Tables)
    ensures ParticipationsOf(r.participations, exhibit) == Renumbered(rows, exhibit, t.nextId)
    ensures forall other :: other != exhibit ==>
              ParticipationsOf(r.participations, other) == ParticipationsOf(t.participations, other)
    ensures r == t.(participations := r.participations, nextId := t.nextId + |rows|)
  {
    ReplacedParticipationsOf(t.participations, exhibit, rows, t.nextId);
    t.(participations := OtherParticipations(t.participations, exhibit) + Renumbered(rows, exhibit, t.nextId),
       nextId := t.nextId + |rows|)
  }

  /** The exhibits left once one is deleted. */
  function OtherExhibits(es: seq<Exhibit>, exhibit: int): seq<Exhibit> {
    Filter(es, (e: Exhibit) => e.id != exhibit)
  }

  lemma OtherExhibitsValid(es: seq<Exhibit>, ps: seq<Participant>, next: int, exhibit: int)
    requires ExhibitsValid(es, ps, next)
    ensures ExhibitsValid(OtherExhibits(es, exhibit), ps, next)
  {
    FilterKeepsAscendingKeys(es, (e: Exhibit) => e.id != exhibit, (e: Exhibit) => e.id);
  }

  /** The rows left once an exhibit's rows are gone refer only to the exhibits left. */
  lemma OtherParticipationsValid(xs: seq<ExhibitParticipation>, es: seq<Exhibit>, next: int, exhibit: int)
    requires ParticipationsValid(xs, es, next)
    ensures ParticipationsValid(OtherParticipations(xs, exhibit), OtherExhibits(es, exhibit), next)
  {
    var es2 := OtherExhibits(es, exhibit);
    var xs2 := OtherParticipations(xs, exhibit);
    OtherParticipationsAscending(xs, exhibit);
    forall i | 0 <= i < |xs2| ensures xs2[i].exhibit in ExhibitIds(es2) {
      assert xs2[i] in xs;
      var k :| 0 <= k < |es| && es[k].id == xs2[i].exhibit;
      assert es[k] in es2;
    }
  }

  /** Deleting an exhibit and, by the cascade of its foreign key, its participation rows. */
  lemma DeleteExhibitKeepsValid(cfg: Config, ps: seq<Participant>, fs: seq<Federation>,
                                apps: seq<Appointments>, es: seq<Exhibit>,
                                xs: seq<ExhibitParticipation>, ts: seq<TravelDetails>, next: int,
                                exhibit: int)
    requires TablesValid(cfg, ps, fs, apps, es, xs, ts, next)
    ensures TablesValid(cfg, ps, fs, apps, OtherExhibits(es, exhibit), OtherParticipations(xs, exhibit), ts, next)
  {
    OtherExhibitsValid(es, ps, next, exhibit);
    OtherParticipationsValid(xs, es, next, exhibit);
  }

  /**
   * The stored tables. Every method that changes them keeps `Valid()`; `nextId` is the next
   * primary key to hand out (one counter for all tables).
   */
  class Registry {
    const config: Config
    var participants: seq<Participant>
    var federations: seq<Federation>
    var appointments: seq<Appointments>
    var exhibits: seq<Exhibit>
    var participations: seq<ExhibitParticipation>
    var travels: seq<TravelDetails>
    var nextId: int

    predicate Valid()
      reads this
    {
      TablesValid(config, participants, federations, appointments, exhibits, participations, travels, nextId)
    }

    /** What the tables hold now. */
    function Snapshot(): Tables
      reads this
    {
      Tables(participants, federations, appointments, exhibits, participations, travels, nextId)
    }

    /** A database holding only the federations, which the administrators enter. */
    constructor(config: Config, federations: seq<Federation>, nextId: int)
      requires 0 <= nextId && FederationsValid(federations, nextId)
      ensures Valid()
      ensures this.config == config && this.federations == federations && this.nextId == nextId
      ensures participants == [] && appointments == [] && exhibits == []
      ensures participations == [] && travels == []
    {
      this.config := config;
      this.federations := federations;
      this.nextId := nextId;
      participants := [];
      appointments := [];
      exhibits := [];
      participations := [];
      travels := [];
    }

    // Each write below is one `save()` or `delete()` of the record store: an UPDATE of a
    // stored record keeps its key, an INSERT hands out the next key.

    method UpdateParticipant(k: nat, q: Participant)
      requires Valid() && k < |participants|
      requires q.id == participants[k].id && q.user == participants[k].user && ParticipantChoicesValid(config, q)
      modifies this
      ensures Valid()
      ensures participants == old(participants)[k := q] && nextId == old(nextId)
      ensures federations == old(federations) && appointments == old(appointments)
      ensures exhibits == old(exhibits) && participations == old(participations) && travels == old(travels)
    {
      ParticipantUpdateKeepsValid(config, participants, federations, appointments, exhibits, participations,
                                  travels, nextId, k, q);
      participants := participants[k := q];
    }

    method InsertParticipant(q: Participant) returns (saved: Participant)
      requires Valid() && ParticipantChoicesValid(config, q)
      requires forall i :: 0 <= i < |participants| ==> participants[i].user != q.user
      modifies this
      ensures Valid()
      ensures saved == q.(id := old(nextId))
      ensures participants == old(participants) + [saved] && nextId == old(nextId) + 1
      ensures federations == old(federations) && appointments == old(appointments)
      ensures exhibits == old(exhibits) && participations == old(participations) && travels == old(travels)
    {
      saved := q.(id := nextId);
      ParticipantAddKeepsValid(config, participants, federations, appointments, exhibits, participations,
                               travels, nextId, saved);
      participants := participants + [saved];
      nextId := nextId + 1;
    }

    method UpdateAppointments(k: nat, a: Appointments)
      requires Valid() && k < |appointments|
      requires a.id == appointments[k].id && AppointmentsStorable(a, participants, federations)
      modifies this
      ensures Valid()
      ensures appointments == old(appointments)[k := a] && nextId == old(nextId)
      ensures participants == old(participants) && federations == old(federations)
      ensures exhibits == old(exhibits) && participations == old(participations) && travels == old(travels)
    {
      AppointmentsUpdateKeepsValid(config, participants, federations, appointments, exhibits, participations,
                                   travels, nextId, k, a);
      appointments := appointments[k := a];
    }

    method InsertAppointments(a: Appointments) returns (saved: Appointments)
      requires Valid() && AppointmentsStorable(a, participants, federations)
      modifies this
      ensures Valid()
      ensures saved == a.(id := old(nextId))
      ensures appointments == old(appointments) + [saved] && nextId == old(nextId) + 1
      ensures participants == old(participants) && federations == old(federations)
      ensures exhibits == old(exhibits) && participations == old(participations) && travels == old(travels)
    {
      saved := a.(id := nextId);
      AppointmentsAddKeepsValid(config, participants, federations, appointments, exhibits, participations,
                                travels, nextId, saved);
      appointments := appointments + [saved];
      nextId := nextId + 1;
    }

    method UpdateTravel(k: nat, t: TravelDetails)
      requires Valid() && k < |travels|
      requires t.id == travels[k].id && t.participant in ParticipantIds(participants)
      modifies this
      ensures Valid()
      ensures travels == old(travels)[k := t] && nextId == old(nextId)
      ensures participants == old(participants) && federations == old(federations)
      ensures appointments == old(appointments) && exhibits == old(exhibits) && participations == old(participations)
    {
      TravelUpdateKeepsValid(config, participants, federations, appointments, exhibits, participations,
                             travels, nextId, k, t);
      travels := travels[k := t];
    }

    method InsertTravel(t: TravelDetails) returns (saved: TravelDetails)
      requires Valid() && t.participant in ParticipantIds(participants)
      modifies this
      ensures Valid()
      ensures saved == t.(id := old(nextId))
      ensures travels == old(travels) + [saved] && nextId == old(nextId) + 1
      ensures participants == old(participants) && federations == old(federations)
      ensures appointments == old(appointments) && exhibits == old(exhibits) && participations == old(participations)
    {
      saved := t.(id := nextId);
      TravelAddKeepsValid(config, participants, federations, appointments, exhibits, participations,
                          travels, nextId, saved);
      travels := travels + [saved];
      nextId := nextId + 1;
    }

    method UpdateExhibit(k: nat, e: Exhibit)
      requires Valid() && k < |exhibits|
      requires e.id == exhibits[k].id && e.participant in ParticipantIds(participants) && ExhibitChoicesValid(e)
      modifies this
      ensures Valid()
      ensures exhibits == old(exhibits)[k := e] && nextId == old(nextId)
      ensures participants == old(participants) && federations == old(federations)
      ensures appointments == old(appointments) && participations == old(participations) && travels == old(travels)
    {
      ExhibitUpdateKeepsValid(config, participants, federations, appointments, exhibits, participations,
                              travels, nextId, k, e);
      exhibits := exhibits[k := e];
    }

    method InsertExhibit(e: Exhibit) returns (saved: Exhibit)
      requires Valid() && e.participant in ParticipantIds(participants) && ExhibitChoicesValid(e)
      modifies this
      ensures Valid()
      ensures saved == e.(id := old(nextId))
      ensures exhibits == old(exhibits) + [saved] && nextId == old(nextId) + 1
      ensures participants == old(participants) && federations == old(federations)
      ensures appointments == old(appointments) && participations == old(participations) && travels == old(travels)
    {
      saved := e.(id := nextId);
      ExhibitAddKeepsValid(config, participants, federations, appointments, exhibits, participations,
                           travels, nextId, saved);
      exhibits := exhibits + [saved];
      nextId := nextId + 1;
    }

    /**
     * The participation formset saved for a stored entry: the entry's rows become the posted
     * rows, each under a new key.
     */
    method ReplaceParticipations(exhibit: int, rows: seq<ExhibitParticipation>)
      requires Valid() && exhibit in ExhibitIds(exhibits)
      requires forall j :: 0 <= j < |rows| ==> ParticipationChoicesValid(rows[j])
      modifies this
      ensures Valid()
      ensures participations == OtherParticipations(old(participations), exhibit) + Renumbered(rows, exhibit, old(nextId))
      ensures nextId == old(nextId) + |rows|
      ensures participants == old(participants) && federations == old(federations)
      ensures appointments == old(appointments) && exhibits == old(exhibits) && travels == old(travels)
      ensures Snapshot() == ParticipationsWrite(old(Snapshot()), exhibit, rows)
    {
      ReplaceParticipationsKeepsValid(config, participants, federations, appointments, exhibits, participations,
                                      travels, nextId, exhibit, rows);
      participations := OtherParticipations(participations, exhibit) + Renumbered(rows, exhibit, nextId);
      nextId := nextId + |rows|;
    }

    /** An entry deleted, and with it (by cascade) its participations. */
    method DeleteExhibit(exhibit: int)
      requires Valid()
      modifies this
      ensures Valid()
      ensures exhibits == OtherExhibits(old(exhibits), exhibit)
      ensures participations == OtherParticipations(old(participations), exhibit)
      ensures participants == old(participants) && federations == old(federations)
      ensures appointments == old(appointments) && travels == old(travels) && nextId == old(nextId)
    {
      DeleteExhibitKeepsValid(config, participants, federations, appointments, exhibits, participations,
                              travels, nextId, exhibit);
      exhibits := OtherExhibits(exhibits, exhibit);
      participations := OtherParticipations(participations, exhibit);
    }
  }
}
