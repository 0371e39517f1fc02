/**
 * The decisions of registrations/views.py, apart from the database writes: which branch
 * `register` takes for a request, the page it renders, the notification mails it sends and
 * to whom, what `remove_exhibit` deletes, and the sections of the `printout` page. The
 * methods that carry these decisions out on the stored tables are in module Handlers.
 */
module Views {
  import opened Text
  import opened Records
  import opened Query
  import opened Store
  import opened Printouts

  /** The four registration steps, in the order the page lists them. */
  const StepNames: seq<string> := ["personal", "appointments", "exhibit", "travel"]

  predicate IsStep(step: string) {
    step in StepNames
  }

  datatype Verb = Get | Post

  /** The logged-in account: its key and the names and address it was created with. */
  datatype User = User(id: int, firstName: string, lastName: string, email: string)

  /**
   * A request to `register`: the URL's step and entry key, and whether the session logged in
   * with a local password (rather than through an external provider).
   */
  datatype Request = Request(user: User, verb: Verb, step: string, exhibitId: Option<int>,
                             localAccount: bool)

  /**
   * The data a POST carries: one record per form (only the one of the request's step is
   * read), the participation rows of the entry form's formset, and the outcome of the
   * checks of the forms that this model does not state (required fields, field lengths, dates,
   * uploaded files, the appointments form's authorization key).
   */
  datatype Posted = Posted(personal: Participant, appointments: Appointments, exhibit: Exhibit,
                           rows: seq<ExhibitParticipation>, travel: TravelDetails,
                           formChecks: bool, formsetChecks: bool)

  /**
   * `form.is_valid()` for the step's form: the unstated checks pass and every choice field
   * holds a key of its table; the appointments form also needs a stored federation, since
   * its federation field may not be left blank.
   */
  predicate FormValid(cfg: Config, fs: seq<Federation>, step: string, posted: Posted) {
    posted.formChecks &&
    (step == "personal" ==> ParticipantChoicesValid(cfg, posted.personal)) &&
    (step == "appointments" ==>
       posted.appointments.federation.Some? && posted.appointments.federation.value in FederationIds(fs) &&
       AppointmentsChoicesValid(posted.appointments)) &&
    (step == "exhibit" ==> ExhibitChoicesValid(posted.exhibit))
  }

  /** `formset.is_valid()`: the unstated checks pass and every row's choices are keys. */
  predicate FormsetValid(posted: Posted) {
    posted.formsetChecks &&
    forall j :: 0 <= j < |posted.rows| ==> ParticipationChoicesValid(posted.rows[j])
  }

  /** `participant.exhibits.get(id=...)` finds a record: the entry is stored and is the participant's. */
  predicate Owns(participant: Option<Participant>, es: seq<Exhibit>, id: int) {
    participant.Some? &&
    exists i :: 0 <= i < |es| && es[i].id == id && es[i].participant == participant.value.id
  }

  // ---------------------------------------------------------------------------
  // Dispatch of `register`
  // ---------------------------------------------------------------------------

  /** Where a redirect leads: a step of the registration page, or the page editing one entry. */
  datatype Target = StepPage(step: string) | EditExhibitPage(id: int)

  /** What `register` does with a request. */
  datatype Action =
    | Redirect(to: Target)
    | Crash                                               // an exception escapes the view
    | ShowForm(title: string, removeExhibit: Option<int>)  // the page, with the step's form
    | SavePersonal
    | SaveAppointments
    | SaveExhibit(existing: Option<int>)
    | SaveTravel

  predicate Saves(a: Action) {
    a.SavePersonal? || a.SaveAppointments? || a.SaveExhibit? || a.SaveTravel?
  }

  /** The write a valid POST to a step makes. */
  function SaveFor(step: string, exhibitId: Option<int>): Action {
    if step == "personal" then SavePersonal
    else if step == "appointments" then SaveAppointments
    else if step == "exhibit" then SaveExhibit(exhibitId)
    else SaveTravel
  }

  /**
   * The heading of the step's form. The edit heading's link back to the list of entries is
   * markup around "Entry forms".
   */
  function FormTitle(step: string, exhibitId: Option<int>): string {
    if step == "personal" then "Personal"
    else if step == "appointments" then "Appointments"
    else if step == "exhibit" then (if exhibitId.None? then "Add entry" else "Entry forms &gt; Edit entry")
    else "Travel details"
  }

  /** The entry the page offers to remove: the one being edited. */
  function RemoveLink(step: string, exhibitId: Option<int>): Option<int> {
    if step == "exhibit" then exhibitId else None
  }

  predicate EntriesClosedPost(cfg: Config, req: Request) {
    req.step == "exhibit" && req.verb == Post && cfg.entryFormsDisabledMessage != ""
  }

  /**
   * `register` as it is meant to work: a POST to the entry step while entries are closed, or
   * an unknown step, goes to the personal step; a link to an entry that is not the user's own
   * goes back to the list of entries; a GET shows the step's form; a POST without a
   * participant record goes to the personal step unless it is the personal step; a POST whose
   * form (and, for an entry, whose participation rows) does not validate shows the form
   * again; any other POST saves.
   */
  function Dispatch(cfg: Config, participant: Option<Participant>, es: seq<Exhibit>, req: Request,
                    formValid: bool, formsetValid: bool): Action
  {
    if EntriesClosedPost(cfg, req) then Redirect(StepPage("personal"))
    else if !IsStep(req.step) then Redirect(StepPage("personal"))
    else if req.step == "exhibit" && req.exhibitId.Some? && !Owns(participant, es, req.exhibitId.value) then
      Redirect(StepPage("exhibit"))
    else if req.verb == Get then ShowForm(FormTitle(req.step, req.exhibitId), RemoveLink(req.step, req.exhibitId))
    else if participant.None? && req.step != "personal" then Redirect(StepPage("personal"))
    else if !formValid || (req.step == "exhibit" && !formsetValid) then
      ShowForm(FormTitle(req.step, req.exhibitId), RemoveLink(req.step, req.exhibitId))
    else SaveFor(req.step, req.exhibitId)
  }

  /**
   * `register` as written. It differs from `Dispatch` in three places: the entry lookup
   * dereferences a missing participant (line 60), the personal POST prints the missing
   * participant's printout (line 84), and an edited entry is saved when only its rows
   * validate, since `exhibit` still holds the looked-up record when the main form fails
   * (lines 124-131).
   */
  function DispatchAsWritten(cfg: Config, participant: Option<Participant>, es: seq<Exhibit>, req: Request,
                             formValid: bool, formsetValid: bool): Action
  {
    if EntriesClosedPost(cfg, req) then Redirect(StepPage("personal"))
    else if !IsStep(req.step) then Redirect(StepPage("personal"))
    else if req.step == "exhibit" && req.exhibitId.Some? && participant.None? then Crash
    else if req.step == "exhibit" && req.exhibitId.Some? && !Owns(participant, es, req.exhibitId.value) then
      Redirect(StepPage("exhibit"))
    else if req.verb == Get then ShowForm(FormTitle(req.step, req.exhibitId), RemoveLink(req.step, req.exhibitId))
    else if participant.None? && req.step != "personal" then Redirect(StepPage("personal"))
    else if req.step == "personal" && participant.None? then Crash
    else if req.step == "exhibit" then
      if (formValid || req.exhibitId.Some?) && formsetValid then SaveExhibit(req.exhibitId)
      else ShowForm(FormTitle(req.step, req.exhibitId), RemoveLink(req.step, req.exhibitId))
    else if !formValid then ShowForm(FormTitle(req.step, req.exhibitId), RemoveLink(req.step, req.exhibitId))
    else SaveFor(req.step, req.exhibitId)
  }

  /** The cases in which the code as written goes wrong. */
  predicate EntryLinkWithoutParticipant(cfg: Config, participant: Option<Participant>, req: Request) {
    !EntriesClosedPost(cfg, req) && req.step == "exhibit" && req.exhibitId.Some? && participant.None?
  }

  predicate FirstPersonalPost(participant: Option<Participant>, req: Request) {
    req.verb == Post && req.step == "personal" && participant.None?
  }

  predicate InvalidEditPost(cfg: Config, participant: Option<Participant>, es: seq<Exhibit>, req: Request,
                            formValid: bool, formsetValid: bool) {
    !EntriesClosedPost(cfg, req) && req.verb == Post && req.step == "exhibit" && req.exhibitId.Some? &&
    Owns(participant, es, req.exhibitId.value) && !formValid && formsetValid
  }

  /**
   * The dispatch writes a record exactly when the request is a POST to a known step whose
   * form validates, the user has a participant record unless this is the personal step, and,
   * for an entry, entries are open, the rows validate and an edited entry is the user's own;
   * the write is the one of the request's step.
   */
  lemma DispatchSavesIff(cfg: Config, participant: Option<Participant>, es: seq<Exhibit>, req: Request,
                         formValid: bool, formsetValid: bool)
    ensures Saves(Dispatch(cfg, participant, es, req, formValid, formsetValid)) <==>
              req.verb == Post && IsStep(req.step) && formValid &&
              (req.step != "personal" ==> participant.Some?) &&
              (req.step == "exhibit" ==>
                 formsetValid && cfg.entryFormsDisabledMessage == "" &&
                 (req.exhibitId.Some? ==> Owns(participant, es, req.exhibitId.value)))
    ensures Saves(Dispatch(cfg, participant, es, req, formValid, formsetValid)) ==>
              Dispatch(cfg, participant, es, req, formValid, formsetValid) == SaveFor(req.step, req.exhibitId)
  {
  }

  /**
   * The redirects: closed entries and unknown steps lead to the personal step, another
   * user's entry to the list of entries; a removal link on the page always names the
   * user's own entry being edited; and the corrected dispatch never fails.
   */
  lemma DispatchRoutes(cfg: Config, participant: Option<Participant>, es: seq<Exhibit>, req: Request,
                       formValid: bool, formsetValid: bool)
    ensures EntriesClosedPost(cfg, req) || !IsStep(req.step) ==>
              Dispatch(cfg, participant, es, req, formValid, formsetValid) == Redirect(StepPage("personal"))
    ensures !EntriesClosedPost(cfg, req) && req.step == "exhibit" && req.exhibitId.Some? &&
            !Owns(participant, es, req.exhibitId.value) ==>
              Dispatch(cfg, participant, es, req, formValid, formsetValid) == Redirect(StepPage("exhibit"))
    ensures Dispatch(cfg, participant, es, req, formValid, formsetValid).ShowForm? &&
            Dispatch(cfg, participant, es, req, formValid, formsetValid).removeExhibit.Some? ==>
              req.step == "exhibit" &&
              req.exhibitId == Dispatch(cfg, participant, es, req, formValid, formsetValid).removeExhibit &&
              Owns(participant, es, req.exhibitId.value)
    ensures Dispatch(cfg, participant, es, req, formValid, formsetValid) != Crash
  {
  }

  /** Line 84: a user without a participant record cannot submit the personal form. */
  lemma FirstPersonalPostCrashes(cfg: Config, es: seq<Exhibit>, req: Request, formValid: bool, formsetValid: bool)
    requires req.verb == Post && req.step == "personal"
    ensures DispatchAsWritten(cfg, None, es, req, formValid, formsetValid) == Crash
    ensures Dispatch(cfg, None, es, req, formValid, formsetValid) ==
              if formValid then SavePersonal else ShowForm("Personal", None)
  {
  }

  /** Line 60: a link to an entry, followed by a user without a participant record, fails. */
  lemma EntryLinkWithoutParticipantCrashes(cfg: Config, es: seq<Exhibit>, req: Request, formValid: bool,
                                           formsetValid: bool)
    requires EntryLinkWithoutParticipant(cfg, None, req)
    ensures DispatchAsWritten(cfg, None, es, req, formValid, formsetValid) == Crash
    ensures Dispatch(cfg, None, es, req, formValid, formsetValid) == Redirect(StepPage("exhibit"))
  {
  }

  /** Lines 124-131: an edited entry whose main form fails is saved when its rows validate. */
  lemma InvalidEditSaved(cfg: Config, participant: Option<Participant>, es: seq<Exhibit>, req: Request)
    requires InvalidEditPost(cfg, participant, es, req, false, true)
    ensures DispatchAsWritten(cfg, participant, es, req, false, true) == SaveExhibit(req.exhibitId)
    ensures Dispatch(cfg, participant, es, req, false, true) ==
              ShowForm("Entry forms &gt; Edit entry", req.exhibitId)
  {
  }

  /** A concrete request showing each defect, with the corrected outcome beside it. */
  lemma DispatchDefectsExhibited()
    ensures var cfg := Config("Expo", "info@expo.example", ("EL", "Greek"), "", "", "", [], false);
            var user := User(7, "Ada", "Byron", "ada@example.org");
            var e := Exhibit(3, 1, "Ships", "", "C1", None, 5, "intro.pdf", "", "", "", "", None, "",
                             "", None, "", "", "", "", false);
            var p := Participant(1, Some(7), "MR", "Byron", "Ada", "", "", Country("GR", "Greece"),
                                 "ada@example.org", "", "", "EN", "");
            var personal := Request(user, Post, "personal", None, true);
            var link := Request(user, Get, "exhibit", Some(3), true);
            var edit := Request(user, Post, "exhibit", Some(3), true);
            DispatchAsWritten(cfg, None, [e], personal, true, true) == Crash &&
            Dispatch(cfg, None, [e], personal, true, true) == SavePersonal &&
            DispatchAsWritten(cfg, None, [e], link, true, true) == Crash &&
            Dispatch(cfg, None, [e], link, true, true) == Redirect(StepPage("exhibit")) &&
            DispatchAsWritten(cfg, Some(p), [e], edit, false, true) == SaveExhibit(Some(3)) &&
            Dispatch(cfg, Some(p), [e], edit, false, true).ShowForm?
  {
    var e := Exhibit(3, 1, "Ships", "", "C1", None, 5, "intro.pdf", "", "", "", "", None, "",
                     "", None, "", "", "", "", false);
    assert [e][0].id == 3 && [e][0].participant == 1;
  }

  /** Outside those three cases the code as written does what `Dispatch` does. */
  lemma DispatchAgreesElsewhere(cfg: Config, participant: Option<Participant>, es: seq<Exhibit>, req: Request,
                                formValid: bool, formsetValid: bool)
    requires !EntryLinkWithoutParticipant(cfg, participant, req)
    requires !FirstPersonalPost(participant, req)
    requires !InvalidEditPost(cfg, participant, es, req, formValid, formsetValid)
    ensures DispatchAsWritten(cfg, participant, es, req, formValid, formsetValid) ==
              Dispatch(cfg, participant, es, req, formValid, formsetValid)
  {
  }

  // ---------------------------------------------------------------------------
  // The rendered page
  // ---------------------------------------------------------------------------

  /** One entry of the step list: whether it is filled in, whether it is the step shown. */
  datatype StepStatus = StepStatus(title: string, description: string, done: bool, current: bool, link: Target)

  /**
   * The step list. A step is done when the user has a participant record and, past the
   * personal step, at least one record of the step's kind (`count()` is non-zero exactly
   * when a first record exists).
   */
  function StepStatuses(participant: Option<Participant>, apps: seq<Appointments>, es: seq<Exhibit>,
                        ts: seq<TravelDetails>, step: string): seq<StepStatus>
  {
    var has := participant.Some?;
    var pid := if has then participant.value.id else 0;
    [StepStatus("Personal", "Name and contact details", has, step == "personal", StepPage("personal")),
     StepStatus("Appointments", "Commissioner/Jury data", has && AppointmentsOf(apps, pid).Some?,
                step == "appointments", StepPage("appointments")),
     StepStatus("Entry forms", "Participating exhibits", has && |ExhibitsOf(es, pid)| > 0,
                step == "exhibit", StepPage("exhibit")),
     StepStatus("Travel details", "Flights, accommodation, etc.", has && TravelOf(ts, pid).Some?,
                step == "travel", StepPage("travel"))]
  }

  /**
   * Four steps, linked in order; the step shown is marked current and no other, so a known
   * step has exactly one current entry and an unknown one none; a step counts as done only
   * once the personal step is, and then exactly when the user has a record of its kind.
   */
  lemma StepStatusesFacts(participant: Option<Participant>, apps: seq<Appointments>, es: seq<Exhibit>,
                          ts: seq<TravelDetails>, step: string)
    ensures |StepStatuses(participant, apps, es, ts, step)| == 4
    ensures forall i :: 0 <= i < 4 ==>
              StepStatuses(participant, apps, es, ts, step)[i].link == StepPage(StepNames[i]) &&
              (StepStatuses(participant, apps, es, ts, step)[i].current <==> step == StepNames[i])
    ensures IsStep(step) <==> exists i :: 0 <= i < 4 && StepStatuses(participant, apps, es, ts, step)[i].current
    ensures forall i, j :: 0 <= i < j < 4 ==>
              !(StepStatuses(participant, apps, es, ts, step)[i].current &&
                StepStatuses(participant, apps, es, ts, step)[j].current)
    ensures StepStatuses(participant, apps, es, ts, step)[0].done <==> participant.Some?
    ensures forall i :: 0 <= i < 4 && StepStatuses(participant, apps, es, ts, step)[i].done ==> participant.Some?
    ensures participant.Some? ==>
              (StepStatuses(participant, apps, es, ts, step)[1].done <==>
                 exists k :: 0 <= k < |apps| && apps[k].participant == participant.value.id) &&
              (StepStatuses(participant, apps, es, ts, step)[2].done <==>
                 exists k :: 0 <= k < |es| && es[k].participant == participant.value.id) &&
              (StepStatuses(participant, apps, es, ts, step)[3].done <==>
                 exists k :: 0 <= k < |ts| && ts[k].participant == participant.value.id)
  {
    var r := StepStatuses(participant, apps, es, ts, step);
    if participant.Some? {
      var pid := participant.value.id;
      var mine := ExhibitsOf(es, pid);
      if |mine| > 0 {
        assert mine[0] in es;
      }
    }
    if IsStep(step) {
      var i :| 0 <= i < 4 && StepNames[i] == step;
      assert r[i].current;
    }
  }

  /** The values the personal form starts from. */
  datatype Initial = Initial(surname: string, name: string, email: string)

  /** Each field from the participant record when it holds one, else from the account. */
  function InitialPersonal(participant: Option<Participant>, user: User): Initial {
    Initial(if participant.Some? && participant.value.surname != "" then participant.value.surname else user.lastName,
            if participant.Some? && participant.value.name != "" then participant.value.name else user.firstName,
            if participant.Some? && participant.value.email != "" then participant.value.email else user.email)
  }

  /**
   * Without a record the form starts from the account; with one, every field the record
   * fills is kept, and only an empty field falls back on the account. A field starts empty
   * only when both are empty.
   */
  lemma InitialPersonalFacts(participant: Option<Participant>, user: User)
    ensures participant.None? ==> InitialPersonal(participant, user) == Initial(user.lastName, user.firstName, user.email)
    ensures participant.Some? && participant.value.surname != "" ==>
              InitialPersonal(participant, user).surname == participant.value.surname
    ensures participant.Some? && participant.value.name != "" ==>
              InitialPersonal(participant, user).name == participant.value.name
    ensures participant.Some? && participant.value.email != "" ==>
              InitialPersonal(participant, user).email == participant.value.email
    ensures InitialPersonal(participant, user).email == "" <==>
              user.email == "" && (participant.None? || participant.value.email == "")
  {
  }

  /** A link in the list of the user's entries. */
  datatype ExhibitLink = ExhibitLink(title: string, description: string, link: Target)

  function ExhibitLinks(mine: seq<Exhibit>): (r: seq<ExhibitLink>)
    ensures |r| == |mine|
    ensures forall i :: 0 <= i < |mine| ==>
              r[i] == ExhibitLink(mine[i].title, mine[i].shortDescription, EditExhibitPage(mine[i].id))
  {
    seq(|mine|, i requires 0 <= i < |mine| =>
          ExhibitLink(mine[i].title, mine[i].shortDescription, EditExhibitPage(mine[i].id)))
  }

  /** What `register` renders with the form. */
  datatype Page = Page(formTitle: string, removeExhibit: Option<int>, exhibits: seq<ExhibitLink>,
                       steps: seq<StepStatus>, requiredDone: bool, canChangePassword: bool,
                       emailReadonly: bool, initial: Option<Initial>)

  function RegisterPage(participant: Option<Participant>, apps: seq<Appointments>, es: seq<Exhibit>,
                        ts: seq<TravelDetails>, req: Request, title: string, removeExhibit: Option<int>): Page
  {
    Page(title, removeExhibit,
         if participant.Some? && req.step == "exhibit" && req.exhibitId.None?
         then ExhibitLinks(ExhibitsOf(es, participant.value.id)) else [],
         StepStatuses(participant, apps, es, ts, req.step),
         participant.Some?,
         req.localAccount,
         req.localAccount && req.step == "personal" && req.user.email != "",
         if req.verb == Get && req.step == "personal" then Some(InitialPersonal(participant, req.user)) else None)
  }

  /**
   * The list of entries appears only on the entry step without an entry being edited, and
   * then links to every entry of the user's and to no other; the later steps' forms are
   * enabled exactly when a participant record exists; a password can be changed exactly for
   * a local account, whose address field is read-only on the personal step once the account
   * has an address.
   */
  lemma RegisterPageFacts(participant: Option<Participant>, apps: seq<Appointments>, es: seq<Exhibit>,
                          ts: seq<TravelDetails>, req: Request, title: string, removeExhibit: Option<int>)
    ensures var page := RegisterPage(participant, apps, es, ts, req, title, removeExhibit);
            (|page.exhibits| > 0 ==> participant.Some? && req.step == "exhibit" && req.exhibitId.None?) &&
            (forall i :: 0 <= i < |page.exhibits| ==>
               exists k :: 0 <= k < |es| && page.exhibits[i].link == EditExhibitPage(es[k].id) &&
                           Owns(participant, es, es[k].id)) &&
            (participant.Some? && req.step == "exhibit" && req.exhibitId.None? ==>
               forall k :: 0 <= k < |es| && es[k].participant == participant.value.id ==>
                 ExhibitLink(es[k].title, es[k].shortDescription, EditExhibitPage(es[k].id)) in page.exhibits) &&
            (page.requiredDone <==> participant.Some?) &&
            (page.canChangePassword <==> req.localAccount) &&
            (page.emailReadonly <==> req.localAccount && req.step == "personal" && req.user.email != "")
  {
    var page := RegisterPage(participant, apps, es, ts, req, title, removeExhibit);
    if participant.Some? && req.step == "exhibit" && req.exhibitId.None? {
      var mine := ExhibitsOf(es, participant.value.id);
      forall i | 0 <= i < |page.exhibits|
        ensures exists k :: 0 <= k < |es| && page.exhibits[i].link == EditExhibitPage(es[k].id) &&
                            Owns(participant, es, es[k].id)
      {
        assert mine[i] in es;
        var k :| 0 <= k < |es| && es[k] == mine[i];
        assert page.exhibits[i].link == EditExhibitPage(es[k].id);
      }
      forall k | 0 <= k < |es| && es[k].participant == participant.value.id
        ensures ExhibitLink(es[k].title, es[k].shortDescription, EditExhibitPage(es[k].id)) in page.exhibits
      {
        assert es[k] in mine;
        var i :| 0 <= i < |mine| && mine[i] == es[k];
        assert page.exhibits[i] == ExhibitLink(es[k].title, es[k].shortDescription, EditExhibitPage(es[k].id));
      }
    }
  }

  // ---------------------------------------------------------------------------
  // Sections of the mails and of the printout page
  // ---------------------------------------------------------------------------

  datatype Subsection = Subsection(title: string, fields: seq<Entry>)
  datatype Section = Section(title: string, fields: seq<Entry>, subsections: seq<Subsection>)

  /** `'<prefix>%d' % n`. */
  function Numbered(prefix: string, n: nat): string {
    prefix + NatToString(n)
  }

  /** Two numbered titles with the same prefix are equal only for equal numbers. */
  lemma NumberedInjective(prefix: string, m: nat, n: nat)
    requires Numbered(prefix, m) == Numbered(prefix, n)
    ensures m == n
  {
    assert Numbered(prefix, m)[|prefix|..] == NatToString(m);
    assert Numbered(prefix, n)[|prefix|..] == NatToString(n);
    NatToStringInjective(m, n);
  }

  predicate RowsPrintable(xs: seq<ExhibitParticipation>) {
    forall i :: 0 <= i < |xs| ==> ParticipationChoicesValid(xs[i])
  }

  /** One subsection per participation row, numbered from 1, in table order. */
  function ParticipationSubsections(xs: seq<ExhibitParticipation>): (r: seq<Subsection>)
    requires RowsPrintable(xs)
    ensures |r| == |xs|
    ensures forall j :: 0 <= j < |xs| ==>
              r[j] == Subsection(Numbered("Previous participation #", j + 1), ParticipationPrintout(xs[j]))
  {
    seq(|xs|, j requires 0 <= j < |xs| =>
          Subsection(Numbered("Previous participation #", j + 1), ParticipationPrintout(xs[j])))
  }

  /** The rows of one exhibit, from a table whose rows are all printable, are printable. */
  lemma RowsOfPrintable(xs: seq<ExhibitParticipation>, exhibit: int)
    requires RowsPrintable(xs)
    ensures RowsPrintable(ParticipationsOf(xs, exhibit))
  {
    var r := ParticipationsOf(xs, exhibit);
    forall i | 0 <= i < |r| ensures ParticipationChoicesValid(r[i]) {
      assert r[i] in xs;
    }
  }

  /** The section of one entry: its printout and one subsection per previous participation. */
  function EntrySection(title: string, e: Exhibit, xs: seq<ExhibitParticipation>): Section
    requires ExhibitChoicesValid(e) && RowsPrintable(xs)
  {
    RowsOfPrintable(xs, e.id);
    Section(title, ExhibitPrintout(e, false), ParticipationSubsections(ParticipationsOf(xs, e.id)))
  }

  predicate ExhibitsPrintable(es: seq<Exhibit>) {
    forall i :: 0 <= i < |es| ==> ExhibitChoicesValid(es[i])
  }

  /** `'Entry #%d' % (i + 1)`: the title of the i-th entry section, counting from 0. */
  function EntryTitle(i: nat): (t: string)
    ensures |t| > 7 && t[..7] == "Entry #"
  {
    Numbered("Entry #", i + 1)
  }

  /** The entry sections of the printout page, "Entry #1" onwards. */
  function EntrySections(es: seq<Exhibit>, xs: seq<ExhibitParticipation>): (r: seq<Section>)
    requires ExhibitsPrintable(es) && RowsPrintable(xs)
    ensures |r| == |es|
    ensures forall i :: 0 <= i < |es| ==> r[i] == EntrySection(EntryTitle(i), es[i], xs)
  {
    seq(|es|, i requires 0 <= i < |es| => EntrySection(EntryTitle(i), es[i], xs))
  }

  /** The entry sections of one more entry are those of the entries before it and its own section. */
  lemma EntrySectionsSnoc(es: seq<Exhibit>, xs: seq<ExhibitParticipation>, i: nat)
    requires ExhibitsPrintable(es) && RowsPrintable(xs) && i < |es|
    ensures ExhibitsPrintable(es[..i]) && ExhibitsPrintable(es[..i + 1])
    ensures EntrySections(es[..i + 1], xs) == EntrySections(es[..i], xs) + [EntrySection(EntryTitle(i), es[i], xs)]
  {
    assert es[..i + 1] == es[..i] + [es[i]];
  }

  /** The federation an appointments record names, if it names a stored one. */
  function AppointmentsFederation(fs: seq<Federation>, a: Appointments): Option<Federation> {
    if a.federation.Some? then FederationById(fs, a.federation.value) else None
  }

  /** A list of sections: a first one, an optional one, a run of others, an optional last one. */
  function Assemble(first: Section, second: Option<Section>, middle: seq<Section>, last: Option<Section>): seq<Section> {
    [first] + (if second.Some? then [second.value] else []) + middle + (if last.Some? then [last.value] else [])
  }

  function Titles(r: seq<Section>): (ts: seq<string>)
    ensures |ts| == |r|
    ensures forall i :: 0 <= i < |r| ==> ts[i] == r[i].title
  {
    seq(|r|, i requires 0 <= i < |r| => r[i].title)
  }

  /** The numbered entry titles differ from each other and from the fixed titles. */
  lemma EntryTitlesDistinct(n: nat)
    ensures forall i, j :: 0 <= i < j < n ==> EntryTitle(i) != EntryTitle(j)
    ensures forall i :: 0 <= i < n ==>
              EntryTitle(i) != "Personal" && EntryTitle(i) != "Appointments" && EntryTitle(i) != "Travel details"
  {
    forall i, j | 0 <= i < j < n ensures EntryTitle(i) != EntryTitle(j) {
      if EntryTitle(i) == EntryTitle(j) {
        NumberedInjective("Entry #", i + 1, j + 1);
      }
    }
    forall i | 0 <= i < n
      ensures EntryTitle(i) != "Personal" && EntryTitle(i) != "Appointments" && EntryTitle(i) != "Travel details"
    {
      var t := EntryTitle(i);
      assert t[0] == "Entry #"[0] == 'E';
    }
  }

  /**
   * The layout of an assembled list whose fixed sections are titled "Personal",
   * "Appointments" and "Travel details" and whose middle sections carry the entry titles in
   * order: positions and titles, none repeated.
   */
  lemma AssembleLayout(first: Section, second: Option<Section>, middle: seq<Section>, last: Option<Section>)
    requires first.title == "Personal"
    requires second.Some? ==> second.value.title == "Appointments"
    requires last.Some? ==> last.value.title == "Travel details"
    requires forall i :: 0 <= i < |middle| ==> middle[i].title == EntryTitle(i)
    ensures var r := Assemble(first, second, middle, last);
            var a := if second.Some? then 1 else 0;
            |r| == 1 + a + |middle| + (if last.Some? then 1 else 0) &&
            r[0] == first && (second.Some? ==> r[1] == second.value) &&
            r[1 + a .. 1 + a + |middle|] == middle &&
            (last.Some? ==> r[|r| - 1] == last.value) &&
            Distinct(Titles(r))
  {
    var r := Assemble(first, second, middle, last);
    var a := if second.Some? then 1 else 0;
    var ts := Titles(r);
    EntryTitlesDistinct(|middle|);
    assert r[1 + a .. 1 + a + |middle|] == middle;
    assert forall i :: 0 <= i < |middle| ==> r[1 + a + i] == middle[i];
    forall i, j | 0 <= i < j < |ts| ensures ts[i] != ts[j] {
      if 1 + a <= i && j < 1 + a + |middle| {
        assert ts[i] == EntryTitle(i - 1 - a) && ts[j] == EntryTitle(j - 1 - a);
      } else if 1 + a <= i < 1 + a + |middle| {
        assert ts[i] == EntryTitle(i - 1 - a);
      } else if 1 + a <= j < 1 + a + |middle| {
        assert ts[j] == EntryTitle(j - 1 - a);
      }
    }
  }

  /**
   * The sections of the printout page for a participant: the personal data, the first
   * appointments record if any, one section per entry, the first travel record if any.
   */
  function PrintoutSections(cfg: Config, fs: seq<Federation>, p: Participant, app: Option<Appointments>,
                            es: seq<Exhibit>, xs: seq<ExhibitParticipation>, travel: Option<TravelDetails>): seq<Section>
    requires ParticipantChoicesValid(cfg, p)
    requires app.Some? ==> AppointmentsChoicesValid(app.value)
    requires ExhibitsPrintable(es) && RowsPrintable(xs)
  {
    Assemble(Section("Personal", ParticipantPrintout(p, cfg), []),
             if app.Some? then Some(Section("Appointments", AppointmentsPrintout(app.value, AppointmentsFederation(fs, app.value)), []))
             else None,
             EntrySections(es, xs),
             if travel.Some? then Some(Section("Travel details", TravelPrintout(travel.value, false), [])) else None)
  }

  /**
   * The printout page: the personal section first, then the appointments section exactly when
   * the participant has appointments, the entry sections "Entry #1" onwards in table order,
   * and the travel section last exactly when there are travel details.
   */
  lemma PrintoutSectionsLayout(cfg: Config, fs: seq<Federation>, p: Participant, app: Option<Appointments>,
                               es: seq<Exhibit>, xs: seq<ExhibitParticipation>, travel: Option<TravelDetails>)
    requires ParticipantChoicesValid(cfg, p)
    requires app.Some? ==> AppointmentsChoicesValid(app.value)
    requires ExhibitsPrintable(es) && RowsPrintable(xs)
    ensures var r := PrintoutSections(cfg, fs, p, app, es, xs, travel);
            var a := if app.Some? then 1 else 0;
            |r| == 1 + a + |es| + (if travel.Some? then 1 else 0) &&
            r[0] == Section("Personal", ParticipantPrintout(p, cfg), []) &&
            (app.Some? ==>
               r[1] == Section("Appointments", AppointmentsPrintout(app.value, AppointmentsFederation(fs, app.value)), [])) &&
            r[1 + a .. 1 + a + |es|] == EntrySections(es, xs) &&
            (travel.Some? ==> r[|r| - 1] == Section("Travel details", TravelPrintout(travel.value, false), []))
  {
    PrintoutSectionsAssembled(cfg, fs, p, app, es, xs, travel);
  }

  /** No two sections of the printout page share a title. */
  lemma PrintoutTitlesDistinct(cfg: Config, fs: seq<Federation>, p: Participant, app: Option<Appointments>,
                               es: seq<Exhibit>, xs: seq<ExhibitParticipation>, travel: Option<TravelDetails>)
    requires ParticipantChoicesValid(cfg, p)
    requires app.Some? ==> AppointmentsChoicesValid(app.value)
    requires ExhibitsPrintable(es) && RowsPrintable(xs)
    ensures Distinct(Titles(PrintoutSections(cfg, fs, p, app, es, xs, travel)))
  {
    PrintoutSectionsAssembled(cfg, fs, p, app, es, xs, travel);
  }

  /** The assembly facts instantiated for the printout page. */
  lemma PrintoutSectionsAssembled(cfg: Config, fs: seq<Federation>, p: Participant, app: Option<Appointments>,
                                  es: seq<Exhibit>, xs: seq<ExhibitParticipation>, travel: Option<TravelDetails>)
    requires ParticipantChoicesValid(cfg, p)
    requires app.Some? ==> AppointmentsChoicesValid(app.value)
    requires ExhibitsPrintable(es) && RowsPrintable(xs)
    ensures var second := if app.Some? then Some(Section("Appointments", AppointmentsPrintout(app.value, AppointmentsFederation(fs, app.value)), []))
                          else None;
            var last := if travel.Some? then Some(Section("Travel details", TravelPrintout(travel.value, false), [])) else None;
            var r := Assemble(Section("Personal", ParticipantPrintout(p, cfg), []), second, EntrySections(es, xs), last);
            var a := if app.Some? then 1 else 0;
            PrintoutSections(cfg, fs, p, app, es, xs, travel) == r &&
            |r| == 1 + a + |es| + (if travel.Some? then 1 else 0) &&
            r[0] == Section("Personal", ParticipantPrintout(p, cfg), []) && (second.Some? ==> r[1] == second.value) &&
            r[1 + a .. 1 + a + |es|] == EntrySections(es, xs) &&
            (last.Some? ==> r[|r| - 1] == last.value) &&
            Distinct(Titles(r))
  {
    var second := if app.Some? then Some(Section("Appointments", AppointmentsPrintout(app.value, AppointmentsFederation(fs, app.value)), []))
                  else None;
    var last := if travel.Some? then Some(Section("Travel details", TravelPrintout(travel.value, false), [])) else None;
    AssembleLayout(Section("Personal", ParticipantPrintout(p, cfg), []), second, EntrySections(es, xs), last);
  }

  // ---------------------------------------------------------------------------
  // Notification mails
  // ---------------------------------------------------------------------------

  /** Whose address a mail's closing paragraph gives for objections. */
  datatype Notice = FederationNotice(contact: string) | CommissionerNotice(contact: string)

  datatype Mail = Mail(subject: string, recipients: seq<string>, title: string, notice: Notice,
                       sections: seq<Section>)

  /** The mail subject: the exhibition's name, a dash, the mail's title. */
  function Subject(cfg: Config, title: string): (s: string)
    ensures |s| == |cfg.exhibitionName| + 3 + |title|
    ensures s[..|cfg.exhibitionName|] == cfg.exhibitionName && s[|s| - |title|..] == title
    ensures s[|cfg.exhibitionName|..|s| - |title|] == " - "
  {
    cfg.exhibitionName + " - " + title
  }

  /**
   * The recipients of a notification: the given addresses unless only the additional
   * recipients are configured, followed by the additional recipients.
   */
  function Recipients(cfg: Config, addresses: seq<string>): (r: seq<string>)
    ensures |r| == (if cfg.emailOnlyAdditionalRecipients then 0 else |addresses|) + |cfg.emailAdditionalRecipients|
    ensures cfg.emailOnlyAdditionalRecipients ==> r == cfg.emailAdditionalRecipients
    ensures !cfg.emailOnlyAdditionalRecipients ==> r[..|addresses|] == addresses
    ensures r[|r| - |cfg.emailAdditionalRecipients|..] == cfg.emailAdditionalRecipients
  {
    (if cfg.emailOnlyAdditionalRecipients then [] else addresses) + cfg.emailAdditionalRecipients
  }

  /**
   * The mail to a federation after its commissioner or juror registered: sent only when the
   * chosen federation has an e-mail field, to the addresses listed there.
   */
  function AppointmentsMail(cfg: Config, fs: seq<Federation>, p: Participant, a: Appointments): Option<Mail>
    requires ParticipantChoicesValid(cfg, p) && AppointmentsChoicesValid(a)
  {
    var f := AppointmentsFederation(fs, a);
    if f.Some? && f.value.email != "" then
      Some(Mail(Subject(cfg, "Commissioner/Juror Registration"), Recipients(cfg, EmailList(f.value.email)),
                "Commissioner/Juror Registration", FederationNotice(cfg.exhibitionEmail),
                [Section("Personal", ParticipantPrintout(p, cfg), []),
                 Section("Appointments", AppointmentsPrintout(a, f), [])]))
    else None
  }

  /**
   * A mail is sent exactly when the federation the record names has an e-mail field; it
   * goes to every address listed there (unless only the additional recipients are
   * configured) and to the additional recipients.
   */
  lemma AppointmentsMailRecipients(cfg: Config, fs: seq<Federation>, p: Participant, a: Appointments)
    requires ParticipantChoicesValid(cfg, p) && AppointmentsChoicesValid(a)
    ensures AppointmentsMail(cfg, fs, p, a).Some? <==>
              AppointmentsFederation(fs, a).Some? && AppointmentsFederation(fs, a).value.email != ""
    ensures AppointmentsMail(cfg, fs, p, a).Some? ==>
              var m := AppointmentsMail(cfg, fs, p, a).value;
              var f := AppointmentsFederation(fs, a).value;
              m.recipients == (if cfg.emailOnlyAdditionalRecipients then [] else EmailList(f.email)) +
                              cfg.emailAdditionalRecipients &&
              |m.recipients| >= |cfg.emailAdditionalRecipients| + (if cfg.emailOnlyAdditionalRecipients then 0 else 1)
  {
  }

  /** The mail carries the personal printout and the printout of the appointments. */
  lemma AppointmentsMailContent(cfg: Config, fs: seq<Federation>, p: Participant, a: Appointments)
    requires ParticipantChoicesValid(cfg, p) && AppointmentsChoicesValid(a)
    ensures AppointmentsMail(cfg, fs, p, a).Some? ==>
              var m := AppointmentsMail(cfg, fs, p, a).value;
              m.title == "Commissioner/Juror Registration" && m.subject == Subject(cfg, m.title) &&
              |m.sections| == 2 &&
              m.sections[0] == Section("Personal", ParticipantPrintout(p, cfg), []) &&
              m.sections[1] == Section("Appointments", AppointmentsPrintout(a, AppointmentsFederation(fs, a)), []) &&
              m.notice == FederationNotice(cfg.exhibitionEmail)
  {
  }

  /** An appointments record names the federation of a country as its commissioner's. */
  predicate CommissionerFor(fs: seq<Federation>, code: string, a: Appointments) {
    a.commissioner && a.federation.Some? &&
    exists i :: 0 <= i < |fs| && fs[i].id == a.federation.value && fs[i].countryCode == code
  }

  /** The first commissioner appointment for a country. */
  function CountryCommissioner(fs: seq<Federation>, apps: seq<Appointments>, code: string): Option<Appointments> {
    First(apps, (a: Appointments) => CommissionerFor(fs, code, a))
  }

  /** The first federation of a country. */
  function CountryFederation(fs: seq<Federation>, code: string): Option<Federation> {
    First(fs, (f: Federation) => f.countryCode == code)
  }

  /**
   * The addresses lines 133-145 choose for an entry of an exhibitor from the country: the
   * appointed commissioner's own address; else the federation's commissioner address; else
   * every address of the federation; else, when nothing was found, the configured fallback.
   */
  function EntryAddresses(cfg: Config, ps: seq<Participant>, fs: seq<Federation>, apps: seq<Appointments>,
                          code: string): seq<string>
  {
    var found := CommissionerAddresses(ps, fs, apps, code);
    if found == [] && cfg.noCommissionerEmail != "" then [cfg.noCommissionerEmail] else found
  }

  /** The addresses found before the fallback is considered. */
  function CommissionerAddresses(ps: seq<Participant>, fs: seq<Federation>, apps: seq<Appointments>,
                                 code: string): seq<string>
  {
    var c := CountryCommissioner(fs, apps, code);
    if c.Some? then
      var holder := ParticipantById(ps, c.value.participant);
      if holder.Some? then [holder.value.email] else []
    else
      var f := CountryFederation(fs, code);
      if f.None? then []
      else if f.value.commissionerEmail != "" then [f.value.commissionerEmail]
      else EmailList(f.value.email)
  }

  /**
   * No address is found exactly when the country has no commissioner appointment, its
   * federation (if any) has neither a commissioner address nor an e-mail field, and no
   * fallback is configured (given that every appointments record names a stored participant).
   */
  lemma EntryAddressesEmptyIff(cfg: Config, ps: seq<Participant>, fs: seq<Federation>, apps: seq<Appointments>,
                               code: string)
    requires forall i :: 0 <= i < |apps| ==> apps[i].participant in ParticipantIds(ps)
    ensures EntryAddresses(cfg, ps, fs, apps, code) == [] <==>
              (forall i :: 0 <= i < |apps| ==> !CommissionerFor(fs, code, apps[i])) &&
              (CountryFederation(fs, code).None? ||
               (CountryFederation(fs, code).value.commissionerEmail == "" &&
                CountryFederation(fs, code).value.email == "")) &&
              cfg.noCommissionerEmail == ""
  {
    var c := CountryCommissioner(fs, apps, code);
    if c.Some? {
      var i :| 0 <= i < |apps| && apps[i] == c.value;
      assert c.value.participant in ParticipantIds(ps);
      assert ParticipantById(ps, c.value.participant).Some?;
    }
  }

  /**
   * A commissioner appointment for the country takes precedence over the federation's
   * addresses: the one address found is that of the participant holding it.
   */
  lemma EntryAddressesCommissionerFirst(cfg: Config, ps: seq<Participant>, fs: seq<Federation>,
                                        apps: seq<Appointments>, code: string)
    requires forall i :: 0 <= i < |apps| ==> apps[i].participant in ParticipantIds(ps)
    requires CountryCommissioner(fs, apps, code).Some?
    ensures exists k :: 0 <= k < |ps| && ps[k].id == CountryCommissioner(fs, apps, code).value.participant &&
                        CommissionerAddresses(ps, fs, apps, code) == [ps[k].email]
  {
    var c := CountryCommissioner(fs, apps, code).value;
    var i :| 0 <= i < |apps| && apps[i] == c;
    assert c.participant in ParticipantIds(ps);
    var holder := ParticipantById(ps, c.participant);
    assert holder.Some?;
    var k :| 0 <= k < |ps| && ps[k] == holder.value && ps[k].id == c.participant;
    assert CommissionerAddresses(ps, fs, apps, code) == [ps[k].email];
  }

  /**
   * Every address chosen is the address of a participant holding a commissioner appointment
   * for the country, the commissioner address or one of the listed addresses of a federation
   * of the country, or the configured fallback.
   */
  lemma EntryAddressesProvenance(cfg: Config, ps: seq<Participant>, fs: seq<Federation>, apps: seq<Appointments>,
                                 code: string)
    ensures forall x :: x in EntryAddresses(cfg, ps, fs, apps, code) ==>
              x == cfg.noCommissionerEmail ||
              (exists i, k :: 0 <= i < |apps| && 0 <= k < |ps| && CommissionerFor(fs, code, apps[i]) &&
                              ps[k].id == apps[i].participant && x == ps[k].email) ||
              (exists j :: 0 <= j < |fs| && fs[j].countryCode == code &&
                           (x == fs[j].commissionerEmail || x in EmailList(fs[j].email)))
  {
    var c := CountryCommissioner(fs, apps, code);
    if c.Some? {
      var i :| 0 <= i < |apps| && apps[i] == c.value && CommissionerFor(fs, code, apps[i]);
      var holder := ParticipantById(ps, c.value.participant);
      if holder.Some? {
        var k :| 0 <= k < |ps| && ps[k] == holder.value && ps[k].id == c.value.participant;
      }
    } else {
      var f := CountryFederation(fs, code);
      if f.Some? {
        var j :| 0 <= j < |fs| && fs[j] == f.value && fs[j].countryCode == code;
      }
    }
  }

  /** The contact the entry mail names for objections: the general commissioner, else the exhibition. */
  function EntryContact(cfg: Config): string {
    if cfg.generalCommissionerEmail != "" then cfg.generalCommissionerEmail else cfg.exhibitionEmail
  }

  /**
   * The mail about a saved entry, to the commissioner of the exhibitor's country, carrying
   * the personal printout and the entry with its previous participations.
   */
  function EntryMail(cfg: Config, ps: seq<Participant>, fs: seq<Federation>, apps: seq<Appointments>,
                     p: Participant, e: Exhibit, xs: seq<ExhibitParticipation>): Option<Mail>
    requires ParticipantChoicesValid(cfg, p) && ExhibitChoicesValid(e) && RowsPrintable(xs)
  {
    var to := EntryAddresses(cfg, ps, fs, apps, p.country.code);
    if to == [] then None
    else
      Some(Mail(Subject(cfg, "Exhibit Registration"), Recipients(cfg, to), "Exhibit Registration",
                CommissionerNotice(EntryContact(cfg)),
                [Section("Personal", ParticipantPrintout(p, cfg), []), EntrySection("Entry", e, xs)]))
  }

  /**
   * The entry mail is sent exactly when addresses are found for the exhibitor's country;
   * it goes to them (unless only the additional recipients are configured) and to the
   * additional recipients.
   */
  lemma EntryMailRecipients(cfg: Config, ps: seq<Participant>, fs: seq<Federation>, apps: seq<Appointments>,
                            p: Participant, e: Exhibit, xs: seq<ExhibitParticipation>)
    requires ParticipantChoicesValid(cfg, p) && ExhibitChoicesValid(e) && RowsPrintable(xs)
    ensures EntryMail(cfg, ps, fs, apps, p, e, xs).Some? <==> EntryAddresses(cfg, ps, fs, apps, p.country.code) != []
    ensures EntryMail(cfg, ps, fs, apps, p, e, xs).Some? ==>
              EntryMail(cfg, ps, fs, apps, p, e, xs).value.recipients ==
                (if cfg.emailOnlyAdditionalRecipients then [] else EntryAddresses(cfg, ps, fs, apps, p.country.code)) +
                cfg.emailAdditionalRecipients
  {
  }

  /**
   * The entry mail carries the personal printout and the entry's, with one subsection per
   * previous participation numbered from 1, and names the general commissioner (else the
   * exhibition) for objections.
   */
  lemma EntryMailContent(cfg: Config, ps: seq<Participant>, fs: seq<Federation>, apps: seq<Appointments>,
                         p: Participant, e: Exhibit, xs: seq<ExhibitParticipation>)
    requires ParticipantChoicesValid(cfg, p) && ExhibitChoicesValid(e) && RowsPrintable(xs)
    ensures EntryMail(cfg, ps, fs, apps, p, e, xs).Some? ==>
              var m := EntryMail(cfg, ps, fs, apps, p, e, xs).value;
              m.title == "Exhibit Registration" && m.subject == Subject(cfg, m.title) &&
              |m.sections| == 2 &&
              m.sections[0] == Section("Personal", ParticipantPrintout(p, cfg), []) &&
              m.sections[1] == EntrySection("Entry", e, xs) &&
              m.notice == CommissionerNotice(EntryContact(cfg))
  {
  }

  // ---------------------------------------------------------------------------
  // remove_exhibit
  // ---------------------------------------------------------------------------

  datatype RemoveOutcome = RemoveCrash | Delete(exhibit: int) | KeepAll

  /** `remove_exhibit` as meant: the user's own entry is deleted, any other request deletes nothing. */
  function RemoveDecision(participant: Option<Participant>, es: seq<Exhibit>, id: int): RemoveOutcome {
    if Owns(participant, es, id) then Delete(id) else KeepAll
  }

  /**
   * `remove_exhibit` as written: the missing participant's `DoesNotExist` is not the exception
   * the handler catches (lines 250-255).
   */
  function RemoveDecisionAsWritten(participant: Option<Participant>, es: seq<Exhibit>, id: int): RemoveOutcome {
    if participant.None? then RemoveCrash
    else if Owns(participant, es, id) then Delete(id)
    else KeepAll
  }

  /**
   * An entry is deleted exactly when it is the user's own; a user without a participant
   * record makes the code as written fail, and otherwise it does the same.
   */
  lemma RemoveDecisionFacts(participant: Option<Participant>, es: seq<Exhibit>, id: int)
    ensures RemoveDecision(participant, es, id) == Delete(id) <==> Owns(participant, es, id)
    ensures RemoveDecision(participant, es, id) != Delete(id) ==> RemoveDecision(participant, es, id) == KeepAll
    ensures participant.None? ==>
              RemoveDecisionAsWritten(participant, es, id) == RemoveCrash &&
              RemoveDecision(participant, es, id) == KeepAll
    ensures participant.Some? ==> RemoveDecisionAsWritten(participant, es, id) == RemoveDecision(participant, es, id)
  {
  }
}
