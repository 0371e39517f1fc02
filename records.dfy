/**
 * The registration records (registrations/models.py) as values, the Python field values
 * the export and the printouts observe, the choice tables and the settings the core reads.
 */
module Records {
  import opened Text

  datatype Option<T> = None | Some(value: T)

  /** A field value as Python holds it, as far as `not value` and `str(value)` observe it. */
  datatype Value =
    | Null                 // None
    | Bool(b: bool)
    | Int(n: int)
    | Str(s: string)       // character and text fields, file names, country codes
    | Stamp(text: string)  // a date or date-time, in the form `str()` prints it

  /** Python truthiness: None, False, 0 and '' are falsy; a date is always truthy. */
  predicate Truthy(v: Value) {
    match v
    case Null => false
    case Bool(b) => b
    case Int(n) => n != 0
    case Str(s) => s != ""
    case Stamp(_) => true
  }

  /** Python's `str(value)`. */
  function ToStr(v: Value): string {
    match v
    case Null => "None"
    case Bool(b) => if b then "True" else "False"
    case Int(n) => IntToString(n)
    case Str(s) => s
    case Stamp(t) => t
  }

  function IntOrNull(o: Option<int>): Value {
    if o.Some? then Int(o.value) else Null
  }

  function StampOrNull(o: Option<string>): Value {
    if o.Some? then Stamp(o.value) else Null
  }

  /** A country field: `str()` of it is the code, `.name` the country's name. */
  datatype Country = Country(code: string, name: string)

  datatype Participant = Participant(
    id: int, user: Option<int>, title: string, surname: string, name: string, photo: string,
    address: string, country: Country, email: string, telephone: string, mobile: string,
    language: string, remarks: string)

  /** `commissioner_email` may be NULL in the database; NULL and '' behave alike and are both "". */
  datatype Federation = Federation(
    id: int, country: string, countryCode: string, name: string,
    commissionerEmail: string, email: string)

  datatype Appointments = Appointments(
    id: int, participant: int, federation: Option<int>, commissioner: bool, jury: bool,
    apprenticeJury: bool, accreditedJuror: string, accreditedJurorDisciplines: string,
    teamLeader: bool, teamLeaderDisciplines: string)

  datatype Exhibit = Exhibit(
    id: int, participant: int, title: string, shortDescription: string, exhibitClass: string,
    dateOfBirth: Option<string>, frames: int, introductoryPage: string, synopsis: string,
    remarks: string, author: string, publisher: string, yearOfPublication: Option<int>,
    language: string, isbn: string, pages: Option<int>, format: string, frequency: string,
    availability: string, price: string, rejected: bool)

  datatype ExhibitParticipation = ExhibitParticipation(
    id: int, exhibit: int, exhibitionLevel: string, exhibitionName: string, points: int,
    medal: string, specialPrize: bool, felicitations: bool)

  datatype TravelDetails = TravelDetails(
    id: int, participant: int, arrival: Option<string>, arrivalFlightNumber: string,
    departure: Option<string>, departureFlightNumber: string, ticketPrice: string, spouse: bool,
    spouseSurname: string, spouseName: string, hotel: string, hotelWebsite: string, remarks: string)

  /** The model classes that mix in the export behaviour. */
  datatype Model = ParticipantModel | FederationModel | AppointmentsModel | ExhibitModel
                 | ParticipationModel | TravelModel

  /** An instance of one of the exported model classes. */
  datatype Record =
    | ParticipantRecord(p: Participant)
    | FederationRecord(f: Federation)
    | AppointmentsRecord(a: Appointments)
    | ExhibitRecord(e: Exhibit)
    | ParticipationRecord(x: ExhibitParticipation)
    | TravelRecord(t: TravelDetails)

  function ModelOf(r: Record): Model {
    match r
    case ParticipantRecord(_) => ParticipantModel
    case FederationRecord(_) => FederationModel
    case AppointmentsRecord(_) => AppointmentsModel
    case ExhibitRecord(_) => ExhibitModel
    case ParticipationRecord(_) => ParticipationModel
    case TravelRecord(_) => TravelModel
  }

  /** `cls.export_keys()`: the column names of the class's `_export_fields`, in declaration order. */
  function ExportKeys(m: Model): seq<string> {
    match m
    case ParticipantModel => ParticipantFields()
    case FederationModel => FederationFields()
    case AppointmentsModel => AppointmentsFields()
    case ExhibitModel => ExhibitFields()
    case ParticipationModel => ParticipationFields()
    case TravelModel => TravelFields()
  }

  function ParticipantFields(): seq<string> {
    ["id", "title_id", "surname",
     "name", "address", "country_id",
     "email", "telephone", "mobile",
     "language_id", "remarks"]
  }

  function FederationFields(): seq<string> {
    ["id", "country", "country_code",
     "name", "commissioner_email",
     "email"]
  }

  function AppointmentsFields(): seq<string> {
    ["federation_id", "commissioner",
     "jury", "apprentice_jury",
     "accredited_juror_id",
     "accredited_juror_disciplines",
     "team_leader", "team_leader_disciplines"]
  }

  function ExhibitFields(): seq<string> {
    ["id", "registrant_id", "title",
     "short_description", "exhibit_class",
     "date_of_birth", "frames",
     "introductory_page", "synopsis",
     "remarks", "author", "publisher",
     "year_of_publication", "language",
     "isbn", "pages", "format",
     "frequency", "availability",
     "price"]
  }

  function ParticipationFields(): seq<string> {
    ["id", "exhibit_id",
     "exhibition_level_id", "exhibition_name",
     "points", "medal_id",
     "special_prize", "felicitations"]
  }

  function TravelFields(): seq<string> {
    ["arrival", "arrival_flight_number",
     "departure", "departure_flight_number",
     "ticket_price", "spouse",
     "spouse_surname", "spouse_name",
     "hotel", "hotel_website",
     "travel_remarks"]
  }

  /**
   * The attribute values `export_values` reads, one per entry of the class's `_export_fields`,
   * in order: position i holds the attribute that entry i names.
   */
  function Attributes(r: Record): seq<Value> {
    match r
    case ParticipantRecord(p) => ParticipantValues(p)
    case FederationRecord(f) => FederationValues(f)
    case AppointmentsRecord(a) => AppointmentsValues(a)
    case ExhibitRecord(e) => ExhibitValues(e)
    case ParticipationRecord(x) => ParticipationValues(x)
    case TravelRecord(t) => TravelValues(t)
  }

  function ParticipantValues(p: Participant): seq<Value> {
    [Int(p.id), Str(p.title), Str(p.surname), Str(p.name), Str(p.address), Str(p.country.code),
     Str(p.email), Str(p.telephone), Str(p.mobile), Str(p.language), Str(p.remarks)]
  }

  function FederationValues(f: Federation): seq<Value> {
    [Int(f.id), Str(f.country), Str(f.countryCode), Str(f.name), Str(f.commissionerEmail), Str(f.email)]
  }

  function AppointmentsValues(a: Appointments): seq<Value> {
    [IntOrNull(a.federation), Bool(a.commissioner), Bool(a.jury), Bool(a.apprenticeJury),
     Str(a.accreditedJuror), Str(a.accreditedJurorDisciplines), Bool(a.teamLeader),
     Str(a.teamLeaderDisciplines)]
  }

  function ExhibitValues(e: Exhibit): seq<Value> {
    [Int(e.id), Int(e.participant), Str(e.title), Str(e.shortDescription), Str(e.exhibitClass),
     StampOrNull(e.dateOfBirth), Int(e.frames), Str(e.introductoryPage), Str(e.synopsis),
     Str(e.remarks), Str(e.author), Str(e.publisher), IntOrNull(e.yearOfPublication),
     Str(e.language), Str(e.isbn), IntOrNull(e.pages), Str(e.format), Str(e.frequency),
     Str(e.availability), Str(e.price)]
  }

  function ParticipationValues(x: ExhibitParticipation): seq<Value> {
    [Int(x.id), Int(x.exhibit), Str(x.exhibitionLevel), Str(x.exhibitionName), Int(x.points),
     Str(x.medal), Bool(x.specialPrize), Bool(x.felicitations)]
  }

  function TravelValues(t: TravelDetails): seq<Value> {
    [StampOrNull(t.arrival), Str(t.arrivalFlightNumber), StampOrNull(t.departure),
     Str(t.departureFlightNumber), Str(t.ticketPrice), Bool(t.spouse), Str(t.spouseSurname),
     Str(t.spouseName), Str(t.hotel), Str(t.hotelWebsite), Str(t.remarks)]
  }

  /** A record has exactly one attribute per export field of its class. */
  lemma AttributesMatchFields(r: Record)
    ensures |Attributes(r)| == |ExportKeys(ModelOf(r))|
  {
  }

  /**
   * `Appointments()`: the unsaved instance the participant export joins when a participant
   * has no appointments. Its foreign key is unset, its flags are unset and its texts empty.
   */
  function BlankAppointments(): Appointments {
    Appointments(0, 0, None, false, false, false, "", "", false, "")
  }

  /** `TravelDetails()`: the unsaved instance joined when a participant has no travel details. */
  function BlankTravelDetails(): TravelDetails {
    TravelDetails(0, 0, None, "", None, "", "", false, "", "", "", "", "")
  }

  // ---------------------------------------------------------------------------
  // Choice tables
  // ---------------------------------------------------------------------------

  type Choices = seq<(string, string)>

  const TitleChoices: Choices :=
    [("MR", "Mr"), ("MRS", "Mrs"), ("MISS", "Miss"), ("DR", "Dr"), ("NONE", "None")]

  const AccreditedJurorChoices: Choices := [("FIP", "FIP"), ("FEPA", "FEPA"), ("NAT", "National")]

  const ExhibitClassChoices: Choices :=
    [("B1", "B1. Classe des Champions"),
     ("C1", "C1. Traditional Philately"),
     ("C2", "C2. Postal History"),
     ("C3", "C3. Postal Stationery"),
     ("C4", "C4. Aerophilately"),
     ("C5", "C5. Astrophilately"),
     ("C6", "C6. Revenues"),
     ("C7", "C7. Thematic Philately"),
     ("C8", "C8. Maximaphily"),
     ("C9", "C9. Open Philately"),
     ("C10", "C10. Picture Postcards"),
     ("L1", "L1. Philatelic Literature – Books of research nature, specialised catalogues"),
     ("L2", "L2. Philatelic Literature – Books of promotional and documentary character"),
     ("L3", "L3. Philatelic Literature – General catalogues"),
     ("L4", "L4. Philatelic Literature – Periodicals"),
     ("L5", "L5. Philatelic Literature – Articles (collections of)"),
     ("L6", "L6. Philatelic Literature – Websites"),
     ("L7", "L7. Philatelic Literature – Software"),
     ("L8", "L8. Philatelic Literature – Other digital works"),
     ("Y1", "Y1. Youth Philately - Exhibitor’s age (at 1.1.2021) 10-15 years"),
     ("Y2", "Y2. Youth Philately - Exhibitor’s age (at 1.1.2021) 16-18 years"),
     ("Y3", "Y3. Youth Philately - Exhibitor’s age (at 1.1.2021) 19-21 years"),
     ("A4", "A4. Other exhibits (non-competitive)")]

  const ExhibitionLevelChoices: Choices :=
    [("WORLD", "FIP World"), ("CONT", "FEPA/FIAF/FIAP Continental"),
     ("INT", "Other International"), ("NAT", "National")]

  const MedalChoices: Choices :=
    [("GPdH", "GPd'H Candidate"), ("GP", "GP Winner"), ("GPC", "GP Candidate"),
     ("LG", "Large Gold"), ("G", "Gold"), ("LV", "Large Vermeil"), ("V", "Vermeil"),
     ("LS", "Large Silver"), ("S", "Silver"), ("SB", "Silver Bronze"), ("B", "Bronze")]

  predicate HasKey(choices: Choices, key: string) {
    exists i :: 0 <= i < |choices| && choices[i].0 == key
  }

  /** The position of the last pair among the first n whose key is `key`, if any. */
  function LastKeyIndex(choices: Choices, key: string, n: nat): (r: Option<nat>)
    requires n <= |choices|
    ensures r.None? <==> forall j :: 0 <= j < n ==> choices[j].0 != key
    ensures r.Some? ==> r.value < n && choices[r.value].0 == key &&
                        forall j :: r.value < j < n ==> choices[j].0 != key
  {
    if n == 0 then None
    else if choices[n - 1].0 == key then Some(n - 1)
    else LastKeyIndex(choices, key, n - 1)
  }

  /** `dict(choices)[key]`: the caption of the LAST pair with that key, as `dict()` keeps the last. */
  function ChoiceLabel(choices: Choices, key: string): (caption: string)
    requires HasKey(choices, key)
    ensures exists i :: 0 <= i < |choices| && choices[i] == (key, caption) &&
              forall j :: i < j < |choices| ==> choices[j].0 != key
  {
    var k := LastKeyIndex(choices, key, |choices|);
    if k.Some? then
      assert choices[k.value] == (key, choices[k.value].1);
      choices[k.value].1
    else
      assert false; ""
  }

  // ---------------------------------------------------------------------------
  // Settings
  // ---------------------------------------------------------------------------

  /** The settings the core reads (exhibition/settings). */
  datatype Config = Config(
    exhibitionName: string,
    exhibitionEmail: string,
    nativeCommunicationLanguage: (string, string),
    entryFormsDisabledMessage: string,
    noCommissionerEmail: string,
    generalCommissionerEmail: string,
    emailAdditionalRecipients: seq<string>,
    emailOnlyAdditionalRecipients: bool)

  /** `Participant.LANGUAGE_CHOICES`: English plus the configured native language. */
  function LanguageChoices(cfg: Config): Choices {
    [("EN", "English"), cfg.nativeCommunicationLanguage]
  }
}
