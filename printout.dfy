/**
 * The record summaries of registrations/models.py: each model's `printout()`, an ordered
 * caption-to-value mapping that the notification mails and the printout page list in order,
 * and the federation's `full_name()` and `email_list()`.
 */
module Printouts {
  import opened Text
  import opened Records

  /** One line of a printout: a caption and the value shown beside it. */
  datatype Entry = Entry(caption: string, value: Value)

  /** The ordered mapping built from its captions and its values, pair by pair. */
  function Lines(captions: seq<string>, values: seq<Value>): (r: seq<Entry>)
    requires |captions| == |values|
    ensures |r| == |captions|
    ensures forall i :: 0 <= i < |r| ==> r[i] == Entry(captions[i], values[i])
  {
    seq(|captions|, i requires 0 <= i < |captions| => Entry(captions[i], values[i]))
  }

  function Captions(r: seq<Entry>): (cs: seq<string>)
    ensures |cs| == |r|
    ensures forall i :: 0 <= i < |r| ==> cs[i] == r[i].caption
  {
    seq(|r|, i requires 0 <= i < |r| => r[i].caption)
  }

  predicate Distinct(s: seq<string>) {
    forall i, j :: 0 <= i < j < |s| ==> s[i] != s[j]
  }

  /** An ordered mapping holds each key once: no caption repeats. */
  predicate DistinctCaptions(r: seq<Entry>) {
    Distinct(Captions(r))
  }

  lemma LinesCaptions(captions: seq<string>, values: seq<Value>)
    requires |captions| == |values|
    ensures Captions(Lines(captions, values)) == captions
  {
  }

  lemma LinesAppend(c1: seq<string>, v1: seq<Value>, c2: seq<string>, v2: seq<Value>)
    requires |c1| == |v1| && |c2| == |v2|
    ensures Lines(c1, v1) + Lines(c2, v2) == Lines(c1 + c2, v1 + v2)
  {
  }

  /** `'Yes' if flag else 'No'`. */
  function YesNo(b: bool): Value {
    Str(if b then "Yes" else "No")
  }

  /** A file field shown by the base name of its file, or '' when no file is set. */
  function FileName(name: string): Value {
    Str(if name != "" then BaseName(name) else "")
  }

  /**
   * A file line is '' when no file is set and otherwise the slash-free tail of the file name,
   * which is not empty for a name not ending in '/'.
   */
  lemma FileNameFacts(name: string)
    ensures name == "" ==> FileName(name) == Str("")
    ensures name != "" ==>
              exists b :: FileName(name) == Str(b) && |b| <= |name| && b == name[|name| - |b|..] &&
                '/' !in b && (name[|name| - 1] != '/' ==> b != "")
  {
    if name != "" {
      BaseNameFacts(name);
      assert FileName(name) == Str(BaseName(name));
    }
  }

  /** `value or ''` on a nullable number: None and 0 both print as ''. */
  function IntOrEmpty(o: Option<int>): Value {
    if o.Some? && o.value != 0 then Int(o.value) else Str("")
  }

  /** `value or ''` on a nullable date-time. */
  function StampOrEmpty(o: Option<string>): Value {
    if o.Some? then Stamp(o.value) else Str("")
  }

  // ---------------------------------------------------------------------------
  // Federation
  // ---------------------------------------------------------------------------

  /** `Federation.full_name()`: "FED <country> - <name>". */
  function FederationFullName(f: Federation): (s: string)
    ensures StartsWith(s, "FED ")
    ensures |s| == 7 + |f.country| + |f.name|
    ensures s[4..4 + |f.country|] == f.country && s[|s| - |f.name|..] == f.name
    ensures s[4 + |f.country|..|s| - |f.name|] == " - "
  {
    "FED " + f.country + " - " + f.name
  }

  function StripAll(ps: seq<string>): (r: seq<string>)
    ensures |r| == |ps|
    ensures forall i :: 0 <= i < |ps| ==> r[i] == Strip(ps[i])
  {
    seq(|ps|, i requires 0 <= i < |ps| => Strip(ps[i]))
  }

  /**
   * `Federation.email_list()`: no address when the field is empty, otherwise one address per
   * comma-separated piece, each with its surrounding whitespace removed.
   */
  function EmailList(email: string): (r: seq<string>)
    ensures r == [] <==> email == ""
    ensures email != "" ==> |r| == Count(email, ',') + 1
  {
    if email == "" then []
    else
      SplitOnFacts(email, ',');
      StripAll(SplitOn(email, ','))
  }

  /** Removing surrounding whitespace cannot bring in a comma. */
  lemma StripKeepsNoComma(s: string)
    requires forall k :: 0 <= k < |s| ==> s[k] != ','
    ensures forall k :: 0 <= k < |Strip(s)| ==> Strip(s)[k] != ','
  {
  }

  /**
   * Address i is comma-separated piece i of the field with its surrounding whitespace removed,
   * in order; so every address is comma-free and has no surrounding whitespace.
   */
  lemma EmailListAddresses(email: string)
    ensures email != "" ==>
              |EmailList(email)| == |SplitOn(email, ',')| &&
              forall i :: 0 <= i < |EmailList(email)| ==> EmailList(email)[i] == Strip(SplitOn(email, ',')[i])
    ensures forall i :: 0 <= i < |EmailList(email)| ==>
              Strip(EmailList(email)[i]) == EmailList(email)[i] &&
              forall k :: 0 <= k < |EmailList(email)[i]| ==> EmailList(email)[i][k] != ','
  {
    if email != "" {
      SplitOnFacts(email, ',');
      var ps := SplitOn(email, ',');
      var r := EmailList(email);
      assert r == StripAll(ps);
      forall i | 0 <= i < |r|
        ensures Strip(r[i]) == r[i]
        ensures forall k :: 0 <= k < |r[i]| ==> r[i][k] != ','
      {
        StripIdempotent(ps[i]);
        StripKeepsNoComma(ps[i]);
      }
    }
  }

  /**
   * The partner of `EmailList`: when no address in the field carries surrounding whitespace,
   * joining the list with commas gives the field back.
   */
  lemma EmailListJoin(email: string)
    requires email != ""
    requires forall p :: p in SplitOn(email, ',') ==> Strip(p) == p
    ensures Join([','], EmailList(email)) == email
  {
    SplitOnFacts(email, ',');
    var ps := SplitOn(email, ',');
    assert EmailList(email) == ps by {
      forall i | 0 <= i < |ps| ensures EmailList(email)[i] == ps[i] {
        assert ps[i] in ps;
      }
    }
  }

  // ---------------------------------------------------------------------------
  // Participant
  // ---------------------------------------------------------------------------

  const ParticipantCaptions: seq<string> :=
    ["Title", "Name", "Surname", "Photo", "Address", "Country", "Language", "Email", "Mobile",
     "Telephone", "Remarks"]

  function ParticipantLineValues(p: Participant, cfg: Config): seq<Value>
    requires HasKey(TitleChoices, p.title) && HasKey(LanguageChoices(cfg), p.language)
  {
    [Str(ChoiceLabel(TitleChoices, p.title)), Str(p.name), Str(p.surname), FileName(p.photo),
     Str(p.address), Str(p.country.name), Str(ChoiceLabel(LanguageChoices(cfg), p.language)),
     Str(p.email), Str(p.mobile), Str(p.telephone), Str(p.remarks)]
  }

  /** `Participant.printout()`. The title and the language must be keys of their choice tables. */
  function ParticipantPrintout(p: Participant, cfg: Config): seq<Entry>
    requires HasKey(TitleChoices, p.title) && HasKey(LanguageChoices(cfg), p.language)
  {
    Lines(ParticipantCaptions, ParticipantLineValues(p, cfg))
  }

  /** Eleven distinct captions, in the source's order. */
  lemma ParticipantPrintoutCaptions(p: Participant, cfg: Config)
    requires HasKey(TitleChoices, p.title) && HasKey(LanguageChoices(cfg), p.language)
    ensures Captions(ParticipantPrintout(p, cfg)) == ParticipantCaptions
    ensures DistinctCaptions(ParticipantPrintout(p, cfg))
  {
    LinesCaptions(ParticipantCaptions, ParticipantLineValues(p, cfg));
    ParticipantCaptionsDistinct();
  }

  lemma ParticipantCaptionsDistinct()
    ensures Distinct(ParticipantCaptions)
  {
  }

  /**
   * The title and language lines show the caption their key maps to; the photo line shows
   * the photo's file name as `FileName` does.
   */
  lemma ParticipantPrintoutValues(p: Participant, cfg: Config)
    requires HasKey(TitleChoices, p.title) && HasKey(LanguageChoices(cfg), p.language)
    ensures exists i :: 0 <= i < |TitleChoices| && TitleChoices[i].0 == p.title &&
              ParticipantPrintout(p, cfg)[0].value == Str(TitleChoices[i].1)
    ensures exists i :: 0 <= i < |LanguageChoices(cfg)| && LanguageChoices(cfg)[i].0 == p.language &&
              ParticipantPrintout(p, cfg)[6].value == Str(LanguageChoices(cfg)[i].1)
    ensures ParticipantPrintout(p, cfg)[3].value == FileName(p.photo)
  {
    var r := ParticipantPrintout(p, cfg);
    var vs := ParticipantLineValues(p, cfg);
    assert r[0].value == vs[0] && r[3].value == vs[3] && r[6].value == vs[6];
  }

  // ---------------------------------------------------------------------------
  // Appointments
  // ---------------------------------------------------------------------------

  const AppointmentsCaptions: seq<string> :=
    ["National federation name", "Appointed national commissioner", "Proposed as jury member",
     "Proposed as apprentice jury member", "Accredited juror", "Accredited juror discipline(s)",
     "Team leader", "Team leader discipline(s)"]

  function AppointmentsLineValues(a: Appointments, federation: Option<Federation>): seq<Value>
    requires a.accreditedJuror == "" || HasKey(AccreditedJurorChoices, a.accreditedJuror)
  {
    [Str(if federation.Some? then FederationFullName(federation.value) else ""),
     YesNo(a.commissioner), YesNo(a.jury), YesNo(a.apprenticeJury),
     Str(if a.accreditedJuror != "" then ChoiceLabel(AccreditedJurorChoices, a.accreditedJuror) else ""),
     Str(a.accreditedJurorDisciplines), YesNo(a.teamLeader), Str(a.teamLeaderDisciplines)]
  }

  /**
   * `Appointments.printout()`, given the federation the record refers to (None when the
   * record names none). An accredited-juror value, when set, must be a key of its table.
   */
  function AppointmentsPrintout(a: Appointments, federation: Option<Federation>): seq<Entry>
    requires a.accreditedJuror == "" || HasKey(AccreditedJurorChoices, a.accreditedJuror)
  {
    Lines(AppointmentsCaptions, AppointmentsLineValues(a, federation))
  }

  /** Eight distinct captions, in the source's order. */
  lemma AppointmentsPrintoutCaptions(a: Appointments, federation: Option<Federation>)
    requires a.accreditedJuror == "" || HasKey(AccreditedJurorChoices, a.accreditedJuror)
    ensures Captions(AppointmentsPrintout(a, federation)) == AppointmentsCaptions
    ensures DistinctCaptions(AppointmentsPrintout(a, federation))
  {
    LinesCaptions(AppointmentsCaptions, AppointmentsLineValues(a, federation));
    AppointmentsCaptionsDistinct();
  }

  lemma AppointmentsCaptionsDistinct()
    ensures Distinct(AppointmentsCaptions)
  {
  }

  /**
   * The federation line is '' exactly when there is no federation and its full name
   * otherwise; the accredited-juror line is '' exactly when no key is set, and otherwise the
   * caption the key maps to.
   */
  lemma AppointmentsPrintoutValues(a: Appointments, federation: Option<Federation>)
    requires a.accreditedJuror == "" || HasKey(AccreditedJurorChoices, a.accreditedJuror)
    ensures federation.None? <==> AppointmentsPrintout(a, federation)[0].value == Str("")
    ensures federation.Some? ==>
              AppointmentsPrintout(a, federation)[0].value == Str(FederationFullName(federation.value))
    ensures a.accreditedJuror == "" <==> AppointmentsPrintout(a, federation)[4].value == Str("")
    ensures a.accreditedJuror != "" ==>
              exists i :: 0 <= i < |AccreditedJurorChoices| && AccreditedJurorChoices[i].0 == a.accreditedJuror &&
                AppointmentsPrintout(a, federation)[4].value == Str(AccreditedJurorChoices[i].1)
  {
    var vs := AppointmentsLineValues(a, federation);
    var r := AppointmentsPrintout(a, federation);
    assert r[0].value == vs[0] && r[4].value == vs[4];
    if a.accreditedJuror != "" {
      var c := ChoiceLabel(AccreditedJurorChoices, a.accreditedJuror);
      assert forall i :: 0 <= i < |AccreditedJurorChoices| ==> AccreditedJurorChoices[i].1 != "";
    }
  }

  // ---------------------------------------------------------------------------
  // Exhibit
  // ---------------------------------------------------------------------------

  /** Whether the date-of-birth line is printed: always for all fields, else for youth classes. */
  predicate ShowsDateOfBirth(e: Exhibit, allFields: bool) {
    allFields || StartsWith(e.exhibitClass, "Y")
  }

  /** Whether the literature block is printed: always for all fields, else for literature classes. */
  predicate ShowsLiterature(e: Exhibit, allFields: bool) {
    allFields || StartsWith(e.exhibitClass, "L")
  }

  const ExhibitHeadCaptions: seq<string> := ["Title", "Short description", "Exhibit class", "Frames"]
  const LiteratureCaptions: seq<string> :=
    ["Front cover", "Short abstract", "Author", "Publisher", "Year of publication", "Language(s)",
     "ISBN/ISSN", "Pages", "Format", "Frequency", "Availability", "Price"]
  const ExhibitFileCaptions: seq<string> := ["Introductory page", "Synopsis"]

  /** The captions an exhibit printout shows, as the two conditions select them. */
  function ExhibitCaptions(e: Exhibit, allFields: bool): seq<string> {
    ExhibitHeadCaptions
    + (if ShowsDateOfBirth(e, allFields) then ["Date of birth"] else [])
    + (if ShowsLiterature(e, allFields) then LiteratureCaptions else ExhibitFileCaptions)
    + ["Remarks"]
  }

  /** The values beside those captions. */
  function ExhibitLineValues(e: Exhibit, allFields: bool): seq<Value>
    requires HasKey(ExhibitClassChoices, e.exhibitClass)
  {
    [Str(e.title), Str(e.shortDescription), Str(ChoiceLabel(ExhibitClassChoices, e.exhibitClass)),
     Int(e.frames)]
    + (if ShowsDateOfBirth(e, allFields) then [StampOrNull(e.dateOfBirth)] else [])
    + (if ShowsLiterature(e, allFields)
       then [Str(BaseName(e.introductoryPage)), FileName(e.synopsis), Str(e.author), Str(e.publisher),
             IntOrEmpty(e.yearOfPublication), Str(e.language), Str(e.isbn), IntOrEmpty(e.pages),
             Str(e.format), Str(e.frequency), Str(e.availability), Str(e.price)]
       else [Str(BaseName(e.introductoryPage)), FileName(e.synopsis)])
    + [Str(e.remarks)]
  }

  /**
   * `Exhibit.printout(all_fields)`: the four head lines, the date of birth when shown, the
   * literature block or else the two file lines, and the remarks. The class must be a key of
   * its table. Every update adds new keys, so the ordered mapping is this concatenation.
   */
  function ExhibitPrintout(e: Exhibit, allFields: bool): seq<Entry>
    requires HasKey(ExhibitClassChoices, e.exhibitClass)
  {
    Lines(ExhibitCaptions(e, allFields), ExhibitLineValues(e, allFields))
  }

  /** Dropping one element keeps a list free of repeats. */
  lemma DistinctWithout(a: seq<string>, x: string, b: seq<string>)
    requires Distinct(a + [x] + b)
    ensures Distinct(a + b)
  {
    var s := a + [x] + b;
    forall i, j | 0 <= i < j < |a + b| ensures (a + b)[i] != (a + b)[j] {
      var i' := if i < |a| then i else i + 1;
      var j' := if j < |a| then j else j + 1;
      assert (a + b)[i] == s[i'] && (a + b)[j] == s[j'];
    }
  }

  lemma LiteratureCaptionsDistinct()
    ensures Distinct(ExhibitHeadCaptions + ["Date of birth"] + LiteratureCaptions + ["Remarks"])
  {
  }

  lemma ExhibitFileCaptionsDistinct()
    ensures Distinct(ExhibitHeadCaptions + ["Date of birth"] + ExhibitFileCaptions + ["Remarks"])
  {
  }

  /** Whatever the class and the flag, no caption of an exhibit printout repeats. */
  lemma ExhibitCaptionsDistinct(e: Exhibit, allFields: bool)
    ensures Distinct(ExhibitCaptions(e, allFields))
  {
    var block := if ShowsLiterature(e, allFields) then LiteratureCaptions else ExhibitFileCaptions;
    LiteratureCaptionsDistinct();
    ExhibitFileCaptionsDistinct();
    if !ShowsDateOfBirth(e, allFields) {
      assert ExhibitHeadCaptions + ["Date of birth"] + block + ["Remarks"]
          == ExhibitHeadCaptions + ["Date of birth"] + (block + ["Remarks"]);
      DistinctWithout(ExhibitHeadCaptions, "Date of birth", block + ["Remarks"]);
      assert ExhibitCaptions(e, allFields) == ExhibitHeadCaptions + (block + ["Remarks"]);
    }
  }

  /** Which optional captions an exhibit printout shows. */
  lemma ExhibitCaptionsSelect(e: Exhibit, allFields: bool)
    ensures "Date of birth" in ExhibitCaptions(e, allFields) <==> allFields || StartsWith(e.exhibitClass, "Y")
    ensures "Front cover" in ExhibitCaptions(e, allFields) <==> allFields || StartsWith(e.exhibitClass, "L")
    ensures "Introductory page" in ExhibitCaptions(e, allFields) <==>
              !allFields && !StartsWith(e.exhibitClass, "L")
  {
    var d: seq<string> := if ShowsDateOfBirth(e, allFields) then ["Date of birth"] else [];
    var block := if ShowsLiterature(e, allFields) then LiteratureCaptions else ExhibitFileCaptions;
    var cs := ExhibitCaptions(e, allFields);
    assert cs == ExhibitHeadCaptions + d + block + ["Remarks"];
    assert "Front cover" !in ExhibitHeadCaptions + d;
    assert "Introductory page" !in ExhibitHeadCaptions + d;
    assert "Date of birth" !in block + ["Remarks"];
  }

  /** The head and the tail of an exhibit printout's captions, and how many there are. */
  lemma ExhibitCaptionsShape(e: Exhibit, allFields: bool)
    ensures ExhibitCaptions(e, allFields)[..4] == ["Title", "Short description", "Exhibit class", "Frames"]
    ensures ExhibitCaptions(e, allFields)[|ExhibitCaptions(e, allFields)| - 1] == "Remarks"
    ensures |ExhibitCaptions(e, allFields)| ==
              5 + (if allFields || StartsWith(e.exhibitClass, "Y") then 1 else 0)
                + (if allFields || StartsWith(e.exhibitClass, "L") then 12 else 2)
  {
    var d: seq<string> := if ShowsDateOfBirth(e, allFields) then ["Date of birth"] else [];
    var block := if ShowsLiterature(e, allFields) then LiteratureCaptions else ExhibitFileCaptions;
    var cs := ExhibitCaptions(e, allFields);
    assert cs == ExhibitHeadCaptions + (d + block + ["Remarks"]);
  }

  /**
   * The shape of an exhibit printout: it starts with the four head lines and ends with the
   * remarks; it holds the date of birth exactly for all fields or a youth class, the literature
   * block exactly for all fields or a literature class, and the introductory page and synopsis
   * lines exactly otherwise; no caption repeats.
   */
  lemma ExhibitPrintoutLayout(e: Exhibit, allFields: bool)
    requires HasKey(ExhibitClassChoices, e.exhibitClass)
    ensures Captions(ExhibitPrintout(e, allFields))[..4] == ["Title", "Short description", "Exhibit class", "Frames"]
    ensures ExhibitPrintout(e, allFields)[|ExhibitPrintout(e, allFields)| - 1] == Entry("Remarks", Str(e.remarks))
    ensures "Date of birth" in Captions(ExhibitPrintout(e, allFields)) <==>
              allFields || StartsWith(e.exhibitClass, "Y")
    ensures "Front cover" in Captions(ExhibitPrintout(e, allFields)) <==>
              allFields || StartsWith(e.exhibitClass, "L")
    ensures "Introductory page" in Captions(ExhibitPrintout(e, allFields)) <==>
              !allFields && !StartsWith(e.exhibitClass, "L")
    ensures |ExhibitPrintout(e, allFields)| ==
              5 + (if allFields || StartsWith(e.exhibitClass, "Y") then 1 else 0)
                + (if allFields || StartsWith(e.exhibitClass, "L") then 12 else 2)
    ensures DistinctCaptions(ExhibitPrintout(e, allFields))
  {
    var cs := ExhibitCaptions(e, allFields);
    var vs := ExhibitLineValues(e, allFields);
    assert |vs| == |cs|;
    LinesCaptions(cs, vs);
    ExhibitCaptionsSelect(e, allFields);
    ExhibitCaptionsShape(e, allFields);
    ExhibitCaptionsDistinct(e, allFields);
    assert vs[|vs| - 1] == Str(e.remarks);
  }

  // ---------------------------------------------------------------------------
  // Exhibit participation
  // ---------------------------------------------------------------------------

  const ParticipationCaptions: seq<string> :=
    ["Exhibition level", "Exhibition name", "Points", "Award/Medal", "Special prize", "Felicitations"]

  function ParticipationLineValues(x: ExhibitParticipation): seq<Value>
    requires HasKey(ExhibitionLevelChoices, x.exhibitionLevel)
    requires x.medal == "" || HasKey(MedalChoices, x.medal)
  {
    [Str(ChoiceLabel(ExhibitionLevelChoices, x.exhibitionLevel)), Str(x.exhibitionName),
     Int(x.points), Str(if x.medal != "" then ChoiceLabel(MedalChoices, x.medal) else ""),
     YesNo(x.specialPrize), YesNo(x.felicitations)]
  }

  /** `ExhibitParticipation.printout()`. The level, and the medal when set, must be keys. */
  function ParticipationPrintout(x: ExhibitParticipation): seq<Entry>
    requires HasKey(ExhibitionLevelChoices, x.exhibitionLevel)
    requires x.medal == "" || HasKey(MedalChoices, x.medal)
  {
    Lines(ParticipationCaptions, ParticipationLineValues(x))
  }

  /** Six distinct captions, in the source's order. */
  lemma ParticipationPrintoutCaptions(x: ExhibitParticipation)
    requires HasKey(ExhibitionLevelChoices, x.exhibitionLevel)
    requires x.medal == "" || HasKey(MedalChoices, x.medal)
    ensures Captions(ParticipationPrintout(x)) == ParticipationCaptions
    ensures DistinctCaptions(ParticipationPrintout(x))
  {
    LinesCaptions(ParticipationCaptions, ParticipationLineValues(x));
    ParticipationCaptionsDistinct();
  }

  lemma ParticipationCaptionsDistinct()
    ensures Distinct(ParticipationCaptions)
  {
  }

  /** The award line is '' exactly when no medal is set; the points line shows the points. */
  lemma ParticipationPrintoutValues(x: ExhibitParticipation)
    requires HasKey(ExhibitionLevelChoices, x.exhibitionLevel)
    requires x.medal == "" || HasKey(MedalChoices, x.medal)
    ensures x.medal == "" <==> ParticipationPrintout(x)[3].value == Str("")
    ensures ParticipationPrintout(x)[2].value == Int(x.points)
  {
    var vs := ParticipationLineValues(x);
    var r := ParticipationPrintout(x);
    assert r[2].value == vs[2] && r[3].value == vs[3];
    if x.medal != "" {
      var c := ChoiceLabel(MedalChoices, x.medal);
      assert forall i :: 0 <= i < |MedalChoices| ==> MedalChoices[i].1 != "";
    }
  }

  // ---------------------------------------------------------------------------
  // Travel details
  // ---------------------------------------------------------------------------

  /** Whether the spouse's names are printed: for all fields, or when a spouse travels. */
  predicate ShowsSpouse(t: TravelDetails, allFields: bool) {
    allFields || t.spouse
  }

  const TravelHeadCaptions: seq<string> :=
    ["Arrival", "Arrival flight number", "Departure", "Departure flight number", "Ticket price",
     "Spouse/Partner"]
  const SpouseCaptions: seq<string> := ["Spouse/Partner name", "Spouse/Partner surname"]
  const TravelTailCaptions: seq<string> := ["Hotel", "Hotel website", "Remarks"]

  function TravelCaptions(t: TravelDetails, allFields: bool): seq<string> {
    TravelHeadCaptions + (if ShowsSpouse(t, allFields) then SpouseCaptions else []) + TravelTailCaptions
  }

  function TravelLineValues(t: TravelDetails, allFields: bool): seq<Value> {
    [StampOrEmpty(t.arrival), Str(t.arrivalFlightNumber), StampOrEmpty(t.departure),
     Str(t.departureFlightNumber), Str(t.ticketPrice), YesNo(t.spouse)]
    + (if ShowsSpouse(t, allFields) then [Str(t.spouseName), Str(t.spouseSurname)] else [])
    + [Str(t.hotel), Str(t.hotelWebsite), Str(t.remarks)]
  }

  /** `TravelDetails.printout(all_fields)`. */
  function TravelPrintout(t: TravelDetails, allFields: bool): seq<Entry> {
    Lines(TravelCaptions(t, allFields), TravelLineValues(t, allFields))
  }

  lemma TravelCaptionsFacts(t: TravelDetails, allFields: bool)
    ensures |TravelCaptions(t, allFields)| == if allFields || t.spouse then 11 else 9
    ensures "Spouse/Partner name" in TravelCaptions(t, allFields) <==> allFields || t.spouse
    ensures "Spouse/Partner surname" in TravelCaptions(t, allFields) <==> allFields || t.spouse
    ensures Distinct(TravelCaptions(t, allFields))
  {
    var cs := TravelCaptions(t, allFields);
    if ShowsSpouse(t, allFields) {
      assert cs == ["Arrival", "Arrival flight number", "Departure", "Departure flight number",
                    "Ticket price", "Spouse/Partner", "Spouse/Partner name", "Spouse/Partner surname",
                    "Hotel", "Hotel website", "Remarks"];
    } else {
      assert cs == ["Arrival", "Arrival flight number", "Departure", "Departure flight number",
                    "Ticket price", "Spouse/Partner", "Hotel", "Hotel website", "Remarks"];
    }
  }

  /**
   * Nine lines, or eleven with the spouse's names, which are printed exactly for all fields
   * or a travelling spouse; no caption repeats; the arrival and departure lines are '' exactly
   * when those times are unset.
   */
  lemma TravelPrintoutLayout(t: TravelDetails, allFields: bool)
    ensures |TravelPrintout(t, allFields)| == if allFields || t.spouse then 11 else 9
    ensures "Spouse/Partner name" in Captions(TravelPrintout(t, allFields)) <==> allFields || t.spouse
    ensures "Spouse/Partner surname" in Captions(TravelPrintout(t, allFields)) <==> allFields || t.spouse
    ensures DistinctCaptions(TravelPrintout(t, allFields))
    ensures TravelPrintout(t, allFields)[0].value == Str("") <==> t.arrival.None?
    ensures TravelPrintout(t, allFields)[2].value == Str("") <==> t.departure.None?
  {
    LinesCaptions(TravelCaptions(t, allFields), TravelLineValues(t, allFields));
    TravelCaptionsFacts(t, allFields);
  }
}
