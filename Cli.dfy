/**
 * The command-line front end, check_doctors.py: `search_npi` returning
 * `NPIResult` records, `check_doctor` assembling one doctor's report, the
 * loop of `main` over the parsed doctors, and the choice of the search
 * coordinates.
 *
 * The registry and the geocoder are function parameters; argument parsing,
 * file reading, printing and `--coords` are not part of this model.
 */
module Cli {
  import opened Wrappers
  import opened PyStr
  import opened Links
  import opened Doctors
  import opened Registry
  import opened Geocoding
  import opened Locations

  /** `search_npi` of check_doctors.py: the query for the split name is sent
      and the records of the reply are normalised and filtered. */
  method SearchNpi(name: String, state: String, city: Option<String>, specialty: Option<String>,
                   limit: int, registry: seq<Param> -> RegistryReply) returns (results: seq<NpiResult>)
    ensures results == SearchResults(name, state, city, specialty, limit, registry)
  {
    var params := QueryParams(SplitName(name), state, city, limit);
    var records := Records(registry(params));
    results := NormaliseRecords(records, specialty);
  }

  /** The dictionary `check_doctor` returns. */
  datatype CheckResult = CheckResult(
    doctor: String, specialtyFilter: Option<String>, npiFound: bool, npiCount: nat,
    npiResults: seq<Summary>, bcbstxUrls: LinkSet)

  /** The dictionary built from a doctor, the registry's results for it and
      its links: found when there is a result, the count, the first five
      results summarised, and the links. */
  function Report(d: Doctor, found: seq<NpiResult>, urls: LinkSet): CheckResult {
    CheckResult(d.name, d.specialty, |found| > 0, |found|, Summaries(Take(found, 5)), urls)
  }

  /** What a report promises: the doctor is found exactly when the count is
      positive; the count is the number of results; the first five at most
      are shown, in order, each the summary of its result with its
      "city, state zip" location. */
  lemma ReportShape(d: Doctor, found: seq<NpiResult>, urls: LinkSet)
    ensures var r := Report(d, found, urls);
      && r.doctor == d.name && r.specialtyFilter == d.specialty
      && (r.npiFound <==> r.npiCount > 0)
      && r.npiCount == |found|
      && |r.npiResults| == (if r.npiCount < 5 then r.npiCount else 5)
      && (forall i | 0 <= i < |r.npiResults| ::
            r.npiResults[i] == Summarise(found[i])
            && r.npiResults[i].location == LocationText(found[i].city, found[i].state, found[i].zipCode))
      && r.bcbstxUrls == urls
  {
  }

  /** `check_doctor`: the registry is searched in Texas with the default limit
      of ten, and the BCBSTX links are generated for the name. */
  method CheckDoctor(d: Doctor, at: Coordinates, radius: int, city: Option<String>,
                     registry: seq<Param> -> RegistryReply) returns (report: CheckResult)
    ensures report == Expected(d, at, radius, city, registry)
  {
    var found := SearchNpi(d.name, "TX", city, d.specialty, 10, registry);
    var urls := GenerateBcbstxUrls(d.name, at.lat, at.lon, radius);
    report := Report(d, found, urls);
  }

  /** Every result a report shows passes the doctor's specialty filter. */
  lemma ReportMatchesFilter(d: Doctor, city: Option<String>, registry: seq<Param> -> RegistryReply, urls: LinkSet)
    ensures var r := Report(d, SearchResults(d.name, "TX", city, d.specialty, 10, registry), urls);
      forall i | 0 <= i < |r.npiResults| :: Wanted(d.specialty, r.npiResults[i].specialty)
  {
    SearchResultsMatchFilter(d.name, "TX", city, d.specialty, 10, registry);
  }

  /** The report `check_doctor` gives for a doctor. */
  function Expected(d: Doctor, at: Coordinates, radius: int, city: Option<String>,
                    registry: seq<Param> -> RegistryReply): CheckResult
  {
    Report(d, SearchResults(d.name, "TX", city, d.specialty, 10, registry), BcbstxLinks(d.name, at.lat, at.lon, radius))
  }

  /** The reports of `main` for the parsed doctors: one per doctor, in
      order. */
  function CheckAll(doctors: seq<Doctor>, at: Coordinates, radius: int, city: Option<String>,
                    registry: seq<Param> -> RegistryReply): seq<CheckResult>
  {
    ForEach(doctors, d => Expected(d, at, radius, city, registry))
  }

  /** Each report is the doctor's own: under its name and specialty filter,
      with only results that pass the filter. */
  lemma CheckAllShape(doctors: seq<Doctor>, at: Coordinates, radius: int, city: Option<String>,
                      registry: seq<Param> -> RegistryReply)
    ensures var rs := CheckAll(doctors, at, radius, city, registry);
      |rs| == |doctors|
      && forall i | 0 <= i < |rs| ::
           rs[i].doctor == doctors[i].name && rs[i].specialtyFilter == doctors[i].specialty
           && forall j | 0 <= j < |rs[i].npiResults| :: Wanted(doctors[i].specialty, rs[i].npiResults[j].specialty)
  {
    forall i | 0 <= i < |doctors|
      ensures CheckAll(doctors, at, radius, city, registry)[i] == Expected(doctors[i], at, radius, city, registry)
    {
      ForEachAt(doctors, d => Expected(d, at, radius, city, registry), i);
    }
    forall d | d in doctors
      ensures var r := Expected(d, at, radius, city, registry);
        forall j | 0 <= j < |r.npiResults| :: Wanted(d.specialty, r.npiResults[j].specialty)
    {
      ReportMatchesFilter(d, city, registry, BcbstxLinks(d.name, at.lat, at.lon, radius));
    }
  }

  /** One more doctor adds its report at the end. */
  lemma CheckAllSnoc(doctors: seq<Doctor>, at: Coordinates, radius: int, city: Option<String>,
                     registry: seq<Param> -> RegistryReply, i: nat)
    requires i < |doctors|
    ensures CheckAll(doctors[..i + 1], at, radius, city, registry)
      == CheckAll(doctors[..i], at, radius, city, registry) + [Expected(doctors[i], at, radius, city, registry)]
  {
    assert doctors[..i + 1][..i] == doctors[..i];
  }

  /** The loop of `main` over the parsed doctors: one `check_doctor` report
      per doctor, in order. */
  method CheckDoctors(doctors: seq<Doctor>, at: Coordinates, radius: int, city: Option<String>,
                      registry: seq<Param> -> RegistryReply) returns (results: seq<CheckResult>)
    ensures results == CheckAll(doctors, at, radius, city, registry)
  {
    results := [];
    for i := 0 to |doctors|
      invariant results == CheckAll(doctors[..i], at, radius, city, registry)
    {
      var report := CheckDoctor(doctors[i], at, radius, city, registry);
      CheckAllSnoc(doctors, at, radius, city, registry, i);
      results := results + [report];
    }
    assert doctors[..|doctors|] == doctors;
  }

  /** The search coordinates of `main` without `--coords`: the geocoded
      `--location` when one is given, Dallas otherwise. */
  function SearchCoordinates(location: Option<String>, geocoder: String -> GeoReply): Result<Coordinates, String> {
    if location.Some? && location.value != [] then Geocode(CliTable, location.value, geocoder)
    else Ok(Dallas)
  }

  /** Without a location the search is centred on Dallas; "Dallas, TX" gives
      the same coordinates without asking the geocoder. */
  lemma DallasByDefault(geocoder: String -> GeoReply)
    ensures SearchCoordinates(None, geocoder) == Ok(Dallas)
    ensures SearchCoordinates(Some("Dallas, TX"), geocoder) == Ok(Dallas)
  {
    DallasTexas(geocoder);
  }

  /** The outcome of `main` for the parsed doctors: the error it exits with,
      or the reports. An empty doctor list is refused before any location is
      geocoded; a location that cannot be geocoded is refused before any
      doctor is searched. */
  function MainOutcome(doctors: seq<Doctor>, location: Option<String>, radius: int, city: Option<String>,
                       registry: seq<Param> -> RegistryReply, geocoder: String -> GeoReply): Result<seq<CheckResult>, String>
  {
    if doctors == [] then Err("Error: No doctors specified")
    else
      match SearchCoordinates(location, geocoder)
      case Err(e) => Err("Error: " + e)
      case Ok(at) => Ok(CheckAll(doctors, at, radius, city, registry))
  }

  /** Without doctors `main` fails, whatever the location and the services. */
  lemma NoDoctorsRefused(location: Option<String>, radius: int, city: Option<String>,
                         registry: seq<Param> -> RegistryReply, geocoder: String -> GeoReply)
    ensures MainOutcome([], location, radius, city, registry, geocoder) == Err("Error: No doctors specified")
  {
  }

  /** When the location cannot be geocoded, `main` fails with the geocoding
      error and the registry is never consulted; otherwise it reports on every
      doctor at the coordinates found. */
  lemma MainOutcomeCases(doctors: seq<Doctor>, location: Option<String>, radius: int, city: Option<String>,
                         registry: seq<Param> -> RegistryReply, other: seq<Param> -> RegistryReply,
                         geocoder: String -> GeoReply)
    requires doctors != []
    ensures SearchCoordinates(location, geocoder).Err? ==>
      MainOutcome(doctors, location, radius, city, registry, geocoder)
        == Err("Error: " + SearchCoordinates(location, geocoder).error)
      && MainOutcome(doctors, location, radius, city, registry, geocoder)
        == MainOutcome(doctors, location, radius, city, other, geocoder)
    ensures SearchCoordinates(location, geocoder).Ok? ==>
      var out := MainOutcome(doctors, location, radius, city, registry, geocoder);
      out.Ok? && |out.value| == |doctors|
  {
  }

  /** Without a location, the doctors are checked around Dallas. */
  lemma MainDefaultsToDallas(doctors: seq<Doctor>, radius: int, city: Option<String>,
                             registry: seq<Param> -> RegistryReply, geocoder: String -> GeoReply)
    requires doctors != []
    ensures MainOutcome(doctors, None, radius, city, registry, geocoder) == Ok(CheckAll(doctors, Dallas, radius, city, registry))
  {
  }
}
