/**
 * The web front end, app.py: its own `search_npi` returning the result
 * dictionaries directly, the `/search` endpoint's reading of the request
 * (location, city), and its loop over the parsed doctors that adds the UHC
 * links to each report.
 *
 * The registry is a function parameter; the request arguments arrive as
 * optional values, `radius` already converted to an integer. Flask, the HTML
 * page and the JSON encoding are not part of this model.
 */
module WebApp {
  import opened Wrappers
  import opened PyStr
  import opened Links
  import opened Uhc
  import opened Doctors
  import opened Registry
  import opened Geocoding
  import opened Locations
  import Cli

  /** `search_npi` of app.py: the same query and the same records kept as in
      the command line, each turned straight into its result dictionary. */
  method SearchNpi(name: String, state: String, city: Option<String>, specialty: Option<String>,
                   limit: int, registry: seq<Param> -> RegistryReply) returns (results: seq<Summary>)
    ensures results == Summaries(SearchResults(name, state, city, specialty, limit, registry))
  {
    var params := QueryParams(SplitName(name), state, city, limit);
    var records := Records(registry(params));
    results := SummariseRecords(records, specialty);
  }

  // ---------------------------------------------------------------------------
  // Reading the request
  // ---------------------------------------------------------------------------

  /** The coordinates of the `location` argument: lower-cased and looked up
      in the web table, "dallas" when absent, Dallas when unknown. */
  function ResolveLocation(location: Option<String>): Coordinates {
    Lookup(AppTable, Lower(location.GetOr("dallas"))).GetOr(Dallas)
  }

  /** Without a location the search is centred on Dallas. */
  lemma ResolveDefault()
    ensures ResolveLocation(None) == Dallas
  {
    AppKeysDistinct();
    LookupEntry(AppTable, 0);
  }

  /** A place the table knows is found whatever its letter case, and the
      command line's table gives it the same coordinates. */
  lemma ResolveKnown(location: String, i: nat)
    requires i < |AppTable| && Lower(location) == AppTable[i].0
    ensures ResolveLocation(Some(location)) == AppTable[i].1
    ensures Lookup(CliTable, Lower(location)) == Some(ResolveLocation(Some(location)))
  {
    AppKeysDistinct();
    LookupEntry(AppTable, i);
    AppTableAgrees(i);
  }

  /** A place the table does not know falls back to Dallas; there is no
      geocoder and no error. */
  lemma ResolveUnknown(location: String)
    requires forall i | 0 <= i < |AppTable| :: AppTable[i].0 != Lower(location)
    ensures ResolveLocation(Some(location)) == Dallas
  {
    LookupMiss(AppTable, Lower(location));
  }

  /** The `city` argument: stripped, and no city filter when that leaves
      nothing. */
  function CityFilter(city: Option<String>): Option<String> {
    var c := Strip(city.GetOr(""));
    if c == [] then None else Some(c)
  }

  /** The city filter sent to the registry is never blank nor padded, and it
      is absent exactly when the argument is absent or all whitespace. */
  lemma CityFilterShape(city: Option<String>)
    ensures var f := CityFilter(city);
      (f.None? <==> city.None? || AllSpace(city.value))
      && (f.Some? ==> f.value != [] && Trimmed(f.value) && f.value == Strip(city.value))
  {
    StripEmptyIff(city.GetOr(""));
    if city.None? {
      assert AllSpace("");
    }
  }

  // ---------------------------------------------------------------------------
  // The per-doctor results
  // ---------------------------------------------------------------------------

  /** The dictionary `/search` returns for one doctor. */
  datatype AppResult = AppResult(
    doctor: String, specialtyFilter: Option<String>, npiFound: bool, npiCount: nat,
    npiResults: seq<Summary>, bcbstxUrls: LinkSet, uhcUrls: LinkSet)

  /** The dictionary built from a doctor, the result dictionaries of its
      search and its links: found when there is a result, the count, the first
      five results, and the links. */
  function AppReport(d: Doctor, found: seq<Summary>, bcbstx: LinkSet, uhc: LinkSet): AppResult {
    AppResult(d.name, d.specialty, |found| > 0, |found|, Take(found, 5), bcbstx, uhc)
  }

  /** What a result promises: the doctor is found exactly when the count is
      positive; the count is the number of results; the first five at most are
      shown, in order. */
  lemma AppReportShape(d: Doctor, found: seq<Summary>, bcbstx: LinkSet, uhc: LinkSet)
    ensures var r := AppReport(d, found, bcbstx, uhc);
      && r.doctor == d.name && r.specialtyFilter == d.specialty
      && (r.npiFound <==> r.npiCount > 0)
      && r.npiCount == |found|
      && |r.npiResults| == (if r.npiCount < 5 then r.npiCount else 5)
      && (forall i | 0 <= i < |r.npiResults| :: r.npiResults[i] == found[i])
      && r.bcbstxUrls == bcbstx && r.uhcUrls == uhc
  {
  }

  /** The result `/search` gives for a doctor. */
  function DoctorResult(d: Doctor, at: Coordinates, radius: int, city: Option<String>,
                        registry: seq<Param> -> RegistryReply): AppResult
  {
    AppReport(d, Summaries(SearchResults(d.name, "TX", city, d.specialty, 10, registry)),
              BcbstxLinks(d.name, at.lat, at.lon, radius), UhcLinks())
  }

  /** Showing the first five summaries is summarising the first five. */
  lemma TakeSummaries(rs: seq<NpiResult>)
    ensures Take(Summaries(rs), 5) == Summaries(Take(rs, 5))
  {
  }

  /** The two front ends agree: for the same doctor, coordinates, radius and
      city, the web result carries the command line's report and adds the UHC
      links. */
  lemma AgreesWithCli(d: Doctor, at: Coordinates, radius: int, city: Option<String>,
                      registry: seq<Param> -> RegistryReply)
    ensures var w := DoctorResult(d, at, radius, city, registry);
      var c := Cli.Expected(d, at, radius, city, registry);
      && w.doctor == c.doctor && w.specialtyFilter == c.specialtyFilter
      && w.npiFound == c.npiFound && w.npiCount == c.npiCount
      && w.npiResults == c.npiResults && w.bcbstxUrls == c.bcbstxUrls
      && w.uhcUrls == UhcLinks()
  {
    TakeSummaries(SearchResults(d.name, "TX", city, d.specialty, 10, registry));
  }

  /** The results of `/search` for the parsed doctors: one per doctor, in
      order. */
  function SearchAll(doctors: seq<Doctor>, at: Coordinates, radius: int, city: Option<String>,
                     registry: seq<Param> -> RegistryReply): seq<AppResult>
  {
    ForEach(doctors, d => DoctorResult(d, at, radius, city, registry))
  }

  /** The whole `/search` response for the request arguments `doctors`,
      `location`, `radius` and `city`. */
  function SearchResponse(doctors: Option<String>, location: Option<String>, radius: Option<int>,
                          city: Option<String>, registry: seq<Param> -> RegistryReply): seq<AppResult>
  {
    SearchAll(ParseDoctors(doctors.GetOr("")), ResolveLocation(location), radius.GetOr(25), CityFilter(city), registry)
  }

  /** The body of the loop of `/search`: the doctor is searched in Texas
      with the default limit of ten, and both sets of links are generated. */
  method SearchDoctor(d: Doctor, at: Coordinates, radius: int, city: Option<String>,
                      registry: seq<Param> -> RegistryReply) returns (result: AppResult)
    ensures result == DoctorResult(d, at, radius, city, registry)
  {
    var npiResults := SearchNpi(d.name, "TX", city, d.specialty, 10, registry);
    var bcbstxUrls := GenerateBcbstxUrls(d.name, at.lat, at.lon, radius);
    var uhcUrls := GenerateUhcUrls();
    result := AppReport(d, npiResults, bcbstxUrls, uhcUrls);
  }

  /** One more doctor adds its result at the end. */
  lemma SearchAllSnoc(doctors: seq<Doctor>, at: Coordinates, radius: int, city: Option<String>,
                      registry: seq<Param> -> RegistryReply, i: nat)
    requires i < |doctors|
    ensures SearchAll(doctors[..i + 1], at, radius, city, registry)
      == SearchAll(doctors[..i], at, radius, city, registry) + [DoctorResult(doctors[i], at, radius, city, registry)]
  {
    assert doctors[..i + 1][..i] == doctors[..i];
  }

  /** The loop of `/search` over the parsed doctors. */
  method SearchDoctors(doctors: seq<Doctor>, at: Coordinates, radius: int, city: Option<String>,
                       registry: seq<Param> -> RegistryReply) returns (results: seq<AppResult>)
    ensures results == SearchAll(doctors, at, radius, city, registry)
  {
    results := [];
    for i := 0 to |doctors|
      invariant results == SearchAll(doctors[..i], at, radius, city, registry)
    {
      var result := SearchDoctor(doctors[i], at, radius, city, registry);
      SearchAllSnoc(doctors, at, radius, city, registry, i);
      results := results + [result];
    }
    assert doctors[..|doctors|] == doctors;
  }

  /** `/search`: the arguments are read with their defaults, the doctors
      parsed, and each doctor searched with the links for the resolved place. */
  method Search(doctorsArg: Option<String>, location: Option<String>, radiusArg: Option<int>,
                cityArg: Option<String>, registry: seq<Param> -> RegistryReply) returns (results: seq<AppResult>)
    ensures results == SearchResponse(doctorsArg, location, radiusArg, cityArg, registry)
  {
    var at := ResolveLocation(location);
    var radius := radiusArg.GetOr(25);
    var city := CityFilter(cityArg);
    var doctors := ParseDoctorList(doctorsArg.GetOr(""));
    results := SearchDoctors(doctors, at, radius, city, registry);
  }

  /** Each result is the doctor's own: under its name and specialty filter,
      with only results that pass the filter, and with all the UHC links. */
  lemma SearchAllShape(doctors: seq<Doctor>, at: Coordinates, radius: int, city: Option<String>,
                       registry: seq<Param> -> RegistryReply)
    ensures var rs := SearchAll(doctors, at, radius, city, registry);
      |rs| == |doctors|
      && forall i | 0 <= i < |rs| ::
           rs[i].doctor == doctors[i].name && rs[i].specialtyFilter == doctors[i].specialty
           && rs[i].uhcUrls == UhcLinks()
           && forall j | 0 <= j < |rs[i].npiResults| :: Wanted(doctors[i].specialty, rs[i].npiResults[j].specialty)
  {
    forall i | 0 <= i < |doctors|
      ensures SearchAll(doctors, at, radius, city, registry)[i] == DoctorResult(doctors[i], at, radius, city, registry)
    {
      ForEachAt(doctors, d => DoctorResult(d, at, radius, city, registry), i);
    }
    forall d | d in doctors
      ensures var r := DoctorResult(d, at, radius, city, registry);
        forall j | 0 <= j < |r.npiResults| :: Wanted(d.specialty, r.npiResults[j].specialty)
    {
      AgreesWithCli(d, at, radius, city, registry);
      Cli.ReportMatchesFilter(d, city, registry, BcbstxLinks(d.name, at.lat, at.lon, radius));
    }
  }

  /** The response holds one result per parsed doctor, in order, read with
      the request's defaults. */
  lemma SearchResponseShape(doctors: Option<String>, location: Option<String>, radius: Option<int>,
                            city: Option<String>, registry: seq<Param> -> RegistryReply)
    ensures var ds := ParseDoctors(doctors.GetOr(""));
      var rs := SearchResponse(doctors, location, radius, city, registry);
      |rs| == |ds|
      && forall i | 0 <= i < |rs| ::
           rs[i] == DoctorResult(ds[i], ResolveLocation(location), radius.GetOr(25), CityFilter(city), registry)
  {
    var ds := ParseDoctors(doctors.GetOr(""));
    var at := ResolveLocation(location);
    forall i | 0 <= i < |ds|
      ensures SearchResponse(doctors, location, radius, city, registry)[i]
        == DoctorResult(ds[i], at, radius.GetOr(25), CityFilter(city), registry)
    {
      ForEachAt(ds, d => DoctorResult(d, at, radius.GetOr(25), CityFilter(city), registry), i);
    }
  }

  /** A request without doctors gets an empty list. */
  lemma NoDoctorsNoResults(location: Option<String>, radius: Option<int>, city: Option<String>,
                           registry: seq<Param> -> RegistryReply)
    ensures SearchResponse(None, location, radius, city, registry) == []
  {
    ParseEmpty();
  }
}
