/**
 * The registry side of `search_npi`, written the same way in app.py and
 * check_doctors.py: the doctor's name is split into first and last name, the
 * query parameters are built from it, and every record of the registry's
 * reply is reduced to one result, dropping those whose specialty does not
 * match the filter.
 *
 * The registry itself is not modelled: its reply is an input (see
 * `RegistryReply`), and a transport failure yields no records.
 */
module Registry {
  import opened Wrappers
  import opened PyStr

  // ---------------------------------------------------------------------------
  // Splitting the name
  // ---------------------------------------------------------------------------

  /** `name.replace("Dr.", "").replace("Dr", "")`: every "Dr." and then every
      remaining "Dr" is removed. */
  function StripTitles(name: String): (r: String)
    ensures |r| <= |name|
  {
    ReplaceShrinks(name, "Dr.", "");
    var once := Replace(name, "Dr.", "");
    ReplaceShrinks(once, "Dr", "");
    Replace(once, "Dr", "")
  }

  /** A name without "Dr" in it is left alone. */
  lemma StripTitlesNoTitle(name: String)
    requires !Contains(name, "Dr")
    ensures StripTitles(name) == name
  {
    assert "Dr." == "Dr" + ".";
    if Contains(name, "Dr.") {
      ContainsShorter(name, "Dr", ".");
    }
    ReplaceAbsent(name, "Dr.", "");
    ReplaceAbsent(name, "Dr", "");
  }

  /** A leading "Dr. " changes nothing once the name is stripped. */
  lemma LeadingTitleIgnored(n: String)
    ensures Strip(StripTitles("Dr. " + n)) == Strip(StripTitles(n))
  {
    var blankThen := [' '] + n;
    assert "Dr. " + n == "Dr." + blankThen;
    ReplaceAtStart("Dr.", "", blankThen);
    assert "" + Replace(blankThen, "Dr.", "") == Replace(blankThen, "Dr.", "");
    ReplaceCons(' ', n, "Dr.", "");
    var once := Replace(n, "Dr.", "");
    ReplaceCons(' ', once, "Dr", "");
    assert StripTitles("Dr. " + n) == [' '] + StripTitles(n);
    LStripSpacePrefix([' '], StripTitles(n));
  }

  /** The first and last name sent to the registry. */
  datatype PersonName = PersonName(first: String, last: String)

  /** The split of the title-free, stripped name: with a comma it is
      "Last, First" (split at the first comma, both halves stripped); without
      one, two or more words are the first word and the remaining words joined
      by single blanks; otherwise the whole text is the last name. */
  function SplitParts(parts: String): PersonName {
    if ',' in parts then
      var i := IndexOf(parts, ',');
      PersonName(Strip(parts[i + 1..]), Strip(parts[..i]))
    else
      var words := Words(parts);
      if |words| >= 2 then PersonName(words[0], Join(words[1..], " "))
      else PersonName("", parts)
  }

  /** The first part of `search_npi`: titles removed, outer whitespace
      stripped, then split. */
  function SplitName(name: String): PersonName {
    SplitParts(Strip(StripTitles(name)))
  }

  /** "Doe, Jane" is read as last name "Doe" and first name "Jane": the text
      before the first comma is the last name, everything after it (further
      commas included) the first name. */
  lemma SplitCommaForm(last: String, first: String)
    requires ',' !in last
    ensures SplitParts(last + "," + first) == PersonName(Strip(first), Strip(last))
  {
    var s := last + "," + first;
    assert s == last + ("," + first);
    IndexOfConcat(last, "," + first, ',');
    IndexOfConcat(",", first, ',');
    assert s[..|last|] == last;
    assert s[|last| + 1..] == first;
  }

  /** "Jane Q Doe" is read as first name "Jane" and last name "Q Doe". */
  lemma SplitJoinedWords(ws: seq<String>)
    requires |ws| >= 2
    requires forall i | 0 <= i < |ws| :: IsWord(ws[i]) && ',' !in ws[i]
    ensures SplitParts(Join(ws, " ")) == PersonName(ws[0], Join(ws[1..], " "))
  {
    JoinKeepsOut(ws, " ", ',');
    WordsJoin(ws);
  }

  /** A single word such as "Madonna" is the last name, with no first name. */
  lemma SplitSingleWord(w: String)
    requires IsWord(w) && ',' !in w
    ensures SplitParts(w) == PersonName("", w)
  {
    assert Join([w], " ") == w;
    WordsJoin([w]);
  }

  /** Without a comma, the words of the name are the first name followed by
      the words of the last name: no word is lost or altered. */
  lemma SplitKeepsWords(parts: String)
    requires ',' !in parts && |Words(parts)| >= 2
    ensures [SplitParts(parts).first] + Words(SplitParts(parts).last) == Words(parts)
  {
    var ws := Words(parts);
    WordsJoin(ws[1..]);
    assert ws == [ws[0]] + ws[1..];
  }

  /** Both halves of a split name are free of outer whitespace. */
  lemma SplitNameTrimmed(name: String)
    ensures Trimmed(SplitName(name).first) && Trimmed(SplitName(name).last)
  {
    var parts := Strip(StripTitles(name));
    if ',' !in parts {
      var ws := Words(parts);
      if |ws| >= 2 {
        JoinEnds(ws[1..], " ");
        var last := Join(ws[1..], " ");
        assert last[|last| - 1] == ws[|ws| - 1][|ws[|ws| - 1]| - 1];
      }
    }
  }

  // ---------------------------------------------------------------------------
  // Query parameters
  // ---------------------------------------------------------------------------

  /** The query parameters the registry is sent: `version`, `limit`,
      `enumeration_type`, `state`, `first_name`, `last_name` and `city`. */
  datatype Key = Version | Limit | EnumerationType | State | FirstName | LastName | City

  type Param = (Key, String)

  /** A parameter that is only sent when its value is non-empty. */
  function OptionalParam(k: Key, v: String): seq<Param> {
    if v != [] then [(k, v)] else []
  }

  /** The `params` dictionary, in insertion order; `city` counts as given only
      when it is present and non-empty. */
  function QueryParams(n: PersonName, state: String, city: Option<String>, limit: int): seq<Param> {
    [(Version, "2.1"), (Limit, IntToStr(limit)), (EnumerationType, "NPI-1"), (State, state)]
    + OptionalParam(FirstName, n.first) + OptionalParam(LastName, n.last)
    + OptionalParam(City, city.GetOr(""))
  }

  /** The value a parameter list gives a key: its first entry for that key. */
  function ParamValue(ps: seq<Param>, k: Key): Option<String> {
    if ps == [] then None
    else if ps[0].0 == k then Some(ps[0].1)
    else ParamValue(ps[1..], k)
  }

  lemma {:induction false} ParamValueConcat(a: seq<Param>, b: seq<Param>, k: Key)
    ensures ParamValue(a + b, k) == if ParamValue(a, k).Some? then ParamValue(a, k) else ParamValue(b, k)
  {
    if a != [] {
      assert (a + b)[1..] == a[1..] + b;
      ParamValueConcat(a[1..], b, k);
    } else {
      assert a + b == b;
    }
  }

  lemma OptionalParamValue(k: Key, v: String, j: Key)
    ensures ParamValue(OptionalParam(k, v), j) == if j == k && v != [] then Some(v) else None
  {
  }

  /** The first of four consecutive parameter lists that gives the key a value
      decides it. */
  lemma ParamValueConcat4(a: seq<Param>, b: seq<Param>, c: seq<Param>, d: seq<Param>, k: Key)
    ensures ParamValue(a + b + c + d, k) ==
      if ParamValue(a, k).Some? then ParamValue(a, k)
      else if ParamValue(b, k).Some? then ParamValue(b, k)
      else if ParamValue(c, k).Some? then ParamValue(c, k)
      else ParamValue(d, k)
  {
    ParamValueConcat(a + b + c, d, k);
    ParamValueConcat(a + b, c, k);
    ParamValueConcat(a, b, k);
  }

  /** What the registry is asked: the version, the limit, the individual
      enumeration type and the state always; a first name, a last name and a
      city exactly when they are non-empty. */
  lemma QueryParamsLookup(n: PersonName, state: String, city: Option<String>, limit: int)
    ensures var ps := QueryParams(n, state, city, limit);
      ParamValue(ps, Version) == Some("2.1")
      && ParamValue(ps, Limit) == Some(IntToStr(limit))
      && ParamValue(ps, EnumerationType) == Some("NPI-1")
      && ParamValue(ps, State) == Some(state)
      && ParamValue(ps, FirstName) == (if n.first != [] then Some(n.first) else None)
      && ParamValue(ps, LastName) == (if n.last != [] then Some(n.last) else None)
      && ParamValue(ps, City) == (if city.Some? && city.value != [] then city else None)
  {
    var fixed := [(Version, "2.1"), (Limit, IntToStr(limit)), (EnumerationType, "NPI-1"), (State, state)];
    var f := OptionalParam(FirstName, n.first);
    var l := OptionalParam(LastName, n.last);
    var c := OptionalParam(City, city.GetOr(""));
    forall k: Key ensures ParamValue(fixed + f + l + c, k) == QueryValue(n, state, city, limit, k) {
      ParamValueConcat4(fixed, f, l, c, k);
      OptionalParamValue(FirstName, n.first, k);
      OptionalParamValue(LastName, n.last, k);
      OptionalParamValue(City, city.GetOr(""), k);
      FixedParamValue(state, IntToStr(limit), k);
    }
  }

  lemma FixedParamValue(state: String, limit: String, k: Key)
    ensures ParamValue([(Version, "2.1"), (Limit, limit), (EnumerationType, "NPI-1"), (State, state)], k) ==
      match k
      case Version => Some("2.1")
      case Limit => Some(limit)
      case EnumerationType => Some("NPI-1")
      case State => Some(state)
      case _ => None
  {
    var ps := [(Version, "2.1"), (Limit, limit), (EnumerationType, "NPI-1"), (State, state)];
    var p1, p2, p3 := ps[1..], ps[2..], ps[3..];
    assert p1[0] == (Limit, limit) && p1[1..] == p2;
    assert p2[0] == (EnumerationType, "NPI-1") && p2[1..] == p3;
    assert p3[0] == (State, state) && p3[1..] == [];
    if k != Version {
      assert ParamValue(ps, k) == ParamValue(p1, k);
      if k != Limit {
        assert ParamValue(p1, k) == ParamValue(p2, k);
        if k != EnumerationType {
          assert ParamValue(p2, k) == ParamValue(p3, k);
          if k != State {
            assert ParamValue(p3, k) == ParamValue(p3[1..], k) == None;
          }
        }
      }
    }
  }

  /** The value `QueryParamsLookup` promises for each key. */
  function QueryValue(n: PersonName, state: String, city: Option<String>, limit: int, k: Key): Option<String> {
    match k
    case Version => Some("2.1")
    case Limit => Some(IntToStr(limit))
    case EnumerationType => Some("NPI-1")
    case State => Some(state)
    case FirstName => if n.first != [] then Some(n.first) else None
    case LastName => if n.last != [] then Some(n.last) else None
    case City => if city.Some? && city.value != [] then city else None
  }

  // ---------------------------------------------------------------------------
  // Registry records
  // ---------------------------------------------------------------------------

  /** The `basic` object of a record; an absent object has every field absent. */
  datatype Basic = Basic(firstName: Option<String>, lastName: Option<String>, credential: Option<String>)

  /** One entry of a record's `addresses`. */
  datatype Address = Address(
    purpose: Option<String>, address1: Option<String>, city: Option<String>,
    state: Option<String>, postalCode: Option<String>, telephone: Option<String>)

  /** The empty dictionary used when a record has no address at all. */
  const NoAddress := Address(None, None, None, None, None, None)

  /** One entry of a record's `taxonomies`: its `primary` flag and `desc`. */
  datatype Taxonomy = Taxonomy(primary: bool, desc: Option<String>)

  /** The empty dictionary used when a record has no taxonomy at all. */
  const NoTaxonomy := Taxonomy(false, None)

  /** One element of the reply's `results`. */
  datatype RawRecord = RawRecord(
    number: Option<String>, basic: Basic, addresses: seq<Address>, taxonomies: seq<Taxonomy>)

  /** What the registry call gives back: a transport or status failure, or a
      JSON object whose `results` member may be missing. */
  datatype RegistryReply = TransportFailure | Payload(results: Option<seq<RawRecord>>)

  /** `data.get("results", [])`, with every failure giving no records. */
  function Records(reply: RegistryReply): seq<RawRecord> {
    match reply
    case TransportFailure => []
    case Payload(results) => results.GetOr([])
  }

  /** The position of the first element satisfying `p`, if any. */
  function FirstMatch<T>(s: seq<T>, p: T -> bool): (r: Option<nat>)
    ensures r.Some? ==> r.value < |s| && p(s[r.value])
  {
    if s == [] then None
    else if p(s[0]) then Some(0)
    else match FirstMatch(s[1..], p)
      case None => None
      case Some(k) => Some(k + 1)
  }

  /** No element before the first match satisfies `p`, and without a match
      no element does. */
  lemma {:induction false} FirstMatchFirst<T>(s: seq<T>, p: T -> bool)
    ensures FirstMatch(s, p).Some? ==> forall j | 0 <= j < FirstMatch(s, p).value :: !p(s[j])
    ensures FirstMatch(s, p).None? ==> forall j | 0 <= j < |s| :: !p(s[j])
  {
    if s != [] && !p(s[0]) {
      FirstMatchFirst(s[1..], p);
      assert forall j | 1 <= j < |s| :: s[j] == s[1..][j - 1];
    }
  }

  /** Python's `next((x for x in s if p(x)), default)`. */
  function NextOr<T>(s: seq<T>, p: T -> bool, default: T): T {
    match FirstMatch(s, p)
    case Some(k) => s[k]
    case None => default
  }

  /** `next` returns the first element satisfying `p`. */
  lemma NextOrFirst<T>(s: seq<T>, p: T -> bool, default: T, k: nat)
    requires k < |s| && p(s[k])
    requires forall j | 0 <= j < k :: !p(s[j])
    ensures NextOr(s, p, default) == s[k]
  {
    FirstMatchFirst(s, p);
    var m := FirstMatch(s, p);
    assert m.Some?;
    assert m.value == k;
  }

  /** `next` returns the default when nothing satisfies `p`. */
  lemma NextOrDefault<T>(s: seq<T>, p: T -> bool, default: T)
    requires forall j | 0 <= j < |s| :: !p(s[j])
    ensures NextOr(s, p, default) == default
  {
  }

  predicate IsLocation(a: Address) {
    a.purpose == Some("LOCATION")
  }

  predicate IsPrimary(t: Taxonomy) {
    t.primary
  }

  /** The practice address: the first address whose purpose is "LOCATION",
      else the first address, else the empty dictionary. */
  function PracticeAddress(addresses: seq<Address>): Address {
    NextOr(addresses, IsLocation, if addresses != [] then addresses[0] else NoAddress)
  }

  /** The primary taxonomy: the first one flagged primary, else the first one,
      else the empty dictionary. */
  function PrimaryTaxonomy(taxonomies: seq<Taxonomy>): Taxonomy {
    NextOr(taxonomies, IsPrimary, if taxonomies != [] then taxonomies[0] else NoTaxonomy)
  }

  /** The practice address is the first "LOCATION" address when there is one. */
  lemma PracticeAddressIsFirstLocation(addresses: seq<Address>, k: nat)
    requires k < |addresses| && IsLocation(addresses[k])
    requires forall j | 0 <= j < k :: !IsLocation(addresses[j])
    ensures PracticeAddress(addresses) == addresses[k]
  {
    NextOrFirst(addresses, IsLocation, if addresses != [] then addresses[0] else NoAddress, k);
  }

  /** Without a "LOCATION" address it is the first address, or the empty
      dictionary when there is none. */
  lemma PracticeAddressFallback(addresses: seq<Address>)
    requires forall j | 0 <= j < |addresses| :: !IsLocation(addresses[j])
    ensures PracticeAddress(addresses) == if addresses != [] then addresses[0] else NoAddress
  {
    NextOrDefault(addresses, IsLocation, if addresses != [] then addresses[0] else NoAddress);
  }

  /** The primary taxonomy is the first one flagged primary when there is one. */
  lemma PrimaryTaxonomyIsFirstPrimary(taxonomies: seq<Taxonomy>, k: nat)
    requires k < |taxonomies| && taxonomies[k].primary
    requires forall j | 0 <= j < k :: !taxonomies[j].primary
    ensures PrimaryTaxonomy(taxonomies) == taxonomies[k]
  {
    NextOrFirst(taxonomies, IsPrimary, if taxonomies != [] then taxonomies[0] else NoTaxonomy, k);
  }

  /** Without a primary flag it is the first taxonomy, or the empty
      dictionary when there is none. */
  lemma PrimaryTaxonomyFallback(taxonomies: seq<Taxonomy>)
    requires forall j | 0 <= j < |taxonomies| :: !taxonomies[j].primary
    ensures PrimaryTaxonomy(taxonomies) == if taxonomies != [] then taxonomies[0] else NoTaxonomy
  {
    NextOrDefault(taxonomies, IsPrimary, if taxonomies != [] then taxonomies[0] else NoTaxonomy);
  }

  /** `primary_tax.get("desc", "Unknown")`. */
  function SpecialtyOf(r: RawRecord): String {
    PrimaryTaxonomy(r.taxonomies).desc.GetOr("Unknown")
  }

  /** A record without taxonomies has specialty "Unknown". */
  lemma SpecialtyWithoutTaxonomies(r: RawRecord)
    requires r.taxonomies == []
    ensures SpecialtyOf(r) == "Unknown"
  {
    PrimaryTaxonomyFallback(r.taxonomies);
  }

  // ---------------------------------------------------------------------------
  // The specialty filter
  // ---------------------------------------------------------------------------

  /** A record is kept unless a non-empty filter is given whose lower-case
      form does not occur in the lower-cased specialty. */
  predicate Wanted(filter: Option<String>, specialty: String) {
    filter.None? || filter.value == [] || Contains(Lower(specialty), Lower(filter.value))
  }

  /** An absent or empty filter keeps everything. */
  lemma NoFilterKeepsAll(filter: Option<String>, specialty: String)
    requires filter.None? || filter.value == []
    ensures Wanted(filter, specialty)
  {
  }

  /** The filter ignores case on both sides. */
  lemma WantedIgnoresCase(f: String, specialty: String)
    ensures Wanted(Some(f), specialty) == Wanted(Some(Lower(f)), Lower(specialty))
  {
    LowerNormal(f);
    LowerNormal(specialty);
  }

  /** A specialty that contains the filter verbatim passes it. */
  lemma WantedWhenContained(f: String, specialty: String)
    requires Contains(specialty, f)
    ensures Wanted(Some(f), specialty)
  {
    var k := Find(specialty, f).value;
    var ls := Lower(specialty);
    var lf := Lower(f);
    assert ls[k..k + |lf|] == Lower(specialty[k..k + |f|]);
    assert OccursAt(ls, lf, k);
    FindFirst(ls, lf);
  }

  // ---------------------------------------------------------------------------
  // Results
  // ---------------------------------------------------------------------------

  /** `NPIResult` of check_doctors.py. */
  datatype NpiResult = NpiResult(
    npi: String, name: String, credential: String, specialty: String,
    address: String, city: String, state: String, zipCode: String, phone: String)

  /** `f"{first} {last}".strip()`. */
  function FullName(first: String, last: String): String {
    Strip(first + " " + last)
  }

  /** The full name of a trimmed first and last name: the two joined by one
      blank, or just the one that is present. */
  lemma FullNameOf(first: String, last: String)
    requires Trimmed(first) && Trimmed(last)
    ensures first != [] && last != [] ==> FullName(first, last) == first + " " + last
    ensures first == [] ==> FullName(first, last) == last
    ensures last == [] ==> FullName(first, last) == first
  {
    if first == [] {
      assert first + " " + last == " " + last + [];
      StripPadded(" ", last, []);
    } else if last == [] {
      assert first + " " + last == [] + first + " ";
      StripPadded([], first, " ");
    } else {
      var s := first + " " + last;
      assert s[0] == first[0] && s[|s| - 1] == last[|last| - 1];
      StripTrimmed(s);
    }
  }

  /** One registry record as an `NPIResult`: absent fields become empty text,
      the specialty is that of the primary taxonomy and the ZIP code is the
      first five characters of the postal code. */
  function ToNpiResult(r: RawRecord): NpiResult {
    var a := PracticeAddress(r.addresses);
    NpiResult(
      r.number.GetOr(""),
      FullName(r.basic.firstName.GetOr(""), r.basic.lastName.GetOr("")),
      r.basic.credential.GetOr(""),
      SpecialtyOf(r),
      a.address1.GetOr(""),
      a.city.GetOr(""),
      a.state.GetOr(""),
      Prefix(a.postalCode.GetOr(""), 5),
      a.telephone.GetOr(""))
  }

  /** The ZIP code is the first five characters of the postal code, or the
      whole postal code when that is shorter. */
  lemma ZipCodeOfRecord(r: RawRecord)
    ensures var zip := ToNpiResult(r).zipCode;
      var postal := PracticeAddress(r.addresses).postalCode.GetOr("");
      |zip| <= 5 && zip == postal[..|zip|]
      && (|postal| <= 5 ==> zip == postal)
      && (|postal| > 5 ==> zip == postal[..5])
  {
  }

  /** The registry's records that pass the filter, as results, in order. */
  function NpiResults(records: seq<RawRecord>, filter: Option<String>): (rs: seq<NpiResult>)
    ensures |rs| <= |records|
  {
    if records == [] then []
    else
      var init := NpiResults(records[..|records| - 1], filter);
      var r := records[|records| - 1];
      if Wanted(filter, SpecialtyOf(r)) then init + [ToNpiResult(r)] else init
  }

  /** The results keep the registry's order: the results of two runs of
      records are the results of each, one after the other. */
  lemma {:induction false} NpiResultsConcat(a: seq<RawRecord>, b: seq<RawRecord>, filter: Option<String>)
    ensures NpiResults(a + b, filter) == NpiResults(a, filter) + NpiResults(b, filter)
    decreases |b|
  {
    if b == [] {
      assert a + b == a;
    } else {
      var n := |b| - 1;
      var init := b[..n];
      assert a + b == (a + init) + [b[n]];
      assert b == init + [b[n]];
      NpiResultsSnoc(a + init, b[n], filter);
      NpiResultsSnoc(init, b[n], filter);
      NpiResultsConcat(a, init, filter);
    }
  }

  /** Appending one record appends its result, when it has one. */
  lemma NpiResultsSnoc(init: seq<RawRecord>, r: RawRecord, filter: Option<String>)
    ensures NpiResults(init + [r], filter) == NpiResults(init, filter) + NpiResults([r], filter)
  {
    var s := init + [r];
    assert s[..|s| - 1] == init;
    NpiResultsSingle(r, filter);
  }

  /** A single record gives its result exactly when it passes the filter. */
  lemma NpiResultsSingle(r: RawRecord, filter: Option<String>)
    ensures NpiResults([r], filter) == if Wanted(filter, SpecialtyOf(r)) then [ToNpiResult(r)] else []
  {
    assert [r][..0] == [];
  }

  /** Every result's specialty passes the filter. */
  lemma {:induction false} NpiResultsMatchFilter(records: seq<RawRecord>, filter: Option<String>)
    ensures forall i | 0 <= i < |NpiResults(records, filter)| ::
      Wanted(filter, NpiResults(records, filter)[i].specialty)
  {
    if records != [] {
      NpiResultsMatchFilter(records[..|records| - 1], filter);
    }
  }

  /** Without a filter every record gives its result, in order. */
  lemma {:induction false} NpiResultsUnfiltered(records: seq<RawRecord>, filter: Option<String>)
    requires filter.None? || filter.value == []
    ensures |NpiResults(records, filter)| == |records|
    ensures forall i | 0 <= i < |records| :: NpiResults(records, filter)[i] == ToNpiResult(records[i])
  {
    if records != [] {
      var init := records[..|records| - 1];
      var r := records[|records| - 1];
      NpiResultsUnfiltered(init, filter);
      NoFilterKeepsAll(filter, SpecialtyOf(r));
      var rs := NpiResults(records, filter);
      assert rs == NpiResults(init, filter) + [ToNpiResult(r)];
      forall i | 0 <= i < |records| ensures rs[i] == ToNpiResult(records[i]) {
        if i < |init| {
          assert records[i] == init[i];
        }
      }
    }
  }

  // ---------------------------------------------------------------------------
  // Result summaries
  // ---------------------------------------------------------------------------

  /** The per-record dictionary both front ends show: npi, name, credential,
      specialty, location and phone. */
  datatype Summary = Summary(
    npi: String, name: String, credential: String, specialty: String,
    location: String, phone: String)

  /** `f"{city}, {state} {zip}"`. */
  function LocationText(city: String, state: String, zip: String): String {
    city + ", " + state + " " + zip
  }

  /** The dictionary `check_doctor` of check_doctors.py builds from an
      `NPIResult`. */
  function Summarise(r: NpiResult): Summary {
    Summary(r.npi, r.name, r.credential, r.specialty, LocationText(r.city, r.state, r.zipCode), r.phone)
  }

  /** The dictionary app.py builds straight from a registry record. */
  function RecordSummary(r: RawRecord): Summary {
    var a := PracticeAddress(r.addresses);
    Summary(
      r.number.GetOr(""),
      FullName(r.basic.firstName.GetOr(""), r.basic.lastName.GetOr("")),
      r.basic.credential.GetOr(""),
      SpecialtyOf(r),
      LocationText(a.city.GetOr(""), a.state.GetOr(""), Prefix(a.postalCode.GetOr(""), 5)),
      a.telephone.GetOr(""))
  }

  /** The two front ends agree: the web dictionary of a record is the command
      line's `NPIResult` of it, summarised. */
  lemma RecordSummaryAgrees(r: RawRecord)
    ensures RecordSummary(r) == Summarise(ToNpiResult(r))
  {
  }

  /** The location ends in the ZIP code, after the city, a comma, the state
      and a blank. */
  lemma LocationEndsInZip(city: String, state: String, zip: String)
    ensures var loc := LocationText(city, state, zip);
      |loc| == |city| + |state| + |zip| + 3
      && loc[..|city|] == city
      && loc[|loc| - |zip|..] == zip
  {
  }

  // ---------------------------------------------------------------------------
  // The whole search
  // ---------------------------------------------------------------------------

  /** What `search_npi(name, state, city, specialty, limit)` returns, the
      registry being the function that answers a parameter list. */
  function SearchResults(name: String, state: String, city: Option<String>, specialty: Option<String>,
                         limit: int, registry: seq<Param> -> RegistryReply): seq<NpiResult>
  {
    NpiResults(Records(registry(QueryParams(SplitName(name), state, city, limit))), specialty)
  }

  /** A failed request gives no results. */
  lemma SearchFailureIsEmpty(name: String, state: String, city: Option<String>, specialty: Option<String>,
                             limit: int, registry: seq<Param> -> RegistryReply)
    requires registry(QueryParams(SplitName(name), state, city, limit)) == TransportFailure
    ensures SearchResults(name, state, city, specialty, limit, registry) == []
  {
  }

  /** The summaries of a list of results, in order. */
  function Summaries(rs: seq<NpiResult>): seq<Summary> {
    seq(|rs|, i requires 0 <= i < |rs| => Summarise(rs[i]))
  }

  /** Summarising distributes over concatenation. */
  lemma SummariesAppend(a: seq<NpiResult>, b: seq<NpiResult>)
    ensures Summaries(a + b) == Summaries(a) + Summaries(b)
  {
  }

  /** `s[:n]`: the first `n` elements, or all of `s` when it is shorter. */
  function Take<T>(s: seq<T>, n: nat): (r: seq<T>)
    ensures |r| == if |s| <= n then |s| else n
    ensures r == s[..|r|]
  {
    if |s| <= n then s else s[..n]
  }

  /** Every search result passes the specialty filter. */
  lemma SearchResultsMatchFilter(name: String, state: String, city: Option<String>, specialty: Option<String>,
                                 limit: int, registry: seq<Param> -> RegistryReply)
    ensures var rs := SearchResults(name, state, city, specialty, limit, registry);
      forall i | 0 <= i < |rs| :: Wanted(specialty, rs[i].specialty)
  {
    NpiResultsMatchFilter(Records(registry(QueryParams(SplitName(name), state, city, limit))), specialty);
  }

  // ---------------------------------------------------------------------------
  // The result loops of the two front ends
  // ---------------------------------------------------------------------------

  /** The loop of check_doctors.py's `search_npi`: each record in turn is
      turned into an `NPIResult` and kept when its specialty passes. */
  method NormaliseRecords(records: seq<RawRecord>, specialty: Option<String>) returns (results: seq<NpiResult>)
    ensures results == NpiResults(records, specialty)
  {
    results := [];
    var i := 0;
    while i < |records|
      invariant 0 <= i <= |records|
      invariant results == NpiResults(records[..i], specialty)
    {
      var r := records[i];
      assert records[..i + 1] == records[..i] + [r];
      NpiResultsSnoc(records[..i], r, specialty);
      NpiResultsSingle(r, specialty);
      var specialtyName := SpecialtyOf(r);
      if Wanted(specialty, specialtyName) {
        results := results + [ToNpiResult(r)];
      }
      i := i + 1;
    }
    assert records[..|records|] == records;
  }

  /** One more record adds its web dictionary to the summaries exactly when
      its specialty passes. */
  lemma SummariesSnoc(init: seq<RawRecord>, r: RawRecord, filter: Option<String>)
    ensures Summaries(NpiResults(init + [r], filter))
      == Summaries(NpiResults(init, filter)) + (if Wanted(filter, SpecialtyOf(r)) then [RecordSummary(r)] else [])
  {
    NpiResultsSnoc(init, r, filter);
    NpiResultsSingle(r, filter);
    SummariesAppend(NpiResults(init, filter), NpiResults([r], filter));
    RecordSummaryAgrees(r);
    assert Summaries([ToNpiResult(r)]) == [RecordSummary(r)];
  }

  /** The loop of app.py's `search_npi`: the same records are kept, each as
      the web dictionary, which is the summary of its `NPIResult`. */
  method SummariseRecords(records: seq<RawRecord>, specialty: Option<String>) returns (results: seq<Summary>)
    ensures results == Summaries(NpiResults(records, specialty))
  {
    results := [];
    var i := 0;
    while i < |records|
      invariant 0 <= i <= |records|
      invariant results == Summaries(NpiResults(records[..i], specialty))
    {
      var r := records[i];
      assert records[..i + 1] == records[..i] + [r];
      SummariesSnoc(records[..i], r, specialty);
      var specialtyName := SpecialtyOf(r);
      if Wanted(specialty, specialtyName) {
        results := results + [RecordSummary(r)];
      }
      i := i + 1;
    }
    assert records[..|records|] == records;
  }
}
