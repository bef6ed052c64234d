/**
 * Turning a location typed by the user into coordinates, as `geocode_location`
 * of check_doctors.py does it: the text is normalised and looked up in a
 * table of known places; only on a miss is a geocoder asked, with ", TX"
 * appended when the text does not already mention Texas.
 *
 * The geocoder (an HTTP service) is a function parameter: it is given the
 * query text and answers with a failure or a list of places.
 */
module Geocoding {
  import opened Wrappers
  import opened PyStr
  import opened Links

  /** A location table: (key, coordinates) pairs in insertion order. */
  type Table = seq<(String, Coordinates)>

  // ---------------------------------------------------------------------------
  // Table lookup
  // ---------------------------------------------------------------------------

  /** `table.get(key)` for a dictionary written as the pairs `table`: a key
      given twice keeps the value given last, so the last entry with the key
      decides. */
  function Lookup(table: Table, key: String): (r: Option<Coordinates>)
    ensures r.Some? ==> exists i | 0 <= i < |table| :: table[i] == (key, r.value)
  {
    if table == [] then None
    else
      var last := |table| - 1;
      if table[last].0 == key then Some(table[last].1)
      else
        var r := Lookup(table[..last], key);
        if r.Some? then
          var i :| 0 <= i < last && table[..last][i] == (key, r.value);
          assert table[i] == (key, r.value);
          r
        else r
  }

  /** A key that no entry has is not found. */
  lemma {:induction false} LookupMiss(table: Table, key: String)
    requires forall i | 0 <= i < |table| :: table[i].0 != key
    ensures Lookup(table, key) == None
  {
    if table != [] {
      LookupMiss(table[..|table| - 1], key);
    }
  }

  /** The last entry with the key decides the answer. */
  lemma {:induction false} LookupLast(table: Table, key: String, i: nat)
    requires i < |table| && table[i].0 == key
    requires forall j | i < j < |table| :: table[j].0 != key
    ensures Lookup(table, key) == Some(table[i].1)
  {
    if i < |table| - 1 {
      LookupLast(table[..|table| - 1], key, i);
    }
  }

  /** Keys of a dictionary are distinct. */
  predicate KeysDistinct(table: Table) {
    forall i, j | 0 <= i < j < |table| :: table[i].0 != table[j].0
  }

  /** Two dictionaries with distinct keys and no key in common make one. */
  lemma DistinctConcat(a: Table, b: Table)
    requires KeysDistinct(a) && KeysDistinct(b)
    requires forall i, j | 0 <= i < |a| && 0 <= j < |b| :: a[i].0 != b[j].0
    ensures KeysDistinct(a + b)
  {
    var t := a + b;
    forall i, j | 0 <= i < j < |t| ensures t[i].0 != t[j].0 {
      if j < |a| {
        assert t[i] == a[i] && t[j] == a[j];
      } else if i >= |a| {
        assert t[i] == b[i - |a|] && t[j] == b[j - |a|];
      } else {
        assert t[i] == a[i] && t[j] == b[j - |a|];
      }
    }
  }

  /** In a table with distinct keys every entry is found under its key. */
  lemma LookupEntry(table: Table, i: nat)
    requires KeysDistinct(table) && i < |table|
    ensures Lookup(table, table[i].0) == Some(table[i].1)
  {
    LookupLast(table, table[i].0, i);
  }

  // ---------------------------------------------------------------------------
  // Normalising the location
  // ---------------------------------------------------------------------------

  /** Every ", tx", ",tx", " tx", ", texas", ",texas" and " texas" removed, in
      that order. */
  function DropTexas(s: String): String {
    var s1 := Replace(s, ", tx", "");
    var s2 := Replace(s1, ",tx", "");
    var s3 := Replace(s2, " tx", "");
    var s4 := Replace(s3, ", texas", "");
    var s5 := Replace(s4, ",texas", "");
    Replace(s5, " texas", "")
  }

  /** The table key a location is looked up under: lower-cased and stripped,
      the Texas suffixes removed, then stripped again. */
  function NormaliseLocation(location: String): String {
    Strip(DropTexas(Strip(Lower(location))))
  }

  /** A key in the form the tables use: lower-case, trimmed, without a comma
      and without a word starting with "t" after a blank. */
  predicate PlainKey(k: String) {
    Lower(k) == k && Trimmed(k) && ',' !in k && !Contains(k, " t")
  }

  /** A plain key holds none of the Texas patterns. */
  lemma PlainKeyLacks(k: String, pat: String)
    requires PlainKey(k) && |pat| >= 2
    requires pat[0] == ',' || pat[..2] == " t"
    ensures Replace(k, pat, "") == k
  {
    if Contains(k, pat) && pat[0] != ',' {
      assert pat == " t" + pat[2..];
      ContainsShorter(k, " t", pat[2..]);
    }
    ReplaceAbsent(k, pat, "");
  }

  /** No Texas pattern touches a plain key. */
  lemma DropTexasPlain(k: String)
    requires PlainKey(k)
    ensures DropTexas(k) == k
  {
    PlainKeyLacks(k, ", tx");
    PlainKeyLacks(k, ",tx");
    PlainKeyLacks(k, " tx");
    PlainKeyLacks(k, ", texas");
    PlainKeyLacks(k, ",texas");
    PlainKeyLacks(k, " texas");
  }

  /** A plain key is its own normal form, so every plain table key is found
      when typed as it is stored. */
  lemma PlainKeyNormal(k: String)
    requires PlainKey(k)
    ensures NormaliseLocation(k) == k
  {
    StripTrimmed(k);
    DropTexasPlain(k);
  }

  /** "Dallas, TX" is looked up as "dallas": a place followed by ", TX" is
      looked up under the lower-cased place. */
  lemma TexasSuffixDropped(place: String)
    requires PlainKey(Lower(place))
    ensures NormaliseLocation(place + ", TX") == Lower(place)
  {
    var k := Lower(place);
    LowerConcat(place, ", TX");
    assert Lower(", TX") == ", tx";
    var s := k + ", tx";
    assert s[|s| - 1] == 'x';
    assert s[0] == if k != [] then k[0] else ',';
    StripTrimmed(s);
    DropTexasSuffix(k);
    StripTrimmed(k);
  }

  /** Of a plain key followed by ", tx" only the suffix is removed. */
  lemma DropTexasSuffix(k: String)
    requires PlainKey(k)
    ensures DropTexas(k + ", tx") == k
  {
    ReplaceAfterFree(k, ", tx", "", []);
    assert k + ", tx" == k + ", tx" + [];
    assert Replace([], ", tx", "") == [];
    assert k + "" + [] == k;
    PlainKeyLacks(k, ",tx");
    PlainKeyLacks(k, " tx");
    PlainKeyLacks(k, ", texas");
    PlainKeyLacks(k, ",texas");
    PlainKeyLacks(k, " texas");
  }

  // ---------------------------------------------------------------------------
  // The geocoder fallback
  // ---------------------------------------------------------------------------

  /** Whether lower-cased text mentions Texas. */
  predicate MentionsTexas(s: String) {
    Contains(Lower(s), "tx") || Contains(Lower(s), "texas")
  }

  /** The text sent to the geocoder: the location as typed, with ", TX"
      appended unless it already mentions Texas. */
  function FallbackQuery(location: String): String {
    if MentionsTexas(location) then location else location + ", TX"
  }

  /** The geocoder is always asked about a place that mentions Texas. */
  lemma FallbackMentionsTexas(location: String)
    ensures MentionsTexas(FallbackQuery(location))
  {
    if !MentionsTexas(location) {
      LowerConcat(location, ", TX");
      assert Lower(", TX") == ", " + "tx";
      assert OccursAt("tx", "tx", 0);
      FindFirst("tx", "tx");
      ContainsInSuffix(Lower(location) + ", ", "tx", "tx");
      assert Lower(location + ", TX") == Lower(location) + ", " + "tx";
    }
  }

  /** Suffixing is done at most once. */
  lemma FallbackQueryIdempotent(location: String)
    ensures FallbackQuery(FallbackQuery(location)) == FallbackQuery(location)
  {
    FallbackMentionsTexas(location);
  }

  /** What the geocoder answers: a failed request, or its list of places. */
  datatype GeoReply = GeoFailure | GeoPlaces(places: seq<Coordinates>)

  /** The `ValueError` message, naming the text the geocoder was asked about. */
  function GeocodeError(query: String): String {
    "Could not geocode: " + query + ". Use --coords or a major Texas city."
  }

  /** `geocode_location`: the table's coordinates when the normalised location
      is a key; otherwise the geocoder's first place; otherwise the error. */
  function Geocode(table: Table, location: String, geocoder: String -> GeoReply): Result<Coordinates, String> {
    match Lookup(table, NormaliseLocation(location))
    case Some(c) => Ok(c)
    case None =>
      var query := FallbackQuery(location);
      match geocoder(query)
      case GeoPlaces(places) =>
        if places != [] then Ok(places[0]) else Err(GeocodeError(query))
      case GeoFailure => Err(GeocodeError(query))
  }

  /** A location the table knows is answered from the table, whatever the
      geocoder would say. */
  lemma GeocodeTableHit(table: Table, location: String, geocoder: String -> GeoReply, other: String -> GeoReply)
    requires Lookup(table, NormaliseLocation(location)).Some?
    ensures Geocode(table, location, geocoder) == Ok(Lookup(table, NormaliseLocation(location)).value)
    ensures Geocode(table, location, geocoder) == Geocode(table, location, other)
  {
  }

  /** The geocoder is only ever asked about the fallback query: two geocoders
      that agree on it give the same outcome. */
  lemma GeocodeAsksOnlyFallback(table: Table, location: String, g1: String -> GeoReply, g2: String -> GeoReply)
    requires g1(FallbackQuery(location)) == g2(FallbackQuery(location))
    ensures Geocode(table, location, g1) == Geocode(table, location, g2)
  {
  }

  /** On a table miss the outcome is the geocoder's first place, or the error
      naming the fallback query when it fails or finds nothing; either way the
      place asked about mentions Texas. */
  lemma GeocodeMiss(table: Table, location: String, geocoder: String -> GeoReply)
    requires Lookup(table, NormaliseLocation(location)).None?
    ensures var reply := geocoder(FallbackQuery(location));
      Geocode(table, location, geocoder)
        == if reply.GeoPlaces? && reply.places != [] then Ok(reply.places[0])
           else Err(GeocodeError(FallbackQuery(location)))
    ensures MentionsTexas(FallbackQuery(location))
  {
    FallbackMentionsTexas(location);
  }
}
