/**
 * The two tables of Texas places the front ends know without asking a
 * geocoder: the command line's (cities and a few ZIP codes) and the web
 * app's smaller one. Keys are lower-case; coordinates are the two floats as
 * `str.format` renders them.
 */
module Locations {
  import opened Wrappers
  import opened PyStr
  import opened Links
  import opened Geocoding

  /** `TEXAS_LOCATIONS` of check_doctors.py: Texas cities, then common ZIP
      codes. */
  const CliTable: Table := [
    ("dallas", Coordinates("32.7767", "-96.797")),
    ("fort worth", Coordinates("32.7555", "-97.3308")),
    ("houston", Coordinates("29.7604", "-95.3698")),
    ("austin", Coordinates("30.2672", "-97.7431")),
    ("san antonio", Coordinates("29.4241", "-98.4936")),
    ("plano", Coordinates("33.0198", "-96.6989")),
    ("arlington", Coordinates("32.7357", "-97.1081")),
    ("irving", Coordinates("32.814", "-96.9489")),
    ("frisco", Coordinates("33.1507", "-96.8236")),
    ("mckinney", Coordinates("33.1972", "-96.6397")),
    ("denton", Coordinates("33.2148", "-97.1331")),
    ("garland", Coordinates("32.9126", "-96.6389")),
    ("richardson", Coordinates("32.9483", "-96.7299")),
    ("carrollton", Coordinates("32.9537", "-96.8903")),
    ("lewisville", Coordinates("33.0462", "-96.9942")),
    ("el paso", Coordinates("31.7619", "-106.485")),
    ("corpus christi", Coordinates("27.8006", "-97.3964")),
    ("lubbock", Coordinates("33.5779", "-101.8552")),
    ("amarillo", Coordinates("35.222", "-101.8313")),
    ("waco", Coordinates("31.5493", "-97.1467")),
    ("midland", Coordinates("31.9973", "-102.0779")),
    ("odessa", Coordinates("31.8457", "-102.3676")),
    ("beaumont", Coordinates("30.0802", "-94.1266")),
    ("tyler", Coordinates("32.3513", "-95.3011")),
    ("round rock", Coordinates("30.5083", "-97.6789")),
    ("sugar land", Coordinates("29.6197", "-95.6349")),
    ("the woodlands", Coordinates("30.1658", "-95.4613")),
    ("katy", Coordinates("29.7858", "-95.8245")),
    ("pasadena", Coordinates("29.6911", "-95.2091")),
    ("mesquite", Coordinates("32.7668", "-96.5992")),
    ("75201", Coordinates("32.7872", "-96.7985")),
    ("75202", Coordinates("32.783", "-96.801")),
    ("76102", Coordinates("32.7593", "-97.3283")),
    ("77002", Coordinates("29.7545", "-95.3592")),
    ("78201", Coordinates("29.465", "-98.5254")),
    ("73301", Coordinates("30.3265", "-97.7713")),
    ("78701", Coordinates("30.2711", "-97.7437"))
  ]

  /** `TEXAS_LOCATIONS` of app.py. */
  const AppTable: Table := [
    ("dallas", Coordinates("32.7767", "-96.797")),
    ("fort worth", Coordinates("32.7555", "-97.3308")),
    ("houston", Coordinates("29.7604", "-95.3698")),
    ("austin", Coordinates("30.2672", "-97.7431")),
    ("san antonio", Coordinates("29.4241", "-98.4936")),
    ("plano", Coordinates("33.0198", "-96.6989")),
    ("arlington", Coordinates("32.7357", "-97.1081")),
    ("irving", Coordinates("32.814", "-96.9489")),
    ("frisco", Coordinates("33.1507", "-96.8236")),
    ("mckinney", Coordinates("33.1972", "-96.6397")),
    ("denton", Coordinates("33.2148", "-97.1331")),
    ("richardson", Coordinates("32.9483", "-96.7299"))
  ]

  /** Dallas, the default of both front ends. */
  const Dallas: Coordinates := Coordinates("32.7767", "-96.797")

  /** The web table is a dictionary: no key is repeated. */
  lemma AppKeysDistinct()
    ensures KeysDistinct(AppTable)
  {
  }

  /** The two front ends agree on every place the web app knows. */
  lemma AppTableAgrees(i: nat)
    requires i < |AppTable|
    ensures Lookup(CliTable, AppTable[i].0) == Some(AppTable[i].1)
  {
    var j := if i < 11 then i else 12;
    assert CliTable[j] == AppTable[i];
    AppKeysNotLater();
    assert forall l | j < l < 13 :: CliTable[l].0 != AppTable[i].0;
    LookupLast(CliTable, AppTable[i].0, j);
  }

  /** The command-line entries after the first thirteen are places the web
      app does not know. */
  lemma AppKeysNotLater()
    ensures forall i, l | 0 <= i < |AppTable| && 13 <= l < |CliTable| :: CliTable[l].0 != AppTable[i].0
  {
  }

  /** A key written with lower-case letters, digits and inner blanks, no
      blank being followed by a "t": the form of the table keys. */
  predicate SimpleKey(k: String) {
    k != [] && k[0] != ' ' && k[|k| - 1] != ' '
    && (forall j | 0 <= j < |k| :: 'a' <= k[j] <= 'z' || '0' <= k[j] <= '9' || k[j] == ' ')
    && (forall j | 0 <= j < |k| - 1 :: k[j] == ' ' ==> k[j + 1] != 't')
  }

  /** A simple key is in the form the normalisation produces. */
  lemma SimpleKeyPlain(k: String)
    requires SimpleKey(k)
    ensures PlainKey(k)
  {
    assert Lower(k) == k;
    forall m: nat ensures !OccursAt(k, " t", m) {
      if m + 2 <= |k| {
        assert k[m..m + 2][0] == k[m] && k[m..m + 2][1] == k[m + 1];
      }
    }
    ContainsIff(k, " t");
  }

  /** Every key of the web table is simple. */
  lemma AppKeysSimple()
    ensures forall i | 0 <= i < |AppTable| :: SimpleKey(AppTable[i].0)
  {
    FirstAppKeysSimple();
    LastAppKeysSimple();
  }

  /** The first half of the web table's keys are simple. */
  lemma FirstAppKeysSimple()
    ensures forall i | 0 <= i < 6 :: SimpleKey(AppTable[i].0)
  {
  }

  /** The second half of the web table's keys are simple. */
  lemma LastAppKeysSimple()
    ensures forall i | 6 <= i < |AppTable| :: SimpleKey(AppTable[i].0)
  {
  }

  /** A place the web app knows, typed in any letter case and with or
      without ", TX", is answered by the command line from its table, with
      the web app's coordinates and without asking the geocoder. */
  lemma WebPlacesFound(location: String, i: nat, geocoder: String -> GeoReply)
    requires i < |AppTable| && Lower(location) == AppTable[i].0
    ensures Geocode(CliTable, location, geocoder) == Ok(AppTable[i].1)
    ensures Geocode(CliTable, location + ", TX", geocoder) == Ok(AppTable[i].1)
  {
    var k := AppTable[i].0;
    AppKeysSimple();
    SimpleKeyPlain(k);
    PlainKeyNormal(k);
    assert NormaliseLocation(location) == NormaliseLocation(k);
    TexasSuffixDropped(location);
    AppTableAgrees(i);
  }

  /** "Dallas, TX" is found in the command-line table without a geocoder. */
  lemma DallasTexas(geocoder: String -> GeoReply)
    ensures Geocode(CliTable, "Dallas, TX", geocoder) == Ok(Dallas)
  {
    assert Lower("Dallas") == AppTable[0].0;
    assert "Dallas, TX" == "Dallas" + ", TX";
    WebPlacesFound("Dallas", 0, geocoder);
  }
}
