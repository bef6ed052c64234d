# Doctor Network Checker, modelled in Dafny

The Doctor Network Checker has two front ends:

- `check_doctors.py` is a command-line tool.
- `app.py` is a small Flask web app with one `/search` endpoint.

Both take a comma-separated list of doctors, such as `Jane Doe (Cardiology), Smith`. For each doctor they do three things:

- They search the NPI Registry for individual providers in Texas. The name is split into a first and a last name, and results can be narrowed by a specialty filter and a city.
- They build links to the BCBSTX provider finder. Each link carries the quoted name, the search coordinates and a radius.
- The web app also returns three fixed UHC provider-finder links.

Each front end resolves the search location into coordinates in its own way:

- The command line looks the location up in a table of Texas places. On a miss it asks a geocoder. It appends ", TX" to the query only when the lower-cased location contains neither "tx" nor "texas". Without a location it uses Dallas.
- The web app only looks in its own smaller table. It falls back to Dallas for anything it does not know.

The Dafny modules follow that structure:

| module | what it holds |
|---|---|
| `Wrappers` | `Option` and `Result` |
| `PyStr` | the Python string operations the program relies on: `strip`, `lower`, `in`, `find`, `index`, slicing, `split`, `join`, `replace`, `str(int)` |
| `UrlQuote` | `urllib.parse.quote` and its byte-level inverse |
| `Doctors` | `parse_doctors`, which is the same in both files, and the reading of a `--file` |
| `Registry` | the registry side of `search_npi`: title removal, name split, query parameters, record normalisation, specialty filter, result summaries |
| `Links` | the BCBSTX URL templates and `generate_bcbstx_urls` |
| `Uhc` | `generate_uhc_urls` |
| `Geocoding` | `geocode_location` |
| `Locations` | the two tables of Texas places |
| `Cli` | `check_doctor` and `main` of check_doctors.py |
| `WebApp` | `search_npi` and `/search` of app.py |

The network services are parameters:

- The NPI Registry is a function from the query parameters to a reply. The reply is either a transport failure or a JSON payload of typed records.
- The geocoder is a function from the query text to a failure or a list of places.

Coordinates are the text that Python's `str.format` produces for the two floats.

## Model

| member | source | states |
|---|---|---|
| PyStr.Strip | check_doctors.py:310 | `str.strip()` leaves no whitespace at either end and never lengthens the text |
| PyStr.LStripSuffix | check_doctors.py:310 | stripping on the left keeps a suffix of the text |
| PyStr.RStripPrefix | check_doctors.py:310 | stripping on the right keeps a prefix of the text |
| PyStr.LStripDropsSpace | check_doctors.py:310 | everything stripped on the left is whitespace |
| PyStr.StripEmptyIff | app.py:564 | a stripped text is empty exactly when the text is all whitespace, which is what `or None` and the blank-entry skip test |
| PyStr.StripTrimmed | check_doctors.py:100 | stripping text without outer whitespace changes nothing |
| PyStr.StripPadded | check_doctors.py:310 | whitespace padding around a trimmed text is removed and the text itself kept |
| PyStr.StripKeepsOut | check_doctors.py:314-315 | stripping introduces no character that was not there |
| PyStr.StripIdempotent | check_doctors.py:97-100 | stripping twice is stripping once |
| PyStr.Lower | check_doctors.py:97 | `lower()` keeps the length; an upper-case letter A–Z becomes the letter at the same place of the lower-case alphabet, every other character is kept |
| PyStr.LowerNormal | app.py:562 | a lower-cased text holds no upper-case letter, and lower-casing it again changes nothing |
| PyStr.LowerConcat | check_doctors.py:105 | lower-casing distributes over concatenation |
| PyStr.FindFirst | check_doctors.py:98 | `find` gives the first occurrence, and nothing when there is no occurrence at all |
| PyStr.FindFromFirst | check_doctors.py:98 | a search from a position gives the first occurrence at or after it |
| PyStr.ContainsIff | check_doctors.py:105 | the `in` test holds exactly when the pattern occurs somewhere |
| PyStr.ContainsChar | check_doctors.py:313 | a one-character `in` test is membership of the character |
| PyStr.IndexOf | check_doctors.py:314 | `index(c)` gives a position holding `c` |
| PyStr.IndexOfFirst | check_doctors.py:314 | no earlier position holds `c` |
| PyStr.IndexOfIs | check_doctors.py:314-315 | the first position holding `c` is the index |
| PyStr.IndexOfConcat | check_doctors.py:314-315 | the index in a concatenation is in the first part when `c` is there, otherwise shifted into the second |
| PyStr.Slice | check_doctors.py:315 | a Python slice: exactly the characters between the bounds, the upper bound clamped to the length, and empty when the upper bound is not above the lower or the lower bound is past the end |
| PyStr.Prefix | check_doctors.py:199 | `[:n]` is exactly the first `n` characters, or the whole text when it has no more than `n` |
| PyStr.Split | check_doctors.py:309 | `split(c)` gives at least one piece, no piece holds `c`, and joining the pieces with `c` restores the text |
| PyStr.SplitJoin | check_doctors.py:309 | splitting pieces joined by a separator they lack gives the pieces back |
| PyStr.JoinSeparators | check_doctors.py:135-136 | joined pieces hold the separator exactly when there are two or more; the first separator ends the first piece and the rest is the join of the remaining pieces |
| PyStr.SplitUnique | check_doctors.py:309 | two lists of separator-free pieces that join to the same text are equal |
| PyStr.WordAtStart | check_doctors.py:138 | the leading word is a prefix free of whitespace, followed by whitespace or the end |
| PyStr.Words | check_doctors.py:138 | `split()` gives non-empty words free of whitespace |
| PyStr.WordsJoin | check_doctors.py:138-141 | splitting words joined by single blanks gives the words back |
| PyStr.ReplaceAbsent | check_doctors.py:98 | `replace` leaves a text without the pattern unchanged |
| PyStr.ReplaceShrinks | check_doctors.py:133 | replacing by something no longer never lengthens the text |
| PyStr.ReplaceSelf | check_doctors.py:98 | replacing a pattern by itself changes nothing |
| PyStr.ReplaceAtStart | check_doctors.py:98 | a leading occurrence is replaced and the scan resumes after it |
| PyStr.ReplaceCons | check_doctors.py:98 | a leading character that cannot start the pattern is kept |
| PyStr.ReplaceAfterFree | check_doctors.py:98 | text before the first occurrence is kept, the occurrence replaced and the rest scanned |
| PyStr.ReplaceAt | check_doctors.py:98 | the first occurrence found is replaced and the scan continues after it |
| PyStr.ReplaceJoin | check_doctors.py:381 | replacing a separator character by another in joined pieces that lack it rejoins them with the other |
| PyStr.NatToStr | app.py:464 | the decimal text of a natural number is non-empty, all digits, without a leading zero |
| PyStr.NatToStrValue | app.py:464 | the decimal text reads back as the number |
| PyStr.IntToStr | check_doctors.py:217-219 | `str(i)` starts with a minus sign exactly when `i` is negative; a non-negative number is its decimal digits, a negative one is a minus sign followed by the digits of its magnitude |
| UrlQuote.Utf8 | check_doctors.py:218 | a character encodes as one to four bytes; an ASCII character is its own single byte |
| UrlQuote.HexRoundTrip | check_doctors.py:218 | an upper-case hexadecimal digit reads back as its value |
| UrlQuote.PercentByte | check_doctors.py:218 | a byte is written as `%` and two upper-case hexadecimal digits |
| UrlQuote.Quote | check_doctors.py:218 | `quote` never shortens the text |
| UrlQuote.QuoteAlphabet | check_doctors.py:218 | `quote` emits only unreserved characters, `/`, `%` and upper-case hexadecimal digits |
| UrlQuote.PercentBytesAlphabet | check_doctors.py:218 | percent-encoded bytes use only `%` and upper-case hexadecimal digits |
| UrlQuote.QuoteCharAlphabet | check_doctors.py:218 | the quotation of one character uses only the `quote` alphabet |
| UrlQuote.QuoteHasNoDelimiters | check_doctors.py:25 | a quoted name holds no blank, `?`, `&`, `#`, `,`, `=` or brace, so it cannot break the URL it is put in |
| UrlQuote.QuoteKeeps | check_doctors.py:218 | text made only of kept characters is its own quotation |
| UrlQuote.DecodePercentBytes | check_doctors.py:218 | decoding percent-encoded bytes gives the bytes back |
| UrlQuote.DecodeQuote | check_doctors.py:218 | decoding the quotation gives the UTF-8 bytes of the text |
| UrlQuote.QuoteConcat | check_doctors.py:218 | quoting a concatenation concatenates the quotations |
| Doctors.ParseEntryShape | check_doctors.py:313-318 | an entry without both parentheses is the name; with both, the name is trimmed and has no `(`, the specialty is trimmed and has no `)`; neither gains a comma |
| Doctors.ParseEntry | check_doctors.py:313-318 | defines one entry's doctor: with both `(` and `)`, the stripped text before the first `(` and the stripped text between it and the first `)`; otherwise the entry itself. Its properties are stated by Doctors.ParseEntryShape, Doctors.ClosingBeforeOpening and Doctors.ParseWithSpecialty |
| Doctors.PieceDoctors | check_doctors.py:310-318 | a piece gives at most one doctor, and none exactly when it is blank |
| Doctors.Entries | check_doctors.py:309-318 | there are never more doctors than pieces |
| Doctors.EntriesSnoc | check_doctors.py:309-318 | one more piece adds its parsed entry at the end when it is not blank |
| Doctors.ParseDoctors | check_doctors.py:306-319 | defines `parse_doctors`: the doctors of the comma-separated pieces. Doctors.ParseDoctorList computes it with the loop; Doctors.ParseRender and Doctors.ParseDoctorsConcat state its round trip and its behaviour on joined lists |
| Doctors.FileDoctors | check_doctors.py:380-381 | defines the doctors of a `--file`: the file's text with every newline replaced by a comma, then parsed. Doctors.FileLines states that this gives one doctor per non-blank line |
| Doctors.ParseDoctorList | app.py:538-551 | the loop of `parse_doctors` computes the parsed doctors of the input |
| Doctors.FileLines | check_doctors.py:380-381 | a file's lines, once newlines become commas, give one doctor per non-blank line, in order |
| Doctors.ForEach | check_doctors.py:409-415 | a loop over the doctors gives one result per doctor |
| Doctors.ForEachAt | check_doctors.py:409-415 | the result at each position is the one for the doctor at that position |
| Doctors.EntriesWellFormed | check_doctors.py:309-318 | pieces without commas give trimmed names and specialties without commas |
| Doctors.ParsedDoctorsWellFormed | check_doctors.py:306-319 | every parsed name and specialty is trimmed and free of commas |
| Doctors.EntriesConcat | check_doctors.py:309-318 | the doctors of two runs of pieces are those of each, in order |
| Doctors.SplitAppend | check_doctors.py:309 | splitting on a separator between two texts splits each separately |
| Doctors.ParseDoctorsConcat | check_doctors.py:306-319 | parsing two lists joined by a comma concatenates their doctors |
| Doctors.BlankInputIsEmpty | check_doctors.py:311-312 | blank input gives no doctor |
| Doctors.ClosingBeforeOpening | check_doctors.py:315 | when the first `)` precedes the first `(`, the specialty is empty |
| Doctors.TrailingTextIgnored | check_doctors.py:313-316 | text after an entry's parentheses does not change its doctor |
| Doctors.ParseWithSpecialty | check_doctors.py:313-316 | `Name (Specialty)` parses as that name with that specialty |
| Doctors.ParseRenderedEntry | check_doctors.py:310-318 | a doctor's typed entry has no comma and parses back to the doctor |
| Doctors.EntriesOfPieces | check_doctors.py:309-318 | pieces that each give one known doctor give those doctors in order |
| Doctors.ParseRender | check_doctors.py:306-319 | doctors typed as `Name (Specialty)` entries joined by commas parse back to themselves |
| Links.FillWithNamesIsText | check_doctors.py:217-219 | `format` replaces only the placeholders: filling each with its own `{name}` gives the template text |
| Links.BcbstxLinks | check_doctors.py:211-221 | one link per configured BCBSTX network |
| Links.GenerateBcbstxUrls | check_doctors.py:211-221 | the loop gives each network's key and name in order, with the template filled |
| Links.BcbstxUrlShape | check_doctors.py:217-219 | each URL is the search prefix, the quoted name, then the rest of the template with the coordinates and radius substituted |
| Links.BcbstxRestStartsQuery | check_doctors.py:22-31 | after the name, each template continues with the query string |
| Links.TakeUntil | check_doctors.py:25 | the text before the first `c` is a prefix without `c` |
| Links.NameInUrlOf | check_doctors.py:25 | a URL of the search prefix, a segment without `?` and a query string reads back as the decoded segment |
| Links.BcbstxNameRoundTrip | check_doctors.py:217-219 | the name read back from any BCBSTX link is exactly the UTF-8 of the doctor's name |
| Links.BcbstxKeysDistinct | check_doctors.py:22-31 | the configured network keys are distinct |
| Uhc.UhcLinks | app.py:527-535 | one link per configured UHC network |
| Uhc.GenerateUhcUrls | app.py:527-535 | the loop gives every UHC link verbatim, keyed and ordered as configured |
| Uhc.UhcKeysDistinct | app.py:30-43 | the configured UHC keys are distinct |
| Registry.StripTitles | check_doctors.py:133 | removing the titles never lengthens the name |
| Registry.StripTitlesNoTitle | check_doctors.py:133 | a name without "Dr" is left alone |
| Registry.SplitParts | check_doctors.py:135-144 | defines the name split of a stripped name: at the first comma into last and first, else the first word and the rest, else the whole text as the last name. Registry.SplitCommaForm, Registry.SplitJoinedWords and Registry.SplitSingleWord state each case |
| Registry.SplitName | check_doctors.py:133-144 | defines the split of a raw name: the titles removed and the text stripped, then split. Registry.SplitNameTrimmed and Registry.LeadingTitleIgnored state its properties |
| Registry.LeadingTitleIgnored | check_doctors.py:133 | a leading "Dr. " makes no difference once the name is stripped |
| Registry.SplitCommaForm | check_doctors.py:135-136 | `Last, First` is split at the first comma into a stripped last and first name |
| Registry.SplitJoinedWords | check_doctors.py:138-141 | words without a comma give the first word as the first name and the rest, joined by blanks, as the last name |
| Registry.SplitSingleWord | check_doctors.py:142-144 | a single word is the last name and there is no first name |
| Registry.SplitKeepsWords | check_doctors.py:137-141 | without a comma, the first name followed by the words of the last name are the words of the name |
| Registry.SplitNameTrimmed | check_doctors.py:133-144 | both halves of the split name are trimmed |
| Registry.QueryParams | check_doctors.py:146-158 | defines the registry query: the four fixed parameters, then first name, last name and city when non-empty. Registry.QueryParamsLookup states what each parameter holds |
| Registry.QueryParamsLookup | check_doctors.py:146-158 | the query carries version 2.1, the limit, type NPI-1 and the state always; first name, last name and city exactly when non-empty |
| Registry.FirstMatch | check_doctors.py:172-175 | a match found satisfies the condition |
| Registry.FirstMatchFirst | check_doctors.py:172-175 | no earlier element matches, and with no match none does |
| Registry.NextOrFirst | check_doctors.py:172-181 | `next` with a default gives the first matching element |
| Registry.NextOrDefault | check_doctors.py:172-181 | `next` gives the default when nothing matches |
| Registry.PracticeAddress | check_doctors.py:172-175 | defines the practice address as `next` over the addresses with the first address, or the empty dictionary, as default. Registry.PracticeAddressIsFirstLocation and Registry.PracticeAddressFallback state the two cases |
| Registry.PrimaryTaxonomy | check_doctors.py:178-181 | defines the primary taxonomy the same way over the taxonomies. Registry.PrimaryTaxonomyIsFirstPrimary and Registry.PrimaryTaxonomyFallback state the two cases |
| Registry.PracticeAddressIsFirstLocation | check_doctors.py:172-175 | the practice address is the first "LOCATION" address |
| Registry.PracticeAddressFallback | check_doctors.py:172-175 | without one it is the first address, or the empty dictionary |
| Registry.PrimaryTaxonomyIsFirstPrimary | check_doctors.py:178-181 | the primary taxonomy is the first one flagged primary |
| Registry.PrimaryTaxonomyFallback | check_doctors.py:178-181 | without one it is the first taxonomy, or the empty dictionary |
| Registry.SpecialtyOf | check_doctors.py:183 | defines the specialty as the primary taxonomy's description, "Unknown" without one. Registry.SpecialtyWithoutTaxonomies states the default |
| Registry.Wanted | check_doctors.py:186-188 | defines the filter: no filter, or the lower-cased filter occurs in the lower-cased specialty. Registry.NoFilterKeepsAll, Registry.WantedIgnoresCase and Registry.WantedWhenContained state its properties |
| Registry.SpecialtyWithoutTaxonomies | check_doctors.py:178-183 | a record without taxonomies has specialty "Unknown" |
| Registry.NoFilterKeepsAll | check_doctors.py:186-188 | an absent or empty filter keeps every record |
| Registry.WantedIgnoresCase | check_doctors.py:187 | the filter ignores letter case on both sides |
| Registry.WantedWhenContained | check_doctors.py:187 | a specialty containing the filter verbatim passes it |
| Registry.FullNameOf | check_doctors.py:193 | the full name is first and last joined by one blank, or the one that is present |
| Registry.ToNpiResult | check_doctors.py:190-201 | defines the `NPIResult` of a record from its basic fields, practice address and specialty. Registry.FullNameOf and Registry.ZipCodeOfRecord state its name and ZIP code |
| Registry.ZipCodeOfRecord | check_doctors.py:199 | the ZIP code is exactly the first five characters of the postal code, or all of it when it has no more than five |
| Registry.NpiResults | check_doctors.py:165-204 | there are never more results than records |
| Registry.NpiResultsConcat | check_doctors.py:165-204 | the results keep the registry's order |
| Registry.NpiResultsSnoc | check_doctors.py:165-204 | one more record adds its own result at the end |
| Registry.NpiResultsSingle | check_doctors.py:183-202 | a record gives its result exactly when its specialty passes the filter |
| Registry.NpiResultsMatchFilter | check_doctors.py:186-188 | every result's specialty passes the filter |
| Registry.NpiResultsUnfiltered | check_doctors.py:186-202 | without a filter every record gives its result, in order |
| Registry.RecordSummaryAgrees | app.py:502-509 | the web dictionary of a record is the command line's summary of its `NPIResult` |
| Registry.LocationEndsInZip | check_doctors.py:245 | the location text starts with the city and ends with the ZIP code |
| Registry.SearchFailureIsEmpty | check_doctors.py:206-208 | a failed request gives no results |
| Registry.Take | check_doctors.py:248 | `[:5]` keeps the first five elements, or all of them when there are fewer |
| Registry.SearchResultsMatchFilter | check_doctors.py:124-208 | every `search_npi` result passes the specialty filter |
| Registry.NormaliseRecords | check_doctors.py:165-204 | the loop over the records computes the filtered results in order |
| Registry.SummariesSnoc | app.py:481-509 | one more record adds its web dictionary exactly when its specialty passes |
| Registry.SummariseRecords | app.py:481-511 | the web loop keeps the same records as the command line, each as the summary of its result |
| Registry.RecordSummary | app.py:502-509 | defines the web app's dictionary of a record. Registry.RecordSummaryAgrees states that it is the command line's summary of the record's `NPIResult` |
| Registry.SearchResults | check_doctors.py:124-208 | defines `search_npi`: the registry's reply to the query of the split name, as filtered results, or none on failure. Registry.SearchResultsMatchFilter and Registry.SearchFailureIsEmpty state its properties, Cli.SearchNpi computes it |
| Geocoding.Lookup | check_doctors.py:102-103 | a key found in the table comes with the value stored under it |
| Geocoding.LookupMiss | check_doctors.py:102 | a key no entry has is not found |
| Geocoding.LookupLast | check_doctors.py:102-103 | the last entry with the key decides, as in a dictionary literal |
| Geocoding.LookupEntry | check_doctors.py:102-103 | in a table with distinct keys every entry is found under its key |
| Geocoding.DropTexas | check_doctors.py:98-99 | defines the removal of the six Texas suffixes, in the source's order. Geocoding.DropTexasPlain and Geocoding.DropTexasSuffix state its effect |
| Geocoding.NormaliseLocation | check_doctors.py:97-100 | defines the table key of a location: lower-cased, stripped, Texas suffixes removed, stripped again. Geocoding.PlainKeyNormal and Geocoding.TexasSuffixDropped state its properties |
| Geocoding.DropTexasPlain | check_doctors.py:98-99 | a plain key contains none of the Texas suffixes |
| Geocoding.PlainKeyNormal | check_doctors.py:97-100 | a plain key normalises to itself |
| Geocoding.TexasSuffixDropped | check_doctors.py:97-100 | a place followed by ", TX" is looked up under the lower-cased place |
| Geocoding.DropTexasSuffix | check_doctors.py:98-99 | of a plain key followed by ", tx", only the suffix is removed |
| Geocoding.FallbackQuery | check_doctors.py:105-106 | defines the geocoder's query: the location, followed by ", TX" when its lower-cased text contains neither "tx" nor "texas". Geocoding.FallbackMentionsTexas and Geocoding.FallbackQueryIdempotent state its properties |
| Geocoding.FallbackMentionsTexas | check_doctors.py:105-106 | the geocoder is always asked about text that mentions Texas |
| Geocoding.FallbackQueryIdempotent | check_doctors.py:105-106 | ", TX" is appended at most once |
| Geocoding.Geocode | check_doctors.py:95-121 | defines `geocode_location`: the table's coordinates for the normalised location, else the geocoder's first place for the fallback query, else the error. Geocoding.GeocodeTableHit, Geocoding.GeocodeAsksOnlyFallback and Geocoding.GeocodeMiss state the three cases |
| Geocoding.GeocodeTableHit | check_doctors.py:102-103 | a known place is answered from the table, whatever the geocoder says |
| Geocoding.GeocodeAsksOnlyFallback | check_doctors.py:105-119 | the geocoder is asked about the fallback query only |
| Geocoding.GeocodeMiss | check_doctors.py:105-121 | on a miss, the answer is the geocoder's first place, or the error naming the query |
| Locations.AppKeysDistinct | app.py:46-59 | the web table's keys are distinct |
| Locations.AppTableAgrees | app.py:46-59 | every place the web table knows has the same coordinates in the command-line table |
| Locations.SimpleKeyPlain | check_doctors.py:97-100 | a key of lower-case letters, digits and single inner blanks, none followed by "t", is in normal form |
| Locations.AppKeysSimple | app.py:46-59 | every key of the web table is such a simple key |
| Locations.WebPlacesFound | check_doctors.py:95-103 | a place of the web table, in any letter case and with or without ", TX", is answered by the command line's table with the web table's coordinates, whatever the geocoder says |
| Locations.DallasTexas | check_doctors.py:95-103 | "Dallas, TX" geocodes to Dallas without asking the geocoder |
| Cli.SearchNpi | check_doctors.py:124-208 | `search_npi` sends the query for the split name and gives the filtered results |
| Cli.Report | check_doctors.py:234-251 | defines the dictionary `check_doctor` returns from the doctor, the results and the links. Cli.ReportShape states its fields |
| Cli.ReportShape | check_doctors.py:234-251 | found exactly when the count is positive; the count is the number of results; the shown entries are the first five results, or all when fewer, each the summary of its result with its "city, state zip" location |
| Cli.CheckDoctor | check_doctors.py:224-251 | `check_doctor` searches in Texas with limit ten and builds the report with the BCBSTX links |
| Cli.ReportMatchesFilter | check_doctors.py:228-249 | every result a report shows passes the doctor's specialty filter |
| Cli.CheckAllShape | check_doctors.py:409-415 | one report per doctor, in order, under its name and filter, with only matching results |
| Cli.CheckAllSnoc | check_doctors.py:409-415 | one more doctor adds its report at the end |
| Cli.CheckDoctors | check_doctors.py:409-415 | the loop of `main` gives the report of every doctor, in order |
| Cli.DallasByDefault | check_doctors.py:394-402 | without a location, and for "Dallas, TX", the search is centred on Dallas |
| Cli.SearchCoordinates | check_doctors.py:394-402 | defines the search centre: the geocoded location when a non-empty one is given, Dallas otherwise. Cli.DallasByDefault states the default |
| Cli.NoDoctorsRefused | check_doctors.py:383-385 | without doctors `main` fails with "Error: No doctors specified" |
| Cli.MainOutcome | check_doctors.py:377-415 | defines what `main` ends with: the error for no doctors, the geocoding error, or one report per doctor. Cli.NoDoctorsRefused, Cli.MainOutcomeCases and Cli.MainDefaultsToDallas state its cases |
| Cli.MainOutcomeCases | check_doctors.py:383-415 | an ungeocodable location fails with the geocoding error before the registry is asked; otherwise there is one report per doctor |
| Cli.MainDefaultsToDallas | check_doctors.py:400-415 | without a location every doctor is checked around Dallas |
| WebApp.SearchNpi | app.py:447-513 | the web `search_npi` gives the summaries of the command line's results for the same query |
| WebApp.ResolveLocation | app.py:562-566 | defines the web search centre: the lower-cased location looked up in the web table, Dallas when absent or unknown. WebApp.ResolveDefault, WebApp.ResolveKnown and WebApp.ResolveUnknown state the cases |
| WebApp.ResolveDefault | app.py:562-566 | without a location the search is centred on Dallas |
| WebApp.ResolveKnown | app.py:562-566 | a known place is found in any letter case, with the coordinates the command line gives it |
| WebApp.ResolveUnknown | app.py:566 | an unknown place falls back to Dallas with no error |
| WebApp.CityFilter | app.py:564 | defines the city filter: the stripped argument, or none when it is blank. WebApp.CityFilterShape states both directions |
| WebApp.CityFilterShape | app.py:564 | the city filter is absent exactly when the argument is absent or blank; otherwise it is the non-empty stripped argument |
| WebApp.AppReport | app.py:579-587 | defines one doctor's web result. WebApp.AppReportShape states its fields and WebApp.AgreesWithCli relates it to the command line's report |
| WebApp.AppReportShape | app.py:579-587 | found exactly when the count is positive; the count is the number of results; at most the first five are shown, in order |
| WebApp.TakeSummaries | app.py:584 | showing the first five summaries is summarising the first five results |
| WebApp.AgreesWithCli | app.py:570-587 | the web result for a doctor carries the command line's report plus the UHC links |
| WebApp.SearchDoctor | app.py:572-587 | one iteration searches the doctor in Texas with limit ten and adds both sets of links |
| WebApp.SearchAllSnoc | app.py:570-587 | one more doctor adds its result at the end |
| WebApp.SearchDoctors | app.py:570-588 | the loop of `/search` gives every doctor's result, in order |
| WebApp.Search | app.py:559-589 | `/search` reads the arguments with their defaults, parses the doctors and gives the response |
| WebApp.SearchResponse | app.py:559-589 | defines the `/search` response from the request's arguments. WebApp.SearchResponseShape and WebApp.NoDoctorsNoResults state its properties, WebApp.Search computes it |
| WebApp.SearchAllShape | app.py:570-587 | one result per doctor, in order, under its name and filter, with matching results only and all the UHC links |
| WebApp.SearchResponseShape | app.py:560-589 | the response has one result per parsed doctor, at the resolved place, radius 25 by default and the stripped city |
| WebApp.NoDoctorsNoResults | app.py:561-568 | a request without doctors gets an empty list |

## Left out

- HTTP is not modelled: `requests`, the registry URL, timeouts, status checks and JSON decoding. The registry and the geocoder are function parameters. Their replies are typed, so a malformed payload (a null or wrongly typed field) cannot be expressed.
- Registry.SearchResults: the two files catch different failures. app.py catches every `Exception`; check_doctors.py catches only `requests.RequestException`. They differ only on malformed payloads, which the typed reply excludes. Both are modelled as "a transport failure gives no results". The stderr warning is not modelled.
- Geocoding.Geocode does not model `float()` failing on the geocoder's coordinates, nor the geocoder's own parameters (format, limit, country, user agent). A reply is a list of already-rendered coordinates.
- Coordinates are kept as the text `str.format` gives the floats. Float parsing and float arithmetic are not modelled. The `--coords` option, which parses two floats, is not modelled either.
- Argument parsing is not modelled:
  - the command line's `argparse`, including `--radius`'s integer conversion, `--json` and `--no-urls`;
  - the web app's `int(request.args.get("radius", 25))`.
  - The radius arrives as an integer or is absent. A non-numeric radius, which Python rejects, is not modelled.
- Cli.MainOutcome starts from the parsed doctors. Whether they came from `--doctors` or `--file` is not modelled, nor is an empty `--doctors ""` falling through to the file branch.
- Doctors.FileDoctors models only the file's contents. Opening and reading the file are not modelled.
- Output is not modelled: `print_results`, the progress lines, the JSON dump, `sys.exit`, Flask routing, `jsonify` and the HTML page of app.py.
- PyStr.Lower and PyStr.Strip cover ASCII only. `lower()` maps only A–Z. Whitespace is the ASCII part of `str.isspace`. Non-ASCII case mappings and non-ASCII spaces are not modelled.
- Geocoding.Lookup uses the last entry for a key, as a Python dictionary literal does. Distinct keys are proved for the web table but not for the larger command-line table.
- Locations.WebPlacesFound covers the twelve places the command-line table shares with the web table. For the other 25 command-line keys, distinctness and normal form are not proved. The proof over all 37 literal keys is too costly for the solver.
- Uhc.PlanUrl keeps the three UHC URLs as constant text. No property of their contents is stated beyond being returned unchanged.
