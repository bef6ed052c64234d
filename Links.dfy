/**
 * Provider-finder links: the BCBSTX URL templates filled with the quoted doctor
 * name, the coordinates and the radius (`generate_bcbstx_urls`, identical in
 * app.py and check_doctors.py).
 */
module Links {
  import opened PyStr
  import opened UrlQuote

  /** Coordinates as `str.format` renders the two floats. */
  datatype Coordinates = Coordinates(lat: String, lon: String)

  /** The placeholders of the templates. */
  datatype Field = QueryField | LatField | LonField | RadiusField

  /** A template is literal text interleaved with placeholders. */
  datatype Piece = Lit(text: String) | Hole(field: Field)

  type Template = seq<Piece>

  function FieldName(f: Field): String {
    match f
    case QueryField => "query"
    case LatField => "lat"
    case LonField => "lon"
    case RadiusField => "radius"
  }

  /** The template as it is written in the source, with `{name}` placeholders. */
  function TemplateText(t: Template): String {
    if t == [] then []
    else
      (match t[0]
       case Lit(text) => text
       case Hole(f) => "{" + FieldName(f) + "}")
      + TemplateText(t[1..])
  }

  /** The arguments of `str.format(query=..., lat=..., lon=..., radius=...)`,
      already rendered as text. */
  datatype FormatArgs = FormatArgs(query: String, lat: String, lon: String, radius: String)

  function ArgFor(args: FormatArgs, f: Field): String {
    match f
    case QueryField => args.query
    case LatField => args.lat
    case LonField => args.lon
    case RadiusField => args.radius
  }

  /** `template.format(**args)`. */
  function Fill(t: Template, args: FormatArgs): String {
    if t == [] then []
    else
      (match t[0]
       case Lit(text) => text
       case Hole(f) => ArgFor(args, f))
      + Fill(t[1..], args)
  }

  /** Filling every placeholder with its own `{name}` gives the template text
      back: `Fill` substitutes placeholders and changes nothing else. */
  lemma {:induction false} FillWithNamesIsText(t: Template)
    ensures Fill(t, FormatArgs("{query}", "{lat}", "{lon}", "{radius}")) == TemplateText(t)
  {
    if t != [] {
      FillWithNamesIsText(t[1..]);
    }
  }

  // ---------------------------------------------------------------------------
  // BCBSTX
  // ---------------------------------------------------------------------------

  /** A configured provider network: dictionary key, display name, URL template. */
  datatype Network = Network(key: String, name: String, template: Template)

  const SearchPrefix: String := "https://my.providerfinderonline.com/search/name/"

  /** The shape both BCBSTX templates share: the name segment of the path, then
      a query string that carries `geo_location={lat},{lon}` and ends in
      `radius={radius}`. */
  function BcbstxTemplate(ci: String, networkId: String): Template {
    [ Lit(SearchPrefix), Hole(QueryField),
      Lit("?ci=" + ci + "&network_id=" + networkId + "&geo_location="), Hole(LatField),
      Lit(","), Hole(LonField),
      Lit("&locale=en&corp_code=TX&radius="), Hole(RadiusField) ]
  }

  /** `BCBSTX_SEARCH_URLS`, in dictionary order. */
  const BcbstxNetworks: seq<Network> := [
    Network("blue_advantage_hmo", "Blue Advantage HMO", BcbstxTemplate("tx-blueadvantage-retail", "1000128")),
    Network("my_blue_health", "My Blue Health", BcbstxTemplate("tx-myblue-health", "240000127"))
  ]

  /** One link of a generated set: the `{"name": ..., "url": ...}` value. */
  datatype Link = Link(name: String, url: String)

  /** A generated dictionary of links, as (key, link) pairs in insertion order. */
  type LinkSet = seq<(String, Link)>

  /** The link for one network: its template filled with the quoted name. */
  function NetworkLink(n: Network, name: String, lat: String, lon: String, radius: int): Link {
    Link(n.name, Fill(n.template, FormatArgs(Quote(name), lat, lon, IntToStr(radius))))
  }

  /** What `generate_bcbstx_urls` returns. */
  function BcbstxLinks(name: String, lat: String, lon: String, radius: int): (links: LinkSet)
    ensures |links| == |BcbstxNetworks|
  {
    seq(|BcbstxNetworks|, i requires 0 <= i < |BcbstxNetworks| =>
      (BcbstxNetworks[i].key, NetworkLink(BcbstxNetworks[i], name, lat, lon, radius)))
  }

  /** `generate_bcbstx_urls(name, lat, lon, radius)`: one entry per configured
      network, in order, keyed and named as configured. */
  method GenerateBcbstxUrls(name: String, lat: String, lon: String, radius: int) returns (urls: LinkSet)
    ensures urls == BcbstxLinks(name, lat, lon, radius)
    ensures |urls| == |BcbstxNetworks|
    ensures forall i | 0 <= i < |urls| :: urls[i].0 == BcbstxNetworks[i].key && urls[i].1.name == BcbstxNetworks[i].name
  {
    urls := [];
    var i := 0;
    while i < |BcbstxNetworks|
      invariant 0 <= i <= |BcbstxNetworks|
      invariant urls == BcbstxLinks(name, lat, lon, radius)[..i]
    {
      var config := BcbstxNetworks[i];
      urls := urls + [(config.key, NetworkLink(config, name, lat, lon, radius))];
      i := i + 1;
    }
  }

  /** Each BCBSTX URL is the search prefix, the quoted name, and the rest of the
      template with the coordinates and radius substituted verbatim. */
  lemma BcbstxUrlShape(i: nat, name: String, lat: String, lon: String, radius: int)
    requires i < |BcbstxNetworks|
    ensures BcbstxLinks(name, lat, lon, radius)[i].1.url
      == SearchPrefix + Quote(name) + Fill(BcbstxNetworks[i].template[2..], FormatArgs(Quote(name), lat, lon, IntToStr(radius)))
  {
    var t := BcbstxNetworks[i].template;
    var args := FormatArgs(Quote(name), lat, lon, IntToStr(radius));
    assert t[1..][1..] == t[2..];
    assert Fill(t, args) == SearchPrefix + Fill(t[1..], args);
    assert Fill(t[1..], args) == Quote(name) + Fill(t[2..], args);
  }

  /** The text that follows the name in a BCBSTX URL starts with `?`. */
  lemma BcbstxRestStartsQuery(i: nat, args: FormatArgs)
    requires i < |BcbstxNetworks|
    ensures Fill(BcbstxNetworks[i].template[2..], args) != []
    ensures Fill(BcbstxNetworks[i].template[2..], args)[0] == '?'
  {
    var t := BcbstxNetworks[i].template[2..];
    assert Fill(t, args) == t[0].text + Fill(t[1..], args);
  }

  /** Everything before the first occurrence of `c`. */
  function TakeUntil(s: String, c: char): (r: String)
    ensures |r| <= |s| && r == s[..|r|] && c !in r
  {
    if s == [] || s[0] == c then [] else [s[0]] + TakeUntil(s[1..], c)
  }

  lemma {:induction false} TakeUntilPrefix(p: String, rest: String, c: char)
    requires c !in p
    requires rest != [] && rest[0] == c
    ensures TakeUntil(p + rest, c) == p
  {
    if p == [] {
      assert p + rest == rest;
    } else {
      assert (p + rest)[1..] == p[1..] + rest;
      TakeUntilPrefix(p[1..], rest, c);
    }
  }

  /** The doctor's name as it can be read back from a URL: the path segment
      after the search prefix, up to the query string, percent-decoded. */
  function NameInUrl(url: String): seq<Byte> {
    if |url| >= |SearchPrefix| then PercentDecode(TakeUntil(url[|SearchPrefix|..], '?')) else []
  }

  /** A URL made of the search prefix, a segment without `?`, and a query
      string reads back as the decoded segment. */
  lemma NameInUrlOf(q: String, rest: String)
    requires '?' !in q
    requires rest != [] && rest[0] == '?'
    ensures NameInUrl(SearchPrefix + q + rest) == PercentDecode(q)
  {
    var url := SearchPrefix + q + rest;
    SuffixAfter(SearchPrefix, q + rest);
    assert url == SearchPrefix + (q + rest);
    TakeUntilPrefix(q, rest, '?');
  }

  lemma SuffixAfter(p: String, s: String)
    ensures (p + s)[|p|..] == s
  {
  }

  /** Reading the name back out of any BCBSTX link gives exactly the UTF-8
      bytes of the doctor's name: quoting loses nothing and the name cannot run
      into the query string. */
  lemma BcbstxNameRoundTrip(i: nat, name: String, lat: String, lon: String, radius: int)
    requires i < |BcbstxNetworks|
    ensures NameInUrl(BcbstxLinks(name, lat, lon, radius)[i].1.url) == Utf8String(name)
  {
    var args := FormatArgs(Quote(name), lat, lon, IntToStr(radius));
    BcbstxUrlShape(i, name, lat, lon, radius);
    BcbstxRestStartsQuery(i, args);
    QuoteHasNoDelimiters(name);
    NameInUrlOf(Quote(name), Fill(BcbstxNetworks[i].template[2..], args));
    DecodeQuote(name);
  }

  /** The configured keys are distinct, as dictionary keys are. */
  lemma BcbstxKeysDistinct()
    ensures forall i, j | 0 <= i < j < |BcbstxNetworks| :: BcbstxNetworks[i].key != BcbstxNetworks[j].key
  {
  }
}
