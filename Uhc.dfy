/**
 * The fixed UHC provider-search links of app.py (`generate_uhc_urls`):
 * pre-built URLs without per-query parameters. The command line has none.
 */
module Uhc {
  import opened PyStr
  import opened Links

  /** The UHC plans with a pre-built search. */
  datatype Plan = IndividualExchange | KelseySeybold | SanitasAnchor

  /** The pre-built search URL of each plan. */
  function PlanUrl(p: Plan): String {
    match p
    case IndividualExchange =>
      "https://connect.werally.com/guest/eyJwbGFuTmFtZSI6IlRYIEluZGl2aWR1YWwgRXhjaGFuZ2UgQmVuZWZpdCBQbGFuIiwiZGVsc3lzIjoiOTA4IiwiY292ZXJhZ2VUeXBlIjoibWVkaWNhbCIsInBhcnRuZXJJZCI6InVoYyIsImxhbmd1YWdlIjoiZW4iLCJzaG93Q29zdHMiOnRydWUsImZpcHNDb2RlIjoiNDgifQMQFY_1U6GK3dWzJO0xysxZD0H-Ei_AJ0Wm_n0zlgcUI?planYear=2026"
    case KelseySeybold =>
      "https://connect.werally.com/guest/eyJwbGFuTmFtZSI6IlRYIEtlbHNleS1TZXlib2xkIEluZGl2aWR1YWwgRXhjaGFuZ2UgQmVuZWZpdCBQbGFuIiwiZGVsc3lzIjoiOTMzIiwiY292ZXJhZ2VUeXBlIjoibWVkaWNhbCIsInBhcnRuZXJJZCI6InVoYyIsImxhbmd1YWdlIjoiZW4iLCJzaG93Q29zdHMiOnRydWUsImZpcHNDb2RlIjoiNDgifQXmvT5Dh8azZlM00ptmfLp0BrlP0yAn-7TQUdErUzIbs?planYear=2026"
    case SanitasAnchor =>
      "https://connect.werally.com/guest/eyJwbGFuTmFtZSI6IlRYIFNhbml0YXMgQW5jaG9yIEluZGl2aWR1YWwgRXhjaGFuZ2UgQmVuZWZpdCIsImRlbHN5cyI6Ijk0NiIsImNvdmVyYWdlVHlwZSI6Im1lZGljYWwiLCJwYXJ0bmVySWQiOiJ1aGMuZXhjaGFuZ2UiLCJsYW5ndWFnZSI6ImVuIiwic2hvd0Nvc3RzIjp0cnVlLCJmaXBzQ29kZSI6IjQ4In0B_6Q323L9wHzkAf22cjU43lZYKLoyfNzTYw8nrMBL04?planYear=2026"
  }

  /** A UHC network: dictionary key, display name and plan. */
  datatype StaticNetwork = StaticNetwork(key: String, name: String, plan: Plan)

  /** `UHC_SEARCH_URLS`, in dictionary order. */
  const UhcNetworks: seq<StaticNetwork> := [
    StaticNetwork("tx_individual_exchange", "UHC TX Individual Exchange", IndividualExchange),
    StaticNetwork("tx_kelsey_seybold", "UHC TX Kelsey-Seybold", KelseySeybold),
    StaticNetwork("tx_sanitas_anchor", "UHC TX Sanitas Anchor", SanitasAnchor)
  ]

  /** The link of one UHC network: its display name and its URL, unchanged. */
  function StaticLink(n: StaticNetwork): (String, Link) {
    (n.key, Link(n.name, PlanUrl(n.plan)))
  }

  /** What `generate_uhc_urls()` returns: one link per configured network,
      keyed and ordered as the configuration. */
  function UhcLinks(): (links: LinkSet)
    ensures |links| == |UhcNetworks|
  {
    seq(|UhcNetworks|, i requires 0 <= i < |UhcNetworks| => StaticLink(UhcNetworks[i]))
  }

  /** `generate_uhc_urls()`: every configured UHC link, verbatim and in order. */
  method GenerateUhcUrls() returns (urls: LinkSet)
    ensures urls == UhcLinks()
    ensures forall i | 0 <= i < |urls| ::
      urls[i].0 == UhcNetworks[i].key && urls[i].1 == Link(UhcNetworks[i].name, PlanUrl(UhcNetworks[i].plan))
  {
    urls := [];
    var i := 0;
    while i < |UhcNetworks|
      invariant 0 <= i <= |UhcNetworks|
      invariant urls == UhcLinks()[..i]
    {
      var config := UhcNetworks[i];
      PrefixExtend(UhcLinks(), i);
      urls := urls + [StaticLink(config)];
      i := i + 1;
    }
  }

  /** One more element of a sequence's prefix. */
  lemma PrefixExtend<T>(s: seq<T>, i: nat)
    requires i < |s|
    ensures s[..i + 1] == s[..i] + [s[i]]
  {
  }

  /** The configured keys are distinct, as dictionary keys are. */
  lemma UhcKeysDistinct()
    ensures forall i, j | 0 <= i < j < |UhcNetworks| :: UhcNetworks[i].key != UhcNetworks[j].key
  {
  }
}
