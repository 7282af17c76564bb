/** The static catalogue of Check-Host vantage points and the display label
    the normalizer files each node's result under. */
module NodeTable {

  /** What the client knows about one vantage point. */
  datatype NodeInfo = NodeInfo(country: string, city: string, continent: string)

  /** The table as shipped with the client: node id to location. Several ids
      share a label (ru1 and ru2 are both in Moscow). */
  const NodeDetails: map<string, NodeInfo> :=
    map[
      "bg1.node.check-host.net" := NodeInfo("Bulgaria", "Sofia", "EU"),
      "br1.node.check-host.net" := NodeInfo("Brazil", "Sao Paulo", "SA"),
      "ch1.node.check-host.net" := NodeInfo("Switzerland", "Zurich", "EU"),
      "cz1.node.check-host.net" := NodeInfo("Czechia", "C.Budejovice", "EU"),
      "de1.node.check-host.net" := NodeInfo("Germany", "Nuremberg", "EU"),
      "de4.node.check-host.net" := NodeInfo("Germany", "Frankfurt", "EU"),
      "es1.node.check-host.net" := NodeInfo("Spain", "Barcelona", "EU"),
      "fi1.node.check-host.net" := NodeInfo("Finland", "Helsinki", "EU"),
      "fr1.node.check-host.net" := NodeInfo("France", "Roubaix", "EU"),
      "fr2.node.check-host.net" := NodeInfo("France", "Paris", "EU"),
      "hk1.node.check-host.net" := NodeInfo("Hong Kong", "Hong Kong", "AS"),
      "hu1.node.check-host.net" := NodeInfo("Hungary", "Nyiregyhaza", "EU"),
      "il1.node.check-host.net" := NodeInfo("Israel", "Tel Aviv", "AS"),
      "il2.node.check-host.net" := NodeInfo("Israel", "Netanya", "AS"),
      "in1.node.check-host.net" := NodeInfo("India", "Mumbai", "AS"),
      "in2.node.check-host.net" := NodeInfo("India", "Chennai", "AS"),
      "ir1.node.check-host.net" := NodeInfo("Iran", "Tehran", "AS"),
      "ir3.node.check-host.net" := NodeInfo("Iran", "Mashhad", "AS"),
      "ir5.node.check-host.net" := NodeInfo("Iran", "Esfahan", "AS"),
      "ir6.node.check-host.net" := NodeInfo("Iran", "Karaj", "AS"),
      "it2.node.check-host.net" := NodeInfo("Italy", "Milan", "EU"),
      "jp1.node.check-host.net" := NodeInfo("Japan", "Tokyo", "AS"),
      "kz1.node.check-host.net" := NodeInfo("Kazakhstan", "Karaganda", "AS"),
      "lt1.node.check-host.net" := NodeInfo("Lithuania", "Vilnius", "EU"),
      "md1.node.check-host.net" := NodeInfo("Moldova", "Chisinau", "EU"),
      "nl1.node.check-host.net" := NodeInfo("Netherlands", "Amsterdam", "EU"),
      "nl2.node.check-host.net" := NodeInfo("Netherlands", "Meppel", "EU"),
      "pl1.node.check-host.net" := NodeInfo("Poland", "Poznan", "EU"),
      "pl2.node.check-host.net" := NodeInfo("Poland", "Warsaw", "EU"),
      "pt1.node.check-host.net" := NodeInfo("Portugal", "Viana", "EU"),
      "rs1.node.check-host.net" := NodeInfo("Serbia", "Belgrade", "EU"),
      "ru1.node.check-host.net" := NodeInfo("Russia", "Moscow", "EU-EAST"),
      "ru2.node.check-host.net" := NodeInfo("Russia", "Moscow", "EU-EAST"),
      "ru3.node.check-host.net" := NodeInfo("Russia", "Saint Petersburg", "EU-EAST"),
      "ru4.node.check-host.net" := NodeInfo("Russia", "Ekaterinburg", "EU-EAST"),
      "se1.node.check-host.net" := NodeInfo("Sweden", "Tallberg", "EU"),
      "tr1.node.check-host.net" := NodeInfo("Turkey", "Istanbul", "AS"),
      "tr2.node.check-host.net" := NodeInfo("Turkey", "Gebze", "AS"),
      "ua1.node.check-host.net" := NodeInfo("Ukraine", "Khmelnytskyi", "EU-EAST"),
      "ua2.node.check-host.net" := NodeInfo("Ukraine", "Kyiv", "EU-EAST"),
      "ua3.node.check-host.net" := NodeInfo("Ukraine", "SpaceX Starlink", "EU-EAST"),
      "uk1.node.check-host.net" := NodeInfo("UK", "Coventry", "EU"),
      "us1.node.check-host.net" := NodeInfo("USA", "Los Angeles", "NA"),
      "us2.node.check-host.net" := NodeInfo("USA", "Dallas", "NA"),
      "us3.node.check-host.net" := NodeInfo("USA", "Atlanta", "NA"),
      "vn1.node.check-host.net" := NodeInfo("Vietnam", "Ho Chi Minh City", "AS")
    ]

  /** The label `"country (city)"` under which a node's record is stored. */
  function Label(info: NodeInfo): (l: string)
    ensures |l| == |info.country| + |info.city| + 3
    ensures l[..|info.country|] == info.country && l[|l| - 1] == ')'
  {
    info.country + " (" + info.city + ")"
  }

  /** The label reads back as its parts: the country, then " (", then the
      city, then ")". */
  lemma LabelFormat(info: NodeInfo)
    ensures var l := Label(info); var c := |info.country|;
      && l[..c] == info.country
      && l[c..c + 2] == " ("
      && l[c + 2..|l| - 1] == info.city
      && l[|l| - 1..] == ")"
  {
  }
}
