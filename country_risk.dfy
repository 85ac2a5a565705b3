/** The two queries over the market table: `list_countries` and the lookup-and-label part of
    `analyze_country`. The table is the one loaded at start-up, already clustered; the cost
    saving regressor and its currency formatting are an input function. */
module CountryRisk {
  import opened Collections
  import opened Http

  /** A K-means cluster id; the model is fitted with three clusters. */
  type ClusterId = x: int | 0 <= x < 3

  /** The regressor's input columns of a row. */
  datatype Features = Features(exportIncentives: real, dutyDrawback: real, tradeAgreements: real,
                               marketRiskScore: real)

  /** One row of the market table. */
  datatype CountryRow = CountryRow(country: string, features: Features, riskCluster: ClusterId)

  /** The reply of `/analyze`. */
  datatype RiskResponse = RiskResponse(country: string, riskCluster: string, predictedCostSavings: string)

  /** The `Country` column. */
  function Countries(table: seq<CountryRow>): (c: seq<string>)
    ensures |c| == |table|
    ensures forall i :: 0 <= i < |table| ==> c[i] == table[i].country
  {
    seq(|table|, i requires 0 <= i < |table| => table[i].country)
  }

  /** `data['Country'].unique().tolist()`: no country twice, no more entries than rows, and a
      name is listed exactly when some row carries it. */
  function ListCountries(table: seq<CountryRow>): (r: seq<string>)
    ensures NoDuplicates(r) && |r| <= |table|
    ensures forall c :: c in r <==> HasRow(table, c)
  {
    var col := Countries(table);
    var r := Distinct(col);
    assert forall c :: c in r <==> HasRow(table, c) by {
      forall c
        ensures c in r <==> HasRow(table, c)
      {
        if c in r {
          var k :| 0 <= k < |r| && r[k] == c;
          assert r[k] in col;
          var i :| 0 <= i < |col| && col[i] == c;
          assert table[i].country == c;
        }
        if HasRow(table, c) {
          var i :| 0 <= i < |table| && table[i].country == c;
          assert col[i] == c;
        }
      }
    }
    r
  }

  /** Every country of the table is listed exactly once, nothing else is listed, and the order
      is the order of first appearance. */
  lemma ListCountriesFaithful(table: seq<CountryRow>)
    ensures NoDuplicates(ListCountries(table))
    ensures forall c :: c in ListCountries(table) <==> exists i :: 0 <= i < |table| && table[i].country == c
    ensures forall i, j :: 0 <= i < j < |ListCountries(table)| ==>
      FirstIndex(Countries(table), ListCountries(table)[i]) < FirstIndex(Countries(table), ListCountries(table)[j])
  {
    var col := Countries(table);
    DistinctInOrder(col);
    forall c
      ensures c in ListCountries(table) <==> exists i :: 0 <= i < |table| && table[i].country == c
    {
      if c in ListCountries(table) {
        var k := FirstIndex(col, c);
        assert table[k].country == c;
      }
      if exists i :: 0 <= i < |table| && table[i].country == c {
        var i :| 0 <= i < |table| && table[i].country == c;
        assert col[i] == c;
      }
    }
  }

  predicate HasRow(table: seq<CountryRow>, country: string) {
    exists i :: 0 <= i < |table| && table[i].country == country
  }

  /** The position of the first row whose country is exactly `country`. */
  function FirstMatch(table: seq<CountryRow>, country: string): (k: nat)
    requires HasRow(table, country)
    ensures k < |table| && table[k].country == country
    ensures forall j :: 0 <= j < k ==> table[j].country != country
  {
    if table[0].country == country then 0
    else
      var i :| 0 <= i < |table| && table[i].country == country;
      assert table[1..][i - 1] == table[i];
      1 + FirstMatch(table[1..], country)
  }

  /** The label table of `analyze_country`. */
  function RiskLabel(id: ClusterId): string {
    match id
    case 0 => "Low Risk"
    case 1 => "Medium Risk"
    case 2 => "High Risk"
  }

  /** `f"Cluster {risk_cluster} ({risk_cluster_label})"`. */
  function ClusterText(id: ClusterId): string {
    "Cluster " + Decimal(id) + " (" + RiskLabel(id) + ")"
  }

  /** The three texts a reply can carry. */
  lemma ClusterTexts()
    ensures ClusterText(0) == "Cluster 0 (Low Risk)"
    ensures ClusterText(1) == "Cluster 1 (Medium Risk)"
    ensures ClusterText(2) == "Cluster 2 (High Risk)"
  {
    assert Decimal(0) == "0" && Decimal(1) == "1" && Decimal(2) == "2";
  }

  /** Different clusters are reported with different texts. */
  lemma ClusterTextInjective()
    ensures forall a: ClusterId, b: ClusterId :: ClusterText(a) == ClusterText(b) ==> a == b
  {
    forall a: ClusterId, b: ClusterId | ClusterText(a) == ClusterText(b)
      ensures a == b
    {
      assert ClusterText(a)[8] == DigitChar(a);
      assert ClusterText(b)[8] == DigitChar(b);
    }
  }

  /** `analyze_country`: a 404 when no row has exactly this country, otherwise the first
      matching row's cluster and the forecast for that row's features. */
  function AnalyzeCountry(table: seq<CountryRow>, country: string, forecast: Features -> string): (r: Result<RiskResponse>)
    ensures r.Err? ==> r.error.status == 404
    ensures r.Ok? ==> r.value.country == country
    ensures r.Ok? ==>
      r.value.riskCluster in {"Cluster 0 (Low Risk)", "Cluster 1 (Medium Risk)", "Cluster 2 (High Risk)"}
  {
    if !HasRow(table, country) then Err(HttpError(404, "No data available for " + country))
    else
      var row := table[FirstMatch(table, country)];
      ClusterTexts();
      Ok(RiskResponse(country, ClusterText(row.riskCluster), forecast(row.features)))
  }

  /** The lookup fails exactly when no row matches, with status 404 and the country in the
      detail; otherwise the reply echoes the country and carries the cluster of the first
      matching row. */
  lemma AnalyzeCountryOutcome(table: seq<CountryRow>, country: string, forecast: Features -> string)
    ensures AnalyzeCountry(table, country, forecast).Err? <==>
      forall i :: 0 <= i < |table| ==> table[i].country != country
    ensures AnalyzeCountry(table, country, forecast).Err? ==>
      AnalyzeCountry(table, country, forecast).error == HttpError(404, "No data available for " + country)
    ensures AnalyzeCountry(table, country, forecast).Ok? ==>
      exists k :: 0 <= k < |table| && table[k].country == country
        && (forall j :: 0 <= j < k ==> table[j].country != country)
        && AnalyzeCountry(table, country, forecast).value ==
           RiskResponse(country, ClusterText(table[k].riskCluster), forecast(table[k].features))
  {
    if HasRow(table, country) {
      var k := FirstMatch(table, country);
      assert table[k].country == country;
    }
  }

  /** Rows after the first match do not change the reply. */
  lemma AnalyzeCountryFirstRowWins(table: seq<CountryRow>, more: seq<CountryRow>, country: string,
                                   forecast: Features -> string)
    requires HasRow(table, country)
    ensures AnalyzeCountry(table + more, country, forecast) == AnalyzeCountry(table, country, forecast)
  {
    var k := FirstMatch(table, country);
    assert (table + more)[k] == table[k];
    assert HasRow(table + more, country);
    var k2 := FirstMatch(table + more, country);
    assert forall j :: 0 <= j < k ==> (table + more)[j] == table[j];
    assert k2 == k;
  }

  /** The country is matched exactly: rows of other countries do not change the reply. */
  lemma {:induction false} AnalyzeCountryIgnoresOthers(row: CountryRow, table: seq<CountryRow>, country: string,
                                    forecast: Features -> string)
    requires row.country != country
    ensures AnalyzeCountry([row] + table, country, forecast) == AnalyzeCountry(table, country, forecast)
  {
    var t := [row] + table;
    assert t[1..] == table;
    if HasRow(table, country) {
      var i := FirstMatch(table, country);
      assert t[i + 1] == table[i];
      assert HasRow(t, country);
      assert FirstMatch(t, country) == 1 + FirstMatch(table, country);
    } else {
      assert !HasRow(t, country) by {
        forall i | 0 <= i < |t|
          ensures t[i].country != country
        {
          if i > 0 {
            assert t[i] == table[i - 1];
          }
        }
      }
    }
  }
}
