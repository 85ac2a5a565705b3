/** `extract_actionable_insights`: the named entities of a text whose label is one of the five
    actionable kinds, as (text, label) pairs. The entity recogniser is an input. */
module Insights {

  /** A recognised entity: its text and its label (spaCy's `label_`). */
  datatype Span = Span(text: string, tag: string)

  /** Organisations, countries and cities, amounts of money, laws and dates. */
  const ActionableLabels: set<string> := {"ORG", "GPE", "MONEY", "LAW", "DATE"}

  predicate Actionable(e: Span) {
    e.tag in ActionableLabels
  }

  /** The (text, label) pairs of the actionable entities, in order, keeping repeats. */
  function Selected(ents: seq<Span>): (r: seq<(string, string)>)
    ensures |r| <= |ents|
  {
    if ents == [] then []
    else
      var e := ents[|ents| - 1];
      Selected(ents[..|ents| - 1]) + (if Actionable(e) then [(e.text, e.tag)] else [])
  }

  /** The loop of `extract_actionable_insights`, appending one pair per actionable entity. */
  method ExtractActionableInsights(ents: seq<Span>) returns (insights: seq<(string, string)>)
    ensures insights == Selected(ents)
  {
    insights := [];
    for i := 0 to |ents|
      invariant insights == Selected(ents[..i])
    {
      var e := ents[i];
      assert ents[..i + 1][..i] == ents[..i];
      if e.tag in ActionableLabels {
        insights := insights + [(e.text, e.tag)];
      }
    }
    assert ents[..|ents|] == ents;
  }

  /** The positions of the actionable entities, in increasing order. */
  function Chosen(ents: seq<Span>): (idx: seq<nat>)
    ensures forall k :: 0 <= k < |idx| ==> idx[k] < |ents| && Actionable(ents[idx[k]])
    ensures forall k, l :: 0 <= k < l < |idx| ==> idx[k] < idx[l]
    ensures forall i :: 0 <= i < |ents| && Actionable(ents[i]) ==> i in idx
  {
    if ents == [] then []
    else
      var n := |ents| - 1;
      var p := Chosen(ents[..n]);
      assert forall i :: 0 <= i < n ==> ents[..n][i] == ents[i];
      p + (if Actionable(ents[n]) then [n] else [])
  }

  /** The reply holds exactly the actionable entities, in document order and with repeats:
      its `k`-th pair is the text and label of the `k`-th actionable entity. */
  lemma {:induction false} SelectedAreChosen(ents: seq<Span>)
    ensures |Selected(ents)| == |Chosen(ents)|
    ensures forall k :: 0 <= k < |Chosen(ents)| ==>
      Selected(ents)[k] == (ents[Chosen(ents)[k]].text, ents[Chosen(ents)[k]].tag)
  {
    if ents != [] {
      var n := |ents| - 1;
      var p := ents[..n];
      SelectedAreChosen(p);
      assert forall i :: 0 <= i < n ==> p[i] == ents[i];
    }
  }

  /** An entity is reported exactly when its label is actionable. */
  lemma SelectedIff(ents: seq<Span>, e: Span)
    ensures (e.text, e.tag) in Selected(ents) <==>
      exists i :: 0 <= i < |ents| && Actionable(ents[i]) && ents[i].text == e.text && ents[i].tag == e.tag
  {
    SelectedAreChosen(ents);
    var idx := Chosen(ents);
    var r := Selected(ents);
    if (e.text, e.tag) in r {
      var k :| 0 <= k < |r| && r[k] == (e.text, e.tag);
      assert ents[idx[k]].text == e.text;
    }
    if exists i :: 0 <= i < |ents| && Actionable(ents[i]) && ents[i].text == e.text && ents[i].tag == e.tag {
      var i :| 0 <= i < |ents| && Actionable(ents[i]) && ents[i].text == e.text && ents[i].tag == e.tag;
      var k :| 0 <= k < |idx| && idx[k] == i;
      assert r[k] == (e.text, e.tag);
    }
  }
}
