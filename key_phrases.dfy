/** `extract_key_phrases`: keep the noun and verb tokens that are not stopwords, count them, and
    return the `top_n` most common as (word, count) pairs, the way `Counter.most_common` orders
    them. The part-of-speech tagger and the stopword list are inputs. */
module KeyPhrases {
  import opened Collections
  import opened TextAnalysis

  /** A tagged token: its text and its coarse part of speech. */
  datatype Token = Token(text: string, pos: string)

  predicate IsNounOrVerb(t: Token) {
    t.pos == "NOUN" || t.pos == "VERB"
  }

  /** The texts of the noun and verb tokens, in document order. */
  function NounsAndVerbs(tokens: seq<Token>): (r: seq<string>)
    ensures |r| <= |tokens|
  {
    if tokens == [] then []
    else (if IsNounOrVerb(tokens[0]) then [tokens[0].text] else []) + NounsAndVerbs(tokens[1..])
  }

  /** The words that are not in the stopword set, in order. */
  function WithoutStopwords(words: seq<string>, stop: set<string>): (r: seq<string>)
    ensures |r| <= |words|
  {
    if words == [] then []
    else (if words[0] in stop then [] else [words[0]]) + WithoutStopwords(words[1..], stop)
  }

  /** The words `extract_key_phrases` counts. */
  function KeptWords(tokens: seq<Token>, stop: set<string>): seq<string> {
    WithoutStopwords(NounsAndVerbs(tokens), stop)
  }

  /** The number of times `w` occurs in `words` (a `Counter` entry). */
  function Count(words: seq<string>, w: string): nat {
    multiset(words)[w]
  }

  /** The order of `most_common`: a higher count first, and between equal counts the word that
      occurred first. */
  predicate Ahead(words: seq<string>, a: string, b: string)
    requires a in words && b in words
  {
    Count(words, a) > Count(words, b)
    || (Count(words, a) == Count(words, b) && FirstIndex(words, a) < FirstIndex(words, b))
  }

  /** `s` lists words of `words` strictly in the `most_common` order. */
  predicate Ranked(words: seq<string>, s: seq<string>) {
    (forall i :: 0 <= i < |s| ==> s[i] in words)
    && forall i, j :: 0 <= i < j < |s| ==> s[i] in words && s[j] in words && Ahead(words, s[i], s[j])
  }

  /** Inserts `x` before the first element whose count is not larger (a stable insertion). */
  function InsertByCount(words: seq<string>, x: string, s: seq<string>): (r: seq<string>)
    ensures multiset(r) == multiset(s) + multiset{x}
  {
    if s == [] || Count(words, x) >= Count(words, s[0]) then [x] + s
    else
      assert s == [s[0]] + s[1..];
      [s[0]] + InsertByCount(words, x, s[1..])
  }

  /** A stable sort of `ks` by descending count. */
  function SortByCount(words: seq<string>, ks: seq<string>): (r: seq<string>)
    ensures multiset(r) == multiset(ks)
  {
    if ks == [] then []
    else
      assert ks == [ks[0]] + ks[1..];
      InsertByCount(words, ks[0], SortByCount(words, ks[1..]))
  }

  lemma RankedTail(words: seq<string>, s: seq<string>)
    requires s != [] && Ranked(words, s)
    ensures Ranked(words, s[1..])
  {
    forall i, j | 0 <= i < j < |s[1..]|
      ensures s[1..][i] in words && s[1..][j] in words && Ahead(words, s[1..][i], s[1..][j])
    {
      assert s[1..][i] == s[i + 1] && s[1..][j] == s[j + 1];
    }
  }

  /** A word ahead of every word of a ranked list can be put in front of it. */
  lemma RankedCons(words: seq<string>, y: string, t: seq<string>)
    requires y in words && Ranked(words, t)
    requires forall k :: 0 <= k < |t| ==> t[k] in words && Ahead(words, y, t[k])
    ensures Ranked(words, [y] + t)
  {
    var r := [y] + t;
    forall i, j | 0 <= i < j < |r|
      ensures r[i] in words && r[j] in words && Ahead(words, r[i], r[j])
    {
      assert r[j] == t[j - 1];
      if i > 0 {
        assert r[i] == t[i - 1];
      }
    }
  }

  /** Inserting a word that occurred before every word of a ranked list keeps it ranked. */
  lemma {:induction false} InsertRanked(words: seq<string>, x: string, s: seq<string>)
    requires x in words && Ranked(words, s)
    requires forall i :: 0 <= i < |s| ==> FirstIndex(words, x) < FirstIndex(words, s[i])
    ensures Ranked(words, InsertByCount(words, x, s))
  {
    if s == [] || Count(words, x) >= Count(words, s[0]) {
      forall k | 0 <= k < |s|
        ensures s[k] in words && Ahead(words, x, s[k])
      {
        if k > 0 {
          assert Ahead(words, s[0], s[k]);
        }
      }
      RankedCons(words, x, s);
    } else {
      var t := InsertByCount(words, x, s[1..]);
      RankedTail(words, s);
      InsertRanked(words, x, s[1..]);
      forall k | 0 <= k < |t|
        ensures t[k] in words && Ahead(words, s[0], t[k])
      {
        assert t[k] in multiset(t);
        if t[k] != x {
          assert t[k] in multiset(s[1..]);
          var m :| 0 <= m < |s[1..]| && s[1..][m] == t[k];
          assert Ahead(words, s[0], s[m + 1]);
        }
      }
      RankedCons(words, s[0], t);
    }
  }

  /** Sorting a list of distinct words given in first-occurrence order yields the
      `most_common` order. */
  lemma {:induction false} SortRanked(words: seq<string>, ks: seq<string>)
    requires forall i :: 0 <= i < |ks| ==> ks[i] in words
    requires forall i, j :: 0 <= i < j < |ks| ==> FirstIndex(words, ks[i]) < FirstIndex(words, ks[j])
    ensures Ranked(words, SortByCount(words, ks))
  {
    if ks != [] {
      var rest := ks[1..];
      assert forall i :: 0 <= i < |rest| ==> rest[i] == ks[i + 1];
      SortRanked(words, rest);
      var s := SortByCount(words, rest);
      forall i | 0 <= i < |s|
        ensures FirstIndex(words, ks[0]) < FirstIndex(words, s[i])
      {
        assert s[i] in multiset(s);
        assert s[i] in multiset(rest);
        var m :| 0 <= m < |rest| && rest[m] == s[i];
        assert ks[m + 1] == s[i];
      }
      InsertRanked(words, ks[0], s);
    }
  }

  /** The distinct words of `words` in the `most_common` order. */
  function RankedWords(words: seq<string>): seq<string> {
    SortByCount(words, Distinct(words))
  }

  /** `Counter(words).most_common(n)`: the `n` highest-ranked (word, count) pairs; none when
      `n` is not positive, all of them when `n` exceeds the number of distinct words. */
  function MostCommon(words: seq<string>, n: int): (r: seq<(string, nat)>)
    ensures |r| <= (if n <= 0 then 0 else n)
    ensures forall i :: 0 <= i < |r| ==> r[i].0 in words && r[i].1 == Count(words, r[i].0) > 0
  {
    RankedWordsFacts(words);
    var order := RankedWords(words);
    var m := if n <= 0 then 0 else if n < |order| then n else |order|;
    seq(m, i requires 0 <= i < m => (order[i], Count(words, order[i])))
  }

  lemma RankedWordsFacts(words: seq<string>)
    ensures Ranked(words, RankedWords(words))
    ensures |RankedWords(words)| == |Distinct(words)|
    ensures forall w :: w in words <==> w in RankedWords(words)
  {
    var d := Distinct(words);
    DistinctInOrder(words);
    SortRanked(words, d);
    var r := RankedWords(words);
    assert multiset(r) == multiset(d);
    assert |r| == |multiset(r)| == |multiset(d)| == |d|;
    forall w
      ensures w in words <==> w in r
    {
      assert w in r <==> w in multiset(r);
      assert w in d <==> w in multiset(d);
      if w in words {
        var k := FirstIndex(words, w);
        assert words[k] in d;
      }
      if w in d {
        var k :| 0 <= k < |d| && d[k] == w;
        assert d[k] in words;
      }
    }
  }

  /** `most_common` returns at most `n` pairs, one per distinct word; none when `n` is not
      positive. */
  lemma MostCommonSize(words: seq<string>, n: int)
    ensures |MostCommon(words, n)| ==
      (if n <= 0 then 0 else if n < |Distinct(words)| then n else |Distinct(words)|)
  {
    RankedWordsFacts(words);
  }

  /** Each pair holds a word of the input, with its number of occurrences, and no word is
      reported twice. */
  lemma MostCommonCounts(words: seq<string>, n: int)
    ensures forall i :: 0 <= i < |MostCommon(words, n)| ==>
      MostCommon(words, n)[i].0 in words
      && MostCommon(words, n)[i].1 == Count(words, MostCommon(words, n)[i].0) > 0
    ensures forall i, j :: 0 <= i < j < |MostCommon(words, n)| ==>
      MostCommon(words, n)[i].0 != MostCommon(words, n)[j].0
  {
    RankedWordsFacts(words);
    var order := RankedWords(words);
    var r := MostCommon(words, n);
    forall i | 0 <= i < |r|
      ensures r[i].0 == order[i] && r[i].0 in words
    {
    }
    forall i, j | 0 <= i < j < |r|
      ensures r[i].0 != r[j].0
    {
      assert Ahead(words, order[i], order[j]);
    }
  }

  /** The pairs come in descending count and, between equal counts, in order of first
      occurrence. */
  lemma MostCommonOrder(words: seq<string>, n: int)
    ensures forall i, j :: 0 <= i < j < |MostCommon(words, n)| ==>
      MostCommon(words, n)[i].0 in words && MostCommon(words, n)[j].0 in words
      && MostCommon(words, n)[i].1 >= MostCommon(words, n)[j].1
      && (MostCommon(words, n)[i].1 == MostCommon(words, n)[j].1 ==>
            FirstIndex(words, MostCommon(words, n)[i].0) < FirstIndex(words, MostCommon(words, n)[j].0))
  {
    RankedWordsFacts(words);
    var order := RankedWords(words);
    var r := MostCommon(words, n);
    forall i, j | 0 <= i < j < |r|
      ensures r[i].0 in words && r[j].0 in words && r[i].1 >= r[j].1
      ensures r[i].1 == r[j].1 ==> FirstIndex(words, r[i].0) < FirstIndex(words, r[j].0)
    {
      assert r[i].0 == order[i] && r[j].0 == order[j];
      assert Ahead(words, order[i], order[j]);
    }
  }

  /** A word missing from the reply is never ahead of the words in it, and it can only be
      missing when the reply already holds `n` pairs. */
  lemma MostCommonComplete(words: seq<string>, n: int, w: string)
    requires w in words
    requires forall i :: 0 <= i < |MostCommon(words, n)| ==> MostCommon(words, n)[i].0 != w
    ensures |MostCommon(words, n)| == (if n <= 0 then 0 else n)
    ensures forall i :: 0 <= i < |MostCommon(words, n)| ==>
      MostCommon(words, n)[i].0 in words && Ahead(words, MostCommon(words, n)[i].0, w)
  {
    RankedWordsFacts(words);
    var order := RankedWords(words);
    var r := MostCommon(words, n);
    var k :| 0 <= k < |order| && order[k] == w;
    assert forall i :: 0 <= i < |r| ==> order[i] != w by {
      forall i | 0 <= i < |r|
        ensures order[i] != w
      {
        assert r[i].0 == order[i];
      }
    }
    forall i | 0 <= i < |r|
      ensures r[i].0 in words && Ahead(words, r[i].0, w)
    {
      assert r[i].0 == order[i];
    }
  }

  /** `extract_key_phrases` on an already tagged text. */
  function ExtractKeyPhrases(tokens: seq<Token>, stop: set<string>, topN: int): (r: seq<(string, nat)>)
    ensures |r| <= (if topN <= 0 then 0 else topN)
    ensures forall i :: 0 <= i < |r| ==>
      r[i].0 in KeptWords(tokens, stop) && r[i].1 == Count(KeptWords(tokens, stop), r[i].0) > 0
  {
    MostCommon(KeptWords(tokens, stop), topN)
  }

  /** Every kept word is the text of a noun or verb token and is not a stopword; a noun or verb
      token whose text is not a stopword is kept. */
  lemma {:induction false} KeptWordsIff(tokens: seq<Token>, stop: set<string>, w: string)
    ensures w in KeptWords(tokens, stop) <==>
      w !in stop && exists i :: 0 <= i < |tokens| && IsNounOrVerb(tokens[i]) && tokens[i].text == w
  {
    NounsAndVerbsIff(tokens, w);
    WithoutStopwordsIff(NounsAndVerbs(tokens), stop, w);
  }

  lemma {:induction false} NounsAndVerbsIff(tokens: seq<Token>, w: string)
    ensures w in NounsAndVerbs(tokens) <==>
      exists i :: 0 <= i < |tokens| && IsNounOrVerb(tokens[i]) && tokens[i].text == w
  {
    if tokens != [] {
      NounsAndVerbsIff(tokens[1..], w);
      if exists i :: 0 <= i < |tokens| && IsNounOrVerb(tokens[i]) && tokens[i].text == w {
        var i :| 0 <= i < |tokens| && IsNounOrVerb(tokens[i]) && tokens[i].text == w;
        if i > 0 {
          assert tokens[1..][i - 1] == tokens[i];
        }
      }
      if w in NounsAndVerbs(tokens[1..]) {
        var i :| 0 <= i < |tokens[1..]| && IsNounOrVerb(tokens[1..][i]) && tokens[1..][i].text == w;
        assert tokens[i + 1] == tokens[1..][i];
      }
    }
  }

  lemma {:induction false} WithoutStopwordsIff(words: seq<string>, stop: set<string>, w: string)
    ensures w in WithoutStopwords(words, stop) <==> w in words && w !in stop
  {
    if words != [] {
      WithoutStopwordsIff(words[1..], stop, w);
      assert words == [words[0]] + words[1..];
    }
  }

  /** Each reported count is the number of occurrences among the kept words, and no reported
      word is a stopword or anything but a noun or verb. */
  lemma KeyPhrasesFiltered(tokens: seq<Token>, stop: set<string>, topN: int)
    ensures var r := ExtractKeyPhrases(tokens, stop, topN);
      forall i :: 0 <= i < |r| ==>
        && r[i].0 !in stop
        && r[i].1 == Count(KeptWords(tokens, stop), r[i].0)
        && exists k :: 0 <= k < |tokens| && IsNounOrVerb(tokens[k]) && tokens[k].text == r[i].0
  {
    var words := KeptWords(tokens, stop);
    var r := ExtractKeyPhrases(tokens, stop, topN);
    MostCommonCounts(words, topN);
    forall i | 0 <= i < |r|
      ensures r[i].0 !in stop
      ensures exists k :: 0 <= k < |tokens| && IsNounOrVerb(tokens[k]) && tokens[k].text == r[i].0
    {
      KeptWordsIff(tokens, stop, r[i].0);
    }
  }

  /** The `/extract-key-phrases` endpoint: `preprocess_text` first, then the tagger, then
      `extract_key_phrases` with its default of ten phrases. */
  function GetKeyPhrases(text: string, tagger: string -> seq<Token>, stop: set<string>): (r: seq<(string, nat)>)
    requires IsAscii(text)
    ensures |r| <= 10
    ensures var tokens := tagger(Preprocess(text));
      forall i :: 0 <= i < |r| ==>
        && r[i].0 !in stop
        && exists k :: 0 <= k < |tokens| && IsNounOrVerb(tokens[k]) && tokens[k].text == r[i].0
  {
    var tokens := tagger(Preprocess(text));
    RankedWordsFacts(KeptWords(tokens, stop));
    KeyPhrasesFiltered(tokens, stop, 10);
    ExtractKeyPhrases(tokens, stop, 10)
  }
}
