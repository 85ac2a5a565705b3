# EcoExpand knowledge-graph store, text helpers and country queries in Dafny

This project models the deterministic core of the EcoExpand AI service. It has three parts.

- **The compliance knowledge graph.** This is a networkx `DiGraph` that the endpoints `add_entities`, `add_relations`, `get_graph`, `bulk_upload` and `clear_graph` update in place. The batch builder `build_knowledge_graph` grows a fresh graph from annotated example items.
  - `Graphs` is a value model of the graph. It holds:
    - the nodes in insertion order;
    - an optional `type` attribute per node;
    - at most one edge per ordered pair, kept in first-insertion order, each with a `relation` label.
  - `Graphs` also defines the `add_node`/`add_edge` steps and the `get_graph` dump.
  - `KnowledgeBase.KnowledgeGraph` is the in-place store. It is a class with those four fields, and each method is proved against the value model.
  - `GraphBuilder` is the builder, and `SampleGraph` holds the script's three-item example dataset.
- **The text helpers.**
  - `TextAnalysis` holds `preprocess_text`.
  - `KeyPhrases` holds `extract_key_phrases`: the noun/verb filter, the stopword filter and `Counter.most_common`.
  - `Insights` holds `extract_actionable_insights`.
  - The part-of-speech tagger, the entity recogniser and the stopword list are inputs.
- **The country table.** `CountryRisk` holds `list_countries` and the lookup-and-label part of `analyze_country` over the loaded market table. The regressor is an input function.

`Collections` and `Http` hold shared helpers:
- sequence de-duplication and first indices;
- the `HTTPException` value and `str(n)` for the reply messages.

Two facts about `analyze_country` shape the model:
- It takes the first row whose `Country` equals the request, even when a name repeats in the table.
- Its label table 0/1/2 to Low/Medium/High Risk is fixed; it is not derived from the cluster centroids.

## Model

| member | source | states |
|---|---|---|
| KnowledgeBase.KnowledgeGraph.constructor | AI/knowledgebase.py:11 | a new store is the empty graph: no nodes, no types, no edges |
| KnowledgeBase.KnowledgeGraph.AddNode | AI/knowledgebase.py:33 | `add_node` appends a new name and keeps an existing one in place, and sets its `type`; the store stays well formed |
| KnowledgeBase.KnowledgeGraph.AddEdge | AI/knowledgebase.py:42 | `add_edge` inserts missing endpoints without a type, appends a new (source, target) pair or keeps an existing one in place, and sets its label |
| KnowledgeBase.KnowledgeGraph.AddEntities | AI/knowledgebase.py:29-34 | the loop leaves the graph equal to the per-entity fold `Graphs.AddEntities`, and the reply counts the request list, repeats included (AI/main.py:211-215 is the same code) |
| KnowledgeBase.KnowledgeGraph.AddRelations | AI/knowledgebase.py:36-43 | the new graph holds the edges of every relation before the first one with a missing endpoint, and no rollback happens; the reply is the 404 when such a relation exists, otherwise the count message (AI/main.py:217-223 is the same code) |
| KnowledgeBase.KnowledgeGraph.GetGraph | AI/knowledgebase.py:45-50 | it reads the store and does not change it; one node record per node, in node order, with its type; the edge records' pairs are a permutation of the stored pairs, each with its label (AI/main.py:225-230 is the same code) |
| KnowledgeBase.KnowledgeGraph.BulkUpload | AI/knowledgebase.py:71-76 | the graph is the entities step followed by the relations step; the reply is the relations step's 404 or the upload message |
| KnowledgeBase.KnowledgeGraph.Clear | AI/knowledgebase.py:78-82 | afterwards the graph has no nodes, types or edges, and the reply is the clear message |
| KnowledgeBase.FirstMissing | AI/knowledgebase.py:39-41 | the position where `add_relations` stops: every relation before it has both endpoints present, and the one at it (if any) lacks one |
| KnowledgeBase.AddRelationsFailsIff | AI/knowledgebase.py:39-41 | the call fails iff some relation names an endpoint that is not a node, and the failure is 404 "Source or target entity not found." |
| KnowledgeBase.AddRelationsKeepsNodes | AI/main.py:219-222 | `add_relations` never adds a node and never changes a type, and the graph stays well formed |
| KnowledgeBase.AddRelationsNoRollback | AI/main.py:218-222 | on failure every relation before the bad one has its edge, and every other pair keeps its old edge or its lack of one |
| KnowledgeBase.BulkUploadEntitiesFirst | AI/knowledgebase.py:74-75 | every batch entity is a node afterwards, even when the relations fail; the upload succeeds iff every endpoint is an old node or a batch entity |
| KnowledgeBase.CheckedEdgeStep | AI/knowledgebase.py:40-42 | one checked pass of the loop adds the edge and leaves the node list as it was |
| Graphs.AddNodeStep | AI/knowledgebase.py:33 | one `add_node` keeps the graph well formed, adds exactly the name, keeps the old node order as a prefix, and leaves the edges alone |
| Graphs.AddEdgeStep | AI/knowledgebase.py:42 | one `add_edge` keeps the graph well formed, adds exactly the missing endpoints, keeps node and pair order as prefixes and the types unchanged, and changes no node when both endpoints exist |
| Graphs.AddEntitiesNodes | AI/knowledgebase.py:32-33 | after adding entities the nodes are the old nodes plus the listed names, each once, the old ones first and in order; the edges are unchanged |
| Graphs.AddEntitiesTypes | AI/main.py:212-214 | a listed name gets the type of its last listing; every other node keeps its type or its lack of one |
| Graphs.AddEdgesNodes | AI/knowledge_grpah.py:36-37 | adding edges makes exactly the missing endpoints into new nodes, keeps node and pair order as prefixes, and leaves the types alone |
| Graphs.AddEdgesLabels | AI/knowledgebase.py:42 | a pair named by some relation carries the label of the last relation on it; every other pair, the reverse pair included, is unchanged |
| Graphs.EdgeOrderPermutes | AI/knowledgebase.py:49 | listing edges source by source in node order yields, as a multiset, exactly the edges whose source is a node |
| Graphs.DumpFaithful | AI/knowledgebase.py:48-49 | the dump has one record per node in order with its type, and one record per edge, each edge once with its label |
| GraphBuilder.BuildKnowledgeGraph | AI/knowledge_grpah.py:29-38 | a freshly allocated graph, grown from the empty graph, equal to the fold `Build` over the items |
| GraphBuilder.AddItemTo | AI/knowledge_grpah.py:31-37 | one item adds its entities, then its triples as edges |
| GraphBuilder.BuildNodesAndTypes | AI/knowledge_grpah.py:30-37 | the built graph's nodes are the listed names together with all triple endpoints; listed names carry the type of their last listing; endpoints that are never listed have no type |
| GraphBuilder.BuildLabels | AI/knowledge_grpah.py:36-37 | every edge comes from a triple and carries the label of the last triple on its pair; no other pair has an edge |
| SampleGraph.SampleFlattened | AI/knowledge_grpah.py:10-26 | the example items flatten to eight entities and five edges in order |
| SampleGraph.SampleGraphSize | AI/knowledge_grpah.py:56 | building the example dataset gives exactly 8 nodes and 5 edges |
| TextAnalysis.ToLower | AI/text_analyzes.py:23 | ASCII lowercasing maps an uppercase letter 32 code points up and leaves every other character alone |
| TextAnalysis.CollapseSpaces | AI/text_analyzes.py:21 | no longer than the input; empty iff the input is; every whitespace character of the result is the plain space, and no two whitespace characters are adjacent |
| TextAnalysis.CollapseKeepsNonSpace | AI/text_analyzes.py:21 | collapsing whitespace keeps every non-whitespace character, in order |
| TextAnalysis.CollapseRun | AI/text_analyzes.py:21 | a whitespace run between a part ending in a non-space and a part starting with one becomes exactly one space, and the two parts collapse on their own |
| TextAnalysis.CollapseNoSpace | AI/text_analyzes.py:21 | a text without whitespace is left unchanged |
| TextAnalysis.StripPunctuation | AI/text_analyzes.py:22 | same length bound; every kept character is a word character or whitespace and comes from the input (what is kept is stated by StripPunctuationCounts and StripIsSubsequence) |
| TextAnalysis.StripPunctuationCounts | AI/text_analyzes.py:22 | every occurrence of a word or whitespace character is kept, and no occurrence of any other character; with StripIsSubsequence this fixes the result |
| TextAnalysis.StripIsSubsequence | AI/text_analyzes.py:22 | dropping punctuation yields an order-preserving subsequence |
| TextAnalysis.Lower | AI/text_analyzes.py:23 | same length; no uppercase letter is left; each character stays a word character, whitespace or neither; a text without uppercase letters is returned unchanged |
| TextAnalysis.Preprocess | AI/text_analyzes.py:20-23 | the output is no longer than the input, and every character is a lowercase word character or the space (AI/main.py:122-125 is the same code) |
| TextAnalysis.PreprocessIsLoweredSubsequence | AI/text_analyzes.py:21-23 | the output is the lowercase of an order-preserving subsequence of the whitespace-collapsed input |
| TextAnalysis.PreprocessKeepsWords | AI/text_analyzes.py:21-23 | the characters of the output other than spaces are exactly the word characters of the input, lowercased and in order |
| TextAnalysis.PreprocessWithoutPunctuation | AI/text_analyzes.py:21-23 | on a text with no punctuation the output is the whitespace-collapsed text, lowercased, so only punctuation is ever dropped |
| TextAnalysis.PreprocessNotIdempotent | AI/text_analyzes.py:21-22 | " . " becomes two spaces and those become one: spaces joined by punctuation removal are not collapsed again |
| KeyPhrases.NounsAndVerbsIff | AI/text_analyzes.py:28 | a word is kept by the part-of-speech filter iff some NOUN or VERB token has it as text |
| KeyPhrases.WithoutStopwordsIff | AI/text_analyzes.py:29 | a word survives the stopword filter iff it was there and is not a stopword |
| KeyPhrases.KeptWordsIff | AI/text_analyzes.py:28-29 | the counted words are exactly the NOUN/VERB token texts that are not stopwords |
| KeyPhrases.InsertByCount | AI/text_analyzes.py:30 | the stable insertion is a permutation of the list plus the new word |
| KeyPhrases.SortByCount | AI/text_analyzes.py:30 | the sort by count is a permutation of its input |
| KeyPhrases.InsertRanked | AI/text_analyzes.py:30 | inserting a word that occurred earlier than every word of a ranked list keeps it ranked |
| KeyPhrases.SortRanked | AI/text_analyzes.py:30 | sorting distinct words given in first-occurrence order yields count-descending order, with ties in first-occurrence order |
| KeyPhrases.RankedWordsFacts | AI/text_analyzes.py:30 | the counter's keys, sorted, are ranked, one per distinct word, and hold exactly the words that occur |
| KeyPhrases.MostCommon | AI/text_analyzes.py:30 | `Counter(words).most_common(n)`: at most n pairs (none for n <= 0), each an occurring word with its exact positive count; MostCommonSize, MostCommonCounts, MostCommonOrder and MostCommonComplete give its exact size, distinctness, order and completeness |
| KeyPhrases.MostCommonSize | AI/text_analyzes.py:30 | `most_common(n)` returns no pairs for n <= 0, and otherwise min(n, number of distinct words) pairs |
| KeyPhrases.MostCommonCounts | AI/text_analyzes.py:30 | each pair is a word that occurs, with its exact positive count, and no word appears twice |
| KeyPhrases.MostCommonOrder | AI/text_analyzes.py:30 | counts are non-increasing, and equal counts come in first-occurrence order |
| KeyPhrases.MostCommonComplete | AI/text_analyzes.py:30 | a word left out is ranked below every returned word, and words are left out only when n pairs were returned |
| KeyPhrases.ExtractKeyPhrases | AI/text_analyzes.py:26-30 | at most `top_n` pairs, each a kept word with its exact positive count among the kept words; KeptWordsIff and KeyPhrasesFiltered say which words are kept |
| KeyPhrases.KeyPhrasesFiltered | AI/text_analyzes.py:28-30 | every returned word is a NOUN/VERB token text and not a stopword, and its count is its number of occurrences among the kept words (AI/main.py:127-131 is the same code) |
| KeyPhrases.GetKeyPhrases | AI/main.py:167-172 | the endpoint runs `preprocess_text` before tagging and returns at most ten pairs; each word is a noun or verb token of the preprocessed text and is not a stopword |
| Insights.ExtractActionableInsights | AI/text_analyzes.py:51-57 | the append loop returns exactly `Selected`, the pairs of the actionable entities in order |
| Insights.Chosen | AI/text_analyzes.py:54-55 | the increasing list of positions whose label is one of ORG, GPE, MONEY, LAW, DATE, and it contains every such position |
| Insights.SelectedAreChosen | AI/text_analyzes.py:52-57 | the k-th reply pair is the (text, label) of the k-th actionable entity, so the reply keeps document order and repeats |
| Insights.SelectedIff | AI/text_analyzes.py:55-56 | a (text, label) pair is reported iff an entity with that text and an actionable label occurs |
| Collections.Distinct | AI/main.py:187 | `unique()` keeps no repeats and exactly the elements of the column |
| Collections.DistinctInOrder | AI/main.py:187 | `unique()` lists the elements in order of first appearance |
| CountryRisk.ListCountries | AI/main.py:185-188 | `list_countries`: no country twice, no more entries than rows, and a name is listed iff some row carries it; ListCountriesFaithful adds the first-appearance order |
| CountryRisk.ListCountriesFaithful | AI/main.py:185-188 | each country of the table is listed exactly once, nothing else is listed, and the order is the order of first appearance |
| CountryRisk.FirstMatch | AI/main.py:193-198 | the first row whose country equals the request exactly |
| CountryRisk.ClusterTexts | AI/main.py:199-206 | ids 0, 1, 2 are reported as "Cluster 0 (Low Risk)", "Cluster 1 (Medium Risk)" and "Cluster 2 (High Risk)" |
| CountryRisk.ClusterTextInjective | AI/main.py:199-206 | different cluster ids give different texts |
| CountryRisk.AnalyzeCountry | AI/main.py:190-208 | `analyze_country`: a failure is a 404; a reply echoes the requested country and carries one of the three cluster texts; AnalyzeCountryOutcome, AnalyzeCountryFirstRowWins and AnalyzeCountryIgnoresOthers say which row decides it |
| CountryRisk.AnalyzeCountryOutcome | AI/main.py:190-208 | a 404 "No data available for {country}" iff no row matches; otherwise the country is echoed, with the first matching row's cluster text and the forecast for its features |
| CountryRisk.AnalyzeCountryFirstRowWins | AI/main.py:198 | rows after the first match do not change the reply |
| CountryRisk.AnalyzeCountryIgnoresOthers | AI/main.py:193 | matching is exact: a row with another country name does not change the reply |

## Left out

- TextAnalysis.Preprocess: requires ASCII input. Python's Unicode `\s`, `\w` and `str.lower` are not modelled.
- Part-of-speech tagging, named-entity recognition and the NLTK stopword list are parameters. They are the tagger function and token list of `KeyPhrases`, the entity list of `Insights` and the stopword set. Resource downloads are not modelled.
- The `except Exception` to HTTP 500 wrappers of the text endpoints (AI/main.py:173-174) are not modelled. Only a failing library call can reach them.
- `summarize_text` is not modelled. Its score is spaCy's lexeme `rank`, which gives the ranking no meaning that can be stated.
- The chat endpoint, `generate_response` and AI/chatbot.py are not modelled. They are calls to a hosted language model.
- Loading the market table is an input: CSV reading, `dropna` and the `Market_Risk_Score` float formula. So are the K-means fit and the random-forest regressor. The table is given with its cluster ids.
- CountryRisk.AnalyzeCountry: the regressor's prediction and its `$X,XXX.XX` formatting are one opaque input function of the row's features.
- CountryRisk.ClusterId: a subset type of 0, 1 and 2, because the clustering is fitted with three clusters. The `KeyError` of the label table for any other id therefore cannot arise in the model.
- AI/risk_incentives.py is not part of this model. It is float arithmetic, sklearn fitting and plotting, plus a duplicate of the lookup.
- Amazon-Sambhav/src/App.jsx and Amazon-Sambhav/Fast api are not part of this model. They are UI markup and separate copies of the text and country services.
- `visualize_graph` and `visualize_knowledge_graph` are not modelled. They are matplotlib rendering. The root welcome message, CORS and the pydantic schemas are not modelled either.
- Concurrent requests against the module-level graph are not modelled. Every operation is one atomic call.
- `get_graph` spreads all node attributes into the record. Only `type` is ever set, so the record carries an optional type. `data["relation"]` of an edge cannot fail, because every edge is added with a label.
- The graph endpoints of AI/main.py are the same code as those of AI/knowledgebase.py, over the same kind of graph. They are modelled once, by `KnowledgeBase.KnowledgeGraph`.
- The copies of `preprocess_text` and `extract_key_phrases` in AI/main.py are likewise modelled once.
