# Knowledge graph from text: the data shaping around the NLP libraries

This project models the part of `knowledge_graph.py` that is plain list and string
manipulation. The language model, the coreference resolver, the dependency matcher
and the graph renderer are treated as black boxes, and their outputs are inputs here.

- **Coreference flattening** (`Coref`, from `coref_resolution`). Each token of the
  parsed document arrives with its own text and what chain resolution returned for
  it. A non-empty list of referents is joined with `" and "`. An absent or empty
  result keeps the token's text, as Python's `resolve(token) or token` does. The
  loop collapses its working list to one element after every token. The final text
  is the single-space join of the per-token texts.
- **Triple assembly** (`Triples`, from `get_triples`). The matcher's results are
  taken in matcher order: a pattern id plus token positions in pattern order
  (predicate, subject, object). The positions are read against the document's token
  texts into three columns: subject as `source`, predicate as `relation`, object as
  `target`. A position is read the way Python reads a list: a negative position
  counts from the end. A position outside the document, or a token list shorter than
  three, is taken to raise `IndexError`, modelled as `Err(IndexError(matchPos))`. The columns are
  zipped into rows, and exact duplicate rows are dropped keeping the first
  (`drop_duplicates`).
- **Graph construction** (`Dashboard`, from `dashboard`). Nodes are the rows'
  sources and targets, listed once each in the order a multigraph meets them. There
  is one edge per row, since a `MultiDiGraph` keeps parallel edges. Each edge is
  labelled `relation_list[target_list.index(target)]`. That label is the relation
  of the first row whose target is the edge's target, whatever the source. The
  model reproduces this lookup as written. `CaptionCanComeFromAnotherSource` shows
  an edge that gets another row's relation. `list.index`'s `ValueError` is modelled
  as `None`, and `LabelLookupTotal` shows it cannot happen for an edge's target.

Supporting modules: `Results` (Option and Result), `Strings` (`Join` is `str.join`,
`Split` is `str.split` on one character, and both round trips are proved), and
`Distinct` (`FirstIndex`/`IndexOf` model `list.index`, and `Dedup` is keep-first
de-duplication).

`get_triples` begins with `sent=coref_resolution(text)` (line 53). This reads the
module-level `text`, not its own parameter. Under the command-line entry point the
two are the same string. The model takes the parsed, already-resolved document as
its input and does not reproduce the aliasing.

## Model

| member | source | states |
|---|---|---|
| Coref.Flatten | knowledge_graph.py:31-37 | the accumulated list holds no element before the first token and exactly one afterwards, namely the space-join of the texts so far; the result is the single-space join of every token's resolved text, and `""` for an empty document |
| Coref.TokenContribution | knowledge_graph.py:33-34 | a token whose resolution is a non-empty referent list contributes those texts joined by `" and "`; a token with no resolution, or an empty one, contributes its own text |
| Coref.FlatTextSplitsIntoTokens | knowledge_graph.py:32-37 | for a non-empty document in which no token's resolved text contains a space, splitting the flattened text on spaces gives back the per-token texts in order |
| Coref.Resolve | knowledge_graph.py:33 | `resolve(token) or token`: a referent list is only ever used when it is non-empty and is the resolver's own result; otherwise the token keeps its text (what each case then contributes is stated by Coref.TokenContribution) |
| Coref.ResolvedText | knowledge_graph.py:34 | the text a resolved token contributes; its meaning per case is stated by Coref.TokenContribution |
| Coref.FlatText | knowledge_graph.py:32-37 | the independent reference for the normaliser's output, the single-space join of the per-token texts; Coref.Flatten proves the loop computes it |
| Coref.FlatTextSnoc | knowledge_graph.py:35-36 | one more token extends the flat text of a non-empty document by exactly one space and that token's text, the step each loop iteration takes |
| Strings.Join | knowledge_graph.py:34-37 | `sep.join(parts)`; Strings.JoinSnoc states the one-part extension the loop relies on |
| Strings.JoinSnoc | knowledge_graph.py:36 | appending a part to a non-empty join adds exactly one separator and the part |
| Distinct.IndexOf | knowledge_graph.py:112 | `list.index`: `None` (the `ValueError`) exactly when the value is absent; otherwise a position holding the value with no earlier occurrence |
| Distinct.Dedup | knowledge_graph.py:84 | keep-first de-duplication: no value occurs twice in the result; every input value is kept and nothing new appears; the result is never longer |
| Distinct.DedupKeepsFirstOccurrenceOrder | knowledge_graph.py:84 | kept rows appear in the order of their first occurrence in the input |
| Distinct.DedupSnoc | knowledge_graph.py:84 | appending a value to the input appends it to the de-duplicated result exactly when it did not occur before, and otherwise changes nothing |
| Distinct.DedupOfDistinct | knowledge_graph.py:84 | a sequence with no duplicates is left unchanged |
| Distinct.DedupIdempotent | knowledge_graph.py:84 | de-duplicating a second time changes nothing |
| Triples.PyIndex | knowledge_graph.py:79-81 | Python position reading: it succeeds exactly for positions in `-n .. n-1`, and gives an in-range position equal to the given one or to it plus `n` |
| Triples.RowOf | knowledge_graph.py:79-81 | the row one match stands for, subject text as source, predicate text as relation, object text as target; Triples.BuildColumns proves the loop fills the columns with exactly these texts and Triples.SingleSentenceRow shows it on a sentence |
| Triples.Rows | knowledge_graph.py:83 | the DataFrame of three equally long columns, one row per position; Dashboard.TableFromItsColumns and Dashboard.ColumnsOfTable prove it inverse to reading the columns back |
| Triples.Projected | knowledge_graph.py:78-83 | before de-duplication the table has exactly one row per match |
| Triples.BuildColumns | knowledge_graph.py:70-81 | succeeds exactly when every match has three in-range positions; otherwise fails at the first match that has not; on success the three columns are as long as the match list, and entry i holds the texts at match i's subject, predicate and object positions |
| Triples.GetTriples | knowledge_graph.py:70-85 | the same success/failure condition; the table is the keep-first de-duplication of the projected rows: no two rows are equal, every match's row is present, every row comes from some match, rows keep first-occurrence order, and zero matches give an empty table |
| Triples.TableDedupIdempotent | knowledge_graph.py:84 | de-duplicating the relation table again changes nothing |
| Triples.RepeatedMatchCollapses | knowledge_graph.py:83-84 | a match found twice yields a single row |
| Triples.SingleSentenceRow | knowledge_graph.py:60-66 | for "Alice sees Bob." the match (predicate 1, subject 0, object 2) becomes the row (Alice, sees, Bob) |
| Dashboard.TableFromItsColumns | knowledge_graph.py:83-102 | reading the source, relation and target lists (`SourceList`, `RelationList`, `TargetList`) out of a table and zipping them back with `Rows` gives the same table |
| Dashboard.ColumnsOfTable | knowledge_graph.py:76-102 | for equally long columns, the table `Rows` builds (the DataFrame of line 83) yields exactly those columns again when read back at lines 100-102 |
| Dashboard.Endpoints | knowledge_graph.py:105 | adding the edges meets, for each row in turn, its source and then its target |
| Dashboard.Nodes | knowledge_graph.py:105-109 | the multigraph's node list lists no name twice; Dashboard.NodesAreEndpoints and Dashboard.NodesInInsertionOrder state which names and in what order |
| Dashboard.Label | knowledge_graph.py:112 | `relation_list[target_list.index(t)]`: a found label is the relation of some row whose target is `t`; Dashboard.LabelLookupTotal states when it is found and Dashboard.EdgeLabelIsFirstRowWithTarget which row it comes from |
| Dashboard.Build | knowledge_graph.py:104-112 | the graph has one edge per row, edge i running from row i's source to row i's target, and its nodes are the de-duplicated endpoints |
| Dashboard.NodesAreEndpoints | knowledge_graph.py:105-109 | every node is some row's source or target, every row's source and target is a node, and no node is listed twice |
| Dashboard.NodeSetIsSourceTargetUnion | knowledge_graph.py:100-109 | the set of nodes equals the union of the source column's and the target column's values |
| Dashboard.NodesInInsertionOrder | knowledge_graph.py:105-109 | nodes are listed in the order adding the edges first meets them |
| Dashboard.LabelLookupTotal | knowledge_graph.py:102-112 | the target lookup succeeds exactly for names that are some row's target, so it never fails for an edge |
| Dashboard.EdgeLabelIsFirstRowWithTarget | knowledge_graph.py:111-112 | edge i's label is the relation of the row j with least index whose target equals edge i's target |
| Dashboard.SameTargetSameCaption | knowledge_graph.py:112 | two edges into the same node carry the same label, whatever their sources |
| Dashboard.CaptionIsOwnRelationWhenTargetUnambiguous | knowledge_graph.py:112 | when all rows into a node share one relation, every edge into it is labelled with its own row's relation |
| Dashboard.CaptionCanComeFromAnotherSource | knowledge_graph.py:112 | for rows (Alice, likes, Carol) and (Bob, hates, Carol), Bob's edge into Carol is labelled "likes" |
| Dashboard.EmptyTableEmptyGraph | knowledge_graph.py:100-112 | an empty table gives no nodes and no edges |
| Dashboard.SingleSentenceScenario | knowledge_graph.py:100-112 | the table [(Alice, sees, Bob)] gives nodes Alice, Bob and one edge Alice to Bob labelled "sees" |
| Dashboard.TwoCycleNodes | knowledge_graph.py:105-109 | the table [(Alice, likes, Bob), (Bob, likes, Alice)] gives the nodes Alice then Bob |
| Dashboard.TwoCycleScenario | knowledge_graph.py:100-112 | the table [(Alice, likes, Bob), (Bob, likes, Alice)] gives nodes Alice, Bob and two opposite edges, each labelled "likes" |

## Left out

- Model loading, tokenisation, dependency parsing, entity and noun-chunk merging, coreference-chain resolution and the `DependencyMatcher` (lines 26-30, 54-68) are library calls. Their results are inputs: `Coref.Token` for each resolved token, and the token texts plus `Triples.Match` for the matcher.
- Triples.PyIndex: the token texts are read from a spaCy `Doc`, whose indexing is not part of this model; positions are read as Python list indexing reads them, and an out-of-range position is assumed to raise `IndexError` as a list does. The dependency matcher only reports positions inside the document, so that branch is not reached from the matcher.
- The list of match ids built at line 73 is never read afterwards, so it is not modelled.
- The pandas DataFrame is modelled as a sequence of rows. Its index column and CSV serialisation are not modelled.
- Dashboard.Build: the edges are listed in table-row order, not in the multigraph's edge-view order, which groups edges by source in node order. Every label depends only on the edge's target, so the multiset of labelled edges is the same either way.
- `str(edge[1])` (line 112) is the identity on the string node names, so it is not modelled.
- The networkx and pyvis objects, `show_buttons`, the renderer's own handling of repeated edges in its default undirected mode, and the HTML output (lines 104-106, 114) are external rendering. Only the node list and labelled edge list passed to it are modelled.
- The command line, file reading, CSV writing and the skip-if-output-exists check (lines 117-130) are I/O.
- The failure to load a language model is a library error outside the model.
