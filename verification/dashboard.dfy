/** The graph builder: the relation table becomes a directed multigraph whose nodes
    are the table's sources and targets, with one edge per row, and every edge is
    labelled by looking its target up in the table's target column. */
module Dashboard {
  import opened Results
  import opened Distinct
  import opened Triples

  /** An edge handed to the renderer; `caption` is the label it is drawn with. */
  datatype Edge = Edge(source: string, target: string, caption: string)

  /** The node list and labelled edge list handed to the renderer. */
  datatype Graph = Graph(nodes: seq<string>, edges: seq<Edge>)

  /** The table's `source` column as a list. */
  function SourceList(rows: seq<Triple>): (col: seq<string>)
    ensures |col| == |rows|
    ensures forall i :: 0 <= i < |rows| ==> col[i] == rows[i].source
  {
    seq(|rows|, i requires 0 <= i < |rows| => rows[i].source)
  }

  /** The table's `relation` column as a list. */
  function RelationList(rows: seq<Triple>): (col: seq<string>)
    ensures |col| == |rows|
    ensures forall i :: 0 <= i < |rows| ==> col[i] == rows[i].relation
  {
    seq(|rows|, i requires 0 <= i < |rows| => rows[i].relation)
  }

  /** The table's `target` column as a list. */
  function TargetList(rows: seq<Triple>): (col: seq<string>)
    ensures |col| == |rows|
    ensures forall i :: 0 <= i < |rows| ==> col[i] == rows[i].target
  {
    seq(|rows|, i requires 0 <= i < |rows| => rows[i].target)
  }

  /** Reading the three columns back out of a table and zipping them gives the
      table again. */
  lemma {:induction false} TableFromItsColumns(rows: seq<Triple>)
    ensures Rows(Columns(SourceList(rows), RelationList(rows), TargetList(rows))) == rows
  {
    var back := Rows(Columns(SourceList(rows), RelationList(rows), TargetList(rows)));
    assert |back| == |rows|;
    forall i | 0 <= i < |rows|
      ensures back[i] == rows[i]
    {
      assert back[i] == Triple(rows[i].source, rows[i].relation, rows[i].target);
    }
  }

  /** The columns read out of a table zipped from equally long columns are those
      columns. */
  lemma {:induction false} ColumnsOfTable(cols: Columns)
    requires |cols.source| == |cols.relation| == |cols.target|
    ensures SourceList(Rows(cols)) == cols.source
    ensures RelationList(Rows(cols)) == cols.relation
    ensures TargetList(Rows(cols)) == cols.target
  {
    var rows := Rows(cols);
    assert forall i :: 0 <= i < |rows| ==> rows[i] == Triple(cols.source[i], cols.relation[i], cols.target[i]);
  }

  /** The order in which adding one edge per row meets node names: each row's
      source, then its target. */
  function Endpoints(rows: seq<Triple>): (ends: seq<string>)
    ensures |ends| == 2 * |rows|
    ensures forall i :: 0 <= i < |rows| ==> ends[2 * i] == rows[i].source && ends[2 * i + 1] == rows[i].target
    decreases |rows|
  {
    if |rows| == 0 then []
    else [rows[0].source, rows[0].target] + Endpoints(rows[1..])
  }

  /** The multigraph's nodes: every endpoint once, in order of first insertion. */
  function Nodes(rows: seq<Triple>): (ns: seq<string>)
    ensures NoDuplicates(ns)
  {
    Dedup(Endpoints(rows))
  }

  /** `relation_list[target_list.index(t)]`, with `None` where `index` raises `ValueError`. */
  function Label(rows: seq<Triple>, t: string): (r: Option<string>)
    ensures r.Some? ==> exists j :: 0 <= j < |rows| && rows[j].target == t && r.value == rows[j].relation
  {
    match IndexOf(TargetList(rows), t)
    case Some(j) => Some(RelationList(rows)[j])
    case None => None
  }

  /** The graph built from the table: one edge per row, because a multigraph keeps
      parallel edges, each labelled by looking its target up in the target column. */
  function Build(rows: seq<Triple>): (g: Graph)
    ensures g.nodes == Nodes(rows)
    ensures |g.edges| == |rows|
    ensures forall i :: 0 <= i < |rows| ==>
      g.edges[i].source == rows[i].source && g.edges[i].target == rows[i].target
  {
    Graph(Nodes(rows), seq(|rows|, i requires 0 <= i < |rows| =>
      assert TargetList(rows)[i] == rows[i].target;
      Edge(rows[i].source, rows[i].target, Label(rows, rows[i].target).value)))
  }

  /** The nodes are exactly the table's sources and targets, each listed once. */
  lemma NodesAreEndpoints(rows: seq<Triple>)
    ensures NoDuplicates(Nodes(rows))
    ensures forall k :: 0 <= k < |Nodes(rows)| ==>
      exists i :: 0 <= i < |rows| && (Nodes(rows)[k] == rows[i].source || Nodes(rows)[k] == rows[i].target)
    ensures forall i :: 0 <= i < |rows| ==> rows[i].source in Nodes(rows) && rows[i].target in Nodes(rows)
  {
    var nodes := Nodes(rows);
    var ends := Endpoints(rows);
    forall k | 0 <= k < |nodes|
      ensures exists i :: 0 <= i < |rows| && (nodes[k] == rows[i].source || nodes[k] == rows[i].target)
    {
      var e := FirstIndex(ends, nodes[k]);
      var i := e / 2;
      assert e == 2 * i || e == 2 * i + 1;
      if e == 2 * i {
        assert nodes[k] == rows[i].source;
      } else {
        assert nodes[k] == rows[i].target;
      }
    }
    forall i | 0 <= i < |rows|
      ensures rows[i].source in nodes && rows[i].target in nodes
    {
      assert ends[2 * i] in nodes && ends[2 * i + 1] in nodes;
    }
  }

  /** The node set of the built graph is the union of the source and target columns. */
  lemma NodeSetIsSourceTargetUnion(rows: seq<Triple>)
    ensures (set n | n in Build(rows).nodes) ==
      (set r | r in rows :: r.source) + (set r | r in rows :: r.target)
  {
    NodesAreEndpoints(rows);
    var nodes := Build(rows).nodes;
    forall n | n in nodes
      ensures n in (set r | r in rows :: r.source) + (set r | r in rows :: r.target)
    {
      var k :| 0 <= k < |nodes| && nodes[k] == n;
      var i :| 0 <= i < |rows| && (n == rows[i].source || n == rows[i].target);
      assert rows[i] in rows;
    }
    forall r | r in rows
      ensures r.source in nodes && r.target in nodes
    {
      var i :| 0 <= i < |rows| && rows[i] == r;
    }
  }

  /** The target lookup fails exactly for names that are no row's target, so it
      never fails for the target of an edge. */
  lemma LabelLookupTotal(rows: seq<Triple>, t: string)
    ensures Label(rows, t).Some? <==> exists j :: 0 <= j < |rows| && rows[j].target == t
  {
    if exists j :: 0 <= j < |rows| && rows[j].target == t {
      var j :| 0 <= j < |rows| && rows[j].target == t;
      assert TargetList(rows)[j] == t;
    }
  }

  /** An edge is labelled with the relation of the first row whose target is the
      edge's target, whatever that row's source. */
  lemma EdgeLabelIsFirstRowWithTarget(rows: seq<Triple>, i: nat, j: nat)
    requires i < |rows| && j < |rows|
    requires rows[j].target == rows[i].target
    requires forall k :: 0 <= k < j ==> rows[k].target != rows[j].target
    ensures Build(rows).edges[i].caption == rows[j].relation
  {
    var targets := TargetList(rows);
    assert targets[j] == rows[i].target;
  }

  /** Nodes are listed in the order in which adding the edges first meets them. */
  lemma NodesInInsertionOrder(rows: seq<Triple>)
    ensures forall k, l :: 0 <= k < l < |Nodes(rows)| ==>
      FirstIndex(Endpoints(rows), Nodes(rows)[k]) < FirstIndex(Endpoints(rows), Nodes(rows)[l])
  {
    DedupKeepsFirstOccurrenceOrder(Endpoints(rows));
  }

  /** Two edges into the same node carry the same label, whatever their sources. */
  lemma SameTargetSameCaption(rows: seq<Triple>, i: nat, i': nat)
    requires i < |rows| && i' < |rows|
    requires rows[i].target == rows[i'].target
    ensures Build(rows).edges[i].caption == Build(rows).edges[i'].caption
  {
  }

  /** When every row into a node agrees on the relation, each edge into it is
      labelled with its own row's relation. */
  lemma CaptionIsOwnRelationWhenTargetUnambiguous(rows: seq<Triple>, i: nat)
    requires i < |rows|
    requires forall j :: 0 <= j < |rows| && rows[j].target == rows[i].target ==>
      rows[j].relation == rows[i].relation
    ensures Build(rows).edges[i].caption == rows[i].relation
  {
    var j := FirstIndex(TargetList(rows), rows[i].target);
    EdgeLabelIsFirstRowWithTarget(rows, i, j);
  }

  /** The lookup by target alone can label an edge with another row's relation:
      Bob's edge into Carol is drawn with Alice's relation. */
  lemma CaptionCanComeFromAnotherSource()
    ensures var rows := [Triple("Alice", "likes", "Carol"), Triple("Bob", "hates", "Carol")];
      Build(rows).edges[1] == Edge("Bob", "Carol", "likes")
  {
    var rows := [Triple("Alice", "likes", "Carol"), Triple("Bob", "hates", "Carol")];
    EdgeLabelIsFirstRowWithTarget(rows, 1, 0);
  }

  /** An empty table gives a graph with no nodes and no edges. */
  lemma EmptyTableEmptyGraph()
    ensures Build([]) == Graph([], [])
  {
  }

  /** "Alice sees Bob.": nodes Alice and Bob, one edge Alice to Bob labelled "sees". */
  lemma SingleSentenceScenario()
    ensures Build([Triple("Alice", "sees", "Bob")]) ==
      Graph(["Alice", "Bob"], [Edge("Alice", "Bob", "sees")])
  {
    var rows := [Triple("Alice", "sees", "Bob")];
    assert Endpoints(rows) == ["Alice", "Bob"];
    assert Endpoints(rows)[..1] == ["Alice"];
    assert Endpoints(rows)[..1][..0] == [];
    EdgeLabelIsFirstRowWithTarget(rows, 0, 0);
  }

  /** The table of "Alice likes Bob. Bob likes Alice.". */
  function TwoCycleRows(): seq<Triple> {
    [Triple("Alice", "likes", "Bob"), Triple("Bob", "likes", "Alice")]
  }

  /** Its nodes are Alice then Bob. */
  lemma TwoCycleNodes()
    ensures Nodes(TwoCycleRows()) == ["Alice", "Bob"]
  {
    var rows := TwoCycleRows();
    var ends := Endpoints(rows);
    assert Endpoints(rows[1..]) == ["Bob", "Alice"];
    assert ends == [] + ["Alice"] + ["Bob"] + ["Bob"] + ["Alice"];
    DedupSnoc([], "Alice");
    DedupSnoc([] + ["Alice"], "Bob");
    DedupSnoc([] + ["Alice"] + ["Bob"], "Bob");
    DedupSnoc([] + ["Alice"] + ["Bob"] + ["Bob"], "Alice");
  }

  /** "Alice likes Bob. Bob likes Alice.": two nodes and a two-cycle of "likes" edges. */
  lemma TwoCycleScenario()
    ensures Build(TwoCycleRows()) ==
      Graph(["Alice", "Bob"], [Edge("Alice", "Bob", "likes"), Edge("Bob", "Alice", "likes")])
  {
    var rows := TwoCycleRows();
    TwoCycleNodes();
    EdgeLabelIsFirstRowWithTarget(rows, 0, 0);
    EdgeLabelIsFirstRowWithTarget(rows, 1, 1);
  }
}
