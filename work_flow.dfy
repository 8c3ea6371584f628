/** The analysis pipeline of src/core/work_flow.py: twelve named stages
    registered on a `StateGraph` builder, an entry point, and the edges
    between them, compiled into a graph that runs each stage once its
    parents have finished. */
module Workflow {
  import opened Wrappers
  import opened Scheduler

  /** The builder's vertices: the twelve stages and the two reserved
      vertices `START` and `END`. */
  datatype Node =
    | Start
    | MarketData
    | Technical
    | Fundamentals
    | Sentiment
    | Valuation
    | MacroNews
    | ResearcherBull
    | ResearcherBear
    | DebateRoom
    | RiskManagement
    | MacroAnalyst
    | PortfolioManagement
    | End

  /** The name each vertex is registered under. */
  function Name(n: Node): string {
    match n
    case Start => "__start__"
    case MarketData => "market_data_agent"
    case Technical => "technical_analyst_agent"
    case Fundamentals => "fundamentals_agent"
    case Sentiment => "sentiment_agent"
    case Valuation => "valuation_agent"
    case MacroNews => "macro_news_agent"
    case ResearcherBull => "researcher_bull_agent"
    case ResearcherBear => "researcher_bear_agent"
    case DebateRoom => "debate_room_agent"
    case RiskManagement => "risk_management_agent"
    case MacroAnalyst => "macro_analyst_agent"
    case PortfolioManagement => "portfolio_management_agent"
    case End => "__end__"
  }

  /** Distinct vertices are registered under distinct names, so the
      enumeration stands for the builder's string keys. */
  lemma NamesDistinct(a: Node, b: Node)
    ensures Name(a) == Name(b) ==> a == b
  {
  }

  /** Why the builder refuses a call. */
  datatype BuildError = ReservedName | DuplicateNode | EndAsSource | StartAsTarget | UnknownNode | NoEntryPoint

  /** A compiled graph. */
  datatype Graph = Graph(nodes: set<Node>, edges: set<(Node, Node)>)

  predicate Reserved(n: Node) {
    n == Start || n == End
  }

  /** What `compile()` accepts: every edge leaves `START` or a registered
      node, `START` has an edge, and every edge enters `END` or a
      registered node. */
  predicate SourcesKnown(nodes: seq<Node>, edges: set<(Node, Node)>) {
    forall e :: e in edges ==> e.0 == Start || e.0 in nodes
  }

  predicate HasEntry(edges: set<(Node, Node)>) {
    exists e :: e in edges && e.0 == Start
  }

  predicate TargetsKnown(nodes: seq<Node>, edges: set<(Node, Node)>) {
    forall e :: e in edges ==> e.1 == End || e.1 in nodes
  }

  /** The `StateGraph` builder. */
  class StateGraph {
    var nodes: seq<Node>
    var edges: set<(Node, Node)>

    /** Registered stages are distinct and never reserved. */
    ghost predicate Valid()
      reads this
    {
      Distinct(nodes) && forall i :: 0 <= i < |nodes| ==> !Reserved(nodes[i])
    }

    constructor ()
      ensures Valid() && nodes == [] && edges == {}
    {
      nodes, edges := [], {};
    }

    /** `add_node(name, action)`: refuses the reserved names and a name
        registered before. */
    method AddNode(n: Node) returns (r: Result<(), BuildError>)
      requires Valid()
      modifies this
      ensures Valid()
      ensures Reserved(n) ==> r == Failure(ReservedName)
      ensures !Reserved(n) && n in old(nodes) ==> r == Failure(DuplicateNode)
      ensures r.Success? <==> !Reserved(n) && n !in old(nodes)
      ensures nodes == (if r.Success? then old(nodes) + [n] else old(nodes))
      ensures edges == old(edges)
    {
      if Reserved(n) {
        return Failure(ReservedName);
      }
      if n in nodes {
        return Failure(DuplicateNode);
      }
      nodes := nodes + [n];
      r := Success(());
    }

    /** `add_edge(start, end)`: `END` cannot start an edge and `START`
        cannot end one. */
    method AddEdge(a: Node, b: Node) returns (r: Result<(), BuildError>)
      requires Valid()
      modifies this
      ensures Valid()
      ensures a == End ==> r == Failure(EndAsSource)
      ensures a != End && b == Start ==> r == Failure(StartAsTarget)
      ensures r.Success? <==> a != End && b != Start
      ensures edges == (if r.Success? then old(edges) + {(a, b)} else old(edges))
      ensures nodes == old(nodes)
    {
      if a == End {
        return Failure(EndAsSource);
      }
      if b == Start {
        return Failure(StartAsTarget);
      }
      edges := edges + {(a, b)};
      r := Success(());
    }

    /** `set_entry_point(name)`: an edge from `START`. */
    method SetEntryPoint(n: Node) returns (r: Result<(), BuildError>)
      requires Valid()
      modifies this
      ensures Valid()
      ensures r.Success? <==> n != Start
      ensures edges == (if r.Success? then old(edges) + {(Start, n)} else old(edges))
      ensures nodes == old(nodes)
    {
      r := AddEdge(Start, n);
    }

    /** `compile()`: checks the edges and, when they are well formed,
        yields the graph over the registered stages. Nothing changes. */
    method Compile() returns (r: Result<Graph, BuildError>)
      ensures !SourcesKnown(nodes, edges) ==> r == Failure(UnknownNode)
      ensures SourcesKnown(nodes, edges) && !HasEntry(edges) ==> r == Failure(NoEntryPoint)
      ensures SourcesKnown(nodes, edges) && HasEntry(edges) && !TargetsKnown(nodes, edges) ==> r == Failure(UnknownNode)
      ensures r.Success? <==> SourcesKnown(nodes, edges) && HasEntry(edges) && TargetsKnown(nodes, edges)
      ensures r.Success? ==> r.value == Graph(Elems(nodes), edges)
    {
      if exists e :: e in edges && e.0 != Start && e.0 !in nodes {
        return Failure(UnknownNode);
      }
      if !exists e :: e in edges && e.0 == Start {
        return Failure(NoEntryPoint);
      }
      if exists e :: e in edges && e.1 != End && e.1 !in nodes {
        return Failure(UnknownNode);
      }
      r := Success(Graph(Elems(nodes), edges));
    }
  }

  // ---------------------------------------------------------------------
  // The declared pipeline

  const Stages: set<Node> := {
    MarketData, Technical, Fundamentals, Sentiment, Valuation, MacroNews,
    ResearcherBull, ResearcherBear, DebateRoom, RiskManagement, MacroAnalyst,
    PortfolioManagement
  }

  const Edges: set<(Node, Node)> := {
    (Start, MarketData),
    (MarketData, Technical), (MarketData, Fundamentals), (MarketData, Sentiment),
    (MarketData, Valuation), (MarketData, MacroNews),
    (Technical, ResearcherBull), (Fundamentals, ResearcherBull),
    (Sentiment, ResearcherBull), (Valuation, ResearcherBull),
    (Technical, ResearcherBear), (Fundamentals, ResearcherBear),
    (Sentiment, ResearcherBear), (Valuation, ResearcherBear),
    (ResearcherBull, DebateRoom), (ResearcherBear, DebateRoom),
    (DebateRoom, RiskManagement), (RiskManagement, MacroAnalyst),
    (MacroAnalyst, PortfolioManagement), (MacroNews, PortfolioManagement),
    (PortfolioManagement, End)
  }

  /** The registration order of the stages. */
  const Registered: seq<Node> := [
    MarketData, Technical, Fundamentals, Sentiment, Valuation, MacroNews,
    ResearcherBull, ResearcherBear, DebateRoom, RiskManagement, MacroAnalyst,
    PortfolioManagement
  ]

  /** Runs the builder calls of the module in order and compiles: every
      call succeeds and the result is the declared pipeline. */
  method BuildWorkflow() returns (r: Result<Graph, BuildError>)
    ensures r == Success(Graph(Stages, Edges))
  {
    var w := new StateGraph();
    RegisterStages(w);
    var ok := w.SetEntryPoint(MarketData);
    assert ok.Success?;
    WireAnalysts(w);
    WireResearchers(w);
    WireDebate(w);
    WireDecision(w);
    EdgesByGroup();
    DeclaredGraphCompiles();
    r := w.Compile();
  }

  /** Registers the twelve stages in source order. */
  method RegisterStages(w: StateGraph)
    requires w.Valid() && w.nodes == []
    modifies w
    ensures w.Valid() && w.nodes == Registered && w.edges == old(w.edges)
  {
    AddFourNodes(w, MarketData, Technical, Fundamentals, Sentiment);
    AddFourNodes(w, Valuation, MacroNews, ResearcherBull, ResearcherBear);
    AddFourNodes(w, DebateRoom, RiskManagement, MacroAnalyst, PortfolioManagement);
  }

  /** Four `add_node` calls in a row with distinct fresh names: each
      succeeds and the names are appended in order. */
  method AddFourNodes(w: StateGraph, a: Node, b: Node, c: Node, d: Node)
    requires w.Valid() && !Reserved(a) && !Reserved(b) && !Reserved(c) && !Reserved(d)
    requires a !in w.nodes && b !in w.nodes && c !in w.nodes && d !in w.nodes
    requires a != b && a != c && a != d && b != c && b != d && c != d
    modifies w
    ensures w.Valid() && w.nodes == old(w.nodes) + [a, b, c, d] && w.edges == old(w.edges)
  {
    var ok: Result<(), BuildError>;
    ok := w.AddNode(a);
    assert ok.Success?;
    ok := w.AddNode(b);
    assert ok.Success?;
    ok := w.AddNode(c);
    assert ok.Success?;
    ok := w.AddNode(d);
    assert ok.Success?;
  }

  method WireAnalysts(w: StateGraph)
    requires w.Valid()
    modifies w
    ensures w.Valid() && w.nodes == old(w.nodes)
    ensures w.edges == old(w.edges) + {(MarketData, Technical), (MarketData, Fundamentals),
              (MarketData, Sentiment), (MarketData, Valuation), (MarketData, MacroNews)}
  {
    Connect(w, MarketData, Technical);
    Connect(w, MarketData, Fundamentals);
    Connect(w, MarketData, Sentiment);
    Connect(w, MarketData, Valuation);
    Connect(w, MarketData, MacroNews);
  }

  method WireResearchers(w: StateGraph)
    requires w.Valid()
    modifies w
    ensures w.Valid() && w.nodes == old(w.nodes)
    ensures w.edges == old(w.edges)
              + {(Technical, ResearcherBull), (Fundamentals, ResearcherBull),
                 (Sentiment, ResearcherBull), (Valuation, ResearcherBull)}
              + {(Technical, ResearcherBear), (Fundamentals, ResearcherBear),
                 (Sentiment, ResearcherBear), (Valuation, ResearcherBear)}
  {
    WireResearcher(w, ResearcherBull);
    WireResearcher(w, ResearcherBear);
  }

  /** The four analyst edges into one researcher. */
  method WireResearcher(w: StateGraph, r: Node)
    requires w.Valid() && r != Start
    modifies w
    ensures w.Valid() && w.nodes == old(w.nodes)
    ensures w.edges == old(w.edges) + {(Technical, r), (Fundamentals, r), (Sentiment, r), (Valuation, r)}
  {
    Connect(w, Technical, r);
    Connect(w, Fundamentals, r);
    Connect(w, Sentiment, r);
    Connect(w, Valuation, r);
  }

  method WireDebate(w: StateGraph)
    requires w.Valid()
    modifies w
    ensures w.Valid() && w.nodes == old(w.nodes)
    ensures w.edges == old(w.edges)
              + {(ResearcherBull, DebateRoom), (ResearcherBear, DebateRoom),
                 (DebateRoom, RiskManagement), (RiskManagement, MacroAnalyst)}
  {
    Connect(w, ResearcherBull, DebateRoom);
    Connect(w, ResearcherBear, DebateRoom);
    Connect(w, DebateRoom, RiskManagement);
    Connect(w, RiskManagement, MacroAnalyst);
  }

  method WireDecision(w: StateGraph)
    requires w.Valid()
    modifies w
    ensures w.Valid() && w.nodes == old(w.nodes)
    ensures w.edges == old(w.edges)
              + {(MacroAnalyst, PortfolioManagement), (MacroNews, PortfolioManagement),
                 (PortfolioManagement, End)}
  {
    Connect(w, MacroAnalyst, PortfolioManagement);
    Connect(w, MacroNews, PortfolioManagement);
    Connect(w, PortfolioManagement, End);
  }

  /** One `add_edge` call of the pipeline: its edge neither leaves `END`
      nor enters `START`, so the call succeeds and adds it. */
  method Connect(w: StateGraph, a: Node, b: Node)
    requires w.Valid() && a != End && b != Start
    modifies w
    ensures w.Valid() && w.nodes == old(w.nodes) && w.edges == old(w.edges) + {(a, b)}
  {
    var ok := w.AddEdge(a, b);
    assert ok.Success?;
  }

  /** The edge list is the union of the groups the builder adds. */
  lemma EdgesByGroup()
    ensures Edges == {} + {(Start, MarketData)}
              + {(MarketData, Technical), (MarketData, Fundamentals),
                 (MarketData, Sentiment), (MarketData, Valuation), (MarketData, MacroNews)}
              + {(Technical, ResearcherBull), (Fundamentals, ResearcherBull),
                 (Sentiment, ResearcherBull), (Valuation, ResearcherBull)}
              + {(Technical, ResearcherBear), (Fundamentals, ResearcherBear),
                 (Sentiment, ResearcherBear), (Valuation, ResearcherBear)}
              + {(ResearcherBull, DebateRoom), (ResearcherBear, DebateRoom),
                 (DebateRoom, RiskManagement), (RiskManagement, MacroAnalyst)}
              + {(MacroAnalyst, PortfolioManagement), (MacroNews, PortfolioManagement),
                 (PortfolioManagement, End)}
  {
  }

  /** The registered stages are exactly the twelve stages. */
  lemma RegisteredAreStages()
    ensures Elems(Registered) == Stages
  {
    forall n | n in Stages ensures n in Registered {
      match n
      case MarketData => assert Registered[0] == n;
      case Technical => assert Registered[1] == n;
      case Fundamentals => assert Registered[2] == n;
      case Sentiment => assert Registered[3] == n;
      case Valuation => assert Registered[4] == n;
      case MacroNews => assert Registered[5] == n;
      case ResearcherBull => assert Registered[6] == n;
      case ResearcherBear => assert Registered[7] == n;
      case DebateRoom => assert Registered[8] == n;
      case RiskManagement => assert Registered[9] == n;
      case MacroAnalyst => assert Registered[10] == n;
      case PortfolioManagement => assert Registered[11] == n;
    }
  }

  /** The declared edges pass `compile()`'s checks over the registered
      stages. */
  lemma DeclaredGraphCompiles()
    ensures Elems(Registered) == Stages
    ensures SourcesKnown(Registered, Edges) && HasEntry(Edges) && TargetsKnown(Registered, Edges)
  {
    RegisteredAreStages();
    forall e | e in Edges ensures (e.0 == Start || e.0 in Registered) && (e.1 == End || e.1 in Registered) {
      EdgeEnds(e.0, e.1);
      StageUnlessReserved(e.0);
      StageUnlessReserved(e.1);
      assert e.0 != Start ==> e.0 in Elems(Registered);
      assert e.1 != End ==> e.1 in Elems(Registered);
    }
    assert (Start, MarketData) in Edges;
  }

  /** No declared edge leaves `END` or enters `START`. */
  lemma EdgeEnds(a: Node, b: Node)
    requires (a, b) in Edges
    ensures a != End && b != Start
  {
  }

  /** Every node other than `START` and `END` is one of the stages. */
  lemma StageUnlessReserved(n: Node)
    ensures n in Stages <==> !Reserved(n)
  {
    match n
    case Start =>
    case End =>
    case _ => assert n in Stages;
  }
}
