/** The shape of the pipeline declared in src/core/work_flow.py: its
    levels, the parents of each join, reachability from `START` and to
    `END`, and a run of the all-parents-done rule over its stages. */
module Pipeline {
  import opened Scheduler
  import opened Workflow


  const Vertices: set<Node> := Stages + {Start, End}

  /** The stage's depth in the pipeline, counted from `START`. */
  function Level(n: Node): nat {
    match n
    case Start => 0
    case MarketData => 1
    case Technical => 2
    case Fundamentals => 2
    case Sentiment => 2
    case Valuation => 2
    case MacroNews => 2
    case ResearcherBull => 3
    case ResearcherBear => 3
    case DebateRoom => 4
    case RiskManagement => 5
    case MacroAnalyst => 6
    case PortfolioManagement => 7
    case End => 8
  }

  /** Every edge goes one level deeper or more, so the pipeline is
      acyclic. */
  lemma PipelineIsRanked()
    ensures Ranked(Vertices, Edges, Level)
    ensures Ranked(Stages, Edges, Level)
  {
    forall p, n | (p, n) in Edges ensures Level(p) < Level(n) {
    }
  }

  /** The parents of each vertex, as the edge list declares them. */
  function Parents(n: Node): set<Node> {
    match n
    case Start => {}
    case MarketData => {Start}
    case Technical => {MarketData}
    case Fundamentals => {MarketData}
    case Sentiment => {MarketData}
    case Valuation => {MarketData}
    case MacroNews => {MarketData}
    case ResearcherBull => {Technical, Fundamentals, Sentiment, Valuation}
    case ResearcherBear => {Technical, Fundamentals, Sentiment, Valuation}
    case DebateRoom => {ResearcherBull, ResearcherBear}
    case RiskManagement => {DebateRoom}
    case MacroAnalyst => {RiskManagement}
    case PortfolioManagement => {MacroAnalyst, MacroNews}
    case End => {PortfolioManagement}
  }

  /** The children of each vertex, as the edge list declares them. */
  function Children(n: Node): set<Node> {
    match n
    case Start => {MarketData}
    case MarketData => {Technical, Fundamentals, Sentiment, Valuation, MacroNews}
    case Technical => {ResearcherBull, ResearcherBear}
    case Fundamentals => {ResearcherBull, ResearcherBear}
    case Sentiment => {ResearcherBull, ResearcherBear}
    case Valuation => {ResearcherBull, ResearcherBear}
    case MacroNews => {PortfolioManagement}
    case ResearcherBull => {DebateRoom}
    case ResearcherBear => {DebateRoom}
    case DebateRoom => {RiskManagement}
    case RiskManagement => {MacroAnalyst}
    case MacroAnalyst => {PortfolioManagement}
    case PortfolioManagement => {End}
    case End => {}
  }

  lemma EdgesIntoNode(n: Node)
    ensures forall p :: (p, n) in Edges <==> p in Parents(n)
  {
    match n
    case Start =>
    case MarketData =>
    case Technical =>
    case Fundamentals =>
    case Sentiment =>
    case Valuation =>
    case MacroNews =>
    case ResearcherBull =>
    case ResearcherBear =>
    case DebateRoom =>
    case RiskManagement =>
    case MacroAnalyst =>
    case PortfolioManagement =>
    case End =>
  }

  lemma EdgesOutOfNode(n: Node)
    ensures forall m :: (n, m) in Edges <==> m in Children(n)
  {
    match n
    case Start =>
    case MarketData =>
    case Technical =>
    case Fundamentals =>
    case Sentiment =>
    case Valuation =>
    case MacroNews =>
    case ResearcherBull =>
    case ResearcherBear =>
    case DebateRoom =>
    case RiskManagement =>
    case MacroAnalyst =>
    case PortfolioManagement =>
    case End =>
  }

  lemma PredsAre(nodes: set<Node>, n: Node)
    ensures Preds(nodes, Edges, n) == Parents(n) * nodes
  {
    EdgesIntoNode(n);
    var r := Preds(nodes, Edges, n);
    assert forall p :: p in r <==> p in nodes && (p, n) in Edges;
  }

  lemma SuccsAre(nodes: set<Node>, n: Node)
    ensures Succs(nodes, Edges, n) == Children(n) * nodes
  {
    EdgesOutOfNode(n);
    var r := Succs(nodes, Edges, n);
    assert forall m :: m in r <==> m in nodes && (n, m) in Edges;
  }

  /** Twelve distinct stages are registered. */
  lemma TwelveStages()
    ensures |Stages| == 12
  {
  }

  /** `market_data_agent` is the entry: only `START` precedes it, and it
      fans out to exactly five stages. */
  lemma EntryFansOut()
    ensures Preds(Vertices, Edges, MarketData) == {Start}
    ensures Preds(Stages, Edges, MarketData) == {}
    ensures Succs(Stages, Edges, MarketData) == {Technical, Fundamentals, Sentiment, Valuation, MacroNews}
    ensures forall n :: (Start, n) in Edges <==> n == MarketData
  {
    PredsAre(Vertices, MarketData);
    PredsAre(Stages, MarketData);
    assert Parents(MarketData) == {Start} && Start in Vertices && Start !in Stages;
    SuccsAre(Stages, MarketData);
    assert Children(MarketData) == {Technical, Fundamentals, Sentiment, Valuation, MacroNews};
    assert Children(MarketData) <= Stages;
    EdgesOutOfNode(Start);
  }

  /** Both researchers wait for the same four analysts. */
  lemma ResearchersShareInputs()
    ensures Preds(Stages, Edges, ResearcherBull) == {Technical, Fundamentals, Sentiment, Valuation}
    ensures Preds(Stages, Edges, ResearcherBear) == {Technical, Fundamentals, Sentiment, Valuation}
  {
    PredsAre(Stages, ResearcherBull);
    PredsAre(Stages, ResearcherBear);
    assert Parents(ResearcherBull) == Parents(ResearcherBear) == {Technical, Fundamentals, Sentiment, Valuation};
    assert Parents(ResearcherBull) <= Stages;
  }

  /** The debate waits for exactly the two researchers. */
  lemma DebateJoin()
    ensures Preds(Stages, Edges, DebateRoom) == {ResearcherBull, ResearcherBear}
  {
    PredsAre(Stages, DebateRoom);
    assert Parents(DebateRoom) == {ResearcherBull, ResearcherBear};
    assert Parents(DebateRoom) <= Stages;
  }

  /** After the debate comes risk management, and the debate is its only
      parent. */
  lemma DebateToRisk()
    ensures Succs(Stages, Edges, DebateRoom) == {RiskManagement}
    ensures Preds(Stages, Edges, RiskManagement) == {DebateRoom}
  {
    SuccsAre(Stages, DebateRoom);
    assert Children(DebateRoom) == {RiskManagement} && RiskManagement in Stages;
    PredsAre(Stages, RiskManagement);
    assert Parents(RiskManagement) == {DebateRoom} && DebateRoom in Stages;
  }

  /** After risk management comes the macro analyst, and risk management
      is its only parent. */
  lemma RiskToMacroAnalyst()
    ensures Succs(Stages, Edges, RiskManagement) == {MacroAnalyst}
    ensures Preds(Stages, Edges, MacroAnalyst) == {RiskManagement}
  {
    SuccsAre(Stages, RiskManagement);
    assert Children(RiskManagement) == {MacroAnalyst} && MacroAnalyst in Stages;
    PredsAre(Stages, MacroAnalyst);
    assert Parents(MacroAnalyst) == {RiskManagement} && RiskManagement in Stages;
  }

  /** The portfolio manager joins the macro analyst and the news stage,
      and it alone leads to `END`. */
  lemma PortfolioJoin()
    ensures Preds(Stages, Edges, PortfolioManagement) == {MacroAnalyst, MacroNews}
    ensures forall n :: (n, End) in Edges <==> n == PortfolioManagement
  {
    PredsAre(Stages, PortfolioManagement);
    assert Parents(PortfolioManagement) == {MacroAnalyst, MacroNews};
    assert Parents(PortfolioManagement) <= Stages;
    EdgesIntoNode(End);
  }

  /** Among the stages, the portfolio manager is the only one with no
      successor. */
  lemma OnlyPortfolioIsSink(n: Node)
    requires n in Stages
    ensures Succs(Stages, Edges, n) == {} <==> n == PortfolioManagement
  {
    SuccsAre(Stages, n);
    if n == PortfolioManagement {
      assert Children(n) == {End} && End !in Stages;
    } else {
      var c := SomeChild(n);
      assert c in Children(n) * Stages;
    }
  }

  /** A child of each stage other than the portfolio manager, itself a
      stage. */
  function SomeChild(n: Node): (c: Node)
    requires n in Stages && n != PortfolioManagement
    ensures c in Children(n) && c in Stages
  {
    match n
    case MarketData => Technical
    case Technical => ResearcherBull
    case Fundamentals => ResearcherBull
    case Sentiment => ResearcherBull
    case Valuation => ResearcherBull
    case MacroNews => PortfolioManagement
    case ResearcherBull => DebateRoom
    case ResearcherBear => DebateRoom
    case DebateRoom => RiskManagement
    case RiskManagement => MacroAnalyst
    case MacroAnalyst => PortfolioManagement
  }

  lemma IsVertex(n: Node)
    ensures n in Vertices && Level(n) < 9
  {
    match n
    case Start =>
    case End =>
    case _ => assert n in Stages;
  }

  lemma HasParent(m: Node)
    requires m != Start
    ensures Preds(Vertices, Edges, m) != {}
  {
    PredsAre(Vertices, m);
    var p :| p in Parents(m);
    IsVertex(p);
    assert p in Parents(m) * Vertices;
  }

  lemma HasChild(m: Node)
    requires m != End
    ensures Succs(Vertices, Edges, m) != {}
  {
    SuccsAre(Vertices, m);
    var c :| c in Children(m);
    IsVertex(c);
    assert c in Children(m) * Vertices;
  }

  lemma OnlyStartIsSource()
    ensures forall m :: m in Vertices && m != Start ==> Preds(Vertices, Edges, m) != {}
  {
    forall m | m in Vertices && m != Start ensures Preds(Vertices, Edges, m) != {} {
      HasParent(m);
    }
  }

  lemma OnlyEndIsSink()
    ensures forall m :: m in Vertices && m != End ==> Succs(Vertices, Edges, m) != {}
  {
    forall m | m in Vertices && m != End ensures Succs(Vertices, Edges, m) != {} {
      HasChild(m);
    }
  }

  lemma LevelsBelowNine()
    ensures forall m :: m in Vertices ==> Level(m) < 9
  {
    forall m | m in Vertices ensures Level(m) < 9 {
      IsVertex(m);
    }
  }

  /** Every vertex is reachable from `START`. */
  lemma StartReachesEveryStage(n: Node)
    ensures Reaches(Edges, Start, n)
  {
    EntryReaches(Vertices, Edges, Level, Start, n) by {
      PipelineIsRanked();
      OnlyStartIsSource();
      IsVertex(n);
    }
  }

  /** Every vertex reaches `END`. */
  lemma EveryStageReachesEnd(n: Node)
    ensures Reaches(Edges, n, End)
  {
    ReachesExit(Vertices, Edges, Level, 9, End, n) by {
      PipelineIsRanked();
      OnlyEndIsSink();
      LevelsBelowNine();
      IsVertex(n);
    }
  }

  /** One sequential run of the pipeline under the barrier rule: every
      stage runs exactly once, after all of its parents, and the portfolio
      manager runs last. */
  method RunWorkflow() returns (order: seq<Node>)
    ensures IsSchedule(Stages, Edges, order)
    ensures |order| == 12 && order[11] == PortfolioManagement
  {
    var blocked;
    order, blocked := Schedule(Stages, Edges);
    PipelineIsRanked();
    RankedNeverStuck(Stages, Edges, Level, blocked);
    ScheduleLength(Stages, Edges, order);
    TwelveStages();
    LastIsSink(Stages, Edges, order);
    OnlyPortfolioIsSink(order[11]);
  }
}
