# A verified model of the ai_finance_agent core

This project models in Dafny the parts of the `ai_finance_agent`
repository that hold statable logic, and proves properties about them.

- **`ConfigStore`** (`config_store.dfy`, with the string helpers of
  `text.dfy`) models `AppConfig`, the dotted-path configuration store. It
  covers:
  - `get`, which walks nested dictionaries segment by segment;
  - `_set_config_value`, which creates missing intermediates;
  - `_update_config_recursive`, the deep merge;
  - `_override_with_env_vars`, which turns names into paths and coerces
    values.

  A configuration is a tree whose inner nodes are maps and whose leaves are
  values. The class `AppConfig` holds the data. `Get` only reads it and is
  proved against `Lookup`. `SetConfigValue` and `OverrideWithEnvVars`
  update it in place and are proved against `SetPath` and `ApplyEnv`. The
  deep merge `UpdateConfigRecursive` is a method of the module, not of the
  class: it returns the merged dictionary, proved equal to `DeepMerge`.
- **`TickerCache`** (`ticker_cache.dfy`) models `AShareTickerCache`, a
  cache of the A-share ticker table backed by an optional Redis store.
  - The cache state is the in-memory table, the last-fetched time and the
    Redis store. The store is a map from key to payload and expiry time, or
    `None` when there is no client.
  - Time, the outcome of the data-fetch function and Redis errors are
    parameters.
  - Each method of the class `AShareTickerCache` changes the state exactly
    as a pure transition function says (`Init`, `Load`, `Update`, `Save`,
    `Background`). The lemmas state the decision rules and facts about
    whole runs of calls.
- **`Scheduler`** (`scheduler.dfy`) is a sequential Kahn-style scheduler.
  It follows the join rule stated at `src/core/work_flow.py:63-66`: a stage
  runs only after all of its parents have finished.
- **`Workflow`** (`work_flow.dfy`) models the `StateGraph` builder calls
  of `src/core/work_flow.py`: twelve stages, the entry point and the edges.
  **`Pipeline`** (`pipeline.dfy`) proves the shape of the resulting graph:
  - the predecessor sets of the joins;
  - the graph is acyclic;
  - every stage lies on a path from `START` to `END`;
  - a run under the join rule executes each stage once and ends with the
    portfolio manager.
- **`RunParams`** (`run_params.dfy`) models the validation of the command
  line in `src/main.py`:
  - the end date is clamped to yesterday;
  - the start date defaults to a year earlier;
  - a start after the end is rejected;
  - the news count is bounded;
  - the initial portfolio is built.

A few places where the model and the repository's comments part ways:

- The comment at `src/config/config.py:51` says that
  `APP_STRATEGY_RISK_TOLERANCE` maps to `strategy.risk_tolerance`. The code
  on line 52 only turns a double underscore into a dot, so the path is the
  single top-level key `strategy_risk_tolerance`. The model follows the
  code: a name without a double underscore becomes one lower-cased key
  (`SingleUnderscoresSurvive`).
- The `int` branch of the value coercion can never be taken. A string of
  digits already passes the `float` test before it (`CoerceNeverInt`).
- Without a Redis client, `AShareTickerCache` never fills its in-memory
  table: the table is written only after a successful Redis write. The
  model keeps this behaviour and proves it (`NoRedisTableFrozen`).
  A TTL override from an `APP_` variable is coerced to a float, so no save
  succeeds (redis-py sends the float TTL as `3600.0`, which `SETEX`
  rejects). The table then only ever holds what an earlier writer stored
  under the key, which `_load_from_redis` still reads. In the model every
  save then fails (`saveError`), while a load of a live key still fills
  the table.
- The join rule is the one the comment at `src/core/work_flow.py:66`
  states: a stage runs once all of its parents have finished. The
  scheduler `Scheduler.Schedule` models that rule. The repository leaves
  execution to LangGraph, and whether LangGraph waits for all parents when
  they are wired by separate `add_edge` calls is not established here.

## Model

| member | source | states |
|---|---|---|
| ConfigStore.AppConfig.Get | src/config/config.py:78-87 | `get` returns the tree reached by following every dot-separated segment of the key, and `default` (possibly `None`) when a segment is missing or a non-dictionary is met on the way |
| ConfigStore.LookupSucceedsIff | src/config/config.py:82-86 | the walk finds a value exactly when, at every position, the prefix before it leads to a dictionary that holds the next segment |
| ConfigStore.AppConfig.SetConfigValue | src/config/config.py:66-75 | the configuration after `_set_config_value` is the old one with the value written at the path, missing or non-dictionary intermediates replaced by fresh dictionaries |
| ConfigStore.WalkDown | src/config/config.py:68-75 | the walk down the path records, before each step, exactly the dictionary `SetPath` descends into, fresh where the key is missing or not a dictionary |
| ConfigStore.Rebuild | src/config/config.py:68-75 | putting the value into the last dictionary and writing each changed dictionary back into its parent gives exactly `SetPath` |
| ConfigStore.SetThenGet | src/config/config.py:66-87 | after a write along a non-empty path, looking up that path returns the written value |
| ConfigStore.SetThenGetKey | src/config/config.py:64-87 | after a write along `key.split('.')`, `get(key)` returns the written value |
| ConfigStore.SetPathKeepsOtherPaths | src/config/config.py:69-75 | a write leaves the lookup of every path that branches off the written path unchanged |
| ConfigStore.SetPathIntermediates | src/config/config.py:72-75 | after a write, every intermediate on the path is a dictionary holding the next segment and keeping all its other former keys |
| ConfigStore.DeepMerge | src/config/config.py:37-44 | the merged dictionary's keys are the union of the base's and the override's keys |
| ConfigStore.UpdateConfigRecursive | src/config/config.py:37-44 | the in-place update loop, recursing into nested dictionaries, produces exactly the deep merge |
| ConfigStore.MergeOverrideWins | src/config/config.py:39-43 | whatever the override holds at a path is in the merge at that path, unless both sides hold dictionaries there |
| ConfigStore.MergeBaseSurvives | src/config/config.py:39-44 | what the base holds at a path survives when the override has nothing there and only dictionaries on the way |
| ConfigStore.AppConfig.OverrideWithEnvVars | src/config/config.py:46-64 | the configuration after the override is the old one with each prefixed variable, in enumeration order, converted to a path and a coerced value and written with `_set_config_value` |
| ConfigStore.AppConfig.constructor | src/config/config.py:31-34 | the configuration is the loaded file contents with the `APP_` environment overrides applied |
| ConfigStore.Prefixed | src/config/config.py:48-49 | a variable is kept exactly when it is in the environment and its name starts with the prefix |
| ConfigStore.PrefixedAppend | src/config/config.py:48-49 | filtering keeps enumeration order: the filter of two consecutive parts of the environment is the filter of the first followed by the filter of the second |
| ConfigStore.PrefixedSingle | src/config/config.py:48-49 | a single variable is kept exactly when its name starts with the prefix |
| ConfigStore.OnlyPrefixedApplied | src/config/config.py:48-49 | applying the whole environment is the same as applying only the variables whose name starts with the prefix |
| ConfigStore.EnvVarVisible | src/config/config.py:48-64 | after the override, `get` on a variable's path returns its coerced value, unless a later variable writes along a path that does not branch off it |
| ConfigStore.EnvPathHasNoDoubleUnderscore | src/config/config.py:52 | the converted path contains no double underscore: every `__` became a separator |
| ConfigStore.DoubleUnderscoreSeparates | src/config/config.py:52 | a segment without `__` that does not end in `_`, then `__`, then any rest, becomes the segment, `.`, and the converted rest; so separators chain, and a rest without `__` is kept as it is |
| ConfigStore.NestedKeyExample | src/config/config.py:52 | `APP_A_B__C_D` becomes the path `a_b.c_d`: double underscores nest, single ones stay inside a key |
| ConfigStore.SingleUnderscoresSurvive | src/config/config.py:51-52 | a prefixed name whose rest has no double underscore and no dot becomes one path segment, the lower-cased rest with its single underscores kept |
| ConfigStore.SingleUnderscoreExample | src/config/config.py:51-52 | `APP_A_B` becomes the single key `a_b`, not the path `a.b` |
| ConfigStore.CoerceCases | src/config/config.py:55-62 | case-insensitive `true`/`false` become booleans; text of digits with at most one dot and at least one digit becomes a float of that text; anything else stays a string, in each case if and only if |
| ConfigStore.CoerceNeverInt | src/config/config.py:58-59 | the `int` branch of the coercion is never taken |
| Text.RemoveFirstDotIsDigits | src/config/config.py:58 | `value.replace('.', '', 1).isdigit()` holds exactly for digits with at most one dot and at least one digit |
| Text.JoinSplit | src/config/config.py:80 | joining the pieces of `split` gives back the key |
| Text.SplitPiecesOmitSeparator | src/config/config.py:80 | no piece of `split` contains the separator |
| TickerCache.SettingsFrom | src/data_store/AShareTickerCache.py:38-40 | the key, TTL and update interval are the configured ones, or `ashare_tickers_df`, 86400 and 3600 seconds when absent |
| TickerCache.AShareTickerCache.constructor | src/data_store/AShareTickerCache.py:28-61 | the new cache has the settings read from the configuration with their defaults, is the empty cache after `_init_cache`, and has its update timer armed one interval ahead |
| TickerCache.AShareTickerCache.InitCache | src/data_store/AShareTickerCache.py:63-81 | the state after `_init_cache` is the `Init` transition of the old state |
| TickerCache.AShareTickerCache.LoadFromRedis | src/data_store/AShareTickerCache.py:83-103 | the state after `_load_from_redis` is the `Load` transition of the old state |
| TickerCache.AShareTickerCache.UpdateTickersFromSource | src/data_store/AShareTickerCache.py:105-127 | the state after `update_tickers_from_source` is the `Update` transition of the old state |
| TickerCache.AShareTickerCache.SaveToRedis | src/data_store/AShareTickerCache.py:129-144 | the state after `_save_to_redis` is the `Save` transition of the old state |
| TickerCache.AShareTickerCache.StartAutoUpdater | src/data_store/AShareTickerCache.py:146-150 | the next background check is due one update interval from now |
| TickerCache.AShareTickerCache.CheckForUpdatesBackground | src/data_store/AShareTickerCache.py:152-170 | the state after the background check is the `Background` transition of the old state, and the check is re-armed |
| TickerCache.AShareTickerCache.GetTickersDf | src/data_store/AShareTickerCache.py:172-174 | returns the current table and changes nothing |
| TickerCache.FreshSkipsUpdate | src/data_store/AShareTickerCache.py:109-112 | a non-forced update changes nothing while the last fetch is younger than the TTL |
| TickerCache.FailedFetchChangesNothing | src/data_store/AShareTickerCache.py:115-127 | a fetch that raises, returns nothing or returns an empty table changes nothing |
| TickerCache.SameTickersChangeNothing | src/data_store/AShareTickerCache.py:119-120 | when the cache is non-empty and the fetched ticker set equals the cached one, nothing changes |
| TickerCache.UpdateOutcomes | src/data_store/AShareTickerCache.py:105-141 | an update either changes nothing or, with a client, sets the table to the fetched rows, the fetch time to now, and the key to the rows with the TTL |
| TickerCache.SaveThenLoad | src/data_store/AShareTickerCache.py:83-141 | a saved table is loaded back unchanged at any time before its TTL runs out |
| TickerCache.LoadMissOrBadPayload | src/data_store/AShareTickerCache.py:96-103 | a missing, expired, empty or undecodable key, or a Redis error, empties the table and forgets the fetch time |
| TickerCache.InitWithRedis | src/data_store/AShareTickerCache.py:69-79 | with a client, `_init_cache` refreshes from the source exactly when the loaded table is empty |
| TickerCache.InitWithoutRedis | src/data_store/AShareTickerCache.py:69-79 | without a client, `_init_cache` refreshes when the table is empty or older than the TTL |
| TickerCache.BackgroundFreshKeepsState | src/data_store/AShareTickerCache.py:158-168 | with a live key and a fetch no older than the update interval, the background check changes nothing |
| TickerCache.BackgroundWithoutRedis | src/data_store/AShareTickerCache.py:158-166 | without a client the key never exists, so every background check forces an update |
| TickerCache.NoRedisTableFrozen | src/data_store/AShareTickerCache.py:131-133 | without a client, no sequence of calls changes the cache state |
| TickerCache.RunKeepsTimestamp | src/data_store/AShareTickerCache.py:83-144 | every sequence of calls keeps a non-empty table paired with a fetch time |
| Scheduler.Schedule | src/core/work_flow.py:63-66 | the run dispatches distinct nodes, each only after all its predecessors; the nodes left over are each waiting on another left-over node |
| Scheduler.RankedNeverStuck | src/core/work_flow.py:63-66 | in a graph with a rank that grows along every edge, no set of nodes is stuck, so the run dispatches every node |
| Scheduler.LastIsSink | src/core/work_flow.py:63-71 | the last node of a complete run has no successor |
| Scheduler.ReadyAfterDone | src/core/work_flow.py:63-66 | finishing a node makes ready exactly its successors whose last missing parent it was, besides the nodes already ready |
| Scheduler.DispatchKeepsProgress | src/core/work_flow.py:63-66 | dispatching a ready node keeps the run's record exact (each node once, after its predecessors) and leaves fewer nodes to run |
| Scheduler.NothingReadyIsStuck | src/core/work_flow.py:63-66 | when no node is ready, every node not yet run waits on another node not yet run |
| Scheduler.ScheduleLength | src/core/work_flow.py:63-66 | a complete run has exactly as many steps as there are nodes |
| Scheduler.EntryReaches | src/core/work_flow.py:36-71 | in a ranked graph where every node but the entry has a predecessor, the entry reaches every node |
| Scheduler.ReachesExit | src/core/work_flow.py:36-71 | in a ranked graph with bounded ranks where every node but the exit has a successor, every node reaches the exit |
| Workflow.StateGraph.constructor | src/core/work_flow.py:19 | a new builder has no stages and no edges |
| Workflow.StateGraph.AddNode | src/core/work_flow.py:22-33 | `add_node` appends the stage, refusing a reserved or already registered one, and touches no edge |
| Workflow.StateGraph.AddEdge | src/core/work_flow.py:39-71 | `add_edge` adds the edge, refusing `END` as a source and `START` as a target |
| Workflow.StateGraph.SetEntryPoint | src/core/work_flow.py:36 | `set_entry_point` adds the edge from `START` to the stage |
| Workflow.StateGraph.Compile | src/core/work_flow.py:73 | `compile` succeeds exactly when every edge leaves `START` or a stage, `START` has an edge, and every edge enters `END` or a stage; it returns the graph of the registered stages and edges. A failing check gives `UnknownNode` for an unknown source or target and `NoEntryPoint` for a missing entry, checked in that order |
| Workflow.NamesDistinct | src/core/work_flow.py:22-33 | distinct vertices have distinct registered names, so the enumeration stands for the builder's string keys |
| Workflow.BuildWorkflow | src/core/work_flow.py:19-73 | every builder call of the module succeeds (each result is checked), and the compiled graph is the declared pipeline |
| Workflow.Connect | src/core/work_flow.py:39-71 | an `add_edge` call whose edge neither leaves `END` nor enters `START` succeeds and adds exactly that edge |
| Workflow.AddFourNodes | src/core/work_flow.py:22-33 | `add_node` calls with fresh, distinct, unreserved names all succeed and append the names in order |
| Workflow.DeclaredGraphCompiles | src/core/work_flow.py:22-73 | the registered stages are the twelve stages, and the declared edges pass the compile checks |
| Pipeline.TwelveStages | src/core/work_flow.py:22-33 | twelve distinct stages are registered |
| Pipeline.EntryFansOut | src/core/work_flow.py:36-44 | only `START` precedes `market_data_agent`, no stage does, `START` leads only to it, and it fans out to exactly the four analysts and the news stage |
| Pipeline.ResearchersShareInputs | src/core/work_flow.py:47-55 | the bull and bear researchers each wait for exactly the four analysts |
| Pipeline.DebateJoin | src/core/work_flow.py:57-58 | the debate waits for exactly the two researchers |
| Pipeline.DebateToRisk | src/core/work_flow.py:60 | risk management is the debate's only successor, and the debate is its only parent |
| Pipeline.RiskToMacroAnalyst | src/core/work_flow.py:61 | the macro analyst is risk management's only successor, and risk management is its only parent |
| Pipeline.PortfolioJoin | src/core/work_flow.py:63-71 | the portfolio manager waits for exactly the macro analyst and the news stage, and it alone leads to `END` |
| Pipeline.OnlyPortfolioIsSink | src/core/work_flow.py:63-71 | among the stages, only the portfolio manager has no successor |
| Pipeline.PipelineIsRanked | src/core/work_flow.py:36-71 | every edge leads to a deeper level, so the graph is acyclic |
| Pipeline.StartReachesEveryStage | src/core/work_flow.py:36-71 | every vertex is reachable from `START` |
| Pipeline.EveryStageReachesEnd | src/core/work_flow.py:36-71 | every vertex reaches `END` |
| Pipeline.RunWorkflow | src/core/work_flow.py:63-68 | a run under the join rule executes all twelve stages, each once and after its parents, and the portfolio manager comes last |
| RunParams.EndTime | src/main.py:55-58 | the end instant is yesterday when no end date is given, and otherwise the earlier of the given date and yesterday, so never after yesterday |
| RunParams.StartTime | src/main.py:59-62 | the start instant is the given date, or exactly 365 days before the end |
| RunParams.Validate | src/main.py:46-69 | the parameters are accepted exactly when the start is not after the end and the news count (default 5) lies in 1..100; the first failing check names the error; an accepted run carries exactly the computed start and end instants (so start <= end <= yesterday), the count and the portfolio of the given or default capital and position |
| RunParams.EndDayBeforeToday | src/main.py:55-58 | the end date's day is before today's day |
| RunParams.DefaultStartIsAYearEarlier | src/main.py:59-60 | the default start date is exactly 365 calendar days before the end date |
| RunParams.DefaultsAccepted | src/main.py:46-69 | with no options, the run covers the year before yesterday, reads 5 news articles, and starts with 100000.0 cash and no stock |

## Left out

- YAML file loading in `_load_config`, including the missing-file error and an empty file that gives `None`. The loaded contents are a constructor parameter.
- The singletons: `__new__` in `AppConfig` and in `AShareTickerCache`. Each object is constructed once, directly.
- `os.environ` is passed in as a sequence of name/value pairs in enumeration order.
- `str.lower()` and `str.isdigit()` are modelled for ASCII only. Other Unicode letters and digits are ordinary characters.
- ConfigStore.Coerce: a float keeps its text, because float parsing and rounding are not modelled. The `ValueError` fallback of `src/config/config.py:61-62` is unreachable for ASCII input. In Python it is reachable with non-ASCII digits such as `'²'`, which pass `isdigit()` but not `float()`; those stay strings, which is what the ASCII-only model gives them too.
- Dictionaries are values, so the aliasing of `_update_config_recursive` writing into `base_dict` is not modelled.
- ConfigStore.SetPathKeepsOtherPaths: dictionaries shared by a YAML anchor and its alias are one object in Python, so an in-place write by `_set_config_value` through one path is visible through the other. The tree model has no sharing, so the lemma holds for it but not for configurations that use aliases.
- Configuration keys are strings and leaves are booleans, numbers or strings. YAML `null` leaves and non-string keys (which `get` never matches) are not represented.
- Redis networking is reduced to an optional map from key to payload and expiry time. JSON (de)serialisation is a payload tag. pandas DataFrames are sequences of ticker records.
- A Redis error from `EXISTS` is not modelled; it would escape the methods.
- TickerCache.AShareTickerCache.CheckForUpdatesBackground: always re-arms the timer. In the source an `EXISTS` error at `src/data_store/AShareTickerCache.py:162` escapes before `_start_auto_updater()` at line 170 runs, so background refreshes stop for good; the model has no such error.
- One call to `time.time()` per method. Time does not advance within one call.
- The connection attempt in `__new__`: a failed connection is `redis == None`. A missing data-fetch function is not modelled, since the fetch outcome is a parameter.
- TickerCache.AShareTickerCache.StartAutoUpdater: the `threading.Timer`, the daemon thread and the `Lock` are concurrency. The timer is a due time, and one background check is one method call.
- LangGraph's runtime: parallel execution of branches, the state merge and failure handling. Only the declared topology and the join rule stated in the comment at `src/core/work_flow.py:66` are modelled, as a sequential scheduler. LangGraph may instead trigger a stage separately for each parent edge added with its own `add_edge` call (its all-parents form is `add_edge([a, b], n)`); that behaviour is not modelled, and in it `portfolio_management_agent` could run after `macro_news_agent` alone.
- The stage implementations imported in `work_flow.py`. They are opaque.
- Workflow.StateGraph.Compile: its three checks are LangGraph's own graph validation. That library is not part of this model; `src/core/work_flow.py:73` only calls `compile()`, so the checks follow LangGraph's documented rules rather than code shown here. Stages are an enumeration rather than arbitrary strings, and registered actions are not modelled.
- `argparse`, `strptime`/`strftime`, the uvicorn thread and the output redirection in `src/main.py`. Dates are whole seconds, and a given date is the midnight starting its day.
- RunParams.Validate: the initial capital is a `real`, not a binary float.
- `src/core/hedge_fund.py`, `backend/`, the frontend, `ai_finance_agent.py` and `src/data_store/ticker_info.py`. These are LLM, web, UI and report plumbing, or type declarations, and are not part of this model.
