/** The dotted-path configuration store `AppConfig` of src/config/config.py.
    A configuration is a tree of nested dictionaries; leaves hold values.
    Paths are dot-separated keys such as `ticker_data.redis_key`. */
module ConfigStore {
  import opened Wrappers
  import opened Text

  /** A configuration value. `Float` keeps the text it was coerced from
      instead of a floating-point number. */
  datatype Value = Bool(b: bool) | Float(digits: string) | Int(n: int) | Str(s: string)

  datatype Tree = Leaf(value: Value) | Node(children: map<string, Tree>)

  type Dict = map<string, Tree>

  /** Follows `parts` from `t`; `None` as soon as a segment is missing or
      the value reached is not a dictionary. */
  function Walk(t: Tree, parts: seq<string>): Option<Tree>
  {
    if parts == [] then Some(t)
    else if t.Node? && parts[0] in t.children then Walk(t.children[parts[0]], parts[1..])
    else None
  }

  function Lookup(d: Dict, parts: seq<string>): Option<Tree>
  {
    Walk(Node(d), parts)
  }

  lemma LookupStep(d: Dict, q: seq<string>)
    requires q != []
    ensures Lookup(d, q) == if q[0] in d then Walk(d[q[0]], q[1..]) else None
  {
  }

  /** The dictionary found at key `k`, or a fresh empty one when `k` is
      missing or holds a non-dictionary. */
  function ChildDict(d: Dict, k: string): Dict
  {
    if k in d && d[k].Node? then d[k].children else map[]
  }

  /** What `_set_config_value` leaves behind: the last segment is assigned
      `v`, every earlier segment is descended into, after being replaced by
      an empty dictionary when it is missing or not a dictionary. */
  function SetPath(d: Dict, parts: seq<string>, v: Tree): Dict
    decreases |parts|
  {
    if parts == [] then d
    else if |parts| == 1 then d[parts[0] := v]
    else d[parts[0] := Node(SetPath(ChildDict(d, parts[0]), parts[1..], v))]
  }

  /** What `_update_config_recursive(base, override)` returns: override
      values win, except that two dictionaries under the same key are
      merged recursively. */
  function DeepMerge(base: Dict, over: Dict): (r: Dict)
    ensures r.Keys == base.Keys + over.Keys
    decreases Node(over)
  {
    map k | k in base.Keys + over.Keys ::
      if k !in over then base[k]
      else if over[k].Node? && k in base && base[k].Node?
      then Node(DeepMerge(base[k].children, over[k].children))
      else over[k]
  }

  /** The value coercion of `_override_with_env_vars`, in the source's
      order: booleans, then `float`, then `int`, then the string itself. */
  function Coerce(value: string): Value
  {
    if Lower(value) == "true" then Bool(true)
    else if Lower(value) == "false" then Bool(false)
    else if IsDigits(RemoveFirst(value, '.')) then Float(value)
    else if IsDigits(value) then Int(DigitsValue(value))
    else Str(value)
  }

  function DigitsValue(s: string): nat
    decreases |s|
  {
    if s == [] then 0
    else DigitsValue(s[..|s| - 1]) * 10 + (if IsAsciiDigit(s[|s| - 1]) then s[|s| - 1] as int - '0' as int else 0)
  }

  /** The environment-variable name to configuration path conversion:
      strip the prefix, turn `__` into `.`, lower-case. */
  function EnvPath(name: string, prefix: string): string
    requires StartsWith(name, prefix)
  {
    Lower(ReplaceDoubleUnderscore(name[|prefix|..]))
  }

  /** One environment variable applied to `d`: unchanged unless its name
      starts with `prefix`. */
  function ApplyVar(d: Dict, name: string, value: string, prefix: string): Dict
  {
    if StartsWith(name, prefix)
    then SetPath(d, Split(EnvPath(name, prefix), '.'), Leaf(Coerce(value)))
    else d
  }

  /** All variables of `env`, applied in order. */
  function ApplyEnv(d: Dict, env: seq<(string, string)>, prefix: string): Dict
    decreases |env|
  {
    if env == [] then d
    else
      var last := env[|env| - 1];
      ApplyVar(ApplyEnv(d, env[..|env| - 1], prefix), last.0, last.1, prefix)
  }

  /** The singleton `AppConfig`: its configuration data, and the methods
      that read and update it. */
  class AppConfig {
    var data: Dict

    /** `_load_config`: the loaded file contents, then the `APP_`
        environment overrides. */
    constructor (loaded: Dict, env: seq<(string, string)>)
      ensures data == ApplyEnv(loaded, env, "APP_")
    {
      data := loaded;
      new;
      OverrideWithEnvVars(env, "APP_");
    }

    /** `get(key, default)`: the value at the dotted path `key`, or
        `default` when the path does not lead anywhere. Python's `None`,
        the default of `default`, is `None` here. */
    method Get(key: string, default: Option<Tree>) returns (r: Option<Tree>)
      ensures Lookup(data, Split(key, '.')).Some? ==> r == Lookup(data, Split(key, '.'))
      ensures Lookup(data, Split(key, '.')).None? ==> r == default
    {
      var parts := Split(key, '.');
      var current := Node(data);
      var i := 0;
      while i < |parts|
        invariant 0 <= i <= |parts|
        invariant Walk(current, parts[i..]) == Lookup(data, parts)
      {
        if current.Node? && parts[i] in current.children {
          assert parts[i..][1..] == parts[i + 1..];
          current := current.children[parts[i]];
          i := i + 1;
        } else {
          return default;
        }
      }
      assert parts[i..] == [];
      r := Some(current);
    }

    /** `_set_config_value(self._config_data, path_parts, value)`. The walk
        down the path records each dictionary it passes; the assignments
        into nested dictionaries are then replayed bottom-up. */
    method SetConfigValue(parts: seq<string>, value: Tree)
      modifies this
      ensures data == SetPath(old(data), parts, value)
    {
      if parts == [] {
        return;
      }
      var visited, current := WalkDown(data, parts);
      data := Rebuild(data, parts, visited, current, value);
    }

    /** `_override_with_env_vars(self._config_data, prefix)` over the
        environment given as name/value pairs in enumeration order. */
    method OverrideWithEnvVars(env: seq<(string, string)>, prefix: string)
      modifies this
      ensures data == ApplyEnv(old(data), env, prefix)
    {
      var i := 0;
      while i < |env|
        invariant 0 <= i <= |env|
        invariant data == ApplyEnv(old(data), env[..i], prefix)
      {
        var (name, value) := env[i];
        assert env[..i + 1][..i] == env[..i];
        if StartsWith(name, prefix) {
          var path := Lower(ReplaceDoubleUnderscore(name[|prefix|..]));
          var val := Coerce(value);
          SetConfigValue(Split(path, '.'), Leaf(val));
        }
        i := i + 1;
      }
      assert env[..i] == env;
    }
  }

  /** `_update_config_recursive(base, override)`: each key of `override` is
      written into a copy of `base`, recursing where both sides hold a
      dictionary. */
  method UpdateConfigRecursive(base: Dict, over: Dict) returns (merged: Dict)
    ensures merged == DeepMerge(base, over)
    decreases Node(over)
  {
    merged := base;
    var todo := over.Keys;
    while todo != {}
      invariant todo <= over.Keys
      invariant merged.Keys == base.Keys + (over.Keys - todo)
      invariant forall k :: k in merged && k !in todo ==> merged[k] == DeepMerge(base, over)[k]
      invariant forall k :: k in todo && k in base ==> merged[k] == base[k]
      decreases todo
    {
      var k :| k in todo;
      if over[k].Node? && k in merged && merged[k].Node? {
        var sub := UpdateConfigRecursive(merged[k].children, over[k].children);
        merged := merged[k := Node(sub)];
      } else {
        merged := merged[k := over[k]];
      }
      todo := todo - {k};
    }
  }

  /** The dictionary reached after descending `i` segments of `parts` the
      way `_set_config_value` does. */
  function Descend(d: Dict, parts: seq<string>, i: nat): Dict
    requires i <= |parts|
  {
    if i == 0 then d else ChildDict(Descend(d, parts, i - 1), parts[i - 1])
  }

  /** The first pass of `_set_config_value`: walks down all but the last
      segment, replacing a missing or non-dictionary child by an empty
      dictionary, and records every dictionary it passes. */
  method WalkDown(d: Dict, parts: seq<string>) returns (visited: seq<Dict>, current: Dict)
    requires |parts| > 0
    ensures |visited| == |parts| - 1
    ensures forall j :: 0 <= j < |visited| ==> visited[j] == Descend(d, parts, j)
    ensures current == Descend(d, parts, |parts| - 1)
  {
    visited := [];
    current := d;
    var i := 0;
    while i < |parts| - 1
      invariant 0 <= i <= |parts| - 1
      invariant |visited| == i
      invariant forall j :: 0 <= j < i ==> visited[j] == Descend(d, parts, j)
      invariant current == Descend(d, parts, i)
    {
      VisitedSnoc(d, parts, visited, current);
      visited := visited + [current];
      current := ChildDict(current, parts[i]);
      i := i + 1;
    }
  }

  /** Recording the dictionary reached after `|visited|` steps keeps the
      record of the walk exact. */
  lemma VisitedSnoc(d: Dict, parts: seq<string>, visited: seq<Dict>, current: Dict)
    requires |visited| < |parts|
    requires forall j :: 0 <= j < |visited| ==> visited[j] == Descend(d, parts, j)
    requires current == Descend(d, parts, |visited|)
    ensures forall j :: 0 <= j < |visited| + 1 ==> (visited + [current])[j] == Descend(d, parts, j)
  {
  }

  /** The second pass of `_set_config_value`: writes the value into the
      innermost dictionary and each dictionary into its parent, bottom-up;
      the result is the configuration with the value set at the path. */
  method Rebuild(d: Dict, parts: seq<string>, visited: seq<Dict>, current: Dict, value: Tree) returns (acc: Dict)
    requires |parts| > 0 && |visited| == |parts| - 1
    requires forall j :: 0 <= j < |visited| ==> visited[j] == Descend(d, parts, j)
    requires current == Descend(d, parts, |parts| - 1)
    ensures acc == SetPath(d, parts, value)
  {
    var i := |parts| - 1;
    LastStep(d, parts, value);
    acc := current[parts[i] := value];
    while i > 0
      invariant 0 <= i <= |parts| - 1
      invariant acc == SetPath(Descend(d, parts, i), parts[i..], value)
    {
      i := i - 1;
      RebuildStep(d, parts, i, value);
      acc := visited[i][parts[i] := Node(acc)];
    }
    assert parts[0..] == parts;
  }

  /** The innermost assignment of `SetConfigValue`. */
  lemma LastStep(d: Dict, parts: seq<string>, v: Tree)
    requires |parts| > 0
    ensures SetPath(Descend(d, parts, |parts| - 1), parts[|parts| - 1..], v)
         == Descend(d, parts, |parts| - 1)[parts[|parts| - 1] := v]
  {
    assert parts[|parts| - 1..] == [parts[|parts| - 1]];
  }

  /** One assignment of the bottom-up replay in `SetConfigValue`. */
  lemma RebuildStep(d: Dict, parts: seq<string>, i: nat, v: Tree)
    requires i + 1 < |parts|
    ensures SetPath(Descend(d, parts, i), parts[i..], v)
         == Descend(d, parts, i)[parts[i] := Node(SetPath(Descend(d, parts, i + 1), parts[i + 1..], v))]
  {
    assert parts[i..][0] == parts[i] && parts[i..][1..] == parts[i + 1..];
  }

  // ---------------------------------------------------------------------
  // Properties of `get` and `_set_config_value`

  /** Set-then-get round trip: after writing `v` along a non-empty path,
      looking the path up returns `v`. */
  lemma {:induction false} SetThenGet(d: Dict, parts: seq<string>, v: Tree)
    requires parts != []
    ensures Lookup(SetPath(d, parts, v), parts) == Some(v)
    decreases |parts|
  {
    if |parts| > 1 {
      SetThenGet(ChildDict(d, parts[0]), parts[1..], v);
    } else {
      var d' := SetPath(d, parts, v);
      assert d' == d[parts[0] := v];
      assert Walk(v, parts[1..]) == Some(v) by { assert parts[1..] == []; }
      assert Walk(Node(d'), parts) == Walk(d'[parts[0]], parts[1..]);
    }
  }

  /** The same round trip for a dotted key, as `get` receives it. */
  lemma SetThenGetKey(d: Dict, key: string, v: Tree)
    ensures Lookup(SetPath(d, Split(key, '.'), v), Split(key, '.')) == Some(v)
  {
    SetThenGet(d, Split(key, '.'), v);
  }

  predicate Diverge(p: seq<string>, q: seq<string>) {
    exists i :: 0 <= i < |p| && i < |q| && p[i] != q[i]
  }

  /** A write along `p` does not disturb a lookup along any path `q` that
      branches off `p`. */
  lemma {:induction false} SetPathKeepsOtherPaths(d: Dict, p: seq<string>, v: Tree, q: seq<string>)
    requires Diverge(p, q)
    ensures Lookup(SetPath(d, p, v), q) == Lookup(d, q)
    decreases |p|
  {
    var i :| 0 <= i < |p| && i < |q| && p[i] != q[i];
    if p[0] != q[0] {
    } else {
      assert i > 0;
      assert p[1..][i - 1] != q[1..][i - 1];
      SetPathKeepsOtherPaths(ChildDict(d, p[0]), p[1..], v, q[1..]);
      if !(q[0] in d && d[q[0]].Node?) {
        assert q[1..] != [];
        assert Lookup(map[], q[1..]) == None;
        if q[0] in d {
          assert Walk(d[q[0]], q[1..]) == None;
        }
        assert Lookup(d, q) == None;
      }
    }
  }

  /** Children of the dictionary at an optional tree, or none. */
  function Children(t: Option<Tree>): Dict {
    if t.Some? && t.value.Node? then t.value.children else map[]
  }

  /** Every intermediate of the path is a dictionary afterwards; it keeps
      the keys it had (a missing or non-dictionary intermediate counts as
      an empty dictionary) apart from the one the path continues through. */
  lemma {:induction false} SetPathIntermediates(d: Dict, p: seq<string>, v: Tree, j: nat)
    requires j < |p|
    ensures var after := Lookup(SetPath(d, p, v), p[..j]);
            && after.Some? && after.value.Node?
            && p[j] in after.value.children
            && after.value.children - {p[j]} == Children(Lookup(d, p[..j])) - {p[j]}
    decreases j
  {
    if j > 0 {
      var c := ChildDict(d, p[0]);
      SetPathIntermediates(c, p[1..], v, j - 1);
      assert p[..j][1..] == p[1..][..j - 1];
      assert p[..j][0] == p[0];
      assert |p| > 1;
      assert SetPath(d, p, v)[p[0]] == Node(SetPath(c, p[1..], v));
      LookupStep(SetPath(d, p, v), p[..j]);
      LookupStep(d, p[..j]);
      assert Lookup(SetPath(d, p, v), p[..j]) == Lookup(SetPath(c, p[1..], v), p[1..][..j - 1]);
      if p[0] in d && d[p[0]].Node? {
        assert Lookup(d, p[..j]) == Lookup(c, p[1..][..j - 1]);
      } else {
        assert Children(Lookup(d, p[..j])) == map[];
        LookupInEmpty(p[1..][..j - 1]);
      }
    }
  }

  lemma LookupInEmpty(q: seq<string>)
    ensures Children(Lookup(map[], q)) == map[]
  {
  }

  /** One step of the walk at position `j` of `q` succeeds: the prefix
      before it leads to a dictionary that has the next segment. */
  predicate StepOk(d: Dict, q: seq<string>, j: nat)
    requires j < |q|
  {
    var at := Lookup(d, q[..j]);
    at.Some? && at.value.Node? && q[j] in at.value.children
  }

  lemma {:induction false} WalkSnoc(t: Tree, s: seq<string>, x: string)
    ensures Walk(t, s + [x]) ==
      if Walk(t, s).Some? && Walk(t, s).value.Node? && x in Walk(t, s).value.children
      then Some(Walk(t, s).value.children[x]) else None
    decreases |s|
  {
    if s == [] {
      assert [x][1..] == [];
    } else {
      assert (s + [x])[0] == s[0] && (s + [x])[1..] == s[1..] + [x];
      if t.Node? && s[0] in t.children {
        WalkSnoc(t.children[s[0]], s[1..], x);
      }
    }
  }

  /** `get`'s walk, restated: the lookup succeeds exactly when every step
      along the path finds a dictionary holding the next segment; so it
      gives up as soon as a segment is missing or a non-dictionary is
      reached. */
  lemma {:induction false} LookupSucceedsIff(d: Dict, q: seq<string>)
    ensures Lookup(d, q).Some? <==> forall j :: 0 <= j < |q| ==> StepOk(d, q, j)
    decreases |q|
  {
    if q != [] {
      var q', x := q[..|q| - 1], q[|q| - 1];
      assert q == q' + [x];
      LookupSucceedsIff(d, q');
      WalkSnoc(Node(d), q', x);
      forall j | 0 <= j < |q'| ensures StepOk(d, q, j) == StepOk(d, q', j) {
        assert q[..j] == q'[..j];
      }
      assert q[..|q'|] == q';
      assert StepOk(d, q, |q'|) <==>
        (Lookup(d, q').Some? && Lookup(d, q').value.Node? && x in Lookup(d, q').value.children);
      if Lookup(d, q).Some? {
        forall j | 0 <= j < |q| ensures StepOk(d, q, j) {
          if j < |q'| { assert StepOk(d, q', j); }
        }
      } else if Lookup(d, q').Some? {
        assert !StepOk(d, q, |q'|);
      } else {
        var j :| 0 <= j < |q'| && !StepOk(d, q', j);
        assert !StepOk(d, q, j);
      }
    }
  }

  // ---------------------------------------------------------------------
  // Properties of `_update_config_recursive`

  /** Whatever the override holds at a path is what the merge holds there,
      unless both sides hold a dictionary there (then they are merged). */
  lemma {:induction false} MergeOverrideWins(base: Dict, over: Dict, q: seq<string>, t: Tree)
    requires Lookup(over, q) == Some(t)
    requires !(t.Node? && Lookup(base, q).Some? && Lookup(base, q).value.Node?)
    ensures Lookup(DeepMerge(base, over), q) == Some(t)
    decreases |q|
  {
    if q != [] {
      var k := q[0];
      if over[k].Node? && k in base && base[k].Node? {
        MergeOverrideWins(base[k].children, over[k].children, q[1..], t);
      }
    }
  }

  /** What the base holds at a path survives the merge when the override
      has nothing at that path and holds only dictionaries on the way. */
  lemma {:induction false} MergeBaseSurvives(base: Dict, over: Dict, q: seq<string>, t: Tree)
    requires q != []
    requires Lookup(base, q) == Some(t)
    requires Lookup(over, q).None?
    requires forall j :: 1 <= j < |q| ==> Lookup(over, q[..j]).None? || Lookup(over, q[..j]).value.Node?
    ensures Lookup(DeepMerge(base, over), q) == Some(t)
    decreases |q|
  {
    var k := q[0];
    LookupStep(base, q);
    LookupStep(over, q);
    LookupStep(DeepMerge(base, over), q);
    if k in over {
      assert q[..1] == [k];
      LookupStep(over, q[..1]);
      assert q[..1][1..] == [];
      assert Lookup(over, q[..1]) == Some(over[k]);
      assert |q| > 1;
      assert over[k].Node?;
      forall j | 1 <= j < |q[1..]| ensures Lookup(over[k].children, q[1..][..j]).None? || Lookup(over[k].children, q[1..][..j]).value.Node? {
        assert q[..j + 1][0] == k && q[..j + 1][1..] == q[1..][..j];
        LookupStep(over, q[..j + 1]);
      }
      MergeBaseSurvives(base[k].children, over[k].children, q[1..], t);
    }
  }

  // ---------------------------------------------------------------------
  // Properties of `_override_with_env_vars`

  /** The `int` branch of the coercion is unreachable: a string of digits
      has no dot, so the `float` test accepts it first. */
  lemma CoerceNeverInt(value: string)
    ensures !Coerce(value).Int?
  {
    if IsDigits(value) {
      DigitsHaveNoDot(value);
      RemoveFirstAbsent(value, '.');
    }
  }

  /** The coercion in full: case-insensitive `true`/`false` become
      booleans, digits with at most one dot become a float holding that
      text (plain integers included), everything else stays a string. */
  lemma CoerceCases(value: string)
    ensures Coerce(value) == Bool(true) <==> Lower(value) == "true"
    ensures Coerce(value) == Bool(false) <==> Lower(value) == "false"
    ensures Coerce(value).Float? <==> NumericText(value)
    ensures Coerce(value).Float? ==> Coerce(value).digits == value
    ensures Coerce(value) == Str(value) <==>
              Lower(value) != "true" && Lower(value) != "false" && !NumericText(value)
  {
    RemoveFirstDotIsDigits(value);
    CoerceNeverInt(value);
    if NumericText(value) {
      var j :| 0 <= j < |value| && IsAsciiDigit(value[j]);
      assert IsAsciiDigit(Lower(value)[j]);
      assert Lower(value) != "true" && Lower(value) != "false";
    }
  }

  /** The conversion keeps single underscores and leaves no double
      underscore behind: every `__` became a path separator. */
  lemma EnvPathHasNoDoubleUnderscore(name: string, prefix: string)
    requires StartsWith(name, prefix)
    ensures !HasDoubleUnderscore(EnvPath(name, prefix))
  {
    NoDoubleUnderscoreAfterReplace(name[|prefix|..]);
    LowerKeepsNoDoubleUnderscore(ReplaceDoubleUnderscore(name[|prefix|..]));
  }

  /** Single underscores survive the conversion: a name whose rest after
      the prefix has no `__` and no `.` sets one top-level key, the
      lower-cased rest. So `APP_STRATEGY_RISK_TOLERANCE` sets
      `strategy_risk_tolerance`, not `strategy.risk_tolerance`. */
  lemma SingleUnderscoresSurvive(name: string, prefix: string)
    requires StartsWith(name, prefix)
    requires !HasDoubleUnderscore(name[|prefix|..]) && '.' !in name[|prefix|..]
    ensures EnvPath(name, prefix) == Lower(name[|prefix|..])
    ensures Split(EnvPath(name, prefix), '.') == [Lower(name[|prefix|..])]
  {
    var rest := name[|prefix|..];
    ReplaceWithoutDoubleUnderscore(rest);
    LowerKeepsNoDot(rest);
    SplitWithoutSeparator(Lower(rest), '.');
  }

  /** A small instance: `APP_A_B` sets the key `a_b`. */
  lemma SingleUnderscoreExample()
    ensures Split(EnvPath("APP_A_B", "APP_"), '.') == ["a_b"]
  {
    assert "APP_A_B"[4..] == "A_B";
    assert !HasDoubleUnderscore("A_B") by {
      assert "A_B"[0] != '_' && "A_B"[2] != '_';
    }
    SingleUnderscoresSurvive("APP_A_B", "APP_");
    assert Lower("A_B") == "a_b";
  }

  /** A double underscore separates path segments: a segment with no
      double underscore that does not end in `_`, then `__`, then any rest
      becomes segment `.` converted rest (before lower-casing). Applied
      repeatedly, this covers names with any number of separators. */
  lemma DoubleUnderscoreSeparates(head: string, tail: string)
    requires !HasDoubleUnderscore(head) && (head == [] || head[|head| - 1] != '_')
    ensures ReplaceDoubleUnderscore(head + ("__" + tail)) == head + ("." + ReplaceDoubleUnderscore(tail))
    ensures !HasDoubleUnderscore(tail) ==> ReplaceDoubleUnderscore(head + ("__" + tail)) == head + ("." + tail)
  {
    var sep := "__" + tail;
    assert |sep| >= 2 && sep[0] == '_' && sep[1] == '_' && sep[2..] == tail;
    ReplaceAfterPlainPrefix(head, sep);
    if !HasDoubleUnderscore(tail) {
      ReplaceWithoutDoubleUnderscore(tail);
    }
  }

  /** A nested name such as `APP_TICKER_DATA__REDIS_TTL_SECONDS`, in
      small: `APP_A_B__C_D` overrides the nested key `a_b.c_d`, the single
      underscores staying inside the segments. */
  lemma NestedKeyExample()
    ensures EnvPath("APP_A_B__C_D", "APP_") == "a_b.c_d"
  {
    var head, tail := "A_B", "C_D";
    var rest := head + ("__" + tail);
    assert "APP_A_B__C_D" == "APP_" + rest;
    assert ("APP_" + rest)[4..] == rest;
    SingleUnderscoreSegment();
    DoubleUnderscoreSeparates(head, tail);
    LowerAppend(head, "." + tail);
    LowerAppend(".", tail);
    assert Lower(head) == "a_b";
    assert Lower(".") == ".";
    assert Lower(tail) == "c_d";
  }

  lemma SingleUnderscoreSegment()
    ensures !HasDoubleUnderscore("A_B") && !HasDoubleUnderscore("C_D")
  {
    assert "A_B"[0] != '_' && "A_B"[2] != '_';
    assert "C_D"[0] != '_' && "C_D"[2] != '_';
  }

  /** Variables whose name lacks the prefix are ignored. */
  function Prefixed(env: seq<(string, string)>, prefix: string): (r: seq<(string, string)>)
    ensures forall i :: 0 <= i < |r| ==> StartsWith(r[i].0, prefix)
    ensures forall x :: x in r <==> x in env && StartsWith(x.0, prefix)
    ensures |r| <= |env|
    decreases |env|
  {
    if env == [] then []
    else if StartsWith(env[|env| - 1].0, prefix) then Prefixed(env[..|env| - 1], prefix) + [env[|env| - 1]]
    else Prefixed(env[..|env| - 1], prefix)
  }

  /** Filtering keeps the enumeration order: the kept variables of two
      consecutive parts of the environment come in the same order. */
  lemma {:induction false} PrefixedAppend(a: seq<(string, string)>, b: seq<(string, string)>, prefix: string)
    ensures Prefixed(a + b, prefix) == Prefixed(a, prefix) + Prefixed(b, prefix)
    decreases |b|
  {
    if b == [] {
      assert a + b == a;
    } else {
      var b' := b[..|b| - 1];
      assert (a + b)[..|a + b| - 1] == a + b';
      assert (a + b)[|a + b| - 1] == b[|b| - 1];
      PrefixedAppend(a, b', prefix);
    }
  }

  /** A single variable is kept exactly when its name has the prefix. */
  lemma PrefixedSingle(x: (string, string), prefix: string)
    ensures Prefixed([x], prefix) == if StartsWith(x.0, prefix) then [x] else []
  {
    assert [x][..0] == [];
  }

  lemma {:induction false} OnlyPrefixedApplied(d: Dict, env: seq<(string, string)>, prefix: string)
    ensures ApplyEnv(d, env, prefix) == ApplyEnv(d, Prefixed(env, prefix), prefix)
    decreases |env|
  {
    if env != [] {
      var init := env[..|env| - 1];
      var last := env[|env| - 1];
      OnlyPrefixedApplied(d, init, prefix);
      if StartsWith(last.0, prefix) {
        var pre := Prefixed(init, prefix);
        assert (pre + [last])[..|pre + [last]| - 1] == pre;
      }
    }
  }

  /** After the override, `get` on a variable's path returns its coerced
      value, provided no later variable writes along a path that does not
      branch off it. */
  lemma {:induction false} EnvVarVisible(d: Dict, env: seq<(string, string)>, prefix: string, i: nat)
    requires i < |env| && StartsWith(env[i].0, prefix)
    requires forall j :: i < j < |env| && StartsWith(env[j].0, prefix) ==>
               Diverge(Split(EnvPath(env[j].0, prefix), '.'), Split(EnvPath(env[i].0, prefix), '.'))
    ensures Lookup(ApplyEnv(d, env, prefix), Split(EnvPath(env[i].0, prefix), '.')) == Some(Leaf(Coerce(env[i].1)))
    decreases |env|
  {
    var path := Split(EnvPath(env[i].0, prefix), '.');
    var init := env[..|env| - 1];
    var last := env[|env| - 1];
    if i == |env| - 1 {
      SetThenGet(ApplyEnv(d, init, prefix), path, Leaf(Coerce(last.1)));
    } else {
      EnvVarVisible(d, init, prefix, i);
      if StartsWith(last.0, prefix) {
        SetPathKeepsOtherPaths(ApplyEnv(d, init, prefix), Split(EnvPath(last.0, prefix), '.'), Leaf(Coerce(last.1)), path);
      }
    }
  }
}
