/**
  The product-cost resolver of `calculadora.py`.

  `calculate_product_cost` resolves a product's cost from its formula: it
  finds the product by exact name, marks it `"_EVALUATING_"` in the shared
  `evaluated_products` dict, resolves every other product whose name occurs
  in the formula text (recursively, through the same dict), replaces every
  variable and sub-product name in the formula text by its printed value,
  hands the result to Python's `eval` and stores the cost.
  `evaluate_formula` is the standalone variant over a variable dict and a
  dict of already-evaluated values.

  `eval` and `str` are host primitives and come in as the two functions of
  a `Host`. `ProductCost` and `ResolveFrom` are the specification of the
  recursive method `EvaluatedProducts.CalculateProductCost`.
 */
module Calculadora {
  import opened Results
  import opened Strings
  import opened Dicts

  /** A row of the product table: its `nome` and `formula`. */
  datatype Product = Product(name: string, formula: string)

  /** A row of the variable table: its `nome` and `custo`. */
  datatype Variable<V> = Variable(name: string, cost: V)

  /** What `evaluated_products` holds for a product: the `"_EVALUATING_"` marker, or the product's cost. */
  datatype Entry<V> = Evaluating | Cost(value: V)

  /** `evaluated_products`, the dict shared by all recursive calls. */
  type Memo<V> = map<string, Entry<V>>

  /** The `ValueError`s the two functions raise, one constructor per message. */
  datatype CalcError =
    | ProductNotFound(product: string)
    | CircularDependency(product: string, dependency: string)
    | CostEvaluationFailed(product: string, formula: string, reason: string)
    | FormulaEvaluationFailed(formula: string, reason: string)

  /** Python's `eval` on a rewritten formula (an error carries the exception text) and `str` on a value. */
  datatype Host<!V> = Host(eval: string -> Result<V, string>, show: V -> string)

  /** The arguments every recursive call passes on unchanged. */
  datatype Env<!V> = Env(products: seq<Product>, variables: seq<Variable<V>>, host: Host<V>)

  /** What one call returns (or raises), with the dict as the call leaves it. */
  datatype Step<T, V> = Step(result: Result<T, CalcError>, memo: Memo<V>)

  ghost predicate FirstNamed(products: seq<Product>, name: string, i: int) {
    0 <= i < |products| && products[i].name == name &&
    forall j :: 0 <= j < i ==> products[j].name != name
  }

  /** `next((p for p in all_products if p["nome"] == product_name), None)`. */
  function FindProduct(products: seq<Product>, name: string): (r: Option<Product>)
    ensures r.None? <==> forall p :: p in products ==> p.name != name
    ensures r.Some? ==> r.value in products && r.value.name == name
    decreases |products|
  {
    if products == [] then None
    else if products[0].name == name then Some(products[0])
    else
      assert forall p :: p in products ==> p == products[0] || p in products[1..];
      FindProduct(products[1..], name)
  }

  function ProductNames(products: seq<Product>): set<string> {
    set p | p in products :: p.name
  }

  /** The test at line 63: another product whose name occurs in the formula text. */
  predicate IsDependency(name: string, formula: string, p: Product) {
    p.name != name && Contains(formula, p.name)
  }

  /** The names the loop at lines 62-67 resolves, in product-table order (a repeated name repeats). */
  function Dependencies(name: string, formula: string, products: seq<Product>): seq<string>
    decreases |products|
  {
    if products == [] then []
    else
      var here := if IsDependency(name, formula, products[0]) then [products[0].name] else [];
      here + Dependencies(name, formula, products[1..])
  }

  /** `name` holds the `"_EVALUATING_"` marker. */
  predicate Pending<V>(memo: Memo<V>, name: string) {
    name in memo && memo[name].Evaluating?
  }

  /** `after` keeps every entry of `before` as it was. */
  ghost predicate Extends<V>(before: Memo<V>, after: Memo<V>) {
    forall k :: k in before ==> k in after && after[k] == before[k]
  }

  /** Every marker in `after` was already in `before`. */
  ghost predicate NoNewMarker<V>(before: Memo<V>, after: Memo<V>) {
    forall k :: Pending(after, k) ==> Pending(before, k)
  }

  /** Every cost in `d` is the one the dict holds for that name. */
  ghost predicate CostsMemoised<V>(d: Dict<V>, memo: Memo<V>) {
    forall k :: Get(d, k).Some? ==> k in memo && memo[k] == Cost(Get(d, k).value)
  }

  /** What a raised error says holds of the product table and of the dict left behind. */
  ghost predicate ErrorExplained<V>(env: Env<V>, e: CalcError, memo: Memo<V>) {
    match e
    case ProductNotFound(n) => FindProduct(env.products, n).None?
    case CircularDependency(a, b) =>
      a != b && Pending(memo, a) && Pending(memo, b) &&
      FindProduct(env.products, a).Some? && Contains(FindProduct(env.products, a).value.formula, b) &&
      FindProduct(env.products, b).Some?
    case CostEvaluationFailed(a, f, _) =>
      Pending(memo, a) && FindProduct(env.products, a).Some? && FindProduct(env.products, a).value.formula == f
    case FormulaEvaluationFailed(_, _) => false
  }

  /** `{v["nome"]: v["custo"] for v in all_variables}`. */
  function VariablesDict<V>(variables: seq<Variable<V>>): Dict<V> {
    Update([], VariablePairs(variables))
  }

  function VariablePairs<V>(variables: seq<Variable<V>>): seq<(string, V)> {
    seq(|variables|, i requires 0 <= i < |variables| => (variables[i].name, variables[i].cost))
  }

  /** `{**variables_dict, **sub_product_costs}` (line 70). */
  function EvaluationContext<V>(variables: seq<Variable<V>>, subCosts: Dict<V>): Dict<V> {
    Update(VariablesDict(variables), subCosts)
  }

  /** The rewriting loop: replace each name of `context`, in order, by its printed value. */
  function Substitute<V>(text: string, context: Dict<V>, show: V -> string): string
    decreases |context|
  {
    if context == [] then text
    else Substitute(Replace(text, context[0].0, show(context[0].1)), context[1..], show)
  }

  lemma MarkingShrinksMeasure(names: set<string>, keys: set<string>, name: string)
    requires name in names && name !in keys
    ensures |names - (keys + {name})| + 1 == |names - keys|
  {
    assert names - (keys + {name}) == (names - keys) - {name};
  }

  lemma StoringClearsMarker<V>(memo: Memo<V>, after: Memo<V>, name: string, cost: Entry<V>)
    requires cost.Cost? && NoNewMarker(memo[name := Evaluating], after)
    ensures NoNewMarker(memo, after[name := cost])
  {
    forall k | Pending(after[name := cost], k)
      ensures Pending(memo, k)
    {
      assert k != name && Pending(after, k);
    }
  }

  lemma GrowingKeysKeepMeasure(names: set<string>, keys: set<string>, more: set<string>)
    requires keys <= more
    ensures |names - more| <= |names - keys|
  {
    var small, big := names - more, names - keys;
    assert big == small + (big - small);
    assert small !! (big - small);
  }

  /**
    `calculate_product_cost(name, all_products, all_variables, memo)`: the
    result it returns or the error it raises, and the dict it leaves behind.
   */
  function ProductCost<V>(env: Env<V>, name: string, memo: Memo<V>): (s: Step<Entry<V>, V>)
    decreases |ProductNames(env.products) - memo.Keys|, 1
    ensures Extends(memo, s.memo)
    ensures name in memo ==> s == Step(Ok(memo[name]), memo)
    ensures name !in memo && FindProduct(env.products, name).None? ==> s == Step(Err(ProductNotFound(name)), memo)
    ensures name !in memo && FindProduct(env.products, name).Some? ==>
      name in s.memo &&
      (if s.result.Ok? then s.result.value.Cost? && s.memo[name] == s.result.value
       else s.memo[name] == Evaluating)
    ensures s.result.Ok? ==> NoNewMarker(memo, s.memo)
    ensures s.result.Err? ==> ErrorExplained(env, s.result.error, s.memo)
    ensures s.result.Err? && s.result.error.ProductNotFound? ==> s == Step(Err(ProductNotFound(name)), memo)
  {
    if name in memo then Step(Ok(memo[name]), memo)
    else match FindProduct(env.products, name)
      case None => Step(Err(ProductNotFound(name)), memo)
      case Some(product) =>
        var marked := memo[name := Evaluating];
        assert product in env.products && marked.Keys == memo.Keys + {name};
        MarkingShrinksMeasure(ProductNames(env.products), memo.Keys, name);
        var deps := ResolveFrom(env, name, product.formula, 0, [], marked);
        match deps.result
        case Err(e) => Step(Err(e), deps.memo)
        case Ok(subCosts) =>
          var resolved := Substitute(product.formula, EvaluationContext(env.variables, subCosts), env.host.show);
          match env.host.eval(resolved)
          case Err(reason) => Step(Err(CostEvaluationFailed(name, product.formula, reason)), deps.memo)
          case Ok(cost) =>
            StoringClearsMarker(memo, deps.memo, name, Cost(cost));
            Step(Ok(Cost(cost)), deps.memo[name := Cost(cost)])
  }

  /**
    The loop at lines 61-67 from the product at index `i` on, with `acc` the
    `sub_product_costs` gathered so far: each dependency still marked raises
    the circular-dependency error, every other one is resolved recursively and
    its cost assigned; an error of a recursive call passes through unchanged.
   */
  function ResolveFrom<V>(env: Env<V>, name: string, formula: string, i: nat, acc: Dict<V>, memo: Memo<V>)
    : (s: Step<Dict<V>, V>)
    requires i <= |env.products|
    requires FindProduct(env.products, name).Some? && FindProduct(env.products, name).value.formula == formula
    requires Pending(memo, name)
    decreases |ProductNames(env.products) - memo.Keys| + 1, 0, |env.products| - i
    ensures Extends(memo, s.memo)
    ensures s.result.Ok? ==> NoNewMarker(memo, s.memo)
    ensures s.result.Ok? ==> Keys(s.result.value) == AddKeys(Keys(acc), Dependencies(name, formula, env.products[i..]))
    ensures s.result.Ok? && DistinctKeys(acc) ==> DistinctKeys(s.result.value)
    ensures s.result.Ok? && CostsMemoised(acc, memo) ==> CostsMemoised(s.result.value, s.memo)
    ensures s.result.Err? ==> ErrorExplained(env, s.result.error, s.memo) && !s.result.error.ProductNotFound?
  {
    if i == |env.products| then Step(Ok(acc), memo)
    else
      var p := env.products[i];
      DependenciesAt(name, formula, env.products, i);
      if IsDependency(name, formula, p) then
        FindListed(env.products, i);
        if Pending(memo, p.name) then Step(Err(CircularDependency(name, p.name)), memo)
        else
          var sub := ProductCost(env, p.name, memo);
          match sub.result
          case Err(e) => Step(Err(e), sub.memo)
          case Ok(c) =>
            GrowingKeysKeepMeasure(ProductNames(env.products), memo.Keys, sub.memo.Keys);
            var next := Put(acc, p.name, c.value);
            CostsMemoisedPut(acc, memo, sub.memo, p.name, c.value);
            AddKeysCons(Keys(acc), p.name, Dependencies(name, formula, env.products[i + 1..]));
            var rest := ResolveFrom(env, name, formula, i + 1, next, sub.memo);
            ChainMemo(memo, sub.memo, rest.memo);
            rest
      else ResolveFrom(env, name, formula, i + 1, acc, memo)
  }

  lemma DependenciesAt(name: string, formula: string, products: seq<Product>, i: nat)
    requires i < |products|
    ensures IsDependency(name, formula, products[i]) ==>
      Dependencies(name, formula, products[i..]) == [products[i].name] + Dependencies(name, formula, products[i + 1..])
    ensures !IsDependency(name, formula, products[i]) ==>
      Dependencies(name, formula, products[i..]) == Dependencies(name, formula, products[i + 1..])
  {
    assert products[i..][0] == products[i] && products[i..][1..] == products[i + 1..];
    var rest := Dependencies(name, formula, products[i + 1..]);
    assert [] + rest == rest;
  }

  lemma FindListed(products: seq<Product>, i: nat)
    requires i < |products|
    ensures FindProduct(products, products[i].name).Some?
  {
    assert products[i] in products;
  }

  lemma ChainMemo<V>(first: Memo<V>, second: Memo<V>, third: Memo<V>)
    requires Extends(first, second) && Extends(second, third)
    ensures Extends(first, third)
    ensures NoNewMarker(first, second) && NoNewMarker(second, third) ==> NoNewMarker(first, third)
  {
  }

  lemma AddKeysCons(ks: seq<string>, k: string, more: seq<string>)
    ensures AddKeys(ks, [k] + more) == AddKeys(AddKey(ks, k), more)
  {
    assert ([k] + more)[1..] == more;
  }

  lemma CostsMemoisedPut<V>(acc: Dict<V>, memo: Memo<V>, after: Memo<V>, k: string, v: V)
    requires Extends(memo, after) && k in after && after[k] == Cost(v)
    ensures CostsMemoised(acc, memo) ==> CostsMemoised(Put(acc, k, v), after)
  {
  }

  /** The rewriting loop of lines 21-25 and 73-75. */
  method SubstituteNames<V>(formula: string, context: Dict<V>, show: V -> string) returns (resolved: string)
    ensures resolved == Substitute(formula, context, show)
  {
    resolved := formula;
    for j := 0 to |context|
      invariant Substitute(resolved, context[j..], show) == Substitute(formula, context, show)
    {
      assert context[j..][1..] == context[j + 1..];
      resolved := Replace(resolved, context[j].0, show(context[j].1));
    }
  }

  /** The `evaluated_products` dict, shared by a call of `calculate_product_cost` and all its recursive calls. */
  class EvaluatedProducts<V> {
    var entries: Memo<V>

    /** The fresh dict a call without `evaluated_products` starts from. */
    constructor ()
      ensures entries == map[]
    {
      entries := map[];
    }

    /** `calculate_product_cost(name, env.products, env.variables, entries)`. */
    method CalculateProductCost(env: Env<V>, name: string) returns (r: Result<Entry<V>, CalcError>)
      modifies this
      decreases |ProductNames(env.products) - entries.Keys|, 1
      ensures Step(r, entries) == ProductCost(env, name, old(entries))
    {
      if name in entries {
        return Ok(entries[name]);
      }
      var found := FindProduct(env.products, name);
      if found.None? {
        return Err(ProductNotFound(name));
      }
      var formula := found.value.formula;
      MarkingShrinksMeasure(ProductNames(env.products), entries.Keys, name);
      entries := entries[name := Evaluating];
      assert entries.Keys == old(entries).Keys + {name};
      var subCosts := ResolveDependencies(env, name, formula);
      if subCosts.Err? {
        return Err(subCosts.error);
      }
      var context := EvaluationContext(env.variables, subCosts.value);
      var resolved := SubstituteNames(formula, context, env.host.show);
      var outcome := env.host.eval(resolved);
      if outcome.Err? {
        return Err(CostEvaluationFailed(name, formula, outcome.error));
      }
      entries := entries[name := Cost(outcome.value)];
      r := Ok(Cost(outcome.value));
    }

    /** The loop at lines 61-67: resolve, in table order, every other product named in `formula`. */
    method ResolveDependencies(env: Env<V>, name: string, formula: string) returns (r: Result<Dict<V>, CalcError>)
      requires FindProduct(env.products, name).Some? && FindProduct(env.products, name).value.formula == formula
      requires Pending(entries, name)
      modifies this
      decreases |ProductNames(env.products) - entries.Keys| + 1, 0
      ensures Step(r, entries) == ResolveFrom(env, name, formula, 0, [], old(entries))
    {
      var subCosts: Dict<V> := [];
      var i := 0;
      while i < |env.products|
        invariant i <= |env.products|
        invariant Extends(old(entries), entries)
        invariant ResolveFrom(env, name, formula, i, subCosts, entries) == ResolveFrom(env, name, formula, 0, [], old(entries))
      {
        var p := env.products[i];
        if p.name != name && Contains(formula, p.name) {
          if p.name in entries && entries[p.name].Evaluating? {
            return Err(CircularDependency(name, p.name));
          }
          assert old(entries).Keys <= entries.Keys;
          GrowingKeysKeepMeasure(ProductNames(env.products), old(entries).Keys, entries.Keys);
          var cost := CalculateProductCost(env, p.name);
          if cost.Err? {
            return Err(cost.error);
          }
          subCosts := Put(subCosts, p.name, cost.value.value);
        }
        i := i + 1;
      }
      r := Ok(subCosts);
    }
  }

  /**
    `evaluate_formula(formula, variables, _, evaluated)`: the value cached
    under the formula text itself, or the formula rewritten over
    `{**variables, **evaluated}` and evaluated. It writes nothing.
   */
  method EvaluateFormula<V>(formula: string, variables: Dict<V>, evaluated: Dict<V>, host: Host<V>)
    returns (r: Result<V, CalcError>)
    ensures Get(evaluated, formula).Some? ==> r == Ok(Get(evaluated, formula).value)
    ensures Get(evaluated, formula).None? && host.eval(Substitute(formula, Update(variables, evaluated), host.show)).Ok? ==>
      r == Ok(host.eval(Substitute(formula, Update(variables, evaluated), host.show)).value)
    ensures Get(evaluated, formula).None? && host.eval(Substitute(formula, Update(variables, evaluated), host.show)).Err? ==>
      r == Err(FormulaEvaluationFailed(formula, host.eval(Substitute(formula, Update(variables, evaluated), host.show)).error))
  {
    var cached := Get(evaluated, formula);
    if cached.Some? {
      return Ok(cached.value);
    }
    var context := Update(variables, evaluated);
    var resolved := SubstituteNames(formula, context, host.show);
    var outcome := host.eval(resolved);
    if outcome.Err? {
      return Err(FormulaEvaluationFailed(formula, outcome.error));
    }
    r := Ok(outcome.value);
  }
}
