/**
  What `calculate_product_cost` and `evaluate_formula` promise, stated over
  the specification functions of module Calculadora.
 */
module CalculadoraProperties {
  import opened Results
  import opened Strings
  import opened Dicts
  import opened Calculadora

  /** With several products of one name, the first in table order is the one found. */
  lemma {:induction false} FindProductFirst(products: seq<Product>, name: string, i: nat)
    requires FirstNamed(products, name, i)
    ensures FindProduct(products, name) == Some(products[i])
    decreases i
  {
    if i > 0 {
      assert FirstNamed(products[1..], name, i - 1);
      FindProductFirst(products[1..], name, i - 1);
    }
  }

  /** In the variable dict a name takes the cost of its last variable (the dict comprehension at line 55). */
  lemma VariablesDictLastWins<V>(variables: seq<Variable<V>>, k: string, i: nat)
    requires i < |variables| && variables[i].name == k
    requires forall j :: i < j < |variables| ==> variables[j].name != k
    ensures Get(VariablesDict(variables), k) == Some(variables[i].cost)
  {
    var pairs := VariablePairs(variables);
    UpdateGet([], pairs, k);
    LastAt(pairs, k, i);
  }

  /** A name no variable carries is absent from the variable dict. */
  lemma VariablesDictMissing<V>(variables: seq<Variable<V>>, k: string)
    requires forall j :: 0 <= j < |variables| ==> variables[j].name != k
    ensures Get(VariablesDict(variables), k) == None
  {
    var pairs := VariablePairs(variables);
    UpdateGet([], pairs, k);
    LastMissing(pairs, k);
  }

  /** In the evaluation context a sub-product's cost overrides a variable of the same name. */
  lemma EvaluationContextLookup<V>(variables: seq<Variable<V>>, subCosts: Dict<V>, k: string)
    requires DistinctKeys(subCosts)
    ensures Get(EvaluationContext(variables, subCosts), k) ==
      if k in Keys(subCosts) then Get(subCosts, k) else Get(VariablesDict(variables), k)
  {
    UpdateGet(VariablesDict(variables), subCosts, k);
    LastIsGet(subCosts, k);
  }

  /**
    The context iterates the variables first, in their order, then the
    sub-products that are not also variables, in the order they were
    resolved; it holds no other name.
   */
  lemma EvaluationContextOrder<V>(variables: seq<Variable<V>>, subCosts: Dict<V>)
    ensures var vs, ctx := Keys(VariablesDict(variables)), Keys(EvaluationContext(variables, subCosts));
      ctx == AddKeys(vs, Keys(subCosts)) &&
      |ctx| >= |vs| && ctx[..|vs|] == vs &&
      forall k :: k in ctx <==> k in vs || k in Keys(subCosts)
  {
    AddKeysKeepsPrefix(Keys(VariablesDict(variables)), Keys(subCosts));
  }

  /** The names resolved are exactly the other products' names that occur in the formula. */
  lemma {:induction false} DependenciesExactly(name: string, formula: string, products: seq<Product>, k: string)
    ensures k in Dependencies(name, formula, products) <==>
      k != name && Contains(formula, k) && k in ProductNames(products)
    decreases |products|
  {
    if products != [] {
      DependenciesExactly(name, formula, products[1..], k);
      assert ProductNames(products) == {products[0].name} + ProductNames(products[1..]) by {
        assert forall p :: p in products <==> p == products[0] || p in products[1..];
      }
    }
  }

  /** A product is never its own dependency. */
  lemma NotOwnDependency(name: string, formula: string, products: seq<Product>)
    ensures name !in Dependencies(name, formula, products)
  {
    DependenciesExactly(name, formula, products, name);
  }

  /** Products that are not dependencies are passed over; the first marked dependency raises the circular error. */
  lemma {:induction false} ResolveStopsAtPending<V>(env: Env<V>, name: string, formula: string, i: nat, j: nat, acc: Dict<V>, memo: Memo<V>)
    requires i <= j < |env.products|
    requires FindProduct(env.products, name).Some? && FindProduct(env.products, name).value.formula == formula
    requires Pending(memo, name)
    requires forall k :: i <= k < j ==> !IsDependency(name, formula, env.products[k])
    requires IsDependency(name, formula, env.products[j]) && Pending(memo, env.products[j].name)
    ensures ResolveFrom(env, name, formula, i, acc, memo) == Step(Err(CircularDependency(name, env.products[j].name)), memo)
    decreases j - i
  {
    if i < j {
      assert !IsDependency(name, formula, env.products[i]);
      ResolveStopsAtPending(env, name, formula, i + 1, j, acc, memo);
    }
  }

  /**
    The marker goes in before any dependency is looked at, and a dependency
    still marked raises the circular-dependency error instead of being
    resolved: when the first dependency in table order is marked, that error
    is the result and the dict keeps only the new marker.
   */
  lemma CircularWhenFirstDependencyPending<V>(env: Env<V>, name: string, memo: Memo<V>, j: nat)
    requires name !in memo && FindProduct(env.products, name).Some?
    requires j < |env.products|
    requires IsDependency(name, FindProduct(env.products, name).value.formula, env.products[j])
    requires forall k :: 0 <= k < j ==> !IsDependency(name, FindProduct(env.products, name).value.formula, env.products[k])
    requires Pending(memo, env.products[j].name)
    ensures ProductCost(env, name, memo) ==
      Step(Err(CircularDependency(name, env.products[j].name)), memo[name := Evaluating])
  {
    var formula := FindProduct(env.products, name).value.formula;
    ResolveStopsAtPending(env, name, formula, 0, j, [], memo[name := Evaluating]);
  }

  /**
    Products X = `Y * 2` and Y = `X + 1`: resolving X resolves Y, which finds
    X marked; the error names the pair Y -> X, passes through X unchanged, and
    leaves both markers in the dict.
   */
  lemma TwoProductCycle<V>(variables: seq<Variable<V>>, host: Host<V>)
    ensures var env := Env([Product("X", "Y * 2"), Product("Y", "X + 1")], variables, host);
      ProductCost(env, "X", map[]) ==
      Step(Err(CircularDependency("Y", "X")), map["X" := Evaluating, "Y" := Evaluating])
  {
    var env := Env([Product("X", "Y * 2"), Product("Y", "X + 1")], variables, host);
    var marked: Memo<V> := map["X" := Evaluating];
    assert FindProduct(env.products, "Y") == Some(Product("Y", "X + 1"));
    assert IsPrefix("X", "X + 1");
    CircularWhenFirstDependencyPending(env, "Y", marked, 0);
    assert IsPrefix("Y", "Y * 2");
    assert !IsDependency("X", "Y * 2", env.products[0]);
    assert ResolveFrom(env, "X", "Y * 2", 0, [], marked) == ResolveFrom(env, "X", "Y * 2", 1, [], marked);
  }

  lemma {:induction false} ResolveWithoutDependencies<V>(env: Env<V>, name: string, formula: string, i: nat, acc: Dict<V>, memo: Memo<V>)
    requires i <= |env.products|
    requires FindProduct(env.products, name).Some? && FindProduct(env.products, name).value.formula == formula
    requires Pending(memo, name)
    requires Dependencies(name, formula, env.products[i..]) == []
    ensures ResolveFrom(env, name, formula, i, acc, memo) == Step(Ok(acc), memo)
    decreases |env.products| - i
  {
    if i < |env.products| {
      DependenciesAt(name, formula, env.products, i);
      ResolveWithoutDependencies(env, name, formula, i + 1, acc, memo);
    }
  }

  /**
    A formula that names no other product is rewritten over the variables
    alone and evaluated; in particular a formula that names only its own
    product is never a circular dependency, only whatever `eval` makes of
    the text.
   */
  lemma NoDependencyEvaluatesOverVariables<V>(env: Env<V>, name: string, memo: Memo<V>)
    requires name !in memo && FindProduct(env.products, name).Some?
    requires Dependencies(name, FindProduct(env.products, name).value.formula, env.products) == []
    ensures var formula := FindProduct(env.products, name).value.formula;
      ProductCost(env, name, memo).result ==
      (match env.host.eval(Substitute(formula, VariablesDict(env.variables), env.host.show))
       case Ok(v) => Ok(Cost(v))
       case Err(reason) => Err(CostEvaluationFailed(name, formula, reason)))
  {
    var formula := FindProduct(env.products, name).value.formula;
    assert env.products[0..] == env.products;
    ResolveWithoutDependencies(env, name, formula, 0, [], memo[name := Evaluating]);
  }

  /** Product Z = `Z + 1` alone: the formula goes to `eval` as written, and no cycle is reported. */
  lemma SelfReferenceExample<V>(host: Host<V>)
    ensures ProductCost(Env([Product("Z", "Z + 1")], [], host), "Z", map[]).result ==
      (match host.eval("Z + 1")
       case Ok(v) => Ok(Cost(v))
       case Err(reason) => Err(CostEvaluationFailed("Z", "Z + 1", reason)))
  {
    var env := Env([Product("Z", "Z + 1")], [], host);
    assert Dependencies("Z", "Z + 1", env.products) == [];
    NoDependencyEvaluatesOverVariables(env, "Z", map[]);
  }

  /**
    A successful call leaves a cost in the dict for every product its formula
    depends on, not only for itself.
   */
  lemma SuccessMemoisesDependencies<V>(env: Env<V>, name: string, memo: Memo<V>, k: string)
    requires name !in memo && FindProduct(env.products, name).Some?
    requires k in Dependencies(name, FindProduct(env.products, name).value.formula, env.products)
    ensures var s := ProductCost(env, name, memo); s.result.Ok? ==> k in s.memo && s.memo[k].Cost?
  {
    var formula := FindProduct(env.products, name).value.formula;
    NotOwnDependency(name, formula, env.products);
    ResolvedDependencyStored(env, name, formula, memo[name := Evaluating], k);
    SuccessStoresOverLoop(env, name, memo);
  }

  /** A successful call's dict is the dict its dependency loop left, with the product's cost added. */
  lemma SuccessStoresOverLoop<V>(env: Env<V>, name: string, memo: Memo<V>)
    requires name !in memo && FindProduct(env.products, name).Some?
    ensures var s := ProductCost(env, name, memo);
      var deps := ResolveFrom(env, name, FindProduct(env.products, name).value.formula, 0, [], memo[name := Evaluating]);
      s.result.Ok? ==> deps.result.Ok? && s.memo == deps.memo[name := s.result.value]
  {
  }

  /** The loop of lines 61-67 run from the first product: on success every dependency holds a cost. */
  lemma ResolvedDependencyStored<V>(env: Env<V>, name: string, formula: string, memo: Memo<V>, k: string)
    requires FindProduct(env.products, name).Some? && FindProduct(env.products, name).value.formula == formula
    requires Pending(memo, name)
    requires k in Dependencies(name, formula, env.products)
    ensures var deps := ResolveFrom(env, name, formula, 0, [], memo);
      deps.result.Ok? ==> k in deps.memo && deps.memo[k].Cost?
  {
    assert env.products[0..] == env.products;
    assert CostsMemoised([], memo);
    AddKeysKeepsPrefix([], Dependencies(name, formula, env.products));
    var deps := ResolveFrom(env, name, formula, 0, [], memo);
    if deps.result.Ok? {
      assert k in Keys(deps.result.value);
      assert Get(deps.result.value, k).Some?;
    }
  }

  /**
    Every cost in the dict after a call (whether that call succeeded or
    failed) is served to any later call that shares the dict, without
    evaluating again, and stays as stored whatever is resolved in between.
    With `SuccessMemoisesDependencies` this covers diamond-shaped
    dependencies: once D = `B + C` has resolved B = `A`, A's cost is in the
    dict, and resolving C = `A` reads it instead of evaluating A again.
   */
  lemma StoredCostIsReused<V>(env: Env<V>, name: string, memo: Memo<V>, other: string, q: string)
    requires var s := ProductCost(env, name, memo); q in s.memo && s.memo[q].Cost?
    ensures var s := ProductCost(env, name, memo);
      var t := ProductCost(env, other, s.memo);
      q in t.memo && t.memo[q] == s.memo[q] &&
      ProductCost(env, q, t.memo) == Step(Ok(s.memo[q]), t.memo)
  {
  }

  /**
    A call with a fresh dict (the form the page uses): on success the result is
    a cost and the dict holds no marker; on an unknown name the dict stays
    empty; on any other error the product is left marked.
   */
  lemma FreshDictOutcome<V>(env: Env<V>, name: string)
    ensures var s := ProductCost(env, name, map[]);
      (s.result.Ok? ==> s.result.value.Cost? && forall k :: k in s.memo ==> s.memo[k].Cost?) &&
      (s.result.Err? && s.result.error.ProductNotFound? ==> s.memo == map[]) &&
      (s.result.Err? && !s.result.error.ProductNotFound? ==> Pending(s.memo, name))
  {
    var s := ProductCost(env, name, map[]);
    if s.result.Ok? {
      forall k | k in s.memo ensures s.memo[k].Cost? {
        assert !Pending(s.memo, k);
      }
    }
  }

  /** Names that do not occur in the text leave it as it is. */
  lemma {:induction false} SubstituteWithoutNames<V>(text: string, context: Dict<V>, show: V -> string)
    requires forall k :: k in Keys(context) ==> k != [] && !Contains(text, k)
    ensures Substitute(text, context, show) == text
    decreases |context|
  {
    if context != [] {
      assert Keys(context) == [context[0].0] + Keys(context[1..]);
      assert Keys(context)[0] == context[0].0 && context[0].0 in Keys(context);
      assert forall k :: k in Keys(context[1..]) ==> k in Keys(context);
      ReplaceMissing(text, context[0].0, show(context[0].1));
      SubstituteWithoutNames(text, context[1..], show);
    }
  }

  /** The rewriting is sequential: a later name is looked for in the text the earlier ones left. */
  lemma {:induction false} SubstituteAppend<V>(text: string, first: Dict<V>, second: Dict<V>, show: V -> string)
    ensures Substitute(text, first + second, show) == Substitute(Substitute(text, first, show), second, show)
    decreases |first|
  {
    if first == [] {
      assert first + second == second;
    } else {
      var rewritten := Replace(text, first[0].0, show(first[0].1));
      assert first + second != [] && (first + second)[0] == first[0] && (first + second)[1..] == first[1..] + second;
      assert Substitute(text, first + second, show) == Substitute(rewritten, first[1..] + second, show);
      assert Substitute(text, first, show) == Substitute(rewritten, first[1..], show);
      SubstituteAppend(rewritten, first[1..], second, show);
    }
  }

  /**
    Names are matched as substrings, in context order, not as whole names:
    with `A` before `AB`, the text `AB` gets `A`'s value and `AB`'s value is
    never used.
   */
  lemma EarlierNameWins<V>(show: V -> string, a: V, b: V)
    requires show(a) == "1" && show(b) == "2"
    ensures Substitute("AB", [("A", a), ("AB", b)], show) == "1B"
  {
    assert "AB"[..1] == "A" && "AB"[1..] == "B";
    assert Replace("B", "A", "1") == "B";
    assert Replace("AB", "A", "1") == "1B";
    assert !Contains("1B", "AB") by {
      assert "1B"[..2][0] != "AB"[0];
      assert "1B"[1..] == "B" && "B"[1..] == [];
      assert !Contains([], "AB");
      assert !Contains("B", "AB");
    }
    ReplaceMissing("1B", "AB", "2");
    var context: Dict<V> := [("A", a), ("AB", b)];
    assert context[1..] == [("AB", b)] && context[1..][1..] == [];
    assert Substitute("1B", context[1..][1..], show) == "1B";
    assert Substitute("1B", context[1..], show) == "1B";
    assert Substitute("AB", context, show) == Substitute("1B", context[1..], show);
  }
}
