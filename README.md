# Product-cost resolver of Custos do Ecommerce, in Dafny

This project models the cost calculator in `calculadora.py`. A product's
price is a free-text formula. The formula names cost variables (each with a
`custo`) and other products, whose costs are computed the same way.

- `calculate_product_cost(product_name, all_products, all_variables, evaluated_products)`
  finds the product by exact name. It marks the product `"_EVALUATING_"` in the
  shared `evaluated_products` dict. It then resolves, in product-table order,
  every other product whose name occurs as a substring of the formula. It
  builds a context `{**variables, **sub_product_costs}` and replaces every
  context name in the formula text by `str(value)`. Finally it hands the text
  to Python's `eval` and stores the cost in the dict.
- `evaluate_formula(formula, all_variables, all_products, evaluated_products)`
  returns the value cached under the formula text itself. Otherwise it
  rewrites the formula over `{**all_variables, **evaluated_products}` and
  evaluates it.

How the model is laid out:

- `results.dfy`: `Option` and `Result`.
- `strings.dfy`: Python's `in` on strings and `str.replace`. `str.split` and
  `str.join` serve as an independent reference definition of `str.replace`;
  `ReplaceWithItself` and `SplitJoinRoundTrip` check that reference pair
  (`sep.join(s.split(sep)) == s`) and model no line of the calculator.
- `dicts.dfy`: Python's insertion-ordered `dict`. Assigning to an existing key
  keeps its place; a new key goes last. The order matters because the
  rewriting loops iterate `.items()`.
- `calculadora.dfy`: the data model and the two operations.
  - `ProductCost` and `ResolveFrom` are the recursive specification. They give
    the result (or the raised error) and the dict the call leaves behind.
  - The class `EvaluatedProducts` holds the shared dict as a `map` field. Its
    recursive method `CalculateProductCost` (with `ResolveDependencies` for
    the loop at lines 61-67) is proved equal to that specification.
  - `SubstituteNames` is the rewriting loop. `EvaluateFormula` is the
    standalone variant.
- `calculadora_properties.dfy`: the lemmas about the specification.

`eval` and `str` are host primitives. They enter as the two functions of a
`Host`: `eval` maps the rewritten text to a value or an exception message, and
`show` prints a value. The values are of an abstract type `V`.

What the code does, and what the model follows:

- `calculadora.py` parses only on Python 3.12 or later. The f-strings at
  lines 65, 94 and 117-121 reuse double quotes inside double-quoted f-strings
  (PEP 701). On Python 3.11 or earlier the module fails to import, and none of
  the behaviour described here happens. The model assumes Python 3.12+.

- Matching is exact equality when the product is looked up (line 45). When
  dependencies are found and names replaced, matching is substring containment
  (lines 63 and 75). There is no name normalisation and no tokenizer.
- The comment at lines 23-24 says the rewrite replaces whole names only. The
  code uses plain `str.replace`, which also rewrites a name inside a longer one
  (`ReplaceRewritesInsideLongerName`, `EarlierNameWins`).
- A product never counts as its own dependency (line 63). A self-reference is
  therefore not reported as circular; the text just goes to `eval`.
- A circular dependency is reported as the pair `product -> dependency` where
  the marker was found. For X = `Y * 2`, Y = `X + 1` that pair is `Y -> X`.
- An error raised by a recursive call is not wrapped. The recursive call at
  line 66 sits outside the `try` of lines 77-83, so a sub-product's error
  reaches the caller unchanged.
- On any failure after line 52 the `"_EVALUATING_"` marker stays in the dict.
- A memo hit returns whatever the dict holds. When a caller reuses a dict in
  which the product is still marked, that is the marker itself.

## Model

| member | source | states |
|---|---|---|
| `Strings.ContainsIffOccurs` | calculadora.py:63 | `name in formula` holds exactly when the name occurs at some position of the formula text; the empty name occurs everywhere |
| `Strings.ReplaceMissing` | calculadora.py:25 | `str.replace` of a non-empty name that does not occur leaves the text unchanged |
| `Strings.ReplaceIsSplitJoin` | calculadora.py:75 | the left-to-right, non-overlapping replacement equals joining the split text with the replacement |
| `Strings.ReplaceRewritesInsideLongerName` | calculadora.py:23-25 | contrary to the comment, replacing `prod` rewrites `produto` into `5uto` |
| `Dicts.Put` | calculadora.py:66 | `d[k] = v`: `k` now reads `v`, every other key reads as before, a present key keeps its place and a new one goes last, no key is repeated |
| `Dicts.AddKeysDistinct` | calculadora.py:66 | assigning keys one after the other never repeats a key |
| `Dicts.Update` | calculadora.py:70 | `{**a, **b}` lists the keys of `a` and then each new key of `b` in order, without repeats |
| `Dicts.UpdateGet` | calculadora.py:18 | in `{**a, **b}` a key reads its last value in `b`, or its value in `a` when `b` lacks it |
| `Strings.Contains` | calculadora.py:63 | Python's `name in formula`; its meaning (an occurrence at some index) is `ContainsIffOccurs` |
| `Strings.Replace` | calculadora.py:25 | Python's `str.replace`; it equals the split/join reference by `ReplaceIsSplitJoin` and leaves a text without the pattern alone by `ReplaceMissing` |
| `Dicts.Get` | calculadora.py:13-14 | the test `formula in evaluated_products` and the lookup `evaluated_products[formula]`: no value exactly when `k` is not a key, and a value only when some pair holds it |
| `Calculadora.IsDependency` | calculadora.py:63 | the test of line 63: another product whose name occurs in the formula; both directions are `DependenciesExactly` |
| `Calculadora.Dependencies` | calculadora.py:62-63 | the names the loop resolves, in table order; exactly the other product names occurring in the formula by `DependenciesExactly` |
| `Calculadora.VariablesDict` | calculadora.py:55 | the variable dict; last variable wins by `VariablesDictLastWins`, absent names by `VariablesDictMissing` |
| `Calculadora.EvaluationContext` | calculadora.py:70 | `{**variables_dict, **sub_product_costs}`; lookups by `EvaluationContextLookup`, iteration order by `EvaluationContextOrder` |
| `Calculadora.Substitute` | calculadora.py:73-75 | the rewriting loop as a fold of `str.replace` in context order; sequential by `SubstituteAppend`, a text without names unchanged by `SubstituteWithoutNames` |
| `Calculadora.FindProduct` | calculadora.py:44-47 | no product is found exactly when no product carries that exact name; a found product is in the table and has that name |
| `Calculadora.Pending` | calculadora.py:64 | the product holds the `"_EVALUATING_"` marker; the marker is kept distinct from every cost (see the `"_EVALUATING_"` line under "## Left out") |
| `Calculadora.ProductCost` | calculadora.py:37-83 | old entries of the dict are never changed; a name already in the dict returns its entry and changes nothing; an unknown name raises "não encontrado" and writes nothing; otherwise success stores the returned cost under the name and failure leaves the marker; success adds no marker; every error is explained by the table and the dict left behind (a cycle names two distinct marked products, the first's formula containing the second; an evaluation failure names a marked product and its original formula) |
| `Calculadora.ResolveFrom` | calculadora.py:61-67 | the dependency loop keeps old entries; on success its keys are exactly the dependencies in table order without repeats, each holding the cost the dict stores for it; every error it raises is explained by the table and the dict (a cycle names two marked products), and none is "não encontrado"; that a marked dependency does raise the circular error is `ResolveStopsAtPending` |
| `Calculadora.SubstituteNames` | calculadora.py:73-75 | the rewriting loop yields the text with each context name replaced in context order by its printed value |
| `Calculadora.EvaluatedProducts.constructor` | calculadora.py:38-39 | a call without a dict starts from an empty one |
| `Calculadora.EvaluatedProducts.CalculateProductCost` | calculadora.py:37-83 | the method's result and the new dict are those of `ProductCost` on the old dict |
| `Calculadora.EvaluatedProducts.ResolveDependencies` | calculadora.py:61-67 | the loop's result and the new dict are those of `ResolveFrom` from the first product |
| `Calculadora.EvaluateFormula` | calculadora.py:8-34 | a formula text cached as a key returns the cached value; otherwise the text is rewritten over `{**variables, **evaluated}` and evaluated, and a failure raises the error with the formula; nothing is written |
| `CalculadoraProperties.FindProductFirst` | calculadora.py:44-45 | with several products of one name, the first in table order is found |
| `CalculadoraProperties.VariablesDictLastWins` | calculadora.py:55 | a variable name takes the cost of the last variable carrying it |
| `CalculadoraProperties.VariablesDictMissing` | calculadora.py:55 | a name no variable carries is absent from the variable dict |
| `CalculadoraProperties.EvaluationContextLookup` | calculadora.py:70 | in the evaluation context a sub-product's cost overrides a variable of the same name; any other name reads its variable cost |
| `CalculadoraProperties.EvaluationContextOrder` | calculadora.py:70-75 | the context iterates the variables first, in their order, then each sub-product that is not a variable, in resolution order, and holds only variable and sub-product names |
| `CalculadoraProperties.DependenciesExactly` | calculadora.py:62-63 | a name is resolved as a dependency exactly when it is another product's name and occurs in the formula |
| `CalculadoraProperties.NotOwnDependency` | calculadora.py:63 | a product is never its own dependency |
| `CalculadoraProperties.ResolveStopsAtPending` | calculadora.py:62-65 | the loop passes over products that are not dependencies and stops at the first marked dependency with the circular error for that pair, the dict unchanged |
| `CalculadoraProperties.CircularWhenFirstDependencyPending` | calculadora.py:52-65 | the marker is written before any dependency is looked at; when the first dependency is marked, the result is the circular error for that pair and the dict gains only the marker |
| `CalculadoraProperties.TwoProductCycle` | calculadora.py:52-67 | for X = `Y * 2`, Y = `X + 1` and a fresh dict, the error is `Y -> X`, unwrapped, and both products stay marked |
| `CalculadoraProperties.NoDependencyEvaluatesOverVariables` | calculadora.py:62-83 | a formula naming no other product is rewritten over the variables alone and evaluated; the result is a cost or the evaluation error, never a cycle |
| `CalculadoraProperties.SelfReferenceExample` | calculadora.py:62-83 | product Z = `Z + 1` goes to `eval` as written; no cycle is reported |
| `CalculadoraProperties.SuccessMemoisesDependencies` | calculadora.py:61-79 | after a successful call every product the formula depends on holds a cost in the dict (each was stored at line 79 of its own call), so a shared dependency is evaluated once |
| `CalculadoraProperties.ResolvedDependencyStored` | calculadora.py:61-67 | when the dependency loop succeeds, every dependency of the formula holds a cost in the dict |
| `CalculadoraProperties.SuccessStoresOverLoop` | calculadora.py:61-80 | a successful call's dict is the one its dependency loop left, with the product's own cost added at line 79 |
| `CalculadoraProperties.StoredCostIsReused` | calculadora.py:41-80 | a cost in the dict after one call, successful or not, survives any later call on the same dict and is returned by a call for that product without evaluating again |
| `CalculadoraProperties.FreshDictOutcome` | calculadora.py:38-83 | from a fresh dict: success returns a cost and leaves no marker; an unknown name leaves the dict empty; every other error leaves the product marked |
| `CalculadoraProperties.SubstituteWithoutNames` | calculadora.py:73-75 | a formula that contains none of the (non-empty) context names is evaluated as written |
| `CalculadoraProperties.SubstituteAppend` | calculadora.py:73-75 | the rewriting is sequential: later names are looked for in the text the earlier ones left |
| `CalculadoraProperties.EarlierNameWins` | calculadora.py:21-25 | with `A` before `AB` in the context, the text `AB` becomes `1B`: substring matching in context order, not whole-name matching |

## Left out

- Python's `eval` (lines 31 and 78) is not modelled. It runs arbitrary host code, and at line 78 it sees the calling frame's locals and globals, `evaluated_products` included, so a formula could read or change the dict. It is a parameter (`Host.eval`) that maps the rewritten text alone to a value or an exception message, deterministically; this is why `ProductCost` can promise that old entries of the dict are never changed.
- Floating-point arithmetic and `str(float)` formatting are not modelled. Values have an abstract type, and `str` is a parameter (`Host.show`).
- `EvaluateFormula`: the `all_products` argument is omitted because the source never reads it.
- A cost that is itself the string `"_EVALUATING_"` (which `eval` could return) would be read as the marker at line 64. The model keeps the marker distinct from every value.
- The test `if not product` at line 46 is also true for a product row that is an empty dict. Database rows always carry fields, so the model treats every found row as found.
- Python's recursion limit (`RecursionError` on very long dependency chains) is not modelled.
- `calcular_custo` (lines 86-123) is left out: it is Streamlit UI plus a database fetch.
- producao.py, supabase_db.py, banco.py, textos.py and main.py are not part of this model. They hold UI forms, the database client, table creation, message strings and page routing.
