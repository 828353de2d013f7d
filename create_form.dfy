/** The recipe creation form: the schema a payload must pass, the recipe built
    from a payload that passes it, and the submit step that hands that recipe
    to the store. */
module CreateForm {
  import opened Recipes

  /** The outcome of checking a payload against the schema. */
  datatype Result<+T, +E> = Success(value: T) | Failure(error: E)

  /** One ingredient row as the form holds it, before the schema has checked it. */
  datatype IngredientRow = IngredientRow(name: string, quantity: real, unit: string)

  /** The form payload. */
  datatype RecipeForm = RecipeForm(title: string, description: string, ingredients: seq<IngredientRow>)

  /** The payload once the schema has accepted it. */
  datatype FormValues = FormValues(title: string, description: string, ingredients: seq<Ingredient>)

  /** A rule an ingredient row must pass. */
  datatype Rule = NameRequired | QuantityTooSmall | InvalidUnit

  /** One schema failure; a row failure names the index of the ingredient row at fault. */
  datatype Issue =
    | TitleRequired
    | DescriptionRequired
    | RowIssue(row: nat, rule: Rule)

  // ---------------------------------------------------------------------
  // The unit enumeration: the four names the schema accepts

  function UnitName(u: Unit): string
  {
    match u
    case Mg => "mg"
    case L => "l"
    case Ml => "ml"
    case Nos => "nos"
  }

  /** The unit a text names, if it is one of the four; compared by length and characters. */
  function ParseUnit(s: string): Option<Unit>
  {
    if |s| == 1 && s[0] == 'l' then Some(L)
    else if |s| == 2 && s[0] == 'm' && s[1] == 'g' then Some(Mg)
    else if |s| == 2 && s[0] == 'm' && s[1] == 'l' then Some(Ml)
    else if |s| == 3 && s[0] == 'n' && s[1] == 'o' && s[2] == 's' then Some(Nos)
    else None
  }

  /** A text parses exactly when it is one of the four names, and then to the unit of that name. */
  lemma ParseUnitExact(s: string)
    ensures ParseUnit(s).Some? ==> UnitName(ParseUnit(s).value) == s
    ensures ParseUnit(s).None? <==> s !in {"mg", "l", "ml", "nos"}
  {
  }

  /** Every unit's name parses back to that unit. */
  lemma UnitRoundTrip(u: Unit)
    ensures ParseUnit(UnitName(u)) == Some(u)
  {
  }

  // ---------------------------------------------------------------------
  // The schema as a predicate

  /** Row `row` breaks `rule`. */
  predicate Fails(row: IngredientRow, rule: Rule)
  {
    match rule
    case NameRequired => row.name == ""
    case QuantityTooSmall => row.quantity < 1.0
    case InvalidUnit => ParseUnit(row.unit).None?
  }

  /** The row rules: a non-empty name, a quantity of at least 1, a known unit. */
  predicate ValidRow(row: IngredientRow)
  {
    row.name != "" && row.quantity >= 1.0 && ParseUnit(row.unit).Some?
  }

  predicate Valid(form: RecipeForm)
  {
    && form.title != ""
    && form.description != ""
    && forall k :: 0 <= k < |form.ingredients| ==> ValidRow(form.ingredients[k])
  }

  // ---------------------------------------------------------------------
  // The schema's report: every failed rule, in field order

  /** The failures of ingredient row number `k`: name, then quantity, then unit. */
  function RowIssues(row: IngredientRow, k: nat): seq<Issue>
  {
    (if row.name == "" then [RowIssue(k, NameRequired)] else [])
    + (if row.quantity < 1.0 then [RowIssue(k, QuantityTooSmall)] else [])
    + (if ParseUnit(row.unit).None? then [RowIssue(k, InvalidUnit)] else [])
  }

  /** A row's report is empty exactly when the row passes. */
  lemma RowIssuesEmpty(row: IngredientRow, k: nat)
    ensures RowIssues(row, k) == [] <==> ValidRow(row)
  {
  }

  /** A row's report names `rule` for row `j` exactly when `j` is that row and it breaks the rule. */
  lemma RowIssuesExact(row: IngredientRow, k: nat, j: nat, rule: Rule)
    ensures RowIssue(j, rule) in RowIssues(row, k) <==> j == k && Fails(row, rule)
  {
  }

  /** A row's report holds only failures of that row. */
  lemma RowIssuesShape(row: IngredientRow, k: nat)
    ensures forall x :: x in RowIssues(row, k) ==> x.RowIssue? && x.row == k
  {
  }

  /** The failures of the rows `rows`, the first of which is row number `first`. */
  function RowsIssues(rows: seq<IngredientRow>, first: nat): seq<Issue>
    decreases rows
  {
    if rows == [] then []
    else RowIssues(rows[0], first) + RowsIssues(rows[1..], first + 1)
  }

  /** The rows' report is empty exactly when every row passes. */
  lemma {:induction false} RowsIssuesEmpty(rows: seq<IngredientRow>, first: nat)
    ensures RowsIssues(rows, first) == [] <==> forall k :: 0 <= k < |rows| ==> ValidRow(rows[k])
    decreases rows
  {
    if rows != [] {
      RowIssuesEmpty(rows[0], first);
      RowsIssuesEmpty(rows[1..], first + 1);
      assert forall k :: 1 <= k < |rows| ==> rows[1..][k - 1] == rows[k];
    }
  }

  /** The rows' report holds only row failures, each naming one of these rows. */
  lemma {:induction false} RowsIssuesShape(rows: seq<IngredientRow>, first: nat)
    ensures forall x :: x in RowsIssues(rows, first) ==> x.RowIssue? && first <= x.row < first + |rows|
    decreases rows
  {
    if rows != [] {
      RowIssuesShape(rows[0], first);
      RowsIssuesShape(rows[1..], first + 1);
    }
  }

  /** The rows' report names no row before the first. */
  lemma {:induction false} RowsIssuesBefore(rows: seq<IngredientRow>, first: nat, k: nat, rule: Rule)
    requires k < first
    ensures RowIssue(k, rule) !in RowsIssues(rows, first)
    decreases rows
  {
    if rows != [] {
      InConcat(RowIssue(k, rule), RowIssues(rows[0], first), RowsIssues(rows[1..], first + 1));
      RowIssuesExact(rows[0], first, k, rule);
      RowsIssuesBefore(rows[1..], first + 1, k, rule);
    }
  }

  /** Row `i` of `rows` breaks `rule` exactly when the report of the rows says so. */
  lemma {:induction false} RowsIssuesExact(rows: seq<IngredientRow>, first: nat, i: nat, rule: Rule)
    ensures RowIssue(first + i, rule) in RowsIssues(rows, first) <==> i < |rows| && Fails(rows[i], rule)
    decreases rows
  {
    if rows != [] {
      var a, b := RowIssues(rows[0], first), RowsIssues(rows[1..], first + 1);
      InConcat(RowIssue(first + i, rule), a, b);
      RowIssuesExact(rows[0], first, first + i, rule);
      if i == 0 {
        RowsIssuesBefore(rows[1..], first + 1, first, rule);
      } else {
        RowsIssuesExact(rows[1..], first + 1, i - 1, rule);
        assert first + 1 + (i - 1) == first + i;
      }
    }
  }

  /** The failures of the two text fields: title, then description. */
  function TextIssues(title: string, description: string): (issues: seq<Issue>)
    ensures forall x :: x in issues ==> !x.RowIssue?
    ensures TitleRequired in issues <==> title == ""
    ensures DescriptionRequired in issues <==> description == ""
  {
    (if title == "" then [TitleRequired] else [])
    + (if description == "" then [DescriptionRequired] else [])
  }

  /** All failures of the payload: title, description, then each ingredient row. */
  function Issues(form: RecipeForm): seq<Issue>
  {
    TextIssues(form.title, form.description) + RowsIssues(form.ingredients, 0)
  }

  /** The payload's report names the title or the description exactly when that text is empty. */
  lemma IssuesTextExact(form: RecipeForm)
    ensures TitleRequired in Issues(form) <==> form.title == ""
    ensures DescriptionRequired in Issues(form) <==> form.description == ""
  {
    RowsIssuesShape(form.ingredients, 0);
  }

  /** The payload's report is empty exactly when the payload passes the schema. */
  lemma IssuesEmptyIffValid(form: RecipeForm)
    ensures Issues(form) == [] <==> Valid(form)
  {
    RowsIssuesEmpty(form.ingredients, 0);
  }

  /** The payload's report names row `k` and `rule` exactly when that row breaks that rule. */
  lemma IssuesExact(form: RecipeForm, k: nat, rule: Rule)
    ensures RowIssue(k, rule) in Issues(form) <==>
              k < |form.ingredients| && Fails(form.ingredients[k], rule)
  {
    var text, rows := TextIssues(form.title, form.description), RowsIssues(form.ingredients, 0);
    assert Issues(form) == text + rows;
    assert RowIssue(k, rule) !in text;
    InConcat(RowIssue(k, rule), text, rows);
    RowsIssuesExact(form.ingredients, 0, k, rule);
  }

  /** Membership in a concatenation. */
  lemma InConcat<T>(x: T, a: seq<T>, b: seq<T>)
    ensures x in a + b <==> x in a || x in b
  {
  }

  /** The report of rows `a + b` is the report of `a` followed by that of `b`. */
  lemma {:induction false} RowsIssuesAppend(a: seq<IngredientRow>, b: seq<IngredientRow>, first: nat)
    ensures RowsIssues(a + b, first) == RowsIssues(a, first) + RowsIssues(b, first + |a|)
    decreases a
  {
    if a == [] {
      assert a + b == b;
    } else {
      RowsIssuesCons(a, b, first);
      RowsIssuesAppend(a[1..], b, first + 1);
      ConcatAssoc(RowIssues(a[0], first), RowsIssues(a[1..], first + 1), RowsIssues(b, first + |a|));
    }
  }

  /** One step of the report of rows `a + b`, for a non-empty `a`. */
  lemma RowsIssuesCons(a: seq<IngredientRow>, b: seq<IngredientRow>, first: nat)
    requires a != []
    ensures RowsIssues(a + b, first) == RowIssues(a[0], first) + RowsIssues(a[1..] + b, first + 1)
  {
    assert (a + b)[0] == a[0] && (a + b)[1..] == a[1..] + b;
  }

  /** Concatenation is associative. */
  lemma ConcatAssoc<T>(x: seq<T>, y: seq<T>, z: seq<T>)
    ensures x + (y + z) == (x + y) + z
  {
  }

  // ---------------------------------------------------------------------
  // Parsing: the schema's output for a payload that passes

  function ToIngredient(row: IngredientRow): (i: Ingredient)
    requires ValidRow(row)
    ensures i.name == row.name && i.quantity == row.quantity && UnitName(i.unit) == row.unit
  {
    ParseUnitExact(row.unit);
    Ingredient(row.name, ParseUnit(row.unit).value, row.quantity)
  }

  function Parse(form: RecipeForm): (r: Result<FormValues, seq<Issue>>)
    ensures r.Failure? <==> !Valid(form)
    ensures r.Failure? ==> r.error == Issues(form) && r.error != []
    ensures r.Success? ==>
              && r.value.title == form.title
              && r.value.description == form.description
              && |r.value.ingredients| == |form.ingredients|
              && forall k :: 0 <= k < |form.ingredients| ==>
                   && r.value.ingredients[k].name == form.ingredients[k].name
                   && r.value.ingredients[k].quantity == form.ingredients[k].quantity
                   && UnitName(r.value.ingredients[k].unit) == form.ingredients[k].unit
  {
    var issues := Issues(form);
    IssuesEmptyIffValid(form);
    if issues != [] then Failure(issues)
    else
      var rows := form.ingredients;
      Success(FormValues(form.title, form.description,
        seq(|rows|, k requires 0 <= k < |rows| => ToIngredient(rows[k]))))
  }

  // ---------------------------------------------------------------------
  // Building the new recipe: the given id, the accepted values, not archived

  function NewRecipe(id: string, values: FormValues): Recipe
  {
    Recipe(id, values.title, values.description, values.ingredients, false)
  }

  /** A recipe built from a payload the schema accepts copies it and satisfies the data invariant. */
  lemma ParsedRecipeWellFormed(id: string, form: RecipeForm)
    requires Valid(form)
    ensures Parse(form).Success?
    ensures var r := NewRecipe(id, Parse(form).value);
              && WellFormed(r) && r.id == id && !r.isArchived
              && r.title == form.title && r.description == form.description
              && |r.ingredients| == |form.ingredients|
  {
    var r := NewRecipe(id, Parse(form).value);
    forall k | 0 <= k < |r.ingredients|
      ensures r.ingredients[k].name != "" && r.ingredients[k].quantity >= 1.0
    {
      assert ValidRow(form.ingredients[k]);
    }
  }

  // ---------------------------------------------------------------------
  // Defaults

  /** The payload the form starts with. */
  const DefaultForm := RecipeForm("", "", [])

  /** The row the "Add Ingredient" button appends. */
  const NewRow := IngredientRow("", 1.0, "nos")

  /** The default payload fails only on its two empty text fields. */
  lemma DefaultFormIssues()
    ensures Issues(DefaultForm) == [TitleRequired, DescriptionRequired]
  {
  }

  /** An empty ingredient list passes the schema. */
  lemma EmptyIngredientsValid(title: string, description: string)
    requires title != "" && description != ""
    ensures Valid(RecipeForm(title, description, []))
    ensures Issues(RecipeForm(title, description, [])) == []
  {
  }

  /** A freshly appended row passes the quantity and unit rules and fails only the name rule. */
  lemma NewRowNeedsName(form: RecipeForm)
    ensures Issues(form.(ingredients := form.ingredients + [NewRow]))
         == Issues(form) + [RowIssue(|form.ingredients|, NameRequired)]
  {
    var rows := form.ingredients;
    var text := TextIssues(form.title, form.description);
    var missing := [RowIssue(|rows|, NameRequired)];
    NewRowReport(|rows|);
    RowsIssuesAppend(rows, [NewRow], 0);
    ConcatAssoc(text, RowsIssues(rows, 0), missing);
  }

  /** The default row, as row number `n`, fails the name rule and no other. */
  lemma NewRowReport(n: nat)
    ensures RowsIssues([NewRow], n) == [RowIssue(n, NameRequired)]
  {
    assert ParseUnit("nos") == Some(Nos);
    assert RowIssues(NewRow, n) == [RowIssue(n, NameRequired)];
    assert RowsIssues([NewRow], n) == RowIssues(NewRow, n) + RowsIssues([], n + 1);
  }

  /** The Tea payload passes and is stored with its two ingredients in order, active. */
  lemma TeaScenario(id: string)
    ensures var form := RecipeForm("Tea", "Hot tea",
                          [IngredientRow("Water", 200.0, "ml"), IngredientRow("Tea Leaves", 5.0, "mg")]);
            && Parse(form).Success?
            && Find(Appended([], NewRecipe(id, Parse(form).value)), id)
               == Some(Recipe(id, "Tea", "Hot tea",
                              [Ingredient("Water", Ml, 200.0), Ingredient("Tea Leaves", Mg, 5.0)], false))
  {
    var form := RecipeForm("Tea", "Hot tea",
                  [IngredientRow("Water", 200.0, "ml"), IngredientRow("Tea Leaves", 5.0, "mg")]);
    assert ValidRow(form.ingredients[0]) && ValidRow(form.ingredients[1]);
    var v := Parse(form).value;
    assert v.ingredients == [Ingredient("Water", Ml, 200.0), Ingredient("Tea Leaves", Mg, 5.0)];
    FindAfterAdd([], NewRecipe(id, v));
  }

  // ---------------------------------------------------------------------
  // Submitting: the schema gate in front of handleSubmit

  /** Checks the payload; only a payload that passes reaches the store, as a new active recipe. */
  method Submit(store: RecipeStore, id: string, form: RecipeForm) returns (outcome: Result<Recipe, seq<Issue>>)
    modifies store
    ensures outcome.Failure? <==> !Valid(form)
    ensures outcome.Failure? ==> outcome.error == Issues(form) && store.recipes == old(store.recipes)
    ensures outcome.Success? ==>
              && outcome.value == NewRecipe(id, Parse(form).value)
              && store.recipes == Appended(old(store.recipes), outcome.value)
    ensures AllWellFormed(old(store.recipes)) ==> AllWellFormed(store.recipes)
    ensures UniqueIds(old(store.recipes)) && !HasId(old(store.recipes), id) ==> UniqueIds(store.recipes)
  {
    var parsed := Parse(form);
    match parsed
    case Failure(issues) =>
      outcome := Failure(issues);
    case Success(values) =>
      var recipe := NewRecipe(id, values);
      ParsedRecipeWellFormed(id, form);
      store.AddRecipe(recipe);
      outcome := Success(recipe);
  }
}
