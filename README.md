# Recipe manager core, modelled in Dafny

This project models the core of a small client-side recipe manager:

- **The recipe store** (`recipes.dfy`, module `Recipes`). It keeps one sequence of recipes. Five operations act on it: add, find by id, delete by id, archive by id and unarchive by id. Each operation is a pure sequence transformer: append, `find`, `filter` or `map`. A class `RecipeStore` holds the sequence in its one field and reassigns it, as the store's `set` calls do.
- **The recipe list** (`recipe_list.dfy`, module `RecipeList`). A view keeps the recipes whose archive flag equals its own, then those whose lower-cased title includes the lower-cased search text. It cuts the result into pages of five using JavaScript `slice` semantics; `totalPages` is the ceiling of the count over five. A class `RecipeListView` holds the view's search text and page counter. Its Previous and Next buttons step the counter under the same enabling rules as the component.
- **The creation form** (`create_form.dfy`, module `CreateForm`). The form's schema is a validity predicate. Beside it, a report lists every failed rule in the schema's field order. A payload that passes becomes a new active recipe, and `Submit` hands it to the store.

Where the code's behaviour may surprise a reader, the model follows the code:

- Delete removes every recipe with the id, not just one.
- Archive and unarchive change every recipe with the id.
- No uniqueness of ids is enforced anywhere. The store's lemmas and method contracts say when uniqueness is kept.
- The Next button is disabled only when `page == totalPages`, and the code never clamps the page. If the filtered list shrinks below the current page while two or more pages remain, both buttons stay enabled and Next moves the page further on (`PastLastPage`). If it shrinks to one page or none, the controls disappear. The view then stays on an empty page showing "No recipes found.", and no click can move it (`StuckPastLastPage`).

## Model

| member | source | states |
|---|---|---|
| `Recipes.Appended` | src/store/recipes.ts:32-39 | adding yields a collection one longer whose prefix is the old collection and whose last element is the new recipe |
| `Recipes.FindIndex` | src/store/recipes.ts:41-46 | the position found holds the id and no earlier recipe has it, or no recipe has it at all |
| `Recipes.Find` | src/store/recipes.ts:41-46 | lookup is absent exactly when no recipe has the id; otherwise it is the first recipe carrying the id |
| `Recipes.Removed` | src/store/recipes.ts:48-52 | delete keeps exactly the recipes whose id differs, and never grows the collection |
| `Recipes.WithArchived` | src/store/recipes.ts:54-68 | the toggle keeps length and order, sets the flag on every recipe with the id and leaves every other recipe and every other field as it was |
| `Recipes.AppendedUnique` | src/store/recipes.ts:32-39 | adding a recipe whose id is new keeps ids unique |
| `Recipes.FindIndexIs` | src/store/recipes.ts:41-46 | the position of the first recipe with the id, or the length when none has it, is the position found |
| `Recipes.FindAppended` | src/store/recipes.ts:32-46 | after an add, an id found before is still found as before; otherwise the new recipe is found if its id matches, or nothing |
| `Recipes.FindAfterAdd` | src/store/recipes.ts:32-46 | after adding a recipe whose id was absent, finding that id returns the recipe |
| `Recipes.FindUnique` | src/store/recipes.ts:41-46 | with unique ids, finding a recipe's id returns that recipe |
| `Recipes.RemovedAppend` | src/store/recipes.ts:48-52 | delete distributes over concatenation, so survivors keep their store order |
| `Recipes.RemovedAbsent` | src/store/recipes.ts:48-52 | deleting an id that is absent leaves the collection unchanged |
| `Recipes.RemovedIdempotent` | src/store/recipes.ts:48-52 | after a delete the id is gone, and deleting twice equals deleting once |
| `Recipes.FindCons` | src/store/recipes.ts:41-46 | lookup returns the first recipe when it carries the id, and otherwise looks in the rest |
| `Recipes.RemovedKeepsOthers` | src/store/recipes.ts:41-52 | deleting one id does not change what finding another id returns |
| `Recipes.RemovedUnique` | src/store/recipes.ts:48-52 | delete keeps ids unique |
| `Recipes.RemovedWellFormed` | src/store/recipes.ts:48-52 | delete keeps every remaining recipe well formed |
| `Recipes.WithArchivedIdempotent` | src/store/recipes.ts:54-68 | archiving (or unarchiving) twice equals doing it once |
| `Recipes.WithArchivedAbsent` | src/store/recipes.ts:54-68 | archiving or unarchiving an absent id leaves the collection unchanged |
| `Recipes.ArchiveThenUnarchive` | src/store/recipes.ts:54-68 | archive then unarchive of an id whose recipes were all active restores the collection exactly |
| `Recipes.WithArchivedUnique` | src/store/recipes.ts:54-68 | the toggles keep ids unique |
| `Recipes.WithArchivedWellFormed` | src/store/recipes.ts:54-68 | the toggles keep every recipe well formed |
| `Recipes.RecipeStore.constructor` | src/store/recipes.ts:28-30 | the store starts with the seed collection |
| `Recipes.RecipeStore.AddRecipe` | src/store/recipes.ts:32-39 | the new collection is the old one with the recipe appended; when its id was new it is found by id and uniqueness of ids is kept |
| `Recipes.RecipeStore.FindRecipe` | src/store/recipes.ts:41-46 | returns the first recipe with the id, or absent exactly when no recipe has it, and changes nothing |
| `Recipes.RecipeStore.DeleteRecipe` | src/store/recipes.ts:48-52 | the new collection is the old one without the id's recipes; uniqueness of ids is kept |
| `Recipes.RecipeStore.ArchiveRecipe` | src/store/recipes.ts:54-60 | the new collection has the id's recipes archived and nothing else changed; uniqueness of ids is kept |
| `Recipes.RecipeStore.UnarchiveRecipe` | src/store/recipes.ts:62-68 | the new collection has the id's recipes active and nothing else changed; uniqueness of ids is kept |
| `RecipeList.IncludesIff` | src/components/recpies/recipe-list.tsx:26 | `includes` holds exactly when the search text occurs at some position of the title |
| `RecipeList.EmptySearchMatchesAll` | src/components/recpies/recipe-list.tsx:26 | the empty search text matches every title |
| `RecipeList.SearchIgnoresCase` | src/components/recpies/recipe-list.tsx:26 | search texts that lower-case alike select the same titles |
| `RecipeList.LowerIdempotent` | src/components/recpies/recipe-list.tsx:26 | lower-casing an already lower-cased text changes nothing |
| `RecipeList.SearchAsLowered` | src/components/recpies/recipe-list.tsx:26 | a search text selects the same titles as its lower-cased form |
| `RecipeList.LowerTomatoSoup` | src/components/recpies/recipe-list.tsx:26 | lower-casing "Tomato Soup" gives "tomato soup" |
| `RecipeList.MatchesAt` | src/components/recpies/recipe-list.tsx:26 | a title matches a search text that occurs, lower-cased, at some position of the lower-cased title |
| `RecipeList.LowerSearches` | src/components/recpies/recipe-list.tsx:26 | lower-casing "tomato", "SOUP" and "mato soup" gives "tomato", "soup" and "mato soup" |
| `RecipeList.TomatoSoupSlices` | src/components/recpies/recipe-list.tsx:26 | "tomato", "soup" and "mato soup" occur in "tomato soup" at positions 0, 7 and 2 |
| `RecipeList.TomatoSoupMatches` | src/components/recpies/recipe-list.tsx:26 | "Tomato Soup" matches "tomato", "SOUP", "" and "mato soup" |
| `RecipeList.TomatoSoupRejectsPizza` | src/components/recpies/recipe-list.tsx:26 | "Tomato Soup" does not match "pizza" |
| `RecipeList.Filtered` | src/components/recpies/recipe-list.tsx:24-27 | the list holds exactly the recipes with the view's archive flag whose title matches the search, and is no longer than the collection |
| `RecipeList.FilteredAppend` | src/components/recpies/recipe-list.tsx:24-27 | the filter distributes over concatenation, so the list is in store order |
| `RecipeList.FilteredCons` | src/components/recpies/recipe-list.tsx:24-27 | a recipe at the head of a collection adds one to the list, and is listed, exactly when the view shows it |
| `RecipeList.ViewsDisjoint` | src/components/recpies/recipe-list.tsx:25 | with the same search the active and archive views share no recipe |
| `RecipeList.ViewsPartition` | src/components/recpies/recipe-list.tsx:24-27 | with an empty search the two views together hold every recipe exactly once |
| `RecipeList.ArchiveMovesBetweenViews` | src/components/recpies/recipe-list.tsx:24-27 | archiving a matching active recipe with a unique id shrinks the active view by one, grows the archive view by one, and the archived recipe appears there |
| `RecipeList.TotalPages` | src/components/recpies/recipe-list.tsx:22-29 | the page count is the least number of five-item pages holding all matches, and is 0 exactly when nothing matches |
| `RecipeList.SliceBound` | src/components/recpies/recipe-list.tsx:30-33 | a slice bound lands inside the list: an in-range bound is kept as given, a bound above the length becomes the length, and a negative bound counts back from the end (stopping at 0) |
| `RecipeList.Slice` | src/components/recpies/recipe-list.tsx:30-33 | a slice is no longer than the list nor than the distance between its bounds; with non-negative bounds it is exactly the items from the start bound up to the end bound, both clipped to the list, and empty when the end is not past the start |
| `RecipeList.PageOf` | src/components/recpies/recipe-list.tsx:30-33 | a page holds at most five matches, all from the list; page p is the window from (p-1)*5 to p*5 clipped to the list; it is empty exactly when p > totalPages and full on every page before the last |
| `RecipeList.PagesUpToPrefix` | src/components/recpies/recipe-list.tsx:29-33 | the first k pages together are the first 5k matches |
| `RecipeList.AllPagesReassemble` | src/components/recpies/recipe-list.tsx:29-33 | pages 1 to totalPages concatenated give back the filtered list, each match once and in order |
| `RecipeList.SevenMatchesExample` | src/components/recpies/recipe-list.tsx:29-33 | seven matches make two pages, of five and then two |
| `RecipeList.Press` | src/components/recpies/recipe-list.tsx:70-89 | a click moves the page by at most one; it does nothing when the controls are hidden; it never takes the page below 1; it keeps the page in 1..totalPages when it started there; the page drops exactly when Previous is clicked while enabled, and rises exactly when Next is clicked while enabled |
| `RecipeList.PressesStayInRange` | src/components/recpies/recipe-list.tsx:21-89 | from a page in range, any series of clicks keeps the page in range |
| `RecipeList.PastLastPage` | src/components/recpies/recipe-list.tsx:29-89 | while two or more pages remain, a page past the last is empty, both buttons stay enabled and Next moves further on |
| `RecipeList.StuckPastLastPage` | src/components/recpies/recipe-list.tsx:29-89 | with one page or none, a page past the last is empty and no series of clicks moves it, because the controls are not rendered |
| `RecipeList.RecipeListView.constructor` | src/components/recpies/recipe-list.tsx:11-21 | a view starts with an empty search on page 1, showing the archive flag it is given, and the active recipes when given none |
| `RecipeList.RecipeListView.SetSearch` | src/components/recpies/recipe-list.tsx:40-44 | typing replaces the search text and leaves the page counter where it was |
| `RecipeList.RecipeListView.PressPrevious` | src/components/recpies/recipe-list.tsx:72-78 | the page drops by one exactly when Previous is enabled, and otherwise stays |
| `RecipeList.RecipeListView.PressNext` | src/components/recpies/recipe-list.tsx:82-88 | the page rises by one exactly when Next is enabled, and otherwise stays |
| `RecipeList.RecipeListView.Render` | src/components/recpies/recipe-list.tsx:24-90 | the view shows at most five recipes, all in the store and shown by the view; "No recipes found." exactly when the page is past the last; pager exactly when there is more than one page |
| `CreateForm.ParseUnitExact` | src/components/create/create-form.tsx:29 | a unit text is accepted exactly when it is one of mg, l, ml, nos, and it names the unit it yields |
| `CreateForm.UnitRoundTrip` | src/components/create/create-form.tsx:29 | every unit's name parses back to that unit |
| `CreateForm.RowIssuesEmpty` | src/components/create/create-form.tsx:27-29 | a row's report is empty exactly when the row passes its three rules |
| `CreateForm.RowIssuesExact` | src/components/create/create-form.tsx:27-29 | a row's report names a row and a rule exactly when it is that row and the row breaks the rule |
| `CreateForm.RowIssuesShape` | src/components/create/create-form.tsx:27-29 | a row's report holds only failures of that row |
| `CreateForm.RowsIssuesEmpty` | src/components/create/create-form.tsx:26-30 | the rows' report is empty exactly when every row passes |
| `CreateForm.RowsIssuesShape` | src/components/create/create-form.tsx:26-30 | the rows' report holds only row failures naming rows of the list |
| `CreateForm.RowsIssuesBefore` | src/components/create/create-form.tsx:26-30 | the rows' report names no row numbered before the first of them |
| `CreateForm.RowsIssuesExact` | src/components/create/create-form.tsx:26-30 | the rows' report names the i-th of them and a rule exactly when that row exists and breaks the rule |
| `CreateForm.TextIssues` | src/components/create/create-form.tsx:24-25 | the text fields' report holds no row failure, and names the title or the description exactly when that text is empty |
| `CreateForm.IssuesTextExact` | src/components/create/create-form.tsx:23-31 | the payload's report names the title or the description exactly when that text is empty |
| `CreateForm.IssuesEmptyIffValid` | src/components/create/create-form.tsx:23-31 | the payload's report is empty exactly when the payload passes the schema |
| `CreateForm.IssuesExact` | src/components/create/create-form.tsx:23-31 | the report names ingredient k and a rule exactly when that ingredient breaks the rule |
| `CreateForm.RowsIssuesAppend` | src/components/create/create-form.tsx:26-30 | the report of two row lists joined is the first's report followed by the second's |
| `CreateForm.ToIngredient` | src/components/create/create-form.tsx:27-29 | a valid row becomes an ingredient with the same name, quantity and unit |
| `CreateForm.Parse` | src/components/create/create-form.tsx:23-31 | parsing fails exactly when the payload is invalid, with the full report; otherwise it copies title, description and every ingredient in order |
| `CreateForm.ParsedRecipeWellFormed` | src/components/create/create-form.tsx:54-59 | the recipe built from a valid payload has the given id, copies the payload, is active and satisfies the data invariant |
| `CreateForm.DefaultFormIssues` | src/components/create/create-form.tsx:42-46 | the default payload fails only on its empty title and description; its empty ingredient list passes |
| `CreateForm.EmptyIngredientsValid` | src/components/create/create-form.tsx:23-31 | a payload with non-empty texts and no ingredients is valid |
| `CreateForm.NewRowNeedsName` | src/components/create/create-form.tsx:105 | appending the default row adds exactly one failure, the missing name of the new row |
| `CreateForm.NewRowReport` | src/components/create/create-form.tsx:105 | the default row fails the name rule and no other |
| `CreateForm.TeaScenario` | src/components/create/create-form.tsx:54-60 | the Tea payload passes and is then found by id, active, with its two ingredients in the given order |
| `CreateForm.Submit` | src/components/create/create-form.tsx:54-68 | an invalid payload is rejected with its report and leaves the store unchanged; a valid one appends the new active recipe; store-wide well-formedness is kept, and so is id uniqueness when the id is new |

## Left out

- Id generation: `Date.now().toString()` reads a clock, so the id is a parameter of `Submit`. Nothing in the source makes ids unique. The contracts state uniqueness as kept when the new id is absent.
- React and zustand plumbing is left out: hooks, `set`/`get` subscriptions, re-rendering, dialogs, tables, `alert` and `navigate`. Each store operation is a method on one object.
- The seed collection `dummyData` is not part of this model; the store's constructor takes any collection.
- `toLowerCase` is modelled for ASCII letters only; full Unicode case mapping is not captured.
- Quantities are exact reals. The model leaves out JavaScript's NaN, infinities and `Number()` conversion of typed text.
- The schema's message texts are left out, and so are its type errors for non-string or non-number fields (the datatypes rule those out). Issues are identified by field and rule.
- Adding and removing rows is left to the form library and is not modelled. The model covers only the row the Add Ingredient button appends.
- Page counts are unbounded integers; floating-point precision of `Math.ceil` on huge counts is not modelled.
- src/components/recpies/recipe-info.tsx only calls find, archive and delete and renders the result; the store model covers those calls.
- src/components/navigation.tsx and src/pages/archive.tsx hold only links and a page wrapper.
