# Indian food recommender: the recipe filter

This project models the only logic in a small Flask application that
recommends Indian dishes. At start-up the application loads a table of
dishes and fills the missing cells of eight columns with the empty string.
On each form submission, `recommend_food` takes up to six optional query
strings: ingredients, state, region, diet, flavour profile and course. It
normalises them once and scans every row of the table in order. It keeps
a row when all six tests pass:

- every required ingredient is a whole token of the row's ingredient list;
- each of the other five values occurs as a substring of the row's field,
  compared in lower case.

Each kept row is projected to eight displayed fields. When no row is kept,
the result is the single record "No recipes found.".

Modules:

- `Wrappers` (`wrappers.dfy`): the `Option` type. It stands for an absent
  argument and for a missing table cell.
- `Text` (`text.dfy`): ASCII `str.lower()`, `str.strip()`,
  `str.split(',')` and Python's substring test `needle in hay`. Each comes
  with the properties the filter relies on: the split/join round trip, the
  exact characterisation of strip, and the fact that lower-casing commutes
  with splitting on a comma.
- `Selection` (`selection.dfy`): keeping the elements of a sequence that
  pass a test. It is defined once as an order-preserving filter and once as
  the increasing list of passing positions, and a lemma proves the two agree.
- `RecipeFilter` (`recommend.dfy`): rows, queries, normalisation, the six
  per-row tests, the projection and the pure specification `Recommend`. It
  also holds the methods `Scan` and `RecommendFood`, which run the loop as
  `recommend_food` does and are proved equal to `Recommend`.
- `Loader` (`loader.dfy`): the load-time fill. The table is a `Frame` object
  whose columns are replaced in place by `FillMissing`. That method is proved
  equal to the pure `Filled`.
- `Scenarios` (`scenarios.dfy`): concrete queries against concrete rows. They
  pin down token matching against substring matching, case and padding, and
  the placeholder.

## Model

| member | source | states |
|---|---|---|
| Text.Lower | app.py:23-31 | lower-casing keeps the length and maps each character on its own: A-Z move to a-z, everything else is unchanged |
| Text.Strip | app.py:23 | the result has no white space at either end, is no longer than the input, and is empty exactly when the input is all white space |
| Text.StripExact | app.py:23 | strip removes exactly the white-space runs around a core that neither starts nor ends with white space |
| Text.StripLower | app.py:23 | stripping and lower-casing commute, so lower-then-strip is strip-then-lower |
| Text.Split | app.py:23 | splitting gives at least one part, no part holds the separator, and joining the parts with the separator gives the input back |
| Text.SplitOfJoin | app.py:31 | splitting undoes joining whenever no part holds the separator |
| Text.TrailingSeparator | app.py:23 | a trailing comma adds exactly one empty last part |
| Text.SplitLower | app.py:31 | lower-casing then splitting on a comma gives the lower-cased parts of splitting first |
| Text.Contains | app.py:37 | the substring test holds exactly when the needle occurs at some position of the hay |
| Text.ContainsEmpty | app.py:37-44 | the empty needle occurs in every string |
| Selection.Selected | app.py:30-57 | the kept elements all come from the input and pass the test, there are no more of them than inputs, and none are kept exactly when no element passes |
| Selection.SelectedAppend | app.py:30-57 | one more visited element adds itself at the end when it passes and nothing otherwise |
| Selection.MatchIndices | app.py:30-47 | the passing positions are in range and strictly increasing, and a position is listed exactly when its element passes |
| Selection.SelectedAtIndices | app.py:30-57 | the filtered sequence is exactly the elements at the passing positions, in order |
| RecipeFilter.Normal | app.py:23-28 | a normalised query value is lower-case and has no white space at either end; with no comma in the input it is a token |
| RecipeFilter.NormalIsLowerStrip | app.py:23-28 | lower-then-strip, as the application does it, equals strip-then-lower |
| RecipeFilter.NormalizeIngredients | app.py:23 | no required token exactly when the argument is absent or empty; every token is comma-free, lower-case and stripped |
| RecipeFilter.QueryTokens | app.py:23 | a given ingredient argument yields one token per comma-separated part, in order, each the part stripped and lower-cased |
| RecipeFilter.NormalizeField | app.py:24-28 | a value is set exactly when the argument is present and non-empty, and a set value is the argument stripped and lower-cased |
| RecipeFilter.RowIngredients | app.py:31-32 | every token of the row's list is comma-free, lower-case and stripped |
| RecipeFilter.RowTokens | app.py:31-32 | the row yields one token per comma-separated part of its ingredient list, in order, each the part stripped and lower-cased |
| RecipeFilter.Normalize | app.py:23-28 | the six arguments are normalised once; the criteria set nothing exactly when every argument is absent or empty |
| RecipeFilter.IngredientMatch | app.py:35 | passes exactly when each required token is, by string equality, one of the row's tokens; vacuous for no required token |
| RecipeFilter.FieldMatch | app.py:37-44 | passes exactly when the criterion is unset or occurs at some position of the lower-cased, unstripped field |
| RecipeFilter.FieldMatchIsContainment | app.py:37-44 | a scalar test passes exactly when the criterion is unset or occurs in the lower-cased, unstripped field; skipping an empty criterion changes nothing |
| RecipeFilter.Matches | app.py:47 | a row passes exactly when every required token is one of its tokens and every set scalar value is contained in the lower-cased field it constrains |
| RecipeFilter.MissingTokenRejects | app.py:35 | a row lacking one required token as a whole token is rejected whatever its other fields hold |
| RecipeFilter.Project | app.py:48-57 | the projection carries the row's original name, prep and cook times, diet, flavour profile, course, state and region, and is never the placeholder |
| RecipeFilter.ProjectAll | app.py:48-57 | one projection per kept row, in the same order, each carrying the row's original field values |
| RecipeFilter.Recommend | app.py:59 | the result is never empty and has at most max(1, number of rows) elements; it is the lone placeholder exactly when no row passes all six tests |
| RecipeFilter.RecommendIsOrderedSelection | app.py:30-59 | a row is in the result iff all six tests pass; the result follows dataset order, each row at most once, projected with its original name, times, diet, flavour, course, state and region |
| RecipeFilter.EmptyQueryReturnsAll | app.py:23-44 | with every argument absent or empty, every row comes back projected and in order; an empty dataset gives the placeholder |
| RecipeFilter.BlankFieldIsUnconstrained | app.py:24-44 | a scalar argument of only white space constrains nothing |
| RecipeFilter.BlankIngredientsRequireEmptyToken | app.py:23-35 | an ingredient argument of only white space requires the single token "", met only by a row whose list has an empty token |
| RecipeFilter.TrailingCommaRequiresEmptyToken | app.py:23 | a trailing comma in the ingredient argument makes "" the last required token; after a non-empty argument it adds exactly that token to the ones the argument gives |
| RecipeFilter.OwnIngredientsMatch | app.py:23-35 | a row's own non-empty ingredient list, used as the query, normalises to the row's tokens and so matches it |
| RecipeFilter.SameTokens | app.py:23-32 | query-side and row-side normalisation give the same tokens for the same non-empty list |
| RecipeFilter.Scan | app.py:30-57 | the loop appends, in dataset order, the projection of exactly the rows that pass all six tests |
| RecipeFilter.RecommendFood | app.py:19-59 | normalise once, scan, and replace an empty list by the placeholder: equal to Recommend |
| Loader.FillNa | app.py:16 | no cell is missing afterwards, present cells are kept, and missing cells become "" |
| Loader.Filled | app.py:13-16 | the same columns; a listed column that exists keeps its length, has every missing cell replaced by "" and keeps every present cell; any other column is unchanged; absent listed columns are not added |
| Loader.FilledIdempotent | app.py:13-16 | filling a second time changes nothing |
| Loader.Frame.FillMissing | app.py:14-16 | visiting the listed columns in order and filling each one that exists leaves the table equal to Filled of the old table |
| Scenarios.RiceIsNotBasmatiRice | app.py:31-35 | the ingredient query "rice" finds nothing in a row listing only "basmati rice" |
| Scenarios.BasmatiRiceHasRice | app.py:37 | yet "rice" is a substring of "basmati rice" |
| Scenarios.PaddedRiceFindsRiceCurd | app.py:23-35 | the query ingredient "Rice " is the token "rice", found in the list "rice, curd" |
| Scenarios.VegFindsNonVegetarian | app.py:40 | diet "veg" finds a row whose diet is "Non Vegetarian" |
| Scenarios.CurdRiceIsFound | app.py:23-47 | ingredients "curd, rice" with diet "vegetarian" find a vegetarian row listing "rice, curd" |
| Scenarios.PunjabIsFound | app.py:37 | state "punjab" finds the row whose state is "Punjab" |
| Scenarios.UnknownStateGivesPlaceholder | app.py:59 | state "xyz123" against a "Punjab" row gives the placeholder alone |
| Scenarios.EmptyDatasetGivesPlaceholder | app.py:59 | any query against an empty dataset gives the placeholder alone |

Calling the filter twice with the same arguments on the same dataset gives
the same result, because `RecommendFood` equals the function `Recommend`.

## Left out

- The Flask application, the routes `index` and `recommend`, and template
  rendering (app.py:1-4, 61-80) are HTTP glue. That includes the error
  raised when a form field is missing entirely. The model takes the six
  arguments as `Option<string>` values.
- Reading the CSV file (app.py:7) is file I/O done by a library. The dataset
  is a given `seq<Row>`.
- Stripping white space from column names (app.py:10) is not modelled. The
  model assumes the columns already have their exact names.
- Turning the filled frame into rows (what `iterrows` does) is not modelled.
  `Loader` works on columns and `RecipeFilter` on rows. The fill is why the
  six text fields of a `Row` (ingredients, diet, flavour profile, course,
  state, region) are plain strings.
- A missing `name` is not modelled. `name` is not among the filled columns
  (app.py:13), so in the application a missing name stays missing and is
  projected as it is (app.py:49). `Row.name` is always a string.
- `prep_time` and `cook_time` are carried as text and never computed on. In
  the application a present time stays a number and a missing one becomes
  "" (app.py:16); the model does not tell the two kinds of value apart, since
  they are only passed through to the result.
- Text.Lower: only ASCII letters are lower-cased; Python's full Unicode
  case mapping is not modelled.
- Text.Strip: only the ASCII white-space characters are removed (tab, line
  feed, vertical tab, form feed, carriage return, 0x1C-0x1F and space);
  Unicode white space beyond ASCII is not modelled.
