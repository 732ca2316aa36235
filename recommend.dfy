/**
 * The recipe filter: normalise an optional query once, test every row of
 * the dataset against it in dataset order, and return the kept rows
 * projected to the eight displayed fields, or the single "No recipes
 * found." record when nothing is kept.
 */
module RecipeFilter {
  import opened Wrappers
  import opened Text
  import opened Selection

  /** One record of the dataset, after the load-time fill (prep and cook times are carried as text). */
  datatype Row = Row(
    name: string,
    ingredients: string,
    diet: string,
    flavorProfile: string,
    course: string,
    state: string,
    region: string,
    prepTime: string,
    cookTime: string)

  /**
   * One element of the result: a kept row projected to its displayed
   * fields, or the placeholder that stands for an empty result.
   */
  datatype Recommendation =
    | Recipe(
        name: string,
        prepTime: string,
        cookTime: string,
        diet: string,
        flavorProfile: string,
        course: string,
        state: string,
        region: string)
    | NotFound(name: string)

  const NoRecipesFound: string := "No recipes found."

  /** The record returned in place of an empty result. */
  const Placeholder: Recommendation := NotFound(NoRecipesFound)

  /** The six optional arguments of a query, as the caller passes them. */
  datatype Query = Query(
    ingredients: Option<string>,
    state: Option<string>,
    region: Option<string>,
    diet: Option<string>,
    flavorProfile: Option<string>,
    course: Option<string>)

  /** The query after normalisation: required ingredient tokens and, per scalar field, a lower-cased stripped value or no constraint. */
  datatype Criteria = Criteria(
    ingredients: seq<string>,
    state: Option<string>,
    region: Option<string>,
    diet: Option<string>,
    flavorProfile: Option<string>,
    course: Option<string>)

  /** Python truthiness of an optional string: absent and "" are both false. */
  predicate Given(arg: Option<string>) {
    arg.Some? && arg.value != []
  }

  /** A normalised token: no comma, lower-case, and no white space at either end (so its own strip). */
  predicate IsToken(t: string) {
    ',' !in t && IsLower(t) && Trimmed(t)
  }

  /** Stripping a lower-case, comma-free string gives a token. */
  lemma StripIsToken(p: string)
    requires IsLower(p) && ',' !in p
    ensures IsToken(Strip(p))
  {
    StripKeepsLower(p);
    StripKeepsAbsent(p, ',');
  }

  /** Lower-case, then strip: how each query value and each query ingredient is normalised. */
  function Normal(s: string): (t: string)
    ensures IsLower(t) && Trimmed(t)
    ensures ',' !in s ==> IsToken(t)
  {
    var lower := Lower(s);
    LowerIsLower(s);
    StripKeepsLower(lower);
    assert ',' !in s ==> IsToken(Strip(lower)) by {
      if ',' !in s {
        LowerKeepsAbsent(s, ',');
        StripIsToken(lower);
      }
    }
    Strip(lower)
  }

  /** Normalising is stripping, then lower-casing: the order does not matter. */
  lemma NormalIsLowerStrip(s: string)
    ensures Normal(s) == Lower(Strip(s))
  {
    StripLower(s);
  }

  /**
   * The required ingredients: no constraint when the argument is absent or
   * empty; otherwise one normalised token per comma-separated part, so at
   * least one token (possibly the empty one).
   */
  function NormalizeIngredients(arg: Option<string>): (tokens: seq<string>)
    ensures tokens == [] <==> !Given(arg)
    ensures forall i :: 0 <= i < |tokens| ==> IsToken(tokens[i])
  {
    if Given(arg) then
      var parts := Split(arg.value, ',');
      seq(|parts|, i requires 0 <= i < |parts| => Normal(parts[i]))
    else []
  }

  /**
   * A scalar criterion: no constraint when the argument is absent or empty;
   * otherwise its lower-cased, stripped value (which may be "").
   */
  function NormalizeField(arg: Option<string>): (q: Option<string>)
    ensures q.Some? <==> Given(arg)
    ensures q.Some? ==> q.value == Lower(Strip(arg.value))
    ensures q.Some? ==> IsLower(q.value) && Trimmed(q.value) && |q.value| <= |arg.value|
  {
    if Given(arg) then
      NormalIsLowerStrip(arg.value);
      Some(Normal(arg.value))
    else None
  }

  /** The criteria set nothing: no required token and no scalar value. */
  predicate NoCriteria(c: Criteria) {
    c.ingredients == [] && c.state.None? && c.region.None? &&
    c.diet.None? && c.flavorProfile.None? && c.course.None?
  }

  /** The query normalised once: the criteria set nothing exactly when no argument is given. */
  function Normalize(q: Query): (c: Criteria)
    ensures NoCriteria(c) <==> IsEmptyQuery(q)
  {
    Criteria(
      NormalizeIngredients(q.ingredients),
      NormalizeField(q.state),
      NormalizeField(q.region),
      NormalizeField(q.diet),
      NormalizeField(q.flavorProfile),
      NormalizeField(q.course))
  }

  /** The row's ingredient list: lower-cased as a whole, split on commas, each part stripped. */
  function RowIngredients(r: Row): (tokens: seq<string>)
    ensures forall i :: 0 <= i < |tokens| ==> IsToken(tokens[i])
  {
    var parts := Split(Lower(r.ingredients), ',');
    PartsAreLower(Lower(r.ingredients), parts);
    var tokens := seq(|parts|, i requires 0 <= i < |parts| => Strip(parts[i]));
    assert forall i :: 0 <= i < |tokens| ==> IsToken(tokens[i]) by {
      forall i | 0 <= i < |tokens| ensures IsToken(tokens[i]) {
        StripIsToken(parts[i]);
      }
    }
    tokens
  }

  /**
   * The required ingredients of a given argument are one token per
   * comma-separated part of it, in order, each the part stripped and
   * lower-cased.
   */
  lemma QueryTokens(arg: Option<string>)
    requires Given(arg)
    ensures var tokens, parts := NormalizeIngredients(arg), Split(arg.value, ',');
      |tokens| == |parts| && forall i :: 0 <= i < |parts| ==> tokens[i] == Lower(Strip(parts[i]))
  {
    var parts := Split(arg.value, ',');
    forall i | 0 <= i < |parts| ensures NormalizeIngredients(arg)[i] == Lower(Strip(parts[i])) {
      NormalIsLowerStrip(parts[i]);
    }
  }

  /**
   * The row's tokens are one per comma-separated part of its ingredient
   * list, in order, each the part stripped and lower-cased: lower-casing the
   * whole list first, as the row side does, changes nothing.
   */
  lemma RowTokens(r: Row)
    ensures var tokens, parts := RowIngredients(r), Split(r.ingredients, ',');
      |tokens| == |parts| && forall i :: 0 <= i < |parts| ==> tokens[i] == Lower(Strip(parts[i]))
  {
    var parts := Split(r.ingredients, ',');
    SplitLower(r.ingredients, ',');
    forall i | 0 <= i < |parts| ensures RowIngredients(r)[i] == Lower(Strip(parts[i])) {
      StripLower(parts[i]);
    }
  }

  /** Every comma-separated part of a lower-case string is lower-case. */
  lemma PartsAreLower(s: string, parts: seq<string>)
    requires IsLower(s) && parts == Split(s, ',')
    ensures forall i :: 0 <= i < |parts| ==> IsLower(parts[i]) && ',' !in parts[i]
  {
    forall i | 0 <= i < |parts| ensures IsLower(parts[i]) {
      PartsOfLower(parts, i);
    }
  }

  /** Every part of a lower-case joined string is lower-case. */
  lemma {:induction false} PartsOfLower(parts: seq<string>, i: nat)
    requires |parts| >= 1 && i < |parts|
    requires IsLower(Join(parts, ','))
    ensures IsLower(parts[i])
  {
    var j := Join(parts, ',');
    if |parts| > 1 {
      assert j == parts[0] + [','] + Join(parts[1..], ',');
      if i > 0 {
        var rest := Join(parts[1..], ',');
        assert IsLower(rest) by {
          forall k | 0 <= k < |rest| ensures !IsUpper(rest[k]) {
            assert rest[k] == j[|parts[0]| + 1 + k];
          }
        }
        PartsOfLower(parts[1..], i - 1);
      } else {
        forall k | 0 <= k < |parts[0]| ensures !IsUpper(parts[0][k]) {
          assert parts[0][k] == j[k];
        }
      }
    }
  }

  /**
   * Every required token is one of the row's tokens; vacuous when no
   * ingredient was asked for, so the guard on an empty list changes nothing.
   */
  predicate IngredientMatch(required: seq<string>, available: seq<string>)
    ensures IngredientMatch(required, available) <==>
      forall i :: 0 <= i < |required| ==> required[i] in available
  {
    if required != [] then forall t :: t in required ==> t in available else true
  }

  /**
   * A scalar criterion holds when it is unset or "", or occurs in the
   * lower-cased (unstripped) field: a set criterion holds exactly when it
   * occurs at some position of the lower-cased field.
   */
  predicate FieldMatch(q: Option<string>, field: string)
    ensures FieldMatch(q, field) <==> (q.Some? ==> exists i :: OccursAt(Lower(field), q.value, i))
  {
    assert OccursAt(Lower(field), [], 0);
    if q.Some? && q.value != [] then Contains(Lower(field), q.value) else true
  }

  /**
   * The test against "" changes nothing: "" occurs in every field, so a set
   * criterion, "" included, is exactly a containment test.
   */
  lemma FieldMatchIsContainment(q: Option<string>, field: string)
    ensures FieldMatch(q, field) <==> (q.Some? ==> Contains(Lower(field), q.value))
  {
    if q.Some? && q.value == [] {
      ContainsEmpty(Lower(field));
    }
  }

  /**
   * A row is kept exactly when all six tests pass: every required token is
   * one of the row's tokens, and every set scalar value occurs in the
   * lower-cased field it constrains.
   */
  predicate Matches(c: Criteria, r: Row)
    ensures Matches(c, r) <==>
      && (forall i :: 0 <= i < |c.ingredients| ==> c.ingredients[i] in RowIngredients(r))
      && (c.state.Some? ==> Contains(Lower(r.state), c.state.value))
      && (c.region.Some? ==> Contains(Lower(r.region), c.region.value))
      && (c.diet.Some? ==> Contains(Lower(r.diet), c.diet.value))
      && (c.flavorProfile.Some? ==> Contains(Lower(r.flavorProfile), c.flavorProfile.value))
      && (c.course.Some? ==> Contains(Lower(r.course), c.course.value))
  {
    FieldMatchIsContainment(c.state, r.state);
    FieldMatchIsContainment(c.region, r.region);
    FieldMatchIsContainment(c.diet, r.diet);
    FieldMatchIsContainment(c.flavorProfile, r.flavorProfile);
    FieldMatchIsContainment(c.course, r.course);
    && IngredientMatch(c.ingredients, RowIngredients(r))
    && FieldMatch(c.state, r.state)
    && FieldMatch(c.region, r.region)
    && FieldMatch(c.diet, r.diet)
    && FieldMatch(c.flavorProfile, r.flavorProfile)
    && FieldMatch(c.course, r.course)
  }

  /** A row that lacks one required token, as a whole token, is rejected whatever its other fields say. */
  lemma MissingTokenRejects(c: Criteria, r: Row, t: string)
    requires t in c.ingredients && t !in RowIngredients(r)
    ensures !Matches(c, r)
  {
  }

  /** The displayed fields of a row, with their original spelling; never the placeholder. */
  function Project(r: Row): (p: Recommendation)
    ensures p.Recipe? && p != Placeholder
    ensures p.name == r.name && p.prepTime == r.prepTime && p.cookTime == r.cookTime
    ensures p.diet == r.diet && p.flavorProfile == r.flavorProfile && p.course == r.course
    ensures p.state == r.state && p.region == r.region
  {
    Recipe(r.name, r.prepTime, r.cookTime, r.diet, r.flavorProfile, r.course, r.state, r.region)
  }

  function ProjectAll(rows: seq<Row>): (out: seq<Recommendation>)
    ensures |out| == |rows|
    ensures forall i :: 0 <= i < |rows| ==> out[i] == Project(rows[i])
  {
    seq(|rows|, i requires 0 <= i < |rows| => Project(rows[i]))
  }

  lemma ProjectAllAppend(rows: seq<Row>, r: Row)
    ensures ProjectAll(rows + [r]) == ProjectAll(rows) + [Project(r)]
  {
  }

  /** The test a row must pass under criteria c. */
  function Keep(c: Criteria): Row -> bool {
    r => Matches(c, r)
  }

  /** The whole filter, as one value: the projected kept rows, or the placeholder alone. */
  function Recommend(data: seq<Row>, q: Query): (result: seq<Recommendation>)
    ensures 1 <= |result| <= if |data| == 0 then 1 else |data|
    ensures result == [Placeholder] <==> forall j :: 0 <= j < |data| ==> !Matches(Normalize(q), data[j])
  {
    var kept := Selected(data, Keep(Normalize(q)));
    if kept == [] then [Placeholder]
    else
      var result := ProjectAll(kept);
      assert result[0] != Placeholder;
      result
  }

  /**
   * The result is the dataset's kept rows in their original order, each
   * once, projected with its original field values; a row is there exactly
   * when all six tests pass.
   */
  lemma RecommendIsOrderedSelection(data: seq<Row>, q: Query)
    ensures var ix := MatchIndices(data, Keep(Normalize(q)));
      var result := Recommend(data, q);
      (forall j :: 0 <= j < |data| ==> (j in ix <==> Matches(Normalize(q), data[j]))) &&
      (forall k, l :: 0 <= k < l < |ix| ==> ix[k] < ix[l]) &&
      (ix == [] ==> result == [Placeholder]) &&
      (ix != [] ==>
        |result| == |ix| &&
        forall k :: 0 <= k < |ix| ==>
          result[k] == Recipe(data[ix[k]].name, data[ix[k]].prepTime, data[ix[k]].cookTime,
                              data[ix[k]].diet, data[ix[k]].flavorProfile, data[ix[k]].course,
                              data[ix[k]].state, data[ix[k]].region))
  {
    SelectedAtIndices(data, Keep(Normalize(q)));
  }

  /** A query that gives none of its six arguments (each absent or "") constrains nothing. */
  predicate IsEmptyQuery(q: Query) {
    !Given(q.ingredients) && !Given(q.state) && !Given(q.region) &&
    !Given(q.diet) && !Given(q.flavorProfile) && !Given(q.course)
  }

  /** An empty query returns every row, projected, in order; an empty dataset returns the placeholder. */
  lemma EmptyQueryReturnsAll(data: seq<Row>, q: Query)
    requires IsEmptyQuery(q)
    ensures data == [] ==> Recommend(data, q) == [Placeholder]
    ensures data != [] ==> Recommend(data, q) == ProjectAll(data)
  {
    SelectedAll(data, Keep(Normalize(q)));
  }

  /**
   * A scalar argument of only white space normalises to "" and so
   * constrains nothing, whatever the field holds.
   */
  lemma BlankFieldIsUnconstrained(s: string, field: string)
    requires AllSpace(s)
    ensures FieldMatch(NormalizeField(Some(s)), field)
  {
    if s == [] {
      assert NormalizeField(Some(s)) == None;
    } else {
      BlankIsEmpty(s);
      assert NormalizeField(Some(s)) == Some([]);
    }
  }

  /** Only white space normalises to "". */
  lemma BlankIsEmpty(s: string)
    requires AllSpace(s)
    ensures Normal(s) == []
  {
    assert AllSpace(Lower(s)) by {
      forall i | 0 <= i < |s| ensures IsSpace(Lower(s)[i]) {
        assert !IsUpper(s[i]);
      }
    }
  }

  /**
   * An ingredient argument of only white space is given, so it yields the
   * one required token "", which a row meets only if its ingredient list
   * has an empty token.
   */
  lemma BlankIngredientsRequireEmptyToken(s: string, r: Row)
    requires s != [] && AllSpace(s)
    ensures NormalizeIngredients(Some(s)) == [[]]
    ensures IngredientMatch(NormalizeIngredients(Some(s)), RowIngredients(r)) <==> [] in RowIngredients(r)
  {
    assert ',' !in s by {
      assert forall i :: 0 <= i < |s| ==> IsSpace(s[i]);
    }
    SplitNoSeparator(s, ',');
    BlankIsEmpty(s);
    BlankTokens(s);
    EmptyTokenRequired(RowIngredients(r));
  }

  lemma BlankTokens(s: string)
    requires s != [] && Split(s, ',') == [s] && Normal(s) == []
    ensures NormalizeIngredients(Some(s)) == [[]]
  {
    QueryOnePart(s, s);
  }

  /** The argument's tokens are its parts, each normalised. */
  lemma QueryTokensAre(s: string, parts: seq<string>)
    requires s != [] && parts == Split(s, ',')
    ensures NormalizeIngredients(Some(s)) == seq(|parts|, i requires 0 <= i < |parts| => Normal(parts[i]))
  {
  }

  /** An argument with one part gives the one token that part normalises to. */
  lemma QueryOnePart(s: string, a: string)
    requires s != [] && Split(s, ',') == [a]
    ensures NormalizeIngredients(Some(s)) == [Normal(a)]
  {
    QueryTokensAre(s, [a]);
  }

  lemma EmptyTokenRequired(available: seq<string>)
    ensures IngredientMatch([[]], available) <==> [] in available
  {
    var none: string := [];
    assert forall t :: t in [none] <==> t == none;
  }

  /** A trailing comma in the ingredient argument adds the empty token as a requirement. */
  lemma TrailingCommaRequiresEmptyToken(s: string)
    ensures var tokens := NormalizeIngredients(Some(s + [',']));
      |tokens| >= 1 && tokens[|tokens| - 1] == []
    ensures s != [] ==> NormalizeIngredients(Some(s + [','])) == NormalizeIngredients(Some(s)) + [[]]
  {
    TrailingSeparator(s, ',');
    if s != [] {
      var parts := Split(s, ',');
      QueryTokensAre(s, parts);
      QueryTokensAre(s + [','], parts + [[]]);
      NormalAppendEmpty(parts);
    }
  }

  /** Normalising one more, empty, part adds the empty token at the end. */
  lemma NormalAppendEmpty(parts: seq<string>)
    ensures var more := parts + [[]];
      seq(|more|, i requires 0 <= i < |more| => Normal(more[i]))
        == seq(|parts|, i requires 0 <= i < |parts| => Normal(parts[i])) + [[]]
  {
    var more := parts + [[]];
    var after := seq(|more|, i requires 0 <= i < |more| => Normal(more[i]));
    var before := seq(|parts|, i requires 0 <= i < |parts| => Normal(parts[i]));
    assert Normal([]) == [];
    forall i | 0 <= i < |after| ensures after[i] == (before + [[]])[i] {
      if i < |parts| {
        assert more[i] == parts[i];
      }
    }
  }

  /**
   * Lower-casing before or after splitting gives the same tokens, so a row
   * always meets an ingredient query made from its own, non-empty,
   * ingredient list.
   */
  lemma OwnIngredientsMatch(r: Row)
    requires r.ingredients != []
    ensures NormalizeIngredients(Some(r.ingredients)) == RowIngredients(r)
    ensures IngredientMatch(NormalizeIngredients(Some(r.ingredients)), RowIngredients(r))
  {
    SameTokens(r);
    var tokens := RowIngredients(r);
    assert forall i :: 0 <= i < |tokens| ==> tokens[i] in tokens;
  }

  /** Query-side and row-side normalisation give the same tokens for the same non-empty list. */
  lemma SameTokens(r: Row)
    requires r.ingredients != []
    ensures NormalizeIngredients(Some(r.ingredients)) == RowIngredients(r)
  {
    QueryTokens(Some(r.ingredients));
    RowTokens(r);
    SamePartTokens(NormalizeIngredients(Some(r.ingredients)), RowIngredients(r), Split(r.ingredients, ','));
  }

  /** Two token lists that both normalise the same parts, one by one, are equal. */
  lemma SamePartTokens(mine: seq<string>, theirs: seq<string>, parts: seq<string>)
    requires |mine| == |parts| && forall i :: 0 <= i < |parts| ==> mine[i] == Lower(Strip(parts[i]))
    requires |theirs| == |parts| && forall i :: 0 <= i < |parts| ==> theirs[i] == Lower(Strip(parts[i]))
    ensures mine == theirs
  {
  }

  /**
   * The scan as recommend_food runs it: visit every row in order and append
   * the projection of each row that passes all six tests.
   */
  method Scan(data: seq<Row>, c: Criteria) returns (recommendations: seq<Recommendation>)
    ensures recommendations == ProjectAll(Selected(data, Keep(c)))
  {
    recommendations := [];
    for i := 0 to |data|
      invariant recommendations == ProjectAll(Selected(data[..i], Keep(c)))
    {
      var row := data[i];
      var foodIngredients := RowIngredients(row);
      var ingredientMatch := IngredientMatch(c.ingredients, foodIngredients);
      var stateMatch := FieldMatch(c.state, row.state);
      var regionMatch := FieldMatch(c.region, row.region);
      var dietMatch := FieldMatch(c.diet, row.diet);
      var flavorMatch := FieldMatch(c.flavorProfile, row.flavorProfile);
      var courseMatch := FieldMatch(c.course, row.course);
      ghost var kept := Selected(data[..i], Keep(c));
      assert data[..i + 1] == data[..i] + [row];
      SelectedAppend(data[..i], row, Keep(c));
      if ingredientMatch && stateMatch && regionMatch && dietMatch && flavorMatch && courseMatch {
        ProjectAllAppend(kept, row);
        recommendations := recommendations + [Project(row)];
      } else {
        assert kept + [] == kept;
      }
    }
    assert data[..|data|] == data;
  }

  /**
   * The filter as recommend_food runs it: normalise the query once, scan the
   * dataset, and put the placeholder in place of an empty list.
   */
  method RecommendFood(data: seq<Row>, q: Query) returns (recommendations: seq<Recommendation>)
    ensures recommendations == Recommend(data, q)
  {
    var c := Normalize(q);
    recommendations := Scan(data, c);
    if recommendations == [] {
      recommendations := [Placeholder];
    }
  }
}
