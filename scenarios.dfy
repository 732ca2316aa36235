/**
 * Concrete queries against rows with concrete field values, pinning down the
 * matching rules that differ between ingredients (whole tokens) and the
 * other fields (substrings), and the placeholder for an empty result. Each
 * scenario fixes only the fields of the row it depends on.
 */
module Scenarios {
  import opened Wrappers
  import opened Text
  import opened RecipeFilter

  const NoArguments: Query := Query(None, None, None, None, None, None)

  /** One leading blank is stripped away. */
  lemma StripOneLeading(s: string)
    requires s != [] && !IsSpace(s[0]) && !IsSpace(s[|s| - 1])
    ensures Strip([' '] + s) == s
  {
    var none: string := [];
    assert [' '] + s + none == [' '] + s;
    StripExact([' '], s, none);
  }

  /** One trailing blank is stripped away. */
  lemma StripOneTrailing(s: string)
    requires s != [] && !IsSpace(s[0]) && !IsSpace(s[|s| - 1])
    ensures Strip(s + [' ']) == s
  {
    var none: string := [];
    assert none + s + [' '] == s + [' '];
    StripExact(none, s, [' ']);
  }

  /** A one-row dataset gives that row, projected, when it passes, and the placeholder otherwise. */
  lemma OneRow(r: Row, q: Query, c: Criteria)
    requires Normalize(q) == c
    ensures Matches(c, r) ==> Recommend([r], q) == [Project(r)]
    ensures !Matches(c, r) ==> Recommend([r], q) == [Placeholder]
  {
    assert [r][1..] == [];
  }

  /** A query that sets only the ingredients. */
  lemma OnlyIngredients(s: string, tokens: seq<string>)
    requires NormalizeIngredients(Some(s)) == tokens
    ensures Normalize(NoArguments.(ingredients := Some(s))) == Criteria(tokens, None, None, None, None, None)
  {
  }

  lemma MatchIngredients(tokens: seq<string>, r: Row)
    ensures Matches(Criteria(tokens, None, None, None, None, None), r) <==> IngredientMatch(tokens, RowIngredients(r))
  {
  }

  /** A query that sets only the state. */
  lemma OnlyState(s: string, v: string)
    requires NormalizeField(Some(s)) == Some(v)
    ensures Normalize(NoArguments.(state := Some(s))) == Criteria([], Some(v), None, None, None, None)
  {
  }

  lemma MatchState(v: string, r: Row)
    ensures Matches(Criteria([], Some(v), None, None, None, None), r) <==> FieldMatch(Some(v), r.state)
  {
  }

  /** A query that sets only the diet. */
  lemma OnlyDiet(s: string, v: string)
    requires NormalizeField(Some(s)) == Some(v)
    ensures Normalize(NoArguments.(diet := Some(s))) == Criteria([], None, None, Some(v), None, None)
  {
  }

  lemma MatchDiet(v: string, r: Row)
    ensures Matches(Criteria([], None, None, Some(v), None, None), r) <==> FieldMatch(Some(v), r.diet)
  {
  }

  /** A query that sets the ingredients and the diet. */
  lemma IngredientsAndDiet(s: string, tokens: seq<string>, d: string, v: string)
    requires NormalizeIngredients(Some(s)) == tokens && NormalizeField(Some(d)) == Some(v)
    ensures Normalize(NoArguments.(ingredients := Some(s), diet := Some(d))) == Criteria(tokens, None, None, Some(v), None, None)
  {
  }

  lemma MatchIngredientsAndDiet(tokens: seq<string>, v: string, r: Row)
    ensures Matches(Criteria(tokens, None, None, Some(v), None, None), r) <==>
      IngredientMatch(tokens, RowIngredients(r)) && FieldMatch(Some(v), r.diet)
  {
  }

  /** The row's tokens are its lower-cased list's parts, each stripped. */
  lemma RowTokensAre(r: Row, parts: seq<string>)
    requires parts == Split(Lower(r.ingredients), ',')
    ensures RowIngredients(r) == seq(|parts|, i requires 0 <= i < |parts| => Strip(parts[i]))
  {
  }

  /** A list with one part gives the one token that part strips to. */
  lemma RowOnePart(r: Row, a: string)
    requires Split(Lower(r.ingredients), ',') == [a]
    ensures RowIngredients(r) == [Strip(a)]
  {
    RowTokensAre(r, [a]);
    var tokens := RowIngredients(r);
    assert |tokens| == 1 && tokens[0] == Strip(a);
  }

  /** A list "x,y" with no other comma is the two parts "x" and "y". */
  lemma TwoParts(x: string, y: string)
    requires ',' !in x && ',' !in y
    ensures Split(x + [','] + y, ',') == [x, y]
  {
    SplitAtFirstSeparator(x, ',', y);
    SplitNoSeparator(y, ',');
  }

  /** A list with two parts gives the two tokens they strip to. */
  lemma RowTwoParts(r: Row, a: string, b: string)
    requires Split(Lower(r.ingredients), ',') == [a, b]
    ensures RowIngredients(r) == [Strip(a), Strip(b)]
  {
    var parts := Split(Lower(r.ingredients), ',');
    RowTokensAre(r, parts);
    var tokens := RowIngredients(r);
    assert |tokens| == 2;
    assert tokens[0] == Strip(parts[0]) && parts[0] == a;
    assert tokens[1] == Strip(parts[1]) && parts[1] == b;
  }

  /** An argument with two parts gives the two tokens they normalise to. */
  lemma QueryTwoParts(s: string, a: string, b: string)
    requires s != [] && Split(s, ',') == [a, b]
    ensures NormalizeIngredients(Some(s)) == [Normal(a), Normal(b)]
  {
    var parts := Split(s, ',');
    QueryTokensAre(s, parts);
    var tokens := NormalizeIngredients(Some(s));
    assert |tokens| == 2;
    assert tokens[0] == Normal(parts[0]) && parts[0] == a;
    assert tokens[1] == Normal(parts[1]) && parts[1] == b;
  }

  /** A plain lower-case value with no padding normalises to itself. */
  lemma QueryPlainField(s: string)
    requires s != [] && IsLower(s) && !IsSpace(s[0]) && !IsSpace(s[|s| - 1])
    ensures NormalizeField(Some(s)) == Some(s)
  {
    LowerOfLower(s);
    StripTrimmed(s);
  }

  lemma BasmatiRiceLower(r: Row)
    requires r.ingredients == "basmati rice"
    ensures Lower(r.ingredients) == "basmati rice"
  {
  }

  lemma BasmatiRiceParts()
    ensures Split("basmati rice", ',') == ["basmati rice"]
  {
    SplitNoSeparator("basmati rice", ',');
  }

  lemma BasmatiRiceTokens(r: Row)
    requires r.ingredients == "basmati rice"
    ensures RowIngredients(r) == ["basmati rice"]
  {
    BasmatiRiceLower(r);
    BasmatiRiceParts();
    RowOnePart(r, "basmati rice");
    StripTrimmed("basmati rice");
  }

  /** A list "x, y" of two lower-case names, neither padded, gives exactly the tokens x and y. */
  lemma TwoTokenList(r: Row, x: string, y: string)
    requires IsToken(x) && IsToken(y) && y != []
    requires r.ingredients == x + [','] + [' '] + y
    ensures RowIngredients(r) == [x, y]
  {
    var y' := [' '] + y;
    assert r.ingredients == x + [','] + y';
    assert ',' !in y';
    LowerAppend(x + [','], y');
    LowerAppend(x, [',']);
    LowerOfLower(x);
    assert IsLower(y');
    LowerOfLower(y');
    assert Lower([',']) == [','];
    assert Lower(r.ingredients) == r.ingredients;
    TwoParts(x, y');
    RowTwoParts(r, x, y');
    StripTrimmed(x);
    StripOneLeading(y);
  }

  lemma RiceCurdTokens(r: Row)
    requires r.ingredients == "rice, curd"
    ensures RowIngredients(r) == ["rice", "curd"]
  {
    assert "rice, curd" == "rice" + [','] + [' '] + "curd";
    TwoTokenList(r, "rice", "curd");
  }

  lemma RiceNormal()
    ensures Normal("rice") == "rice"
  {
    assert Lower("rice") == "rice";
    StripTrimmed("rice");
  }

  lemma QueryRice()
    ensures NormalizeIngredients(Some("rice")) == ["rice"]
  {
    SplitNoSeparator("rice", ',');
    QueryOnePart("rice", "rice");
    RiceNormal();
  }

  lemma PaddedRiceNormal()
    ensures Normal("Rice ") == "rice"
  {
    assert Lower("Rice ") == "rice" + [' '];
    StripOneTrailing("rice");
  }

  lemma QueryPaddedRice()
    ensures NormalizeIngredients(Some("Rice ")) == ["rice"]
  {
    SplitNoSeparator("Rice ", ',');
    QueryOnePart("Rice ", "Rice ");
    PaddedRiceNormal();
  }

  lemma CurdRiceParts()
    ensures Split("curd, rice", ',') == ["curd", " rice"]
  {
    assert "curd, rice" == "curd" + [','] + " rice";
    TwoParts("curd", " rice");
  }

  lemma CurdNormal()
    ensures Normal("curd") == "curd"
  {
    assert Lower("curd") == "curd";
    StripTrimmed("curd");
  }

  lemma SpacedRiceNormal()
    ensures Normal(" rice") == "rice"
  {
    assert Lower(" rice") == [' '] + "rice";
    StripOneLeading("rice");
  }

  lemma QueryCurdRice()
    ensures NormalizeIngredients(Some("curd, rice")) == ["curd", "rice"]
  {
    CurdRiceParts();
    QueryTwoParts("curd, rice", "curd", " rice");
    CurdNormal();
    SpacedRiceNormal();
  }

  lemma BasmatiRiceHasRice()
    ensures Contains("basmati rice", "rice")
  {
    assert OccursAt("basmati rice", "rice", 8);
  }

  /** A one-row dataset whose row lacks a token the query requires gives the placeholder. */
  lemma MissingTokenIsNotFound(r: Row, q: Query, t: string)
    requires t in NormalizeIngredients(q.ingredients) && t !in RowIngredients(r)
    ensures Recommend([r], q) == [Placeholder]
  {
    MissingTokenRejects(Normalize(q), r, t);
    OneRow(r, q, Normalize(q));
  }

  /**
   * "rice" is one ingredient token, so a row listing only "basmati rice" does
   * not have it, though "rice" is a substring there (BasmatiRiceHasRice):
   * nothing is found.
   */
  lemma RiceIsNotBasmatiRice(r: Row, q: Query)
    requires r.ingredients == "basmati rice"
    requires q == NoArguments.(ingredients := Some("rice"))
    ensures Recommend([r], q) == [Placeholder]
  {
    RiceRequired(q);
    RiceMissing(r);
    MissingTokenIsNotFound(r, q, "rice");
  }

  lemma RiceRequired(q: Query)
    requires q.ingredients == Some("rice")
    ensures "rice" in NormalizeIngredients(q.ingredients)
  {
    QueryRice();
  }

  lemma RiceMissing(r: Row)
    requires r.ingredients == "basmati rice"
    ensures "rice" !in RowIngredients(r)
  {
    BasmatiRiceTokens(r);
  }

  /** Case and padding of a query ingredient do not matter: "Rice " is the token "rice", which the list "rice, curd" has. */
  lemma PaddedRiceFindsRiceCurd(r: Row)
    requires r.ingredients == "rice, curd"
    ensures Recommend([r], NoArguments.(ingredients := Some("Rice "))) == [Project(r)]
  {
    var c := Criteria(["rice"], None, None, None, None, None);
    QueryPaddedRice();
    OnlyIngredients("Rice ", ["rice"]);
    MatchIngredients(["rice"], r);
    RiceCurdTokens(r);
    assert IngredientMatch(["rice"], ["rice", "curd"]);
    OneRow(r, NoArguments.(ingredients := Some("Rice ")), c);
  }

  lemma NonVegetarianHasVeg()
    ensures FieldMatch(Some("veg"), "Non Vegetarian")
  {
    assert Lower("Non Vegetarian") == "non vegetarian";
    assert OccursAt("non vegetarian", "veg", 4);
  }

  /** Other fields match by substring after lower-casing: diet "veg" finds a "Non Vegetarian" row. */
  lemma VegFindsNonVegetarian(r: Row)
    requires r.diet == "Non Vegetarian"
    ensures Recommend([r], NoArguments.(diet := Some("veg"))) == [Project(r)]
  {
    var c := Criteria([], None, None, Some("veg"), None, None);
    QueryPlainField("veg");
    OnlyDiet("veg", "veg");
    MatchDiet("veg", r);
    NonVegetarianHasVeg();
    OneRow(r, NoArguments.(diet := Some("veg")), c);
  }

  lemma VegetarianHasVegetarian()
    ensures FieldMatch(Some("vegetarian"), "vegetarian")
  {
    assert Lower("vegetarian") == "vegetarian";
    assert OccursAt("vegetarian", "vegetarian", 0);
  }

  lemma CurdRiceCriteria()
    ensures Normalize(NoArguments.(ingredients := Some("curd, rice"), diet := Some("vegetarian")))
         == Criteria(["curd", "rice"], None, None, Some("vegetarian"), None, None)
  {
    assert NormalizeField(Some("vegetarian")) == Some("vegetarian") by {
      QueryPlainField("vegetarian");
    }
    QueryCurdRice();
    IngredientsAndDiet("curd, rice", ["curd", "rice"], "vegetarian", "vegetarian");
  }

  lemma CurdRiceSubset()
    ensures IngredientMatch(["curd", "rice"], ["rice", "curd"])
  {
    assert "curd" == ["rice", "curd"][1] && "rice" == ["rice", "curd"][0];
  }

  lemma CurdRiceMatches(r: Row)
    requires RowIngredients(r) == ["rice", "curd"] && r.diet == "vegetarian"
    ensures Matches(Criteria(["curd", "rice"], None, None, Some("vegetarian"), None, None), r)
  {
    CurdRiceSubset();
    VegetarianHasVegetarian();
    MatchIngredientsAndDiet(["curd", "rice"], "vegetarian", r);
  }

  /** The order of the asked ingredients does not matter: "curd, rice" with diet "vegetarian" keeps a vegetarian "rice, curd" row. */
  lemma CurdRiceIsFound(r: Row)
    requires r.ingredients == "rice, curd" && r.diet == "vegetarian"
    ensures Recommend([r], NoArguments.(ingredients := Some("curd, rice"), diet := Some("vegetarian"))) == [Project(r)]
  {
    CurdRiceCriteria();
    RiceCurdTokens(r);
    CurdRiceMatches(r);
    OneRow(r, NoArguments.(ingredients := Some("curd, rice"), diet := Some("vegetarian")),
      Criteria(["curd", "rice"], None, None, Some("vegetarian"), None, None));
  }

  lemma PunjabHasPunjab()
    ensures FieldMatch(Some("punjab"), "Punjab")
  {
    assert Lower("Punjab") == "punjab";
    assert OccursAt("punjab", "punjab", 0);
  }

  /** State "punjab" finds the row whose state is "Punjab". */
  lemma PunjabIsFound(r: Row)
    requires r.state == "Punjab"
    ensures Recommend([r], NoArguments.(state := Some("punjab"))) == [Project(r)]
  {
    var c := Criteria([], Some("punjab"), None, None, None, None);
    QueryPlainField("punjab");
    OnlyState("punjab", "punjab");
    MatchState("punjab", r);
    PunjabHasPunjab();
    OneRow(r, NoArguments.(state := Some("punjab")), c);
  }

  lemma PunjabLacksXyz()
    ensures !FieldMatch(Some("xyz123"), "Punjab")
  {
    assert Lower("Punjab") == "punjab";
    assert forall i :: !OccursAt("punjab", "xyz123", i) by {
      assert "xyz123"[0] == 'x';
    }
  }

  /** State "xyz123" finds nothing in a "Punjab" row, so the placeholder alone comes back. */
  lemma UnknownStateGivesPlaceholder(r: Row)
    requires r.state == "Punjab"
    ensures Recommend([r], NoArguments.(state := Some("xyz123"))) == [Placeholder]
  {
    var c := Criteria([], Some("xyz123"), None, None, None, None);
    QueryPlainField("xyz123");
    OnlyState("xyz123", "xyz123");
    MatchState("xyz123", r);
    PunjabLacksXyz();
    OneRow(r, NoArguments.(state := Some("xyz123")), c);
  }

  /** Whatever the query, an empty dataset gives the placeholder alone. */
  lemma EmptyDatasetGivesPlaceholder(q: Query)
    ensures Recommend([], q) == [Placeholder]
  {
  }
}
