/** The day's meal message: looks up this week's plan by its week-range key, reads today's
    comma-separated recipe ids, and renders one section per recipe found. The two document
    collections are immutable maps and "today" is a parameter. Every failure becomes a
    returned error text, so the operation always yields a sendable message. */
module MealMessage {
  import opened Wrappers
  import opened CivilDate
  import opened DateFormat
  import opened WeekKey
  import opened Text

  /** A document of the `recipes` collection; either field may be missing. */
  datatype Recipe = Recipe(name: Option<string>, ingredients: Option<seq<string>>)

  /** A document of the `mealPlans` collection: weekday name to comma-separated recipe ids. */
  type WeekPlan = map<string, string>

  /** The `mealPlans` collection, keyed by week-range key. */
  type PlanStore = map<string, WeekPlan>

  /** The `recipes` collection, keyed by recipe id. */
  type RecipeStore = map<string, Recipe>

  const ErrorPrefix: string := "Error getting meal information: "
  const NoMealPrefix: string := "No meal planned for "
  /** "🍽️ Today's Meal (" */
  const HeaderPrefix: string := "\U{1F37D}\U{FE0F} Today's Meal ("
  /** "📌 " */
  const Pin: string := "\U{1F4CC} "
  /** "• " */
  const Bullet: string := "\U{2022} "

  /** `today.strftime('%A')` */
  function DayOfWeek(today: Date): string
    requires Valid(today)
  {
    DayName(Weekday(today))
  }

  /** The weekday name is the plan field read for the day, and it names exactly the date's
      weekday. */
  lemma DayOfWeekRoundTrip(today: Date)
    requires Valid(today)
    ensures DayNumber(DayOfWeek(today)) == Some(Weekday(today))
  {
    DayNameRoundTrip(Weekday(today));
  }

  /** The message for a day without recipes, from the weekday name and the formatted date. */
  function NoMealMessage(day: string, date: string): string {
    NoMealPrefix + day + ", " + date
  }

  /** The first line of a successful message. */
  function HeaderLine(day: string, date: string): string {
    HeaderPrefix + day + ", " + date + "):"
  }

  /** The text of a Python `KeyError` for a missing document field: the quoted field name. */
  function KeyErrorText(field: string): string {
    "'" + field + "'"
  }

  predicate Complete(r: Recipe) {
    r.name.Some? && r.ingredients.Some?
  }

  /** The error a recipe document raises when rendered: `name` is read first. */
  function MissingField(r: Recipe): string
    requires !Complete(r)
  {
    if r.name.None? then KeyErrorText("name") else KeyErrorText("ingredients")
  }

  /** One "• <ingredient>" line per ingredient, in order. */
  function IngredientLines(ingredients: seq<string>): string {
    if |ingredients| == 0 then ""
    else Bullet + ingredients[0] + "\n" + IngredientLines(ingredients[1..])
  }

  /** The section one complete recipe contributes. */
  function SectionText(r: Recipe): string
    requires Complete(r)
  {
    Pin + r.name.value + "\n" + "Ingredients:\n" + IngredientLines(r.ingredients.value) + "\n"
  }

  /** Rendering one found recipe, which raises if a field is missing. */
  function RecipeSection(r: Recipe): Result<string, string> {
    if Complete(r) then Success(SectionText(r)) else Failure(MissingField(r))
  }

  /** The loop over recipe ids: ids not in the store are skipped, every found recipe adds its
      section in id order, and the first recipe that raises aborts the whole loop. */
  function Sections(ids: seq<string>, recipes: RecipeStore): Result<string, string>
    decreases |ids|
  {
    if |ids| == 0 then Success("")
    else if ids[0] !in recipes then Sections(ids[1..], recipes)
    else match RecipeSection(recipes[ids[0]])
      case Failure(e) => Failure(e)
      case Success(section) =>
        match Sections(ids[1..], recipes)
        case Failure(e) => Failure(e)
        case Success(rest) => Success(section + rest)
  }

  /** `meal_data.get(day, '')` */
  function DayValue(plan: WeekPlan, day: string): string {
    if day in plan then plan[day] else ""
  }

  /** `get_today_meal()` with the clock and the database passed in. */
  function TodayMeal(today: Date, plans: PlanStore, recipes: RecipeStore): string
    requires Valid(today)
  {
    var day := DayOfWeek(today);
    var date := FormatDate(today);
    match WeekRange(today)
    case Failure(e) => ErrorPrefix + e
    case Success(key) =>
      if key !in plans then NoMealMessage(day, date)
      else
        var ids := Split(DayValue(plans[key], day), ',');
        if |ids| == 0 || ids[0] == "" then NoMealMessage(day, date)
        else match Sections(ids, recipes)
          case Failure(e) => ErrorPrefix + e
          case Success(body) => Strip(HeaderLine(day, date) + "\n\n" + body)
  }

  // ---------------------------------------------------------------------------
  // An independent description of the section loop: first keep the ids that resolve,
  // then render each of their recipes.

  /** The recipes the ids resolve to, in id order, one per resolving occurrence. */
  function Resolved(ids: seq<string>, recipes: RecipeStore): (rs: seq<Recipe>)
    ensures |rs| <= |ids|
    ensures forall r :: r in rs ==> r in recipes.Values
  {
    if |ids| == 0 then []
    else if ids[0] in recipes then [recipes[ids[0]]] + Resolved(ids[1..], recipes)
    else Resolved(ids[1..], recipes)
  }

  predicate AllComplete(rs: seq<Recipe>) {
    forall i :: 0 <= i < |rs| ==> Complete(rs[i])
  }

  /** Index of the first recipe lacking a field. */
  function FirstIncomplete(rs: seq<Recipe>): (k: nat)
    requires !AllComplete(rs)
    ensures k < |rs| && !Complete(rs[k])
    ensures forall i :: 0 <= i < k ==> Complete(rs[i])
  {
    if !Complete(rs[0]) then 0
    else
      assert !AllComplete(rs[1..]) by {
        var j :| 0 <= j < |rs| && !Complete(rs[j]);
        assert rs[1..][j - 1] == rs[j];
      }
      1 + FirstIncomplete(rs[1..])
  }

  function Texts(rs: seq<Recipe>): (ts: seq<string>)
    requires AllComplete(rs)
    ensures |ts| == |rs|
    ensures forall i :: 0 <= i < |rs| ==> ts[i] == SectionText(rs[i])
  {
    if |rs| == 0 then [] else [SectionText(rs[0])] + Texts(rs[1..])
  }

  // ---------------------------------------------------------------------------
  // Properties of the section loop

  /** The lines `"• <ingredient>"`, one per ingredient, in order. */
  function BulletLines(ingredients: seq<string>): (lines: seq<string>)
    ensures |lines| == |ingredients|
    ensures forall i :: 0 <= i < |ingredients| ==> lines[i] == Bullet + ingredients[i]
  {
    if |ingredients| == 0 then [] else [Bullet + ingredients[0]] + BulletLines(ingredients[1..])
  }

  /** A section read line by line: the pinned name, the "Ingredients:" heading, one bulleted
      line per ingredient in order, then the two empty pieces left by the blank line that
      closes the section. */
  lemma SectionLines(r: Recipe)
    requires Complete(r)
    requires '\n' !in r.name.value
    requires forall i :: 0 <= i < |r.ingredients.value| ==> '\n' !in r.ingredients.value[i]
    ensures var ingredients := r.ingredients.value;
      var lines := Split(SectionText(r), '\n');
      && |lines| == |ingredients| + 4
      && lines[0] == Pin + r.name.value
      && lines[1] == "Ingredients:"
      && (forall i :: 0 <= i < |ingredients| ==> lines[i + 2] == Bullet + ingredients[i])
      && lines[|ingredients| + 2] == ""
      && lines[|ingredients| + 3] == ""
  {
    var ingredients := r.ingredients.value;
    var tail := BulletLines(ingredients) + ["", ""];
    var pieces := [Pin + r.name.value, "Ingredients:"] + tail;
    assert Join(pieces, '\n') == SectionText(r) by {
      SectionJoin(r.name.value, ingredients);
    }
    forall i | 0 <= i < |pieces| ensures '\n' !in pieces[i] {
      if i >= 2 && i < |ingredients| + 2 {
        assert pieces[i] == Bullet + ingredients[i - 2];
      }
    }
    SplitJoin(pieces, '\n');
    forall i | 0 <= i < |ingredients| ensures pieces[i + 2] == Bullet + ingredients[i] {
      assert pieces[i + 2] == tail[i];
    }
  }

  /** Joining the section's lines with newlines gives the section text. */
  lemma SectionJoin(name: string, ingredients: seq<string>)
    ensures Join([Pin + name, "Ingredients:"] + (BulletLines(ingredients) + ["", ""]), '\n')
         == SectionText(Recipe(Some(name), Some(ingredients)))
  {
    var tail := BulletLines(ingredients) + ["", ""];
    var body := IngredientLines(ingredients);
    assert Join(tail, '\n') == body + "\n" by {
      BulletJoin(ingredients);
    }
    assert Join(["Ingredients:"] + tail, '\n') == "Ingredients:\n" + (body + "\n") by {
      JoinCons("Ingredients:", tail, '\n');
    }
    assert [Pin + name, "Ingredients:"] + tail == [Pin + name] + (["Ingredients:"] + tail);
    JoinCons(Pin + name, ["Ingredients:"] + tail, '\n');
  }

  /** The bullet lines and the closing blank line, joined, are the ingredient text and the
      newline after it. */
  lemma {:induction false} BulletJoin(ingredients: seq<string>)
    ensures Join(BulletLines(ingredients) + ["", ""], '\n') == IngredientLines(ingredients) + "\n"
    decreases |ingredients|
  {
    if |ingredients| == 0 {
      assert BulletLines(ingredients) + ["", ""] == ["", ""];
      JoinCons("", [""], '\n');
    } else {
      var line := Bullet + ingredients[0];
      var rest := BulletLines(ingredients[1..]) + ["", ""];
      assert BulletLines(ingredients) + ["", ""] == [line] + rest;
      JoinCons(line, rest, '\n');
      BulletJoin(ingredients[1..]);
      var body := IngredientLines(ingredients[1..]);
      assert line + "\n" + (body + "\n") == line + "\n" + body + "\n";
    }
  }

  /** The loop succeeds exactly when every found recipe is complete; it then yields the
      sections of the found recipes in order, and otherwise the error of the first found
      recipe that lacks a field. */
  lemma {:induction false} SectionsMeaning(ids: seq<string>, recipes: RecipeStore)
    ensures Sections(ids, recipes).Success? <==> AllComplete(Resolved(ids, recipes))
    ensures AllComplete(Resolved(ids, recipes)) ==>
      Sections(ids, recipes).value == Concat(Texts(Resolved(ids, recipes)))
    ensures !AllComplete(Resolved(ids, recipes)) ==>
      Sections(ids, recipes).error == MissingField(Resolved(ids, recipes)[FirstIncomplete(Resolved(ids, recipes))])
    decreases |ids|
  {
    if |ids| > 0 {
      SectionsMeaning(ids[1..], recipes);
      var tail := Resolved(ids[1..], recipes);
      if ids[0] in recipes {
        var r := recipes[ids[0]];
        assert Resolved(ids, recipes) == [r] + tail;
        ConsRecipe(r, tail);
      } else {
        assert Resolved(ids, recipes) == tail;
      }
    }
  }

  /** How completeness, the first incomplete recipe and the texts of `[r] + rs` follow from
      those of `rs`. */
  lemma ConsRecipe(r: Recipe, rs: seq<Recipe>)
    ensures ([r] + rs)[0] == r && ([r] + rs)[1..] == rs
    ensures AllComplete([r] + rs) <==> Complete(r) && AllComplete(rs)
    ensures AllComplete([r] + rs) ==> Concat(Texts([r] + rs)) == SectionText(r) + Concat(Texts(rs))
    ensures !AllComplete([r] + rs) ==>
      MissingField(([r] + rs)[FirstIncomplete([r] + rs)])
        == if Complete(r) then MissingField(rs[FirstIncomplete(rs)]) else MissingField(r)
  {
    var all := [r] + rs;
    assert all[1..] == rs;
    if Complete(r) && AllComplete(rs) {
      forall i | 0 <= i < |all| ensures Complete(all[i]) {
        if i > 0 {
          assert all[i] == rs[i - 1];
        }
      }
    }
    if AllComplete(all) {
      forall i | 0 <= i < |rs| ensures Complete(rs[i]) {
        assert rs[i] == all[i + 1];
      }
    }
  }

  /** Resolution distributes over concatenation of id lists. */
  lemma {:induction false} ResolvedAppend(a: seq<string>, b: seq<string>, recipes: RecipeStore)
    ensures Resolved(a + b, recipes) == Resolved(a, recipes) + Resolved(b, recipes)
    decreases |a|
  {
    if |a| > 0 {
      ResolvedAppend(a[1..], b, recipes);
      assert (a + b)[1..] == a[1..] + b;
    } else {
      assert a + b == b;
    }
  }

  /** The section loop depends only on the recipes the ids resolve to. */
  lemma SectionsDependOnResolved(ids1: seq<string>, ids2: seq<string>, recipes: RecipeStore)
    requires Resolved(ids1, recipes) == Resolved(ids2, recipes)
    ensures Sections(ids1, recipes) == Sections(ids2, recipes)
  {
    SectionsMeaning(ids1, recipes);
    SectionsMeaning(ids2, recipes);
  }

  /** An id that resolves to nothing is skipped without changing the other sections. */
  lemma UnresolvedIdSkipped(a: seq<string>, x: string, b: seq<string>, recipes: RecipeStore)
    requires x !in recipes
    ensures Sections(a + [x] + b, recipes) == Sections(a + b, recipes)
  {
    ResolvedAppend(a + [x], b, recipes);
    ResolvedAppend(a, [x], recipes);
    ResolvedAppend(a, b, recipes);
    assert Resolved([x], recipes) == [];
    SectionsDependOnResolved(a + [x] + b, a + b, recipes);
  }

  /** Every resolving occurrence of an id, repeated ones included, contributes its own
      section. */
  lemma ResolvedOccurrences(a: seq<string>, x: string, b: seq<string>, recipes: RecipeStore)
    requires x in recipes
    ensures Resolved(a + [x] + b, recipes)
         == Resolved(a, recipes) + [recipes[x]] + Resolved(b, recipes)
  {
    ResolvedAppend(a + [x], b, recipes);
    ResolvedAppend(a, [x], recipes);
    assert Resolved([x], recipes) == [recipes[x]];
  }

  // ---------------------------------------------------------------------------
  // Properties of the message

  /** A successful message is the header line followed by the sections, with the trailing
      whitespace removed. */
  lemma StrippedMessage(day: string, date: string, body: string)
    ensures Strip(HeaderLine(day, date) + "\n\n" + body) == HeaderLine(day, date) + StripRight("\n\n" + body)
  {
    var h := HeaderLine(day, date);
    var rest := "\n\n" + body;
    HeaderLineEnds(day, date);
    AppendAssoc(h, "\n\n", body);
    StartsWith(h, rest);
    StripLeftUnchanged(h + rest);
    StripRightAfter(h, rest);
  }

  /** The header line starts with the plate emoji and ends with a colon. */
  lemma HeaderLineEnds(day: string, date: string)
    ensures var h := HeaderLine(day, date);
      |h| > 0 && h[0] == '\U{1F37D}' && h[|h| - 1] == ':'
  {
  }

  /** Without a plan document for the week the message says no meal is planned, and the
      recipe collection plays no part. */
  lemma NoPlanDocument(today: Date, plans: PlanStore, recipes: RecipeStore, other: RecipeStore)
    requires Valid(today)
    requires WeekRange(today).Success? && WeekRange(today).value !in plans
    ensures TodayMeal(today, plans, recipes) == NoMealMessage(DayOfWeek(today), FormatDate(today))
    ensures TodayMeal(today, plans, other) == TodayMeal(today, plans, recipes)
  {
  }

  /** A missing weekday field counts as "", and whenever the first comma-separated piece is
      empty the message says no meal is planned, without consulting any recipe. */
  lemma EmptyFirstPiece(today: Date, plans: PlanStore, recipes: RecipeStore, other: RecipeStore)
    requires Valid(today)
    requires WeekRange(today).Success? && WeekRange(today).value in plans
    requires var v := DayValue(plans[WeekRange(today).value], DayOfWeek(today));
      |v| == 0 || v[0] == ','
    ensures TodayMeal(today, plans, recipes) == NoMealMessage(DayOfWeek(today), FormatDate(today))
    ensures TodayMeal(today, plans, other) == TodayMeal(today, plans, recipes)
  {
    var v := DayValue(plans[WeekRange(today).value], DayOfWeek(today));
    SplitFirstEmpty(v, ',');
  }

  /** The conditions under which a plan lists recipe ids: a plan document exists and the
      day's first comma-separated piece is non-empty. */
  predicate HasIds(today: Date, plans: PlanStore)
    requires Valid(today)
  {
    && WeekRange(today).Success?
    && WeekRange(today).value in plans
    && Split(DayValue(plans[WeekRange(today).value], DayOfWeek(today)), ',')[0] != ""
  }

  function TodayIds(today: Date, plans: PlanStore): seq<string>
    requires Valid(today) && HasIds(today, plans)
  {
    Split(DayValue(plans[WeekRange(today).value], DayOfWeek(today)), ',')
  }

  /** With ids listed and every found recipe complete, the message is the header line and
      one section per found recipe, in id order, with trailing whitespace stripped. */
  lemma MealListed(today: Date, plans: PlanStore, recipes: RecipeStore)
    requires Valid(today) && HasIds(today, plans)
    requires AllComplete(Resolved(TodayIds(today, plans), recipes))
    ensures TodayMeal(today, plans, recipes)
         == HeaderLine(DayOfWeek(today), FormatDate(today))
          + StripRight("\n\n" + Concat(Texts(Resolved(TodayIds(today, plans), recipes))))
  {
    SectionsMeaning(TodayIds(today, plans), recipes);
    StrippedMessage(DayOfWeek(today), FormatDate(today), Concat(Texts(Resolved(TodayIds(today, plans), recipes))));
  }

  lemma BlankLinesStrip()
    ensures StripRight("\n\n" + "") == ""
  {
    StripRightExact("", "\n\n");
    assert "" + "\n\n" == "\n\n" + "";
  }

  /** When ids are listed but none of them is found, only the header line remains. */
  lemma NothingFound(today: Date, plans: PlanStore, recipes: RecipeStore)
    requires Valid(today) && HasIds(today, plans)
    requires Resolved(TodayIds(today, plans), recipes) == []
    ensures TodayMeal(today, plans, recipes) == HeaderLine(DayOfWeek(today), FormatDate(today))
  {
    MealListed(today, plans, recipes);
    assert Concat(Texts([])) == "";
    BlankLinesStrip();
  }

  /** A found recipe lacking a field discards the partial message: the result is the error
      text of the first such recipe. */
  lemma IncompleteRecipe(today: Date, plans: PlanStore, recipes: RecipeStore)
    requires Valid(today) && HasIds(today, plans)
    requires !AllComplete(Resolved(TodayIds(today, plans), recipes))
    ensures var rs := Resolved(TodayIds(today, plans), recipes);
      TodayMeal(today, plans, recipes) == ErrorPrefix + MissingField(rs[FirstIncomplete(rs)])
  {
    SectionsMeaning(TodayIds(today, plans), recipes);
  }

  /** In the last five days of 9999 the Sunday of the week overflows, and the overflow
      becomes the message. */
  lemma WeekOverflow(today: Date, plans: PlanStore, recipes: RecipeStore)
    requires Valid(today)
    requires today.year == MaxYear && today.month == 12 && today.day >= 27
    ensures TodayMeal(today, plans, recipes) == ErrorPrefix + OutOfRange
  {
    WeekRangeFailsInLastWeek(today);
  }

  /** The three kinds of message are told apart by their first character, and each arises
      under exactly its own conditions. */
  lemma MessageKinds(today: Date, plans: PlanStore, recipes: RecipeStore)
    requires Valid(today)
    ensures var m := TodayMeal(today, plans, recipes);
      && |m| > 0
      && (m[0] == 'N' <==> WeekRange(today).Success? && !HasIds(today, plans))
      && (m[0] == 'E' <==>
            || WeekRange(today).Failure?
            || (HasIds(today, plans) && !AllComplete(Resolved(TodayIds(today, plans), recipes))))
      && (m[0] == '\U{1F37D}' <==>
            HasIds(today, plans) && AllComplete(Resolved(TodayIds(today, plans), recipes)))
  {
    FirstCharacter(today, plans, recipes);
  }

  /** The first character of the message, case by case. */
  lemma FirstCharacter(today: Date, plans: PlanStore, recipes: RecipeStore)
    requires Valid(today)
    ensures var m := TodayMeal(today, plans, recipes);
      |m| > 0 && m[0] == (
        if WeekRange(today).Failure? then 'E'
        else if !HasIds(today, plans) then 'N'
        else if AllComplete(Resolved(TodayIds(today, plans), recipes)) then '\U{1F37D}'
        else 'E')
  {
    var m := TodayMeal(today, plans, recipes);
    if WeekRange(today).Failure? {
      StartsWith(ErrorPrefix, WeekRange(today).error);
    } else if !HasIds(today, plans) {
      NoMealInitial(DayOfWeek(today), FormatDate(today));
    } else if AllComplete(Resolved(TodayIds(today, plans), recipes)) {
      MealListed(today, plans, recipes);
      var h := HeaderLine(DayOfWeek(today), FormatDate(today));
      HeaderLineEnds(DayOfWeek(today), FormatDate(today));
      StartsWith(h, StripRight("\n\n" + Concat(Texts(Resolved(TodayIds(today, plans), recipes)))));
    } else {
      IncompleteRecipe(today, plans, recipes);
      var rs := Resolved(TodayIds(today, plans), recipes);
      StartsWith(ErrorPrefix, MissingField(rs[FirstIncomplete(rs)]));
    }
  }

  lemma NoMealInitial(day: string, date: string)
    ensures |NoMealMessage(day, date)| > 0 && NoMealMessage(day, date)[0] == 'N'
  {
  }

  /** A Wednesday whose plan lists "r1,r2", where r1 is a pasta recipe and r2 does not
      exist: the message holds the header and the pasta section only. */
  lemma PastaScenario(today: Date, plans: PlanStore, recipes: RecipeStore, pasta: string)
    requires today == Date(2025, 1, 1)
    requires plans == map["December 30, 2024 - January 05, 2025" := map["Wednesday" := "r1,r2"]]
    requires recipes == map["r1" := Recipe(Some("Pasta"), Some(["Noodles", "Sauce"]))]
    requires pasta == Pin + "Pasta" + "\nIngredients:\n" + Bullet + "Noodles" + "\n" + Bullet + "Sauce"
    ensures Valid(today)
    ensures TodayMeal(today, plans, recipes) == HeaderLine("Wednesday", "January 01, 2025") + "\n\n" + pasta
  {
    PastaBody(today, plans, recipes, pasta);
    TrailingBlankLines("Wednesday", "January 01, 2025", pasta);
  }

  lemma PastaBody(today: Date, plans: PlanStore, recipes: RecipeStore, core: string)
    requires today == Date(2025, 1, 1)
    requires plans == map["December 30, 2024 - January 05, 2025" := map["Wednesday" := "r1,r2"]]
    requires recipes == map["r1" := Recipe(Some("Pasta"), Some(["Noodles", "Sauce"]))]
    requires core == Pin + "Pasta" + "\nIngredients:\n" + Bullet + "Noodles" + "\n" + Bullet + "Sauce"
    ensures Valid(today)
    ensures TodayMeal(today, plans, recipes)
         == Strip(HeaderLine("Wednesday", "January 01, 2025") + "\n\n" + (core + "\n\n"))
    ensures |core| > 0 && !IsSpace(core[|core| - 1])
  {
    PastaEnds(core);
    PastaLookups(plans, recipes);
    NewYearDay();
    CommaPair();
    TwoIdSections("r1", "r2", "Pasta", "Noodles", "Sauce", recipes);
    ListedMessage(today, plans, recipes, "December 30, 2024 - January 05, 2025", "Wednesday",
      "January 01, 2025", ["r1", "r2"], core + "\n\n");
  }

  lemma PastaEnds(core: string)
    requires core == Pin + "Pasta" + "\nIngredients:\n" + Bullet + "Noodles" + "\n" + Bullet + "Sauce"
    ensures |core| > 0 && !IsSpace(core[|core| - 1])
  {
    EndsWith(Pin + "Pasta" + "\nIngredients:\n" + Bullet + "Noodles" + "\n" + Bullet, "Sauce");
  }

  lemma PastaLookups(plans: PlanStore, recipes: RecipeStore)
    requires plans == map["December 30, 2024 - January 05, 2025" := map["Wednesday" := "r1,r2"]]
    requires recipes == map["r1" := Recipe(Some("Pasta"), Some(["Noodles", "Sauce"]))]
    ensures "December 30, 2024 - January 05, 2025" in plans
    ensures DayValue(plans["December 30, 2024 - January 05, 2025"], "Wednesday") == "r1,r2"
    ensures "r1" in recipes && "r2" !in recipes
    ensures recipes["r1"] == Recipe(Some("Pasta"), Some(["Noodles", "Sauce"]))
  {
  }

  /** The message once the key, the weekday, the date text, the ids and the sections are
      known. */
  lemma ListedMessage(today: Date, plans: PlanStore, recipes: RecipeStore, key: string, day: string,
                      date: string, ids: seq<string>, body: string)
    requires Valid(today) && WeekRange(today) == Success(key) && key in plans
    requires DayOfWeek(today) == day && FormatDate(today) == date
    requires Split(DayValue(plans[key], day), ',') == ids && |ids| > 0 && ids[0] != ""
    requires Sections(ids, recipes) == Success(body)
    ensures TodayMeal(today, plans, recipes) == Strip(HeaderLine(day, date) + "\n\n" + body)
  {
  }

  lemma NewYearDay()
    ensures Valid(Date(2025, 1, 1))
    ensures DayOfWeek(Date(2025, 1, 1)) == "Wednesday"
    ensures FormatDate(Date(2025, 1, 1)) == "January 01, 2025"
    ensures WeekRange(Date(2025, 1, 1)) == Success("December 30, 2024 - January 05, 2025")
  {
    NewYearExample();
    NewYearWeekday();
    NewYearFormat();
  }

  lemma CommaPair()
    ensures Split("r1,r2", ',') == ["r1", "r2"]
  {
    SplitJoin(["r1", "r2"], ',');
    assert Join(["r1", "r2"], ',') == "r1,r2";
  }

  /** One found two-ingredient recipe followed by an id that resolves to nothing. */
  lemma TwoIdSections(found: string, missing: string, name: string, a: string, b: string, recipes: RecipeStore)
    requires found in recipes && missing !in recipes
    requires recipes[found] == Recipe(Some(name), Some([a, b]))
    ensures Sections([found, missing], recipes)
         == Success(Pin + name + "\nIngredients:\n" + Bullet + a + "\n" + Bullet + b + "\n\n")
  {
    var lines := Bullet + a + "\n" + (Bullet + b + "\n");
    assert IngredientLines([a, b]) == lines by {
      assert [a, b][1..] == [b];
      assert [b][1..] == [];
      assert IngredientLines([b]) == Bullet + b + "\n" + "";
    }
    var section := Pin + name + "\n" + "Ingredients:\n" + lines + "\n";
    assert RecipeSection(recipes[found]) == Success(section);
    assert [found, missing][1..] == [missing];
    assert [missing][1..] == [];
    assert Sections([missing], recipes) == Success("");
    assert section + "" == Pin + name + "\nIngredients:\n" + Bullet + a + "\n" + Bullet + b + "\n\n";
  }

  /** The blank lines after the last section are stripped. */
  lemma TrailingBlankLines(day: string, date: string, core: string)
    requires |core| > 0 && !IsSpace(core[|core| - 1])
    ensures Strip(HeaderLine(day, date) + "\n\n" + (core + "\n\n"))
         == HeaderLine(day, date) + "\n\n" + core
  {
    var h := HeaderLine(day, date);
    StrippedMessage(day, date, core + "\n\n");
    BlankLinesAround(core);
    AppendAssoc(h, "\n\n", core);
  }

  lemma BlankLinesAround(core: string)
    requires |core| > 0 && !IsSpace(core[|core| - 1])
    ensures StripRight("\n\n" + (core + "\n\n")) == "\n\n" + core
  {
    var p := "\n\n" + core;
    assert StripRight(p + "\n\n") == p by {
      assert p[|p| - 1] == core[|core| - 1];
      assert AllSpace("\n\n");
      StripRightExact(p, "\n\n");
    }
    AppendAssoc("\n\n", core, "\n\n");
  }
}
