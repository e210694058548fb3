/** Recipes and the recipe collection (meal_planner/models.py): the record,
    its dictionary form (`to_dict` and the mapping `_load_recipes` applies to
    each stored object), and lookup, add, update and delete on the
    in-memory list. Writing the list back to the JSON file is not modelled. */
module Recipes {
  import opened Options

  /** A named sub-section of a recipe (for example a sauce) with its own items. */
  datatype Section = Section(name: string, items: seq<string>)

  /** A recipe. Nutrition values are kept as the text Python prints for them
      (the macro grams are floats, left opaque). */
  datatype Recipe = Recipe(
    id: int,
    name: string,
    number: Option<int>,
    ingredients: seq<string>,
    instructions: seq<string>,
    nutritionalInfo: map<string, string>,
    prepTime: Option<int>,
    cuisineType: Option<string>,
    tags: seq<string>,
    mealType: Option<string>,
    imagePath: Option<string>,
    difficulty: Option<string>,
    additionalSections: seq<Section>)

  /** The `Recipe(...)` constructor: an absent or empty nutrition mapping,
      tag list or section mapping becomes empty (`x or {}`, `x or []`). */
  function NewRecipe(id: int, name: string, ingredients: seq<string>, instructions: seq<string>,
                     nutritionalInfo: Option<map<string, string>>, prepTime: Option<int>,
                     cuisineType: Option<string>, tags: Option<seq<string>>, mealType: Option<string>,
                     imagePath: Option<string>, number: Option<int>, difficulty: Option<string>,
                     additionalSections: Option<seq<Section>>): (r: Recipe)
    ensures r.id == id && r.name == name && r.ingredients == ingredients && r.instructions == instructions
    ensures nutritionalInfo.None? ==> r.nutritionalInfo == map[]
    ensures tags.None? ==> r.tags == []
    ensures additionalSections.None? ==> r.additionalSections == []
  {
    Recipe(id, name, number, ingredients, instructions, nutritionalInfo.GetOr(map[]), prepTime,
           cuisineType, tags.GetOr([]), mealType, imagePath, difficulty, additionalSections.GetOr([]))
  }

  // ---------------------------------------------------------------------
  // Dictionary form
  // ---------------------------------------------------------------------

  /** A value stored under one key of a recipe's dictionary. */
  datatype Field =
    | Null
    | Int(i: int)
    | Text(s: string)
    | Texts(items: seq<string>)
    | Nutrients(values: map<string, string>)
    | Sections(sections: seq<Section>)

  type Record = map<string, Field>

  /** The thirteen keys `to_dict` writes and the loader reads. */
  const RecipeKeys: set<string> := {
    "id", "name", "number", "ingredients", "instructions", "nutritional_info", "prep_time",
    "cuisine_type", "tags", "meal_type", "image_path", "difficulty", "additional_sections"}

  function OptInt(o: Option<int>): Field {
    if o.Some? then Int(o.value) else Null
  }

  function OptText(o: Option<string>): Field {
    if o.Some? then Text(o.value) else Null
  }

  /** `Recipe.to_dict()`. */
  function ToDict(r: Recipe): (d: Record)
    ensures d.Keys == RecipeKeys
  {
    map["id" := Int(r.id), "name" := Text(r.name), "number" := OptInt(r.number),
        "ingredients" := Texts(r.ingredients), "instructions" := Texts(r.instructions),
        "nutritional_info" := Nutrients(r.nutritionalInfo), "prep_time" := OptInt(r.prepTime),
        "cuisine_type" := OptText(r.cuisineType), "tags" := Texts(r.tags),
        "meal_type" := OptText(r.mealType), "image_path" := OptText(r.imagePath),
        "difficulty" := OptText(r.difficulty), "additional_sections" := Sections(r.additionalSections)]
  }

  /** `d.get(key)` for an optional integer. */
  function GetInt(d: Record, key: string): Option<int> {
    if key in d && d[key].Int? then Some(d[key].i) else None
  }

  /** `d.get(key, default)` for optional text: the default applies only when the key is missing. */
  function GetText(d: Record, key: string, default: Option<string>): Option<string> {
    if key !in d then default else if d[key].Text? then Some(d[key].s) else None
  }

  function GetTexts(d: Record, key: string): seq<string> {
    if key in d && d[key].Texts? then d[key].items else []
  }

  /** The `Recipe(...)` call of `_load_recipes` for one stored object. None
      for an object without an integer "id" or a text "name", which the
      typed record cannot hold. */
  function FromDict(d: Record): (r: Option<Recipe>)
    ensures r.Some? <==> "id" in d && d["id"].Int? && "name" in d && d["name"].Text?
    ensures r.Some? ==> Int(r.value.id) == d["id"] && Text(r.value.name) == d["name"]
    ensures "cuisine_type" !in d && r.Some? ==> r.value.cuisineType == Some("")
  {
    if "id" in d && d["id"].Int? && "name" in d && d["name"].Text? then
      Some(NewRecipe(
        d["id"].i, d["name"].s,
        GetTexts(d, "ingredients"), GetTexts(d, "instructions"),
        if "nutritional_info" in d && d["nutritional_info"].Nutrients? then Some(d["nutritional_info"].values) else None,
        GetInt(d, "prep_time"),
        GetText(d, "cuisine_type", Some("")),
        if "tags" in d && d["tags"].Texts? then Some(d["tags"].items) else None,
        GetText(d, "meal_type", None),
        GetText(d, "image_path", None),
        GetInt(d, "number"),
        GetText(d, "difficulty", None),
        if "additional_sections" in d && d["additional_sections"].Sections? then Some(d["additional_sections"].sections) else None))
    else None
  }

  /** Loading what `to_dict` wrote gives back the same recipe, field for field. */
  lemma DictRoundTrip(r: Recipe)
    ensures FromDict(ToDict(r)) == Some(r)
  {
    var d := ToDict(r);
    assert GetInt(d, "number") == r.number && GetInt(d, "prep_time") == r.prepTime;
    assert GetText(d, "cuisine_type", Some("")) == r.cuisineType && GetText(d, "meal_type", None) == r.mealType;
    assert GetText(d, "image_path", None) == r.imagePath && GetText(d, "difficulty", None) == r.difficulty;
    assert GetTexts(d, "ingredients") == r.ingredients && GetTexts(d, "instructions") == r.instructions;
  }

  /** The loader looks only at the keys `to_dict` writes. */
  lemma FromDictReadsOnlyRecipeKeys(d: Record)
    ensures FromDict(d) == FromDict(map k | k in d && k in RecipeKeys :: d[k])
  {
  }

  /** `_save_recipes` followed by `_load_recipes`, without the file in between. */
  function SaveAll(db: seq<Recipe>): (ds: seq<Record>)
    ensures |ds| == |db| && forall i :: 0 <= i < |db| ==> ds[i] == ToDict(db[i])
  {
    if |db| == 0 then [] else [ToDict(db[0])] + SaveAll(db[1..])
  }

  function LoadAll(ds: seq<Record>): (r: Option<seq<Recipe>>)
    ensures r.Some? ==> |r.value| == |ds| && forall i :: 0 <= i < |ds| ==> FromDict(ds[i]) == Some(r.value[i])
  {
    if |ds| == 0 then Some([])
    else match (FromDict(ds[0]), LoadAll(ds[1..]))
      case (Some(r), Some(rs)) => Some([r] + rs)
      case _ => None
  }

  /** Saving a collection and loading it again reproduces it, in order. */
  lemma {:induction false} SaveLoadRoundTrip(db: seq<Recipe>)
    ensures LoadAll(SaveAll(db)) == Some(db)
  {
    if |db| > 0 {
      SaveLoadRoundTrip(db[1..]);
      assert SaveAll(db)[1..] == SaveAll(db[1..]);
      DictRoundTrip(db[0]);
      assert [db[0]] + db[1..] == db;
    }
  }

  // ---------------------------------------------------------------------
  // The collection
  // ---------------------------------------------------------------------

  /** Identifiers are unique within the collection. */
  predicate UniqueIds(db: seq<Recipe>) {
    forall i, j :: 0 <= i < j < |db| ==> db[i].id != db[j].id
  }

  predicate HasId(db: seq<Recipe>, id: int) {
    exists i :: 0 <= i < |db| && db[i].id == id
  }

  /** The position of the first recipe with the given id, searching from `k`. */
  function FindIndex(db: seq<Recipe>, id: int, k: nat): (r: Option<nat>)
    decreases |db| - k
    ensures r.Some? ==> k <= r.value < |db| && db[r.value].id == id
    ensures r.Some? ==> forall j :: k <= j < r.value ==> db[j].id != id
    ensures r.None? ==> forall j :: k <= j < |db| ==> db[j].id != id
  {
    if k >= |db| then None
    else if db[k].id == id then Some(k)
    else FindIndex(db, id, k + 1)
  }

  /** `get_recipe_by_id`: the first recipe with that id, or None. */
  function GetRecipeById(db: seq<Recipe>, id: int): (r: Option<Recipe>)
    ensures r.None? <==> !HasId(db, id)
    ensures r.Some? ==> r.value.id == id && r.value in db
    ensures r.Some? ==> exists i :: 0 <= i < |db| && db[i] == r.value && forall j :: 0 <= j < i ==> db[j].id != id
  {
    match FindIndex(db, id, 0)
    case Some(i) => Some(db[i])
    case None => None
  }

  datatype DbError = DuplicateId(id: int)

  /** `add_recipe`: a recipe whose id is taken raises and leaves the list as it
      was; otherwise the recipe goes at the end. */
  function AddRecipe(db: seq<Recipe>, r: Recipe): (res: Result<seq<Recipe>, DbError>)
    ensures res.Err? <==> HasId(db, r.id)
    ensures res.Err? ==> res.error == DuplicateId(r.id)
    ensures res.Ok? ==> |res.value| == |db| + 1 && res.value[..|db|] == db && res.value[|db|] == r
  {
    if GetRecipeById(db, r.id).Some? then Err(DuplicateId(r.id)) else Ok(db + [r])
  }

  /** `update_recipe`: replaces the first recipe with the same id and reports
      whether there was one. */
  function UpdateRecipe(db: seq<Recipe>, r: Recipe): (res: (seq<Recipe>, bool))
    ensures res.1 <==> HasId(db, r.id)
    ensures |res.0| == |db|
    ensures res.1 ==> var i := FindIndex(db, r.id, 0).value;
                      res.0[i] == r && forall j :: 0 <= j < |db| && j != i ==> res.0[j] == db[j]
    ensures !res.1 ==> res.0 == db
  {
    match FindIndex(db, r.id, 0)
    case Some(i) => (db[i := r], true)
    case None => (db, false)
  }

  /** `delete_recipe`: removes the first recipe with the id and reports
      whether there was one. */
  function DeleteRecipe(db: seq<Recipe>, id: int): (res: (seq<Recipe>, bool))
    ensures res.1 <==> HasId(db, id)
    ensures res.1 ==> |res.0| == |db| - 1
                      && var i := FindIndex(db, id, 0).value;
                         res.0 == db[..i] + db[i + 1..]
    ensures !res.1 ==> res.0 == db
  {
    match FindIndex(db, id, 0)
    case Some(i) => (db[..i] + db[i + 1..], true)
    case None => (db, false)
  }

  // ---------------------------------------------------------------------
  // What the operations preserve and what a later lookup sees
  // ---------------------------------------------------------------------

  lemma AddKeepsIdsUnique(db: seq<Recipe>, r: Recipe)
    requires UniqueIds(db)
    ensures AddRecipe(db, r).Ok? ==> UniqueIds(AddRecipe(db, r).value)
  {
  }

  lemma UpdateKeepsIdsUnique(db: seq<Recipe>, r: Recipe)
    requires UniqueIds(db)
    ensures UniqueIds(UpdateRecipe(db, r).0)
  {
  }

  lemma DeleteKeepsIdsUnique(db: seq<Recipe>, id: int)
    requires UniqueIds(db)
    ensures UniqueIds(DeleteRecipe(db, id).0)
  {
    var (db', found) := DeleteRecipe(db, id);
    if found {
      var i := FindIndex(db, id, 0).value;
      forall a, b | 0 <= a < b < |db'|
        ensures db'[a].id != db'[b].id
      {
        var a' := if a < i then a else a + 1;
        var b' := if b < i then b else b + 1;
        assert db'[a] == db[a'] && db'[b] == db[b'];
      }
    }
  }

  /** After a successful add, looking the id up finds the added recipe, and
      every other id finds what it found before. */
  lemma LookupAfterAdd(db: seq<Recipe>, r: Recipe, other: int)
    requires AddRecipe(db, r).Ok?
    ensures GetRecipeById(AddRecipe(db, r).value, r.id) == Some(r)
    ensures other != r.id ==> GetRecipeById(AddRecipe(db, r).value, other) == GetRecipeById(db, other)
  {
    var db' := AddRecipe(db, r).value;
    assert db'[|db|] == r;
    assert forall j :: 0 <= j < |db| ==> db'[j] == db[j];
    FindIndexPrefix(db, db', r.id, 0);
    FindIndexPrefix(db, db', other, 0);
  }

  /** Searching a list extended at the end finds what the shorter list held,
      or, when the shorter list has no match, whatever the extension holds. */
  lemma {:induction false} FindIndexPrefix(db: seq<Recipe>, longer: seq<Recipe>, id: int, k: nat)
    requires |db| <= |longer| && longer[..|db|] == db
    requires k <= |db|
    ensures FindIndex(db, id, k).Some? ==> FindIndex(longer, id, k) == FindIndex(db, id, k)
    ensures FindIndex(db, id, k).None? ==> FindIndex(longer, id, k) == FindIndex(longer, id, |db|)
    decreases |db| - k
  {
    if k < |db| {
      assert longer[k] == db[k];
      FindIndexPrefix(db, longer, id, k + 1);
    }
  }

  /** After an update that found the id, looking it up gives the new record;
      other ids are unaffected. */
  lemma LookupAfterUpdate(db: seq<Recipe>, r: Recipe, other: int)
    requires UpdateRecipe(db, r).1
    ensures GetRecipeById(UpdateRecipe(db, r).0, r.id) == Some(r)
    ensures other != r.id ==> GetRecipeById(UpdateRecipe(db, r).0, other) == GetRecipeById(db, other)
  {
    var db' := UpdateRecipe(db, r).0;
    var i := FindIndex(db, r.id, 0).value;
    FindIndexSameIds(db, db', other, 0);
    FindIndexSameIds(db, db', r.id, 0);
  }

  /** Two lists whose ids agree position by position are searched alike. */
  lemma {:induction false} FindIndexSameIds(a: seq<Recipe>, b: seq<Recipe>, id: int, k: nat)
    requires |a| == |b| && forall j :: 0 <= j < |a| ==> a[j].id == b[j].id
    ensures FindIndex(a, id, k) == FindIndex(b, id, k)
    decreases |a| - k
  {
    if k < |a| {
      FindIndexSameIds(a, b, id, k + 1);
    }
  }

  /** With unique ids, a deleted id is gone afterwards. */
  lemma LookupAfterDelete(db: seq<Recipe>, id: int)
    requires UniqueIds(db)
    ensures GetRecipeById(DeleteRecipe(db, id).0, id).None?
  {
    var (db', found) := DeleteRecipe(db, id);
    if found {
      var i := FindIndex(db, id, 0).value;
      forall j | 0 <= j < |db'|
        ensures db'[j].id != id
      {
        var j' := if j < i then j else j + 1;
        assert db'[j] == db[j'];
      }
    }
  }

  /** Delete removes one record only: with a duplicated id, a later record
      with that id is still found. */
  lemma DeleteRemovesOnlyFirst(db: seq<Recipe>, id: int, k: nat)
    requires k < |db| && db[k].id == id && FindIndex(db, id, 0).value < k
    ensures GetRecipeById(DeleteRecipe(db, id).0, id).Some?
  {
    var db' := DeleteRecipe(db, id).0;
    assert db'[k - 1] == db[k];
  }
}
