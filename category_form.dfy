/** The task category form (src/components/Dashboard/CategoryForm.js): a free-text category
    input that looks up an existing category by name ignoring case, a subcategory input whose
    suggestions narrow to those starting with what is typed, and a save action guarded
    against empty fields and against a category/subcategory pair that already exists. */
module CategoryForm {
  import opened JsValues

  /** A stored task category (`{ _id, categoryName, subcategories }`). */
  datatype TaskCategory = TaskCategory(id: string, categoryName: string, subcategories: seq<string>)

  lemma LowerIdempotent(s: string)
    ensures Lower(Lower(s)) == Lower(s)
  {
  }

  /** `categories.find(cat => cat.categoryName.toLowerCase() === name.toLowerCase())`: the
      position of the first category with that name, ignoring case. */
  function FindCategory(cats: seq<TaskCategory>, name: string): (r: Option<nat>)
    ensures r.Some? ==> r.value < |cats| && SameIgnoringCase(cats[r.value].categoryName, name)
    ensures r.Some? ==> forall j :: 0 <= j < r.value ==> !SameIgnoringCase(cats[j].categoryName, name)
    ensures r.None? ==> forall j :: 0 <= j < |cats| ==> !SameIgnoringCase(cats[j].categoryName, name)
  {
    if cats == [] then None
    else if SameIgnoringCase(cats[0].categoryName, name) then Some(0)
    else
      var rest := FindCategory(cats[1..], name);
      if rest.Some? then Some(rest.value + 1) else None
  }

  /** The lookup cannot tell a name from its lower-case form. */
  lemma {:induction false} FindIgnoresCase(cats: seq<TaskCategory>, name: string)
    ensures FindCategory(cats, name) == FindCategory(cats, Lower(name))
  {
    LowerIdempotent(name);
    if cats != [] {
      FindIgnoresCase(cats[1..], name);
    }
  }

  /** The change handler also skips categories with an empty name; a non-empty input never
      matches one, so the shared lookup above serves both handlers. */
  lemma EmptyNameNeverMatches(cat: TaskCategory, name: string)
    requires name != "" && cat.categoryName == ""
    ensures !SameIgnoringCase(cat.categoryName, name)
  {
    assert |Lower(name)| > 0;
  }

  /** `subs.filter(sub => sub.toLowerCase().startsWith(typed.toLowerCase()))`. */
  function Narrow(subs: seq<string>, typed: string): (r: seq<string>)
    ensures forall x :: x in r <==> x in subs && StartsWith(Lower(x), Lower(typed))
    ensures multiset(r) <= multiset(subs)
    ensures |r| <= |subs|
  {
    if subs == [] then []
    else
      var p := subs[..|subs| - 1];
      var x := subs[|subs| - 1];
      assert subs == p + [x];
      var rest := Narrow(p, typed);
      if StartsWith(Lower(x), Lower(typed)) then rest + [x] else rest
  }

  /** `filter` works element by element: narrowing a concatenation narrows each part and
      keeps them in order, so the kept suggestions keep their order and their repeats. */
  lemma {:induction false} NarrowAppend(a: seq<string>, b: seq<string>, typed: string)
    ensures Narrow(a + b, typed) == Narrow(a, typed) + Narrow(b, typed)
  {
    if b == [] {
      assert a + b == a;
    } else {
      var pre := b[..|b| - 1];
      assert (a + b)[..|a + b| - 1] == a + pre;
      assert (a + b)[|a + b| - 1] == b[|b| - 1];
      NarrowAppend(a, pre, typed);
    }
  }

  lemma StartsWithTrans(s: string, q: string, p: string)
    requires StartsWith(s, q) && StartsWith(q, p)
    ensures StartsWith(s, p)
  {
    assert s[..|p|] == s[..|q|][..|p|];
  }

  /** Typing on narrows progressively: narrowing for `p` and then for a longer input `q`
      that extends it gives what narrowing for `q` alone gives. */
  lemma {:induction false} NarrowProgressive(subs: seq<string>, p: string, q: string)
    requires StartsWith(Lower(q), Lower(p))
    ensures Narrow(Narrow(subs, p), q) == Narrow(subs, q)
  {
    if subs != [] {
      var pre := subs[..|subs| - 1];
      var x := subs[|subs| - 1];
      NarrowProgressive(pre, p, q);
      if StartsWith(Lower(x), Lower(q)) {
        StartsWithTrans(Lower(x), Lower(q), Lower(p));
        assert (Narrow(pre, p) + [x])[..|Narrow(pre, p) + [x]| - 1] == Narrow(pre, p);
      } else if StartsWith(Lower(x), Lower(p)) {
        assert (Narrow(pre, p) + [x])[..|Narrow(pre, p) + [x]| - 1] == Narrow(pre, p);
      }
    }
  }

  /** An empty input keeps every suggestion. */
  lemma EmptyTypedKeeps(x: string)
    ensures StartsWith(Lower(x), Lower(""))
  {
    assert Lower("") == "";
    assert Lower(x)[..0] == "";
  }

  lemma {:induction false} NarrowEmptyKeepsAll(subs: seq<string>)
    ensures Narrow(subs, "") == subs
  {
    if subs != [] {
      var pre := subs[..|subs| - 1];
      var x := subs[|subs| - 1];
      NarrowEmptyKeepsAll(pre);
      EmptyTypedKeeps(x);
      assert subs == pre + [x];
    }
  }

  /** The body of `POST /task-categories`. */
  datatype CategoryData = CategoryData(categoryName: string, subcategories: seq<string>)

  /** What `handleSaveCategory` decides before any request: refuse with one of the two alerts,
      or send. */
  datatype SaveCheck = MissingField | Duplicate | Send(data: CategoryData)

  const MissingFieldAlert := "Both category and at least one subcategory are required."
  const DuplicateAlert := "This category-subcategory combination already exists."

  function AlertText(c: SaveCheck): string {
    match c
    case MissingField => MissingFieldAlert
    case Duplicate => DuplicateAlert
    case Send(_) => ""
  }

  /** The two guards of `handleSaveCategory`. The duplicate test looks only at the first
      category matching the name ignoring case, and compares subcategories case-sensitively. */
  function CheckSave(cats: seq<TaskCategory>, name: string, sub: string): (r: SaveCheck)
    ensures r == MissingField <==> IsBlank(name) || IsBlank(sub)
    ensures r == Duplicate <==>
              !IsBlank(name) && !IsBlank(sub) && FindCategory(cats, name).Some?
              && sub in cats[FindCategory(cats, name).value].subcategories
    ensures r.Send? ==> r.data == CategoryData(name, [sub])
  {
    if IsBlank(name) || IsBlank(sub) then MissingField
    else
      var found := FindCategory(cats, name);
      if found.Some? && sub in cats[found.value].subcategories then Duplicate
      else Send(CategoryData(name, [sub]))
  }

  /** Any request the form sends names a non-blank category with exactly one non-blank
      subcategory that the first category of that name does not already list. */
  lemma SentIsNew(cats: seq<TaskCategory>, name: string, sub: string)
    requires CheckSave(cats, name, sub).Send?
    ensures !IsBlank(CheckSave(cats, name, sub).data.categoryName)
    ensures CheckSave(cats, name, sub).data.subcategories == [sub] && !IsBlank(sub)
    ensures FindCategory(cats, name).Some? ==> sub !in cats[FindCategory(cats, name).value].subcategories
  {
  }

  /** Subcategories are compared with their case: "api" under an existing "Dev" listing
      "API" is sent, even though the category name is matched ignoring case. */
  lemma SubcategoryCaseMatters()
    ensures CheckSave([TaskCategory("1", "Dev", ["API"])], "dev", "api") == Send(CategoryData("dev", ["api"]))
  {
    var cats := [TaskCategory("1", "Dev", ["API"])];
    assert !IsJsWhitespace("dev"[0]) && !IsJsWhitespace("api"[0]);
    assert Lower("Dev") == Lower("dev");
    assert FindCategory(cats, "dev") == Some(0);
    assert "api" != "API";
  }

  /** The form's fields. `categorySuggestions` is never set by the form and is left out. */
  class CategoryFormState {
    var categories: seq<TaskCategory>
    var categoryName: string
    var subcategory: string
    var subcategorySuggestions: seq<string>
    var selectedCategoryId: Option<string>

    constructor()
      ensures categories == [] && categoryName == "" && subcategory == ""
      ensures subcategorySuggestions == [] && selectedCategoryId == None
    {
      categories := [];
      categoryName := "";
      subcategory := "";
      subcategorySuggestions := [];
      selectedCategoryId := None;
    }

    /** `fetchCategories`, with the body of the GET as `response` (`None` when it fails,
        which is only logged). */
    method FetchCategories(response: Option<seq<TaskCategory>>)
      modifies this
      ensures categories == if response.Some? then response.value else old(categories)
      ensures categoryName == old(categoryName) && subcategory == old(subcategory)
      ensures subcategorySuggestions == old(subcategorySuggestions)
      ensures selectedCategoryId == old(selectedCategoryId)
    {
      if response.Some? {
        categories := response.value;
      }
    }

    /** `handleCategoryChange`, where `newValue` is `""` both for an empty input and for a
        cleared selection (`null`). */
    method HandleCategoryChange(newValue: string)
      modifies this
      ensures newValue == "" ==>
                categoryName == "" && selectedCategoryId == None && subcategorySuggestions == []
      ensures newValue != "" ==> categoryName == newValue
      ensures newValue != "" && FindCategory(categories, newValue).Some? ==>
                var c := categories[FindCategory(categories, newValue).value];
                selectedCategoryId == Some(c.id) && subcategorySuggestions == c.subcategories
      ensures newValue != "" && FindCategory(categories, newValue).None? ==>
                selectedCategoryId == None && subcategorySuggestions == []
      ensures categories == old(categories) && subcategory == old(subcategory)
    {
      if newValue == "" {
        categoryName := "";
        selectedCategoryId := None;
        subcategorySuggestions := [];
        return;
      }
      categoryName := newValue;
      var found := FindCategory(categories, newValue);
      if found.Some? {
        selectedCategoryId := Some(categories[found.value].id);
        subcategorySuggestions := categories[found.value].subcategories;
      } else {
        selectedCategoryId := None;
        subcategorySuggestions := [];
      }
    }

    /** `handleSubcategoryChange`: the suggestions narrow only while there are some, so
        they never grow here. */
    method HandleSubcategoryChange(newValue: string)
      modifies this
      ensures subcategory == newValue
      ensures subcategorySuggestions ==
                if |old(subcategorySuggestions)| > 0 then Narrow(old(subcategorySuggestions), newValue)
                else old(subcategorySuggestions)
      ensures multiset(subcategorySuggestions) <= multiset(old(subcategorySuggestions))
      ensures categories == old(categories) && categoryName == old(categoryName)
      ensures selectedCategoryId == old(selectedCategoryId)
    {
      subcategory := newValue;
      if |subcategorySuggestions| > 0 {
        subcategorySuggestions := Narrow(subcategorySuggestions, newValue);
      }
    }

    /** `handleSaveCategory`, with the outcome of the POST as `posted`. The decision is
        returned; a successful POST clears both inputs (the list is then fetched again,
        see `FetchCategories`), a refusal or a failed POST changes nothing. */
    method HandleSaveCategory(posted: bool) returns (check: SaveCheck)
      modifies this
      ensures check == CheckSave(old(categories), old(categoryName), old(subcategory))
      ensures check.Send? && posted ==> categoryName == "" && subcategory == ""
      ensures !(check.Send? && posted) ==> categoryName == old(categoryName) && subcategory == old(subcategory)
      ensures categories == old(categories) && subcategorySuggestions == old(subcategorySuggestions)
      ensures selectedCategoryId == old(selectedCategoryId)
    {
      check := CheckSave(categories, categoryName, subcategory);
      if check.Send? && posted {
        categoryName := "";
        subcategory := "";
      }
    }
  }
}
