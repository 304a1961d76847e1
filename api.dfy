/** The request-level decisions of the listing, search, category and delete endpoints.
    Each endpoint is a function of the stored rows and the request's inputs. */
module Api {
  import opened Responses
  import opened Sequences
  import opened Store
  import opened Paging
  import opened Like

  /** Body of GET /questions (`success` and `current_category: None` are constant and left implicit). */
  datatype Listing = Listing(questions: seq<Question>, totalQuestions: nat, categories: map<int, string>)

  /** Body of POST /questions/search. */
  datatype SearchPage = SearchPage(questions: seq<Question>, totalQuestions: nat)

  /** Body of GET /categories/<id>/questions. */
  datatype CategoryListing = CategoryListing(questions: seq<Question>, totalQuestions: nat, currentCategory: seq<string>)

  /** GET /categories: the id-to-type map of all categories; 404 when there are none. */
  function GetCategories(cats: seq<Category>): (r: Result<map<int, string>>)
    ensures r.Err? <==> cats == []
    ensures r.Err? ==> r.code == NotFound
    ensures r.Ok? ==> r.value.Keys == CategoryIds(cats)
    ensures r.Ok? ==> forall k :: k in r.value ==> Category(k, r.value[k]) in cats
    ensures r.Ok? && UniqueIds(cats) ==> forall c :: c in cats ==> r.value[c.id] == c.kind
  {
    if |cats| == 0 then Err(NotFound)
    else
      var m := CategoryMap(cats);
      assert UniqueIds(cats) ==> forall c :: c in cats ==> m[c.id] == c.kind by {
        if UniqueIds(cats) {
          CategoryMapLabels(cats);
        }
      }
      Ok(m)
  }

  /** GET /questions?page=p: page p of all questions in store order, with the total count of
      the whole collection and the category map; 404 when the page is empty. */
  function ListQuestions(qs: seq<Question>, cats: seq<Category>, page: int): (r: Result<Listing>)
    ensures r.Err? ==> r.code == NotFound
    ensures r.Err? <==> Paginate(qs, page) == []
    ensures page >= 1 ==> (r.Err? <==> (page - 1) * PageSize >= |qs|)
    ensures page == 0 ==> r.Err?
    ensures r.Ok? ==> 0 < |r.value.questions| <= PageSize
    ensures r.Ok? ==> r.value.questions == Paginate(qs, page)
    ensures r.Ok? ==> r.value.totalQuestions == |qs|
    ensures r.Ok? ==> r.value.categories == CategoryMap(cats)
  {
    var current := Paginate(qs, page);
    if |current| == 0 then Err(NotFound)
    else Ok(Listing(current, |qs|, CategoryMap(cats)))
  }

  /** Nineteen questions: page 2 lists the last nine, the total is 19, and page 3 is 404. */
  lemma NineteenQuestions(qs: seq<Question>, cats: seq<Category>)
    requires |qs| == 19
    ensures ListQuestions(qs, cats, 2) == Ok(Listing(qs[10..], 19, CategoryMap(cats)))
    ensures ListQuestions(qs, cats, 3) == Err(NotFound)
  {
    assert qs[10..19] == qs[10..];
  }

  /** The questions whose text matches `pattern` under ILIKE, in store order. */
  function MatchingQuestions(qs: seq<Question>, pattern: string): seq<Question>
  {
    Filter(qs, (q: Question) => ILike(q.question, pattern))
  }

  /** The questions whose text contains `term`, ignoring case, in store order. */
  function QuestionsContaining(qs: seq<Question>, term: string): seq<Question>
  {
    Filter(qs, (q: Question) => ContainsIgnoringCase(q.question, term))
  }

  /** POST /questions/search as written: a missing or empty term aborts with 400, which the
      surrounding `except` turns into 422; otherwise the term goes unescaped into the pattern
      '%term%', and the matches are paginated and counted. */
  function SearchQuestions(qs: seq<Question>, term: Option<string>, page: int): (r: Result<SearchPage>)
    ensures r.Err? <==> term.None? || term.value == ""
    ensures r.Err? ==> r.code == Unprocessable
    ensures r.Ok? ==> r.value.questions == Paginate(MatchingQuestions(qs, Pattern(term.value)), page)
    ensures r.Ok? ==> r.value.totalQuestions == |MatchingQuestions(qs, Pattern(term.value))|
    ensures r.Ok? ==> forall q :: q in r.value.questions ==> q in qs && ILike(q.question, Pattern(term.value))
  {
    if term.None? || term.value == [] then Err(Unprocessable)
    else
      var matches := MatchingQuestions(qs, Pattern(term.value));
      Ok(SearchPage(Paginate(matches, page), |matches|))
  }

  /** For a term without `%`, `_` or backslash, the search selects exactly the questions whose
      text contains the term, ignoring case: the listed page and the total are those of the
      case-insensitive substring filter. */
  lemma SearchLiteralTerm(qs: seq<Question>, term: string, page: int)
    requires term != "" && Literal(term)
    ensures SearchQuestions(qs, Some(term), page)
         == Ok(SearchPage(Paginate(QuestionsContaining(qs, term), page), |QuestionsContaining(qs, term)|))
  {
    forall q | q in qs
      ensures ILike(q.question, Pattern(term)) == ContainsIgnoringCase(q.question, term)
    {
      LiteralPatternIsSubstring(q.question, term);
    }
    FilterAgree(qs, (q: Question) => ILike(q.question, Pattern(term)), (q: Question) => ContainsIgnoringCase(q.question, term));
  }

  /** The term "_" finds a question whose text has no underscore. */
  lemma SearchUnderscoreMatchesAnyText()
    ensures var q := Question(1, "Who?", "Me", 1, 1);
      SearchQuestions([q], Some("_"), 1) == Ok(SearchPage([q], 1))
      && QuestionsContaining([q], "_") == []
  {
    var q := Question(1, "Who?", "Me", 1, 1);
    UnderscoreIsWildcard();
    assert [q][1..] == [];
  }

  /** POST /questions/search as evidently intended: a missing or empty term is 400, and the term
      is escaped so that it is matched literally. */
  function SearchQuestionsIntended(qs: seq<Question>, term: Option<string>, page: int): (r: Result<SearchPage>)
    ensures r.Err? <==> term.None? || term.value == ""
    ensures r.Err? ==> r.code == BadRequest
    ensures r.Ok? ==> r.value.questions == Paginate(QuestionsContaining(qs, term.value), page)
    ensures r.Ok? ==> r.value.totalQuestions == |QuestionsContaining(qs, term.value)|
    ensures r.Ok? ==> forall q :: q in r.value.questions ==> q in qs && ContainsIgnoringCase(q.question, term.value)
  {
    if term.None? || term.value == [] then Err(BadRequest)
    else
      var t := term.value;
      var matches := MatchingQuestions(qs, Pattern(EscapeTerm(t)));
      assert matches == QuestionsContaining(qs, t) by {
        forall q | q in qs
          ensures ILike(q.question, Pattern(EscapeTerm(t))) == ContainsIgnoringCase(q.question, t)
        {
          EscapedPatternIsSubstring(q.question, t);
        }
        FilterAgree(qs, (q: Question) => ILike(q.question, Pattern(EscapeTerm(t))), (q: Question) => ContainsIgnoringCase(q.question, t));
      }
      Ok(SearchPage(Paginate(matches, page), |matches|))
  }

  /** The questions of category `id`, in store order, each as often as it is stored. */
  function QuestionsOfCategory(qs: seq<Question>, id: int): seq<Question>
  {
    Filter(qs, (q: Question) => q.category == id)
  }

  /** GET /categories/<id>/questions: every question of category `id`, unpaginated, in store
      order, with the labels of the categories that have that id; never an error. */
  function CategoryQuestions(qs: seq<Question>, cats: seq<Category>, id: nat): (r: Result<CategoryListing>)
    ensures r.Ok?
    ensures r.value.questions == QuestionsOfCategory(qs, id)
    ensures forall q :: q in r.value.questions <==> q in qs && q.category == id
    ensures forall q :: multiset(r.value.questions)[q] == if q.category == id then multiset(qs)[q] else 0
    ensures r.value.totalQuestions == |r.value.questions| <= |qs|
    ensures r.value.questions == [] <==> forall q :: q in qs ==> q.category != id
    ensures forall l :: l in r.value.currentCategory <==> Category(id, l) in cats
    ensures r.value.currentCategory == [] <==> id !in CategoryIds(cats)
    ensures UniqueIds(cats) ==> |r.value.currentCategory| <= 1
  {
    var select := QuestionsOfCategory(qs, id);
    FilterMultiset(qs, (q: Question) => q.category == id);
    assert (forall q :: q in qs ==> q.category != id) ==> select == [] by {
      if forall q :: q in qs ==> q.category != id {
        FilterNone(qs, (q: Question) => q.category == id);
      }
    }
    Ok(CategoryListing(select, |select|, CategoryLabels(cats, id)))
  }

  /** When every question belongs to a stored category, an id that no category has lists no
      questions and no label, rather than failing. */
  lemma UnknownCategoryIsEmpty(qs: seq<Question>, cats: seq<Category>, id: nat)
    requires CategoriesExist(qs, cats)
    requires id !in CategoryIds(cats)
    ensures CategoryQuestions(qs, cats, id) == Ok(CategoryListing([], 0, []))
  {
  }

  /** DELETE /questions/<id> as written: the id of the deleted question; a missing id aborts
      with 404, which the surrounding `except` turns into 422. */
  function DeleteQuestion(qs: seq<Question>, id: nat): (r: Result<int>)
    ensures r.Err? <==> forall q :: q in qs ==> q.id != id
    ensures r.Err? ==> r.code == Unprocessable
    ensures r.Ok? ==> r.value == id
  {
    if exists q :: q in qs && q.id == id then Ok(id) else Err(Unprocessable)
  }

  /** DELETE /questions/<id> as evidently intended: a missing id is 404. */
  function DeleteQuestionIntended(qs: seq<Question>, id: nat): (r: Result<int>)
    ensures r.Err? <==> forall q :: q in qs ==> q.id != id
    ensures r.Err? ==> r.code == NotFound
    ensures r.Ok? ==> r.value == id
  {
    if exists q :: q in qs && q.id == id then Ok(id) else Err(NotFound)
  }
}
