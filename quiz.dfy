/** POST /quizzes: one question drawn from those the quiz may still ask. */
module Quiz {
  import opened Responses
  import opened Sequences
  import opened Store

  /** The posted `quiz_category`: its `type` and `id` keys, either of which may be missing. */
  datatype QuizCategory = QuizCategory(kind: Option<string>, id: Option<int>)

  /** The posted JSON body: its `quiz_category` and `previous_questions` keys. */
  datatype QuizRequest = QuizRequest(quizCategory: Option<QuizCategory>, previousQuestions: Option<seq<int>>)

  /** Which questions a quiz draws from. */
  datatype Scope = AllCategories | OneCategory(id: int)

  /** A well-formed quiz request. */
  datatype QuizQuery = QuizQuery(scope: Scope, previous: seq<int>)

  /** The category type the client sends for "all categories". */
  const AllCategoriesType := "click"

  /** Reads a request body (`None`: no body, or an empty one). Any missing piece fails with 422,
      the code the surrounding `except` gives to the `TypeError` or `KeyError` it raises. */
  function ParseQuiz(body: Option<QuizRequest>): (r: Result<QuizQuery>)
    ensures r.Err? ==> r.code == Unprocessable
    ensures r.Ok? <==>
      && body.Some?
      && body.value.quizCategory.Some?
      && body.value.quizCategory.value.kind.Some?
      && body.value.previousQuestions.Some?
      && (body.value.quizCategory.value.kind.value != AllCategoriesType ==> body.value.quizCategory.value.id.Some?)
    ensures r.Ok? ==> r.value.previous == body.value.previousQuestions.value
    ensures r.Ok? ==> (r.value.scope == AllCategories <==> body.value.quizCategory.value.kind.value == AllCategoriesType)
    ensures r.Ok? && r.value.scope.OneCategory? ==> r.value.scope.id == body.value.quizCategory.value.id.value
  {
    if body.None? then Err(Unprocessable)
    else match body.value
      case QuizRequest(Some(QuizCategory(Some(kind), id)), Some(previous)) =>
        if kind == AllCategoriesType then Ok(QuizQuery(AllCategories, previous))
        else if id.Some? then Ok(QuizQuery(OneCategory(id.value), previous))
        else Err(Unprocessable)
      case _ => Err(Unprocessable)
  }

  predicate InScope(q: Question, scope: Scope)
  {
    scope.AllCategories? || q.category == scope.id
  }

  /** A question the quiz may ask next: in scope and not asked before. */
  predicate Eligible(q: Question, query: QuizQuery)
  {
    InScope(q, query.scope) && q.id !in query.previous
  }

  /** The eligible questions, in store order. */
  function EligibleQuestions(qs: seq<Question>, query: QuizQuery): (r: seq<Question>)
    ensures forall q :: q in r <==> q in qs && Eligible(q, query)
  {
    Filter(qs, (q: Question) => Eligible(q, query))
  }

  /** The question sent back: `random.choice` over the eligible questions, where `draw` is the
      random number it reduces to an index; `None` when no question is eligible. */
  function NextQuestion(qs: seq<Question>, body: Option<QuizRequest>, draw: nat): (r: Result<Option<Question>>)
    ensures r.Err? <==> ParseQuiz(body).Err?
    ensures r.Err? ==> r.code == Unprocessable
    ensures r.Ok? ==> (r.value.None? <==> forall q :: q in qs ==> !Eligible(q, ParseQuiz(body).value))
    ensures r.Ok? && r.value.Some? ==> r.value.value in qs
    ensures r.Ok? && r.value.Some? ==> r.value.value.id !in ParseQuiz(body).value.previous
    ensures r.Ok? && r.value.Some? && ParseQuiz(body).value.scope.OneCategory? ==>
      r.value.value.category == ParseQuiz(body).value.scope.id
  {
    match ParseQuiz(body)
    case Err(code) => Err(code)
    case Ok(query) =>
      var pool := EligibleQuestions(qs, query);
      assert (forall q :: q in qs ==> !Eligible(q, query)) ==> pool == [] by {
        if forall q :: q in qs ==> !Eligible(q, query) {
          FilterNone(qs, (q: Question) => Eligible(q, query));
        }
      }
      if pool == [] then Ok(None) else Ok(Some(Choose(pool, draw)))
  }

  /** `random.choice(pool)`, with `draw` the random number it reduces to an index. */
  function Choose(pool: seq<Question>, draw: nat): (q: Question)
    requires pool != []
    ensures q in pool
    ensures draw < |pool| ==> q == pool[draw]
  {
    pool[draw % |pool|]
  }

  /** Every eligible question is what some draw returns: the choice can reach the whole pool. */
  lemma EveryEligibleCanBeDrawn(qs: seq<Question>, body: Option<QuizRequest>, q: Question)
    requires ParseQuiz(body).Ok?
    requires q in qs && Eligible(q, ParseQuiz(body).value)
    ensures exists draw: nat :: NextQuestion(qs, body, draw) == Ok(Some(q))
  {
    var pool := EligibleQuestions(qs, ParseQuiz(body).value);
    assert q in pool;
    var i :| 0 <= i < |pool| && pool[i] == q;
    assert NextQuestion(qs, body, i) == Ok(Some(Choose(pool, i)));
  }

  /** Adding the drawn question's id to `previous_questions` leaves strictly fewer eligible
      questions, so a client that does so ends its quiz after at most |qs| rounds. */
  lemma DrawShrinksPool(qs: seq<Question>, body: Option<QuizRequest>, draw: nat, q: Question)
    requires NextQuestion(qs, body, draw) == Ok(Some(q))
    ensures var query := ParseQuiz(body).value;
      |EligibleQuestions(qs, QuizQuery(query.scope, query.previous + [q.id]))| < |EligibleQuestions(qs, query)|
  {
    var query := ParseQuiz(body).value;
    var next := QuizQuery(query.scope, query.previous + [q.id]);
    FilterStronger(qs, (x: Question) => Eligible(x, query), (x: Question) => Eligible(x, next));
  }

  /** Once every stored id has been asked, the quiz returns no question. */
  lemma AllAskedEndsQuiz(qs: seq<Question>, scope: Scope, previous: seq<int>, kind: string, id: Option<int>, draw: nat)
    requires (kind == AllCategoriesType) == scope.AllCategories?
    requires scope.OneCategory? ==> id == Some(scope.id)
    requires forall q :: q in qs ==> q.id in previous
    ensures NextQuestion(qs, Some(QuizRequest(Some(QuizCategory(Some(kind), id)), Some(previous))), draw) == Ok(None)
  {
  }
}
