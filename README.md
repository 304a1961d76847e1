# Trivia API: request-level decisions

A model of the request handlers of a small trivia API (`backend/flaskr/__init__.py`). The
API serves trivia questions and categories. It lists questions ten per page, searches
question texts, lists the questions of one category, and picks the next question of a quiz
at random among those not yet asked.

The database becomes two ordered sequences, `seq<Question>` and `seq<Category>`, taken in
the order the store returns them. Each endpoint becomes a function of those sequences and
the request's inputs. It returns `Ok(body)` or `Err(code)`, where `code` is the HTTP status
the handler finally aborts with. The modules are:

- `Responses`: the `Result`/`Option` datatypes and the status codes 400, 404 and 422.
- `Sequences`: order-preserving filters, standing in for the ORM's `filter`/`filter_by`.
- `Paging`: `paginate_all`, with Python's slice semantics, negative indices included.
- `Like`: the SQL `ILIKE` matcher used by the search. `%` matches any run of characters,
  `_` matches one character, a backslash escapes the next character, and case is ignored.
- `Store`: the question and category records, and the id-to-type category map.
- `Api`: the listing, search, category and delete endpoints.
- `Quiz`: the quiz endpoint. The random draw is an injected number `draw`, and
  `random.choice` becomes index `draw % n` of the eligible questions.

The code decides some behaviours that a reader might expect to work differently. The model
follows the code:

- An empty or missing search term gives 422, not 400. The `abort(400)` runs inside a bare
  `try`, and its `except` aborts again with 422.
- Deleting a missing id gives 422, not 404, for the same reason.
- Questions are paginated in the order the store returns them. There is no `order_by`
  on `Question.query.all()`, so the model does not sort them by id.
- Page numbers below 1 are accepted. Page 0 is always empty, so the listing answers 404.
  A negative page follows Python's negative slice indices and selects a window counted back
  from the end. For example, page -1 of 25 questions lists questions 6 to 15.
- The quiz reads "all categories" from the sentinel category type `click`. The model parses
  it into an explicit `Scope`: `AllCategories` or `OneCategory(id)`. Any missing piece of
  the quiz request gives 422. Keys sent with a JSON `null` value are not modelled (see below).
- The category endpoint never fails for an unknown id. It answers with an empty
  `current_category` list and the questions that carry that category id. When every
  question's category is a stored category, that question list is empty too.
- The delete and category endpoints take their id from the path through Flask's unsigned
  `<int:id>` converter (lines 106 and 202). The model's id is therefore a `nat`. A negative
  id never reaches either handler; the routing answers 404.

## Model

| member | source | states |
|---|---|---|
| `Paging.Slice` | backend/flaskr/__init__.py:21 | Python's `s[start:end]` never fails. It holds at most `end - start` items, and for non-negative bounds it is the window clipped to the sequence. |
| `Paging.Paginate` | backend/flaskr/__init__.py:11-23 | A page holds at most 10 items, all taken from the input. Page p >= 1 is the window [(p-1)*10, p*10) clipped to the input, and it is empty exactly when (p-1)*10 >= n. Page 0 is empty, and a negative page is the window counted back from the end. |
| `Paging.PageHoldsItem` | backend/flaskr/__init__.py:14-23 | Item i appears on page i/10+1 at position i mod 10. |
| `Paging.FirstPagesArePrefix` | backend/flaskr/__init__.py:14-23 | Pages 1 to k, read in turn, list exactly the first min(10k, n) items in order. |
| `Paging.PagesCoverAll` | backend/flaskr/__init__.py:14-23 | Pages 1 to ceil(n/10) together list the whole collection. |
| `Sequences.Filter` | backend/flaskr/__init__.py:208 | A query filter keeps exactly the rows that satisfy its condition, and never more rows than it was given. |
| `Sequences.FilterMultiset` | backend/flaskr/__init__.py:208 | A query filter keeps each row that satisfies its condition as many times as it is stored, and no other row. |
| `Sequences.FilterConcat` | backend/flaskr/__init__.py:208 | Filtering keeps the store order of the rows it keeps. |
| `Like.ILike` | backend/flaskr/__init__.py:181 | ILIKE matching. A pattern without `%`, `_` or backslash matches a text exactly when the text equals the pattern, ignoring case. |
| `Like.EscapeTerm` | backend/flaskr/__init__.py:180 | The escaping that the corrected search `Api.SearchQuestionsIntended` applies before building the pattern; the code at line 180 does not escape the term. A term without `%`, `_` or backslash is left unchanged. |
| `Like.EscapedPrefix` | backend/flaskr/__init__.py:180-182 | An escaped term followed by `%` matches exactly the texts that start with the term, ignoring case. |
| `Like.LeadingPercent` | backend/flaskr/__init__.py:180-182 | A leading `%` lets the rest of the pattern match any suffix of the text. |
| `Like.EscapedPatternIsSubstring` | backend/flaskr/__init__.py:180-182 | `%` + escaped term + `%` matches a text exactly when the text contains the term, ignoring case, for every term. |
| `Like.LiteralPatternIsSubstring` | backend/flaskr/__init__.py:180-182 | For a term without `%`, `_` or backslash, the pattern `'%{}%'.format(term)` matches exactly the texts that contain the term, ignoring case. |
| `Like.UnderscoreIsWildcard` | backend/flaskr/__init__.py:180 | The unescaped term `_` matches the text "Who?", which contains no underscore. |
| `Store.CategoryMap` | backend/flaskr/__init__.py:60 | The map's keys are exactly the category ids, and each key maps to the type of a category with that id. |
| `Store.CategoryMapLabels` | backend/flaskr/__init__.py:55-60 | When category ids are unique, every category's id maps to that category's type. |
| `Store.CategoryLabels` | backend/flaskr/__init__.py:205-206 | `current_category` holds exactly the types of the categories with the requested id. It is empty exactly when no category has that id, and it holds at most one type when ids are unique. |
| `Api.GetCategories` | backend/flaskr/__init__.py:53-65 | Returns 404 exactly when there are no categories. Otherwise its keys are exactly the category ids, each mapped to a type of that id, and with unique ids every category maps to its own type. |
| `Api.ListQuestions` | backend/flaskr/__init__.py:80-97 | Returns 404 exactly when the requested page is empty, for every page number, negative ones included: for p >= 1, when (p-1)*10 >= n, and always for page 0. Otherwise it lists 1 to 10 questions of that page, reports the whole collection's size as the total whatever the page, and includes the category map. |
| `Api.NineteenQuestions` | backend/flaskr/__init__.py:80-97 | With 19 questions, page 2 lists the last 9 with total 19, and page 3 is 404. |
| `Api.SearchQuestions` | backend/flaskr/__init__.py:171-193 | Returns 422 exactly when the term is missing or empty. Otherwise it lists that page of the questions matching '%term%' under ILIKE, in store order, and reports the number of all matches as the total. |
| `Api.SearchLiteralTerm` | backend/flaskr/__init__.py:177-188 | For a non-empty term without wildcards, the search's page and total are those of the questions whose text contains the term, ignoring case. |
| `Api.SearchUnderscoreMatchesAnyText` | backend/flaskr/__init__.py:180-182 | Searching for `_` returns the question "Who?", though no question contains `_`. |
| `Api.SearchQuestionsIntended` | backend/flaskr/__init__.py:171-193 | The corrected search returns 400 for a missing or empty term. For any other term, it lists exactly the questions whose text contains the term literally, ignoring case. |
| `Api.CategoryQuestions` | backend/flaskr/__init__.py:202-219 | Never fails. Lists exactly the questions of the requested category, unpaginated, in store order, each as many times as it is stored, with their count as the total. The list is empty exactly when no question has that category. `current_category` holds exactly the types of the categories with that id. |
| `Api.UnknownCategoryIsEmpty` | backend/flaskr/__init__.py:205-216 | When every question belongs to a stored category, an unknown category id lists no questions and no type, rather than failing. |
| `Api.DeleteQuestion` | backend/flaskr/__init__.py:106-122 | Returns 422 exactly when no question has the id. Otherwise it reports that id as deleted. |
| `Api.DeleteQuestionIntended` | backend/flaskr/__init__.py:106-122 | The corrected delete returns 404 exactly when no question has the id. |
| `Quiz.ParseQuiz` | backend/flaskr/__init__.py:233-249 | Returns 422 exactly when the body, its `quiz_category`, the category's `type` or `previous_questions` is missing, or when the type is not `click` and the `id` is missing. Type `click` means all categories. Any other type means the category with that id. |
| `Quiz.EligibleQuestions` | backend/flaskr/__init__.py:241-249 | The eligible questions are exactly those in scope whose id is not in `previous_questions`. |
| `Quiz.NextQuestion` | backend/flaskr/__init__.py:231-259 | Fails with 422 exactly when the request is malformed. It returns no question exactly when no question is eligible. A returned question is stored, was not asked before, and belongs to the requested category unless the type is `click`. |
| `Quiz.Choose` | backend/flaskr/__init__.py:250-251 | The chosen question is one of the eligible questions, and a draw below their number picks the question at that position. |
| `Quiz.EveryEligibleCanBeDrawn` | backend/flaskr/__init__.py:250-251 | Every eligible question is returned for some draw. |
| `Quiz.DrawShrinksPool` | backend/flaskr/__init__.py:239-251 | Adding the returned question's id to `previous_questions` leaves strictly fewer eligible questions. |
| `Quiz.AllAskedEndsQuiz` | backend/flaskr/__init__.py:241-251 | Once every stored id is in `previous_questions`, the quiz returns no question. |

## Left out

- App wiring, CORS and the `after_request` headers (lines 28-47): HTTP plumbing with no decision in it.
- Api.CategoryQuestions, Api.UnknownCategoryIsEmpty, Api.DeleteQuestion, Api.DeleteQuestionIntended: path ids are `nat`. A negative id in `DELETE /questions/<id>` or `GET /categories/<id>/questions` does not match the unsigned `<int:id>` route (lines 106 and 202), so Flask answers 404 before any handler runs. That routing outcome is not modelled.
- The JSON error handlers (lines 265-307): the model keeps only the status code they are given.
- Creating a question (`add_new`, lines 135-160): it calls `Question.insert()` in `models.py`, which is not part of this model. Its only local decision is that a missing body aborts with 404, which the `except` turns into 422.
- Deleting a question: `get_question.delete()` is a call into `models.py`. `Api.DeleteQuestion` models only the response: the deleted id, or the error code.
- Store failures: the model's store never fails. In the code, a database exception in the search, quiz and delete handlers falls into their `except` branches (422), and in the category-questions handler into its `except` (404). `get_all` (lines 53-65) and `get_questions` (lines 80-97) have no `try`, so a database failure there answers 500 through the handler at lines 300-307.
- `Question.format()` is defined in `models.py`, which is not part of this model. A formatted question is modelled as the question record itself.
- `order_by(Category.id)` (line 55): the model takes categories in the order given. With unique ids, the category map does not depend on order.
- Request parsing: the page number is an integer parameter. `request.args.get('page', 1, type=int)` defaults to 1 on a missing or malformed value, and that is not modelled. The search term is a string or absent, so non-string JSON values are not modelled.
- Like.ILike: case folding covers ASCII letters only. PostgreSQL's locale-dependent lowering of other letters is not modelled, and the lemmas about the search pattern hold under ASCII folding.
- Quiz.ParseQuiz: a key of the quiz body sent with a JSON `null` value, or with a value of the wrong type, is not modelled; each key is either present with a well-typed value or missing. The code treats some of these unlike missing keys: a `null` `type` is not `click`, so the request takes the one-category branch and succeeds when `id` is present; a `null` `id` filters on a null category, finds no question and answers with no question rather than 422.
- Quiz.NextQuestion: the uniformity of `random.choice` is not stated. The draw is an arbitrary number reduced to an index, and `Quiz.EveryEligibleCanBeDrawn` states only that every eligible question can be drawn.
- Question categories are integers here. The column type lives in `models.py`, which is not part of this model.

## Findings

| source | as written | input that shows it | evidently intended | confidence | as-written member | corrected member |
|---|---|---|---|---|---|---|
| backend/flaskr/__init__.py:177-178 | `abort(400)` for an empty term runs inside a bare `try`, whose `except` aborts again with 422 (lines 192-193) | POST /questions/search with `{"searchTerm": ""}` | 400 Bad Request, as the 400 handler at line 283 suggests | high; not executed | `Api.SearchQuestions` | `Api.SearchQuestionsIntended` |
| backend/flaskr/__init__.py:180-182 | the term goes unescaped into the ILIKE pattern, so `%` and `_` in it act as wildcards | term `_` against the question "Who?" matches, though the text has no underscore | the term matched as a literal substring, as the comment at lines 164-165 says | medium; not executed | `Api.SearchUnderscoreMatchesAnyText` | `Api.SearchQuestionsIntended` |
| backend/flaskr/__init__.py:111-112 | `abort(404)` for a missing id runs inside a bare `try`, whose `except` aborts again with 422 (lines 121-122) | DELETE /questions/999 when no question has id 999 | 404 Not Found | high; not executed | `Api.DeleteQuestion` | `Api.DeleteQuestionIntended` |
