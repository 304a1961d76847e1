/** The records the endpoints read: questions and categories, as the store returns them. */
module Store {

  datatype Question = Question(id: int, question: string, answer: string, category: int, difficulty: int)

  /** `kind` is the category's `type` column (`type` is a keyword of Dafny). */
  datatype Category = Category(id: int, kind: string)

  function CategoryIds(cats: seq<Category>): set<int>
  {
    set c | c in cats :: c.id
  }

  /** Category ids are a primary key. */
  predicate UniqueIds(cats: seq<Category>)
  {
    forall i, j :: 0 <= i < j < |cats| ==> cats[i].id != cats[j].id
  }

  /** Every question's category is the id of some stored category. */
  predicate CategoriesExist(qs: seq<Question>, cats: seq<Category>)
  {
    forall q :: q in qs ==> q.category in CategoryIds(cats)
  }

  /** The id-to-type map the category endpoints build: one key per category id, each mapped
      to the kind of a category with that id (the last one, were ids repeated). */
  function CategoryMap(cats: seq<Category>): (m: map<int, string>)
    ensures m.Keys == CategoryIds(cats)
    ensures forall k :: k in m ==> Category(k, m[k]) in cats
  {
    if cats == [] then map[]
    else
      var last := cats[|cats| - 1];
      assert cats == cats[..|cats| - 1] + [last];
      CategoryMap(cats[..|cats| - 1])[last.id := last.kind]
  }

  /** With unique ids, the map sends every category's id to that category's kind. */
  lemma {:induction false} CategoryMapLabels(cats: seq<Category>)
    requires UniqueIds(cats)
    ensures forall c :: c in cats ==> CategoryMap(cats)[c.id] == c.kind
  {
    if cats != [] {
      var init, last := cats[..|cats| - 1], cats[|cats| - 1];
      assert UniqueIds(init) by {
        forall i, j | 0 <= i < j < |init| ensures init[i].id != init[j].id {
          assert init[i] == cats[i] && init[j] == cats[j];
        }
      }
      CategoryMapLabels(init);
      var m := CategoryMap(cats);
      assert m == CategoryMap(init)[last.id := last.kind];
      forall c | c in cats ensures m[c.id] == c.kind {
        if c != last {
          var i :| 0 <= i < |cats| && cats[i] == c;
          assert i < |cats| - 1 && init[i] == c;
          assert cats[i].id != cats[|cats| - 1].id;
        }
      }
    }
  }

  /** The `current_category` list of the category endpoint: the labels of the categories with id `id`. */
  function CategoryLabels(cats: seq<Category>, id: int): (r: seq<string>)
    ensures forall l :: l in r <==> Category(id, l) in cats
    ensures r == [] <==> id !in CategoryIds(cats)
    ensures UniqueIds(cats) ==> |r| <= 1
  {
    if cats == [] then []
    else
      var rest := CategoryLabels(cats[1..], id);
      assert UniqueIds(cats) ==> UniqueIds(cats[1..]);
      assert rest != [] ==> rest[0] in rest;
      assert UniqueIds(cats) && cats[0].id == id ==> forall c :: c in cats[1..] ==> c.id != id;
      (if cats[0].id == id then [cats[0].kind] else []) + rest
  }
}
