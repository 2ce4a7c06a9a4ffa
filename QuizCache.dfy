/** The `quiz_cache` table as `/api/generate-quiz` uses it (server.js:51-80 and
    173-190): the lookup key of a request, the equality filters the query is
    built from, the rows that match, newest first, and the row that a
    successful generation appends. */
module QuizCache {
  import opened Js

  /** The columns a lookup can filter on. */
  datatype Column = Difficulty | Category | Period | GeographicalSphere | IdName | Moment | Episode

  /** The fields of the request body the handler destructures (server.js:36-45). */
  datatype QuizRequest = QuizRequest(
    difficulty: JsValue,
    category: JsValue,
    period: JsValue,
    geographical_sphere: JsValue,
    id_name: JsValue,
    moment: JsValue,
    episode: JsValue,
    mode: JsValue)

  /** A stored row: the seven key columns and the quiz. A column the insert
      leaves undefined holds null. */
  datatype Row = Row(
    difficulty: Json,
    category: Json,
    period: Json,
    geographical_sphere: Json,
    id_name: Json,
    moment: Json,
    episode: Json,
    quiz_json: Json)
  {
    function Cell(c: Column): (cell: Json) {
      match c
      case Difficulty => difficulty
      case Category => category
      case Period => period
      case GeographicalSphere => geographical_sphere
      case IdName => id_name
      case Moment => moment
      case Episode => episode
    }

    /** The row with column c set to v. */
    function With(c: Column, v: Json): (r: Row)
      ensures r.Cell(c) == v
      ensures forall d :: d != c ==> r.Cell(d) == Cell(d)
      ensures r.quiz_json == quiz_json
    {
      match c
      case Difficulty => this.(difficulty := v)
      case Category => this.(category := v)
      case Period => this.(period := v)
      case GeographicalSphere => this.(geographical_sphere := v)
      case IdName => this.(id_name := v)
      case Moment => this.(moment := v)
      case Episode => this.(episode := v)
    }
  }

  /** The request's field for column c. */
  function ReqField(req: QuizRequest, c: Column): (v: JsValue) {
    match c
    case Difficulty => req.difficulty
    case Category => req.category
    case Period => req.period
    case GeographicalSphere => req.geographical_sphere
    case IdName => req.id_name
    case Moment => req.moment
    case Episode => req.episode
  }

  /** One `.eq(column, value)` of the query builder. */
  datatype Filter = Eq(column: Column, value: Json)

  /** Both mandatory fields are truthy (server.js:51). */
  predicate HasKey(req: QuizRequest) {
    Truthy(req.difficulty) && Truthy(req.category)
  }

  /** The lookup the handler performs, stated column by column: the mandatory
      columns always constrain, an optional column constrains only when the
      request's value is truthy, and `mode` never does. */
  predicate Matches(req: QuizRequest, row: Row) {
    && Defined(row.difficulty) == req.difficulty
    && Defined(row.category) == req.category
    && (Truthy(req.period) ==> Defined(row.period) == req.period)
    && (Truthy(req.geographical_sphere) ==> Defined(row.geographical_sphere) == req.geographical_sphere)
    && (Truthy(req.id_name) ==> Defined(row.id_name) == req.id_name)
    && (Truthy(req.moment) ==> Defined(row.moment) == req.moment)
    && (Truthy(req.episode) ==> Defined(row.episode) == req.episode)
  }

  predicate Satisfies(row: Row, filters: seq<Filter>) {
    forall f :: f in filters ==> row.Cell(f.column) == f.value
  }

  function Narrow(v: JsValue, c: Column): (filters: seq<Filter>) {
    if Truthy(v) then [Eq(c, v.json)] else []
  }

  /** The filters of the query at lines 56-66, in the order they are applied. */
  function FilterFor(req: QuizRequest): (filters: seq<Filter>)
    requires HasKey(req)
    ensures forall f :: f in filters ==>
      Truthy(ReqField(req, f.column)) && Defined(f.value) == ReqField(req, f.column)
    ensures forall c :: Truthy(ReqField(req, c)) ==> Eq(c, ReqField(req, c).json) in filters
  {
    [Eq(Difficulty, req.difficulty.json), Eq(Category, req.category.json)]
      + Narrow(req.period, Period)
      + Narrow(req.geographical_sphere, GeographicalSphere)
      + Narrow(req.id_name, IdName)
      + Narrow(req.moment, Moment)
      + Narrow(req.episode, Episode)
  }

  /** Appending an optional field's filter: one equality when the field is
      truthy, nothing otherwise. */
  lemma {:induction false} NarrowAppend(filters: seq<Filter>, v: JsValue, c: Column)
    ensures Truthy(v) ==> filters + Narrow(v, c) == filters + [Eq(c, v.json)]
    ensures !Truthy(v) ==> filters + Narrow(v, c) == filters
  {
    if !Truthy(v) {
      assert filters + [] == filters;
    }
  }

  /** Lines 56-66: the query starts with the two mandatory filters and adds one
      `.eq` for each optional field that is truthy. */
  method BuildFilter(req: QuizRequest) returns (filters: seq<Filter>)
    requires HasKey(req)
    ensures filters == FilterFor(req)
  {
    filters := [Eq(Difficulty, req.difficulty.json), Eq(Category, req.category.json)];
    NarrowAppend(filters, req.period, Period);
    if Truthy(req.period) { filters := filters + [Eq(Period, req.period.json)]; }
    NarrowAppend(filters, req.geographical_sphere, GeographicalSphere);
    if Truthy(req.geographical_sphere) { filters := filters + [Eq(GeographicalSphere, req.geographical_sphere.json)]; }
    NarrowAppend(filters, req.id_name, IdName);
    if Truthy(req.id_name) { filters := filters + [Eq(IdName, req.id_name.json)]; }
    NarrowAppend(filters, req.moment, Moment);
    if Truthy(req.moment) { filters := filters + [Eq(Moment, req.moment.json)]; }
    NarrowAppend(filters, req.episode, Episode);
    if Truthy(req.episode) { filters := filters + [Eq(Episode, req.episode.json)]; }
  }

  lemma {:induction false} SatisfiesAppend(row: Row, a: seq<Filter>, b: seq<Filter>)
    ensures Satisfies(row, a + b) <==> Satisfies(row, a) && Satisfies(row, b)
  {
    if Satisfies(row, a + b) {
      forall f | f in a ensures row.Cell(f.column) == f.value {
        assert f in a + b;
      }
      forall f | f in b ensures row.Cell(f.column) == f.value {
        assert f in a + b;
      }
    }
  }

  /** An optional field's filter holds exactly when the field is falsy or the
      row's column holds the field's value. */
  lemma {:induction false} SatisfiesNarrow(row: Row, v: JsValue, c: Column)
    ensures Satisfies(row, Narrow(v, c)) <==> (Truthy(v) ==> Defined(row.Cell(c)) == v)
  {
    if Truthy(v) {
      assert Eq(c, v.json) in Narrow(v, c);
    }
  }

  /** The query's filters select exactly the rows the lookup means. */
  lemma {:induction false} FilterMeaning(req: QuizRequest, row: Row)
    requires HasKey(req)
    ensures Satisfies(row, FilterFor(req)) <==> Matches(req, row)
  {
    var base := [Eq(Difficulty, req.difficulty.json), Eq(Category, req.category.json)];
    var f1 := base + Narrow(req.period, Period);
    var f2 := f1 + Narrow(req.geographical_sphere, GeographicalSphere);
    var f3 := f2 + Narrow(req.id_name, IdName);
    var f4 := f3 + Narrow(req.moment, Moment);
    SatisfiesAppend(row, f4, Narrow(req.episode, Episode));
    SatisfiesAppend(row, f3, Narrow(req.moment, Moment));
    SatisfiesAppend(row, f2, Narrow(req.id_name, IdName));
    SatisfiesAppend(row, f1, Narrow(req.geographical_sphere, GeographicalSphere));
    SatisfiesAppend(row, base, Narrow(req.period, Period));
    SatisfiesNarrow(row, req.period, Period);
    SatisfiesNarrow(row, req.geographical_sphere, GeographicalSphere);
    SatisfiesNarrow(row, req.id_name, IdName);
    SatisfiesNarrow(row, req.moment, Moment);
    SatisfiesNarrow(row, req.episode, Episode);
    assert Satisfies(row, base) <==>
      row.difficulty == req.difficulty.json && row.category == req.category.json by {
      assert base[0] in base && base[1] in base;
    }
  }

  /** The rows of the table that satisfy the filters, newest first: rows are
      kept in insertion order and the query orders by `created_at` descending. */
  function Selected(rows: seq<Row>, filters: seq<Filter>): (found: seq<Row>) {
    if rows == [] then []
    else Selected(rows[1..], filters) + (if Satisfies(rows[0], filters) then [rows[0]] else [])
  }

  lemma {:induction false} SelectedMembers(rows: seq<Row>, filters: seq<Filter>)
    ensures |Selected(rows, filters)| <= |rows|
    ensures forall r :: r in Selected(rows, filters) <==> r in rows && Satisfies(r, filters)
  {
    if rows != [] {
      SelectedMembers(rows[1..], filters);
      assert rows == [rows[0]] + rows[1..];
    }
  }

  /** A newly appended row comes first in the lookup if it satisfies the filters. */
  lemma {:induction false} SelectedAppend(rows: seq<Row>, row: Row, filters: seq<Filter>)
    ensures Selected(rows + [row], filters) ==
      (if Satisfies(row, filters) then [row] else []) + Selected(rows, filters)
  {
    if rows == [] {
      assert [] + [row] == [row];
    } else {
      assert (rows + [row])[1..] == rows[1..] + [row];
      SelectedAppend(rows[1..], row, filters);
    }
  }

  /** The rows a request's lookup returns, newest first. */
  function CacheHits(rows: seq<Row>, req: QuizRequest): (hits: seq<Row>)
    requires HasKey(req)
  {
    Selected(rows, FilterFor(req))
  }

  lemma {:induction false} CacheHitsMembers(rows: seq<Row>, req: QuizRequest)
    requires HasKey(req)
    ensures forall r :: r in CacheHits(rows, req) <==> r in rows && Matches(req, r)
  {
    SelectedMembers(rows, FilterFor(req));
    forall r ensures Satisfies(r, FilterFor(req)) <==> Matches(req, r) {
      FilterMeaning(req, r);
    }
  }

  /** What the insert at lines 173-182 stores: the seven key fields as they
      came in (an undefined field is stored as null) and the quiz. */
  function Stored(v: JsValue): (j: Json) {
    match v
    case Undefined => JNull
    case Defined(j) => j
  }

  function NewRow(req: QuizRequest, quiz: Json): (row: Row)
    ensures forall c :: ReqField(req, c).Defined? ==> Defined(row.Cell(c)) == ReqField(req, c)
    ensures forall c :: ReqField(req, c).Undefined? ==> row.Cell(c) == JNull
    ensures row.quiz_json == quiz
  {
    Row(Stored(req.difficulty), Stored(req.category), Stored(req.period),
        Stored(req.geographical_sphere), Stored(req.id_name), Stored(req.moment),
        Stored(req.episode), quiz)
  }

  /** A stored row is found again by the request that stored it. */
  lemma {:induction false} NewRowMatches(req: QuizRequest, quiz: Json)
    requires HasKey(req)
    ensures Matches(req, NewRow(req, quiz))
  {
  }

  /** After the insert, the same request finds the new row first, and one more
      row than before: repeated misses build up the pool toward the threshold. */
  lemma {:induction false} InsertedRowFoundAgain(rows: seq<Row>, req: QuizRequest, quiz: Json)
    requires HasKey(req)
    ensures CacheHits(rows + [NewRow(req, quiz)], req) == [NewRow(req, quiz)] + CacheHits(rows, req)
    ensures |CacheHits(rows + [NewRow(req, quiz)], req)| == |CacheHits(rows, req)| + 1
  {
    FilterMeaning(req, NewRow(req, quiz));
    SelectedAppend(rows, NewRow(req, quiz), FilterFor(req));
  }

  /** Two requests that agree on the seven key fields look up the same rows,
      whatever their `mode`. */
  lemma {:induction false} SameKeySameHits(rows: seq<Row>, a: QuizRequest, b: QuizRequest)
    requires HasKey(a)
    requires a.(mode := b.mode) == b
    ensures CacheHits(rows, a) == CacheHits(rows, b)
  {
    assert FilterFor(a) == FilterFor(b);
  }

  /** The lookup stated uniformly over the columns: every column whose request
      field is truthy must hold that field's value, and no other column matters. */
  lemma {:induction false} MatchesByColumn(req: QuizRequest, row: Row)
    requires HasKey(req)
    ensures Matches(req, row) <==>
      forall c :: Truthy(ReqField(req, c)) ==> Defined(row.Cell(c)) == ReqField(req, c)
  {
    if forall c :: Truthy(ReqField(req, c)) ==> Defined(row.Cell(c)) == ReqField(req, c) {
      assert Truthy(ReqField(req, Difficulty)) && Truthy(ReqField(req, Category));
      assert Truthy(ReqField(req, Period)) ==> Defined(row.Cell(Period)) == ReqField(req, Period);
      assert Truthy(ReqField(req, GeographicalSphere)) ==>
        Defined(row.Cell(GeographicalSphere)) == ReqField(req, GeographicalSphere);
      assert Truthy(ReqField(req, IdName)) ==> Defined(row.Cell(IdName)) == ReqField(req, IdName);
      assert Truthy(ReqField(req, Moment)) ==> Defined(row.Cell(Moment)) == ReqField(req, Moment);
      assert Truthy(ReqField(req, Episode)) ==> Defined(row.Cell(Episode)) == ReqField(req, Episode);
    }
  }

  /** A falsy optional field is a wildcard: the row's value in that column does
      not matter. */
  lemma {:induction false} FalsyFieldIsWildcard(req: QuizRequest, row: Row, c: Column, v: Json)
    requires c != Difficulty && c != Category && !Truthy(ReqField(req, c))
    ensures Matches(req, row) <==> Matches(req, row.With(c, v))
  {
  }

  /** A truthy field narrows the lookup: a row whose column holds a different
      value is not found. */
  lemma {:induction false} TruthyFieldNarrows(req: QuizRequest, row: Row, c: Column)
    requires Truthy(ReqField(req, c)) && Defined(row.Cell(c)) != ReqField(req, c)
    ensures !Matches(req, row)
  {
  }

  /** Served from the cache only once at least this many rows match (server.js:75). */
  const DiversityThreshold := 5

  /** Line 75: `cachedQuizzes && cachedQuizzes.length >= 5`; `None` is the null
      data of a failed lookup. */
  predicate ServesFromCache(cached: Option<seq<Row>>): (serve: bool)
    ensures serve ==> cached.Some? && cached.value != []
  {
    cached.Some? && |cached.value| >= DiversityThreshold
  }

  /** The table after each quiz of `quizzes` was generated for req and stored,
      in order. */
  function StoreAll(rows: seq<Row>, req: QuizRequest, quizzes: seq<Json>): (after: seq<Row>)
    decreases |quizzes|
  {
    if quizzes == [] then rows
    else StoreAll(rows + [NewRow(req, quizzes[0])], req, quizzes[1..])
  }

  /** Every stored generation adds one hit for the request that stored it, so
      after five of them the same request is served from the cache. */
  lemma {:induction false} StoredGenerationsFillPool(rows: seq<Row>, req: QuizRequest, quizzes: seq<Json>)
    requires HasKey(req)
    ensures |CacheHits(StoreAll(rows, req, quizzes), req)| == |CacheHits(rows, req)| + |quizzes|
    ensures |quizzes| >= DiversityThreshold ==> ServesFromCache(Some(CacheHits(StoreAll(rows, req, quizzes), req)))
    decreases |quizzes|
  {
    if quizzes != [] {
      InsertedRowFoundAgain(rows, req, quizzes[0]);
      StoredGenerationsFillPool(rows + [NewRow(req, quizzes[0])], req, quizzes[1..]);
    }
  }

  /** The `quiz_cache` table. */
  class CacheTable {
    var rows: seq<Row>

    constructor (initial: seq<Row>)
      ensures rows == initial
    {
      rows := initial;
    }

    /** The query of lines 68-69: the rows satisfying every filter, newest first. */
    method Select(filters: seq<Filter>) returns (found: seq<Row>)
      ensures found == Selected(rows, filters)
    {
      found := [];
      var i := |rows|;
      while i > 0
        invariant 0 <= i <= |rows|
        invariant found == Selected(rows[i..], filters)
      {
        i := i - 1;
        assert rows[i..][1..] == rows[i + 1..];
        if Satisfies(rows[i], filters) {
          found := found + [rows[i]];
        }
      }
      assert rows[0..] == rows;
    }

    /** The insert of lines 173-182. */
    method Insert(row: Row)
      modifies this
      ensures rows == old(rows) + [row]
    {
      rows := rows + [row];
    }
  }
}
