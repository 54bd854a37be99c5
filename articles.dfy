/** The article routes over the news database: token-checked list, create, update,
    and the cascading delete that runs as one transaction over four tables. */
module Articles {
  import opened Wrappers
  import opened Json
  import opened Http
  import opened Tables
  import opened Strings

  /** The three columns holding JSON text. */
  datatype Nested<T> = Nested(summaryBullets: T, impactTags: T, analysis: T)

  /** The plain columns, stored as bound (`undefined` becomes NULL, shown as `JNull`). */
  datatype Scalars = Scalars(
    title: Json, content: Json, biasRating: Json, category: Json, country: Json,
    credibilityScore: Json, impactScore: Json, whyItMatters: Json, whoIsAffected: Json,
    sentiment: Json, shortTermImpact: Json, longTermImpact: Json)

  /** A `verified_news` row; a JSON column is NULL (`None`) or text. */
  datatype Row = Row(id: int, scalars: Scalars, nested: Nested<Option<Text>>, publishedAt: Time, createdAt: Time)

  /** An article as the list route returns it: the row with its JSON columns parsed. */
  datatype View = View(id: int, scalars: Scalars, nested: Nested<Json>, publishedAt: Time, createdAt: Time)

  /** A row of `breaking_news` (referencing `verified_news_id`) or of `saved_articles`
      or `read_history` (referencing `news_id`); its other columns are opaque. */
  datatype Dependent = Dependent(newsId: int, columns: map<string, Json>)

  /** The fields a create or update request body may carry; `None` is `undefined`. */
  datatype ArticleBody = ArticleBody(
    title: Option<Json>, content: Option<Json>, summaryBullets: Option<Json>, impactTags: Option<Json>,
    biasRating: Option<Json>, category: Option<Json>, country: Option<Json>,
    credibilityScore: Option<Json>, impactScore: Option<Json>, whyItMatters: Option<Json>,
    whoIsAffected: Option<Json>, sentiment: Option<Json>, analysis: Option<Json>,
    shortTermImpact: Option<Json>, longTermImpact: Option<Json>)

  /** The four statements of the delete transaction, in the order they run. */
  datatype Step = BreakingNewsStep | SavedArticlesStep | ReadHistoryStep | VerifiedNewsStep

  const NoArray: Json := JArr([])
  const NoObject: Json := JObj(map[])

  /** The word after the first space of the Authorization header
      (`authHeader.split(' ')[1]`), if there is one. */
  function BearerToken(header: string): Option<string> {
    var words := Split(header, ' ');
    if |words| > 1 then Some(words[1]) else None
  }

  /** The token middleware: `None` lets the request through; otherwise the 401
      message. `verify` stands for signature and expiry checking with the shared
      secret. */
  function Authenticate(authorization: Option<string>, verify: string -> bool): (rejection: Option<string>)
    ensures rejection == Some("No token provided") <==> !HeaderPresent(authorization)
    ensures rejection.None? <==> HeaderPresent(authorization) && BearerToken(authorization.value).Some?
                                 && verify(BearerToken(authorization.value).value)
    ensures rejection.Some? ==> rejection.value in {"No token provided", "Invalid token"}
  {
    if !HeaderPresent(authorization) then Some("No token provided")
    else match BearerToken(authorization.value)
      case Some(token) => if verify(token) then None else Some("Invalid token")
      case None => Some("Invalid token")
  }

  /** A header `Bearer <token>` is admitted exactly when the token verifies. */
  lemma {:induction false} BearerHeaderAdmits(token: string, verify: string -> bool)
    requires ' ' !in token
    ensures Authenticate(Some("Bearer " + token), verify).None? <==> verify(token)
  {
    assert "Bearer " + token == "Bearer" + [' '] + token;
    SplitAfterPiece("Bearer", ' ', token);
    SplitNoSeparator(token, ' ');
  }

  /** `column ? JSON.parse(column) : fallback`; `None` when the parse throws. */
  function DecodeColumn(column: Option<Text>, fallback: Json): (r: Option<Json>)
    ensures column.None? || column == Some(EmptyText) ==> r == Some(fallback)
    ensures column.Some? && column.value.Stringified? ==> r == Some(column.value.doc)
    ensures column == Some(Malformed) ==> r.None?
  {
    match column
    case None => Some(fallback)
    case Some(EmptyText) => Some(fallback)
    case Some(t) => Parse(t)
  }

  /** One element of the list route's `map`. */
  function DecodeRow(row: Row): Option<View> {
    var bullets := DecodeColumn(row.nested.summaryBullets, NoArray);
    var tags := DecodeColumn(row.nested.impactTags, NoArray);
    var analysis := DecodeColumn(row.nested.analysis, NoObject);
    if bullets.Some? && tags.Some? && analysis.Some? then
      Some(View(row.id, row.scalars, Nested(bullets.value, tags.value, analysis.value), row.publishedAt, row.createdAt))
    else
      None
  }

  /** The list route's `map`: every row decoded in order, or `None` when some parse
      throws. */
  function DecodeAll(rows: seq<Row>): (r: Option<seq<View>>)
    ensures r.Some? <==> forall row :: row in rows ==> DecodeRow(row).Some?
    ensures r.Some? ==> |r.value| == |rows| && forall i :: 0 <= i < |rows| ==> DecodeRow(rows[i]) == Some(r.value[i])
  {
    if rows == [] then Some([])
    else
      assert rows == [rows[0]] + rows[1..];
      var head := DecodeRow(rows[0]);
      var tail := DecodeAll(rows[1..]);
      if head.Some? && tail.Some? then Some([head.value] + tail.value) else None
  }

  /** The row the create route inserts: the plain columns as the driver bound them,
      the JSON columns encoded, both timestamps now. */
  function CreatedRow(scalars: Scalars, body: ArticleBody, id: int, now: Time): Row {
    Row(id, scalars, EncodedNested(body), now, now)
  }

  /** The plain columns the create route means to write when every plain field binds
      as one value: scores, sentiment and impacts defaulted when falsy, the rest as
      submitted. */
  function CreatedScalars(body: ArticleBody): Scalars {
    Scalars(Bind(body.title), Bind(body.content), Bind(body.biasRating), Bind(body.category),
            Bind(body.country), Or(body.credibilityScore, JNum(0.9)), Or(body.impactScore, JNum(5.0)),
            Bind(body.whyItMatters), Bind(body.whoIsAffected), Or(body.sentiment, JStr("Neutral")),
            Or(body.shortTermImpact, JStr("")), Or(body.longTermImpact, JStr("")))
  }

  /** A value the SQLite driver binds to one `?`: a number, a string or NULL. */
  predicate Bindable(j: Json) {
    j.JNull? || j.JNum? || j.JStr?
  }

  predicate ScalarsBindable(c: Scalars) {
    && Bindable(c.title) && Bindable(c.content) && Bindable(c.biasRating) && Bindable(c.category)
    && Bindable(c.country) && Bindable(c.credibilityScore) && Bindable(c.impactScore)
    && Bindable(c.whyItMatters) && Bindable(c.whoIsAffected) && Bindable(c.sentiment)
    && Bindable(c.shortTermImpact) && Bindable(c.longTermImpact)
  }

  /** A statement argument the driver refuses with a TypeError: a boolean, or an array
      holding anything but numbers, strings and nulls. */
  predicate Refused(v: Option<Json>) {
    v.Some? && (v.value.JBool? || (v.value.JArr? && exists k :: k in v.value.items && !Bindable(k)))
  }

  /** How many anonymous `?` an argument fills: an array one per element, a plain
      object none (it names parameters, and these statements have no named ones),
      anything else (`undefined` included) one. */
  function Width(v: Option<Json>): nat {
    if v.Some? && v.value.JArr? then |v.value.items|
    else if v.Some? && v.value.JObj? then 0
    else 1
  }

  function Widths(args: seq<Option<Json>>): nat {
    if args == [] then 0 else Width(args[0]) + Widths(args[1..])
  }

  predicate IsObject(v: Option<Json>) {
    v.Some? && v.value.JObj?
  }

  /** How many arguments are plain objects; the driver throws on a second one. */
  function Objects(args: seq<Option<Json>>): nat {
    if args == [] then 0 else (if IsObject(args[0]) then 1 else 0) + Objects(args[1..])
  }

  /** The values one argument binds, in order; `None` when the driver refuses it. */
  function Spread(v: Option<Json>): (r: Option<seq<Json>>)
    ensures r.None? <==> Refused(v)
    ensures r.Some? ==> |r.value| == Width(v) && forall j :: j in r.value ==> Bindable(j)
    ensures v.None? || Bindable(v.value) ==> r == Some([Bind(v)])
  {
    match v
    case None => Some([JNull])
    case Some(j) =>
      match j
      case JBool(_) => None
      case JArr(items) => if forall k :: k in items ==> Bindable(k) then Some(items) else None
      case JObj(_) => Some([])
      case _ => Some([j])
  }

  /** The values a run of arguments binds, in order; `None` when one is refused. */
  function SpreadAll(args: seq<Option<Json>>): (r: Option<seq<Json>>)
    ensures r.Some? <==> forall v :: v in args ==> !Refused(v)
    ensures r.Some? ==> |r.value| == Widths(args) && forall j :: j in r.value ==> Bindable(j)
  {
    if args == [] then Some([])
    else
      assert args == [args[0]] + args[1..];
      var head, rest := Spread(args[0]), SpreadAll(args[1..]);
      if head.Some? && rest.Some? then Some(head.value + rest.value) else None
  }

  /** The plain arguments of a write statement, grouped by the JSON-column arguments
      between them: `title` and `content` come before `summary_bullets` and
      `impact_tags`, eight more before `analysis`, and the two impacts after it. The
      JSON-column arguments, the timestamps and the id are strings and fill one `?`
      each. */
  datatype PlainArgs = PlainArgs(lead: seq<Option<Json>>, middle: seq<Option<Json>>, tail: seq<Option<Json>>)

  /** What the driver makes of a statement's arguments: it throws, or it fills the
      `?` in order, which puts the plain values in the plain columns only when each
      group fills exactly its own columns. */
  datatype Binding = Throws | Misplaced | Columns(scalars: Scalars)

  function ScalarsOf(p: seq<Json>): Scalars
    requires |p| == 12
  {
    Scalars(p[0], p[1], p[2], p[3], p[4], p[5], p[6], p[7], p[8], p[9], p[10], p[11])
  }

  /** Binding the twelve plain arguments next to the three JSON-column arguments and
      the trailing timestamps or id: refused values, a second object and a wrong
      number of values throw. */
  function BindPlain(args: PlainArgs): Binding {
    var lead, middle, tail := SpreadAll(args.lead), SpreadAll(args.middle), SpreadAll(args.tail);
    if || lead.None? || middle.None? || tail.None?
       || Objects(args.lead) + Objects(args.middle) + Objects(args.tail) > 1
       || |lead.value| + |middle.value| + |tail.value| != 12
    then Throws
    else if |lead.value| != 2 || |middle.value| != 8 then Misplaced
    else Columns(ScalarsOf(lead.value + middle.value + tail.value))
  }

  /** The insert's plain arguments, after its `||` defaults. */
  function CreateArgs(body: ArticleBody): PlainArgs {
    PlainArgs([body.title, body.content],
              [body.biasRating, body.category, body.country, Some(Or(body.credibilityScore, JNum(0.9))),
               Some(Or(body.impactScore, JNum(5.0))), body.whyItMatters, body.whoIsAffected,
               Some(Or(body.sentiment, JStr("Neutral")))],
              [Some(Or(body.shortTermImpact, JStr(""))), Some(Or(body.longTermImpact, JStr("")))])
  }

  /** The update's plain arguments, exactly as submitted. */
  function UpdateArgs(body: ArticleBody): PlainArgs {
    PlainArgs([body.title, body.content],
              [body.biasRating, body.category, body.country, body.credibilityScore, body.impactScore,
               body.whyItMatters, body.whoIsAffected, body.sentiment],
              [body.shortTermImpact, body.longTermImpact])
  }

  /** A statement throws exactly when an argument is refused, two are objects, or
      they fill other than twelve `?`; its values land in the plain columns exactly
      when, besides, the groups fill two, eight and two; every stored plain column is
      then a number, string or NULL. */
  lemma BindsExactly(args: PlainArgs)
    ensures BindPlain(args).Throws? <==>
      || (exists v :: (v in args.lead || v in args.middle || v in args.tail) && Refused(v))
      || Objects(args.lead) + Objects(args.middle) + Objects(args.tail) > 1
      || Widths(args.lead) + Widths(args.middle) + Widths(args.tail) != 12
    ensures BindPlain(args).Columns? <==>
      && (forall v :: v in args.lead || v in args.middle || v in args.tail ==> !Refused(v))
      && Objects(args.lead) + Objects(args.middle) + Objects(args.tail) <= 1
      && Widths(args.lead) == 2 && Widths(args.middle) == 8 && Widths(args.tail) == 2
    ensures BindPlain(args).Columns? ==> ScalarsBindable(BindPlain(args).scalars)
  {
    var lead, middle, tail := SpreadAll(args.lead), SpreadAll(args.middle), SpreadAll(args.tail);
    if BindPlain(args).Columns? {
      var p := lead.value + middle.value + tail.value;
      assert forall i :: 0 <= i < 12 ==> p[i] in lead.value || p[i] in middle.value || p[i] in tail.value;
    }
  }

  /** An argument of which each element is one value: absent, or a number, string or
      null. */
  predicate Single(v: Option<Json>) {
    v.None? || Bindable(v.value)
  }

  /** The values arguments bind when each fills one `?`. */
  function BindEach(args: seq<Option<Json>>): (r: seq<Json>)
    ensures |r| == |args| && forall i :: 0 <= i < |args| ==> r[i] == Bind(args[i])
  {
    if args == [] then [] else [Bind(args[0])] + BindEach(args[1..])
  }

  /** Arguments that are single values bind one each, as themselves, and none is an
      object. */
  lemma {:induction false} SpreadSingles(args: seq<Option<Json>>)
    requires forall v :: v in args ==> Single(v)
    ensures SpreadAll(args) == Some(BindEach(args)) && Objects(args) == 0
  {
    if args != [] {
      assert forall v :: v in args[1..] ==> v in args;
      SpreadSingles(args[1..]);
      assert args[0] in args;
    }
  }

  /** Twelve single values, two, eight and two around the JSON columns, land in the
      plain columns in order. */
  lemma BindSingles(args: PlainArgs)
    requires |args.lead| == 2 && |args.middle| == 8 && |args.tail| == 2
    requires forall v :: v in args.lead ==> Single(v)
    requires forall v :: v in args.middle ==> Single(v)
    requires forall v :: v in args.tail ==> Single(v)
    ensures var l, m, t := args.lead, args.middle, args.tail;
      BindPlain(args) == Columns(Scalars(Bind(l[0]), Bind(l[1]), Bind(m[0]), Bind(m[1]), Bind(m[2]), Bind(m[3]),
                                         Bind(m[4]), Bind(m[5]), Bind(m[6]), Bind(m[7]), Bind(t[0]), Bind(t[1])))
  {
    SpreadSingles(args.lead);
    SpreadSingles(args.middle);
    SpreadSingles(args.tail);
    var p := BindEach(args.lead) + BindEach(args.middle) + BindEach(args.tail);
    assert p[2..10] == BindEach(args.middle) && p[10..] == BindEach(args.tail);
  }

  /** A field bound through `v || fallback`, with a bindable fallback, is a single
      value exactly when it is falsy (so replaced) or bindable. */
  predicate SingleOrDefault(v: Option<Json>) {
    !Truthy(v) || Bindable(v.value)
  }

  /** When every plain field of the insert binds as one value, the plain columns are
      the submitted values with their defaults. */
  lemma CreateBindsAsIs(body: ArticleBody)
    ensures (&& Single(body.title) && Single(body.content) && Single(body.biasRating)
             && Single(body.category) && Single(body.country) && Single(body.whyItMatters)
             && Single(body.whoIsAffected)
             && SingleOrDefault(body.credibilityScore) && SingleOrDefault(body.impactScore)
             && SingleOrDefault(body.sentiment) && SingleOrDefault(body.shortTermImpact)
             && SingleOrDefault(body.longTermImpact))
            ==> BindPlain(CreateArgs(body)) == Columns(CreatedScalars(body))
  {
    var args := CreateArgs(body);
    if && Single(body.title) && Single(body.content) && Single(body.biasRating)
       && Single(body.category) && Single(body.country) && Single(body.whyItMatters)
       && Single(body.whoIsAffected)
       && SingleOrDefault(body.credibilityScore) && SingleOrDefault(body.impactScore)
       && SingleOrDefault(body.sentiment) && SingleOrDefault(body.shortTermImpact)
       && SingleOrDefault(body.longTermImpact)
    {
      assert forall v :: v in args.lead ==> Single(v);
      assert forall v :: v in args.middle ==> Single(v);
      assert forall v :: v in args.tail ==> Single(v);
      BindSingles(args);
    }
  }

  /** When every plain field of the update is absent or a number, string or null,
      the plain columns are the submitted values. */
  lemma UpdateBindsAsIs(body: ArticleBody)
    ensures (&& Single(body.title) && Single(body.content) && Single(body.biasRating)
             && Single(body.category) && Single(body.country) && Single(body.credibilityScore)
             && Single(body.impactScore) && Single(body.whyItMatters) && Single(body.whoIsAffected)
             && Single(body.sentiment) && Single(body.shortTermImpact) && Single(body.longTermImpact))
            ==> BindPlain(UpdateArgs(body)) == Columns(UpdatedScalars(body))
  {
    var args := UpdateArgs(body);
    if && Single(body.title) && Single(body.content) && Single(body.biasRating)
       && Single(body.category) && Single(body.country) && Single(body.credibilityScore)
       && Single(body.impactScore) && Single(body.whyItMatters) && Single(body.whoIsAffected)
       && Single(body.sentiment) && Single(body.shortTermImpact) && Single(body.longTermImpact)
    {
      assert forall v :: v in args.lead ==> Single(v);
      assert forall v :: v in args.middle ==> Single(v);
      assert forall v :: v in args.tail ==> Single(v);
      BindSingles(args);
    }
  }

  /** A one-element array of a number, string or null, read as that element. */
  function Unwrap(v: Option<Json>): Option<Json> {
    if v.Some? && v.value.JArr? && |v.value.items| == 1 && Bindable(v.value.items[0])
    then Some(v.value.items[0]) else v
  }

  function UnwrapAll(args: seq<Option<Json>>): seq<Option<Json>> {
    if args == [] then [] else [Unwrap(args[0])] + UnwrapAll(args[1..])
  }

  lemma UnwrapSpreads(v: Option<Json>)
    ensures Spread(Unwrap(v)) == Spread(v) && IsObject(Unwrap(v)) == IsObject(v)
  {
    if Unwrap(v) != v {
      var x := v.value.items[0];
      assert v.value.items == [x];
      assert forall k :: k in v.value.items ==> Bindable(k);
    }
  }

  lemma {:induction false} UnwrapAllSpreads(args: seq<Option<Json>>)
    ensures SpreadAll(UnwrapAll(args)) == SpreadAll(args)
    ensures Objects(UnwrapAll(args)) == Objects(args)
  {
    if args != [] {
      UnwrapAllSpreads(args[1..]);
      var u := UnwrapAll(args);
      assert u[0] == Unwrap(args[0]) && u[1..] == UnwrapAll(args[1..]);
      UnwrapSpreads(args[0]);
    }
  }

  /** The driver spreads an array into its elements, so an argument holding a
      one-element array of a number, string or null binds exactly as that element:
      unwrapping every such argument changes nothing the statement does. */
  lemma UnwrapKeepsBinding(args: PlainArgs)
    ensures BindPlain(PlainArgs(UnwrapAll(args.lead), UnwrapAll(args.middle), UnwrapAll(args.tail)))
            == BindPlain(args)
  {
    UnwrapAllSpreads(args.lead);
    UnwrapAllSpreads(args.middle);
    UnwrapAllSpreads(args.tail);
  }

  /** Two argument lists that spread to the same values, with as many objects,
      bind alike. */
  lemma SameSpreadBindsAlike(x: PlainArgs, y: PlainArgs)
    requires SpreadAll(x.lead) == SpreadAll(y.lead) && x.middle == y.middle && x.tail == y.tail
    requires Objects(x.lead) == Objects(y.lead)
    ensures BindPlain(x) == BindPlain(y)
  {
  }

  /** The two arguments before the first JSON column spread one after the other. */
  lemma SpreadPair(a: Option<Json>, b: Option<Json>)
    ensures SpreadAll([a, b]) == if Spread(a).Some? && Spread(b).Some? then Some(Spread(a).value + Spread(b).value) else None
    ensures Objects([a, b]) == (if IsObject(a) then 1 else 0) + (if IsObject(b) then 1 else 0)
  {
    assert [a, b][1..] == [b] && [b][1..] == [];
    assert Objects([b]) == (if IsObject(b) then 1 else 0) + Objects([]);
    assert SpreadAll([b]) == if Spread(b).Some? then Some(Spread(b).value + []) else None;
    if Spread(b).Some? {
      assert Spread(b).value + [] == Spread(b).value;
    }
  }

  /** A create request whose title is `["t"]` inserts the title 't', as one whose
      title is "t". */
  lemma ArrayTitleBinds(body: ArticleBody)
    requires body == ArticleBody(None, None, None, None, None, None, None, None, None, None, None, None, None, None, None)
    ensures BindPlain(CreateArgs(body.(title := Some(JArr([JStr("t")])))))
            == Columns(CreatedScalars(body.(title := Some(JStr("t")))))
  {
    var t := JStr("t");
    var single, wrapped := body.(title := Some(t)), body.(title := Some(JArr([t])));
    assert Spread(Some(JArr([t]))) == Some([t]) by {
      assert forall k :: k in [t] ==> Bindable(k);
    }
    SpreadPair(Some(JArr([t])), None);
    SpreadPair(Some(t), None);
    SameSpreadBindsAlike(CreateArgs(wrapped), CreateArgs(single));
    CreateBindsAsIs(single);
  }

  /** A create request whose title is `[]` and whose content is `["a", "b"]` inserts
      the title 'a' and the content 'b': the driver fills the `?` in order. */
  lemma ShiftedTitleBinds(body: ArticleBody)
    requires body == ArticleBody(None, None, None, None, None, None, None, None, None, None, None, None, None, None, None)
    ensures BindPlain(CreateArgs(body.(title := Some(JArr([])), content := Some(JArr([JStr("a"), JStr("b")])))))
            == Columns(CreatedScalars(body.(title := Some(JStr("a")), content := Some(JStr("b")))))
  {
    var a, b := JStr("a"), JStr("b");
    var pair, spread := body.(title := Some(a), content := Some(b)),
                        body.(title := Some(JArr([])), content := Some(JArr([a, b])));
    assert Spread(Some(JArr([a, b]))) == Some([a, b]) by {
      assert forall k :: k in [a, b] ==> Bindable(k);
    }
    SpreadPair(Some(JArr([])), Some(JArr([a, b])));
    SpreadPair(Some(a), Some(b));
    assert [] + [a, b] == [a] + [b];
    SameSpreadBindsAlike(CreateArgs(spread), CreateArgs(pair));
    CreateBindsAsIs(pair);
  }

  /** The JSON columns as both write routes encode them. */
  function EncodedNested(body: ArticleBody): Nested<Option<Text>> {
    Nested(Some(Stringify(Or(body.summaryBullets, NoArray))),
           Some(Stringify(Or(body.impactTags, NoArray))),
           Some(Stringify(Or(body.analysis, NoObject))))
  }

  /** The row after the update route's `SET`: every listed column overwritten with
      the bound value, timestamps kept. */
  function UpdatedRow(row: Row, scalars: Scalars, body: ArticleBody): Row {
    Row(row.id, scalars, EncodedNested(body), row.publishedAt, row.createdAt)
  }

  /** The plain columns the update route means to write when every plain field binds
      as one value: each exactly as submitted, with no defaults. */
  function UpdatedScalars(body: ArticleBody): Scalars {
    Scalars(Bind(body.title), Bind(body.content), Bind(body.biasRating), Bind(body.category),
            Bind(body.country), Bind(body.credibilityScore), Bind(body.impactScore),
            Bind(body.whyItMatters), Bind(body.whoIsAffected), Bind(body.sentiment),
            Bind(body.shortTermImpact), Bind(body.longTermImpact))
  }

  /** `UPDATE verified_news SET ... WHERE id = ?`. */
  function Overwrite(rows: seq<Row>, key: Option<int>, scalars: Scalars, body: ArticleBody): seq<Row> {
    seq(|rows|, i requires 0 <= i < |rows| => if Some(rows[i].id) == key then UpdatedRow(rows[i], scalars, body) else rows[i])
  }

  /** What the list route shows for the JSON columns of a written row: the submitted
      value when truthy, else `[]`, `[]` and `{}`. */
  function ShownNested(body: ArticleBody): Nested<Json> {
    Nested(Or(body.summaryBullets, NoArray), Or(body.impactTags, NoArray), Or(body.analysis, NoObject))
  }

  /** Reading back a created row gives the submitted nested values (or their
      fallbacks), the defaulted scores, sentiment and impacts, and
      `published_at == created_at`. */
  lemma CreateThenDecode(body: ArticleBody, id: int, now: Time)
    ensures var v := DecodeRow(CreatedRow(CreatedScalars(body), body, id, now));
      && v.Some? && v.value.id == id
      && v.value.nested == ShownNested(body)
      && v.value.publishedAt == v.value.createdAt == now
      && v.value.scalars.credibilityScore == (if Truthy(body.credibilityScore) then body.credibilityScore.value else JNum(0.9))
      && v.value.scalars.impactScore == (if Truthy(body.impactScore) then body.impactScore.value else JNum(5.0))
      && v.value.scalars.sentiment == (if Truthy(body.sentiment) then body.sentiment.value else JStr("Neutral"))
      && v.value.scalars.shortTermImpact == (if Truthy(body.shortTermImpact) then body.shortTermImpact.value else JStr(""))
      && v.value.scalars.longTermImpact == (if Truthy(body.longTermImpact) then body.longTermImpact.value else JStr(""))
      && (Truthy(body.summaryBullets) ==> Some(v.value.nested.summaryBullets) == body.summaryBullets)
      && (Truthy(body.analysis) ==> Some(v.value.nested.analysis) == body.analysis)
  {
  }

  /** Reading back an updated row gives the submitted values as they are, with no
      defaults for scores or sentiment, and the row keeps its id and timestamps. */
  lemma UpdateThenDecode(row: Row, body: ArticleBody)
    ensures var v := DecodeRow(UpdatedRow(row, UpdatedScalars(body), body));
      && v.Some? && v.value.id == row.id
      && v.value.nested == ShownNested(body)
      && v.value.publishedAt == row.publishedAt && v.value.createdAt == row.createdAt
      && v.value.scalars.credibilityScore == Bind(body.credibilityScore)
      && v.value.scalars.impactScore == Bind(body.impactScore)
      && v.value.scalars.sentiment == Bind(body.sentiment)
  {
  }

  /** The update rewrites exactly the rows carrying that id; when none does the table
      is unchanged. */
  lemma OverwriteFrame(rows: seq<Row>, key: Option<int>, scalars: Scalars, body: ArticleBody)
    ensures |Overwrite(rows, key, scalars, body)| == |rows|
    ensures forall i :: 0 <= i < |rows| && Some(rows[i].id) != key ==> Overwrite(rows, key, scalars, body)[i] == rows[i]
    ensures forall i :: 0 <= i < |rows| && Some(rows[i].id) == key ==>
              Overwrite(rows, key, scalars, body)[i] == UpdatedRow(rows[i], scalars, body)
    ensures (forall r :: r in rows ==> Some(r.id) != key) ==> Overwrite(rows, key, scalars, body) == rows
  {
  }

  predicate References(key: Option<int>, d: Dependent) { key == Some(d.newsId) }
  predicate IsArticle(key: Option<int>, r: Row) { key == Some(r.id) }
  predicate RowNoEarlier(a: Row, b: Row) { a.publishedAt >= b.publishedAt }
  predicate ViewNoEarlier(a: View, b: View) { a.publishedAt >= b.publishedAt }

  /** `DELETE FROM <dependent table> WHERE <reference> = ?`: every row referencing the
      article goes, rows referencing other articles keep their order and
      multiplicity. */
  function Unreferenced(table: seq<Dependent>, key: Option<int>): (r: seq<Dependent>)
  {
    Filter(table, Unlinked(key))
  }

  /** The rows a dependent-table delete keeps. */
  function Unlinked(key: Option<int>): Dependent -> bool {
    d => !References(key, d)
  }

  /** `DELETE FROM verified_news WHERE id = ?`. */
  function WithoutArticle(rows: seq<Row>, key: Option<int>): (r: seq<Row>)
    ensures |r| == |rows| <==> forall row :: row in rows ==> !IsArticle(key, row)
    ensures forall row :: row in r <==> row in rows && !IsArticle(key, row)
  {
    FilterMembers(rows, OtherArticle(key));
    FilterLength(rows, OtherArticle(key));
    Filter(rows, OtherArticle(key))
  }

  /** The rows `DELETE FROM verified_news WHERE id = ?` keeps. */
  function OtherArticle(key: Option<int>): Row -> bool {
    row => !IsArticle(key, row)
  }

  function RowId(row: Row): int { row.id }

  /** The cascade step on one dependent table removes exactly the rows referencing
      the article, leaves every other row as many times as it was there, and leaves
      the table as it was when no row references it. */
  lemma UnreferencedRemovesExactly(table: seq<Dependent>, key: Option<int>)
    ensures var r := Unreferenced(table, key);
      && (forall d :: d in r <==> d in table && !References(key, d))
      && (forall d :: !References(key, d) ==> multiset(r)[d] == multiset(table)[d])
      && (|r| == |table| <==> forall d :: d in table ==> !References(key, d))
      && ((forall d :: d in table ==> !References(key, d)) ==> r == table)
  {
    FilterMembers(table, Unlinked(key));
    FilterLength(table, Unlinked(key));
    if forall d :: d in table ==> !References(key, d) {
      forall j | 0 <= j < |table| ensures Unlinked(key)(table[j]) {
        assert table[j] in table;
      }
      FilterKeepsAll(table, Unlinked(key));
    }
    forall d | !References(key, d) ensures multiset(Unreferenced(table, key))[d] == multiset(table)[d] {
      FilterKeepsMultiplicity(table, Unlinked(key), d);
    }
  }

  /** The largest rowid present, 0 for an empty table. */
  function MaxId(rows: seq<Row>): (m: int)
    ensures forall r :: r in rows ==> r.id <= m
  {
    if rows == [] then 0
    else
      assert rows == [rows[0]] + rows[1..];
      var rest := MaxId(rows[1..]);
      if rows[0].id > rest then rows[0].id else rest
  }

  predicate DistinctRowIds(rows: seq<Row>) {
    DistinctBy(rows, RowId)
  }

  /** The four tables of the news database the routes touch. */
  class NewsDb {
    var verifiedNews: seq<Row>
    var breakingNews: seq<Dependent>
    var savedArticles: seq<Dependent>
    var readHistory: seq<Dependent>

    ghost predicate Valid()
      reads this
    {
      DistinctRowIds(verifiedNews)
    }

    constructor ()
      ensures Valid()
      ensures verifiedNews == [] && breakingNews == [] && savedArticles == [] && readHistory == []
    {
      verifiedNews, breakingNews, savedArticles, readHistory := [], [], [], [];
    }

    /** GET /: every article, latest `published_at` first, JSON columns parsed with
        their fallbacks; 500 when some column does not parse. */
    method List(authorization: Option<string>, verify: string -> bool) returns (reply: Reply<seq<View>>)
      ensures Authenticate(authorization, verify).Some? <==> reply.Fail? && reply.status == 401
      ensures Authenticate(authorization, verify).Some? ==>
                reply == Fail(401, Message(Authenticate(authorization, verify).value))
      ensures reply == Fail(500, Caught("")) <==>
                Authenticate(authorization, verify).None? && exists r :: r in verifiedNews && DecodeRow(r).None?
      ensures reply.Ok? ==> && reply.status == 200 && |reply.body| == |verifiedNews|
                            && DecodeAll(verifiedNews).Some?
                            && multiset(reply.body) == multiset(DecodeAll(verifiedNews).value)
                            && Sorted(reply.body, ViewNoEarlier)
                            && (forall r :: r in verifiedNews ==> DecodeRow(r).Some? && DecodeRow(r).value in reply.body)
                            && (forall v :: v in reply.body ==> exists r :: r in verifiedNews && DecodeRow(r) == Some(v))
    {
      var rejection := Authenticate(authorization, verify);
      if rejection.Some? {
        return Fail(401, Message(rejection.value));
      }
      assert TotalPreorder(RowNoEarlier);
      var ordered := Sort(verifiedNews, RowNoEarlier);
      var views := DecodeAll(ordered);
      DecodeOrdered(verifiedNews, ordered);
      if views.None? {
        return Fail(500, Caught(""));
      }
      reply := Ok(200, views.value);
    }

    /** POST /: insert with defaults under a fresh rowid; 201 with the new id. The
        plain columns take the values the driver binds (`BindPlain`); when the
        statement throws the reply is 500 and nothing is inserted. Arguments that
        bind but push values across a JSON column (`Misplaced`) are answered with 500
        here too. */
    method Create(authorization: Option<string>, verify: string -> bool, body: ArticleBody, now: Time)
      returns (reply: Reply<int>)
      requires Valid()
      modifies this`verifiedNews
      ensures Valid()
      ensures Authenticate(authorization, verify).Some? ==>
                reply == Fail(401, Message(Authenticate(authorization, verify).value)) && verifiedNews == old(verifiedNews)
      ensures Authenticate(authorization, verify).None? && !BindPlain(CreateArgs(body)).Columns? ==>
                reply == Fail(500, Caught("")) && verifiedNews == old(verifiedNews)
      ensures Authenticate(authorization, verify).None? && BindPlain(CreateArgs(body)).Columns? ==>
                && reply.Ok? && reply.status == 201
                && (forall r :: r in old(verifiedNews) ==> r.id != reply.body)
                && verifiedNews == old(verifiedNews) + [CreatedRow(BindPlain(CreateArgs(body)).scalars, body, reply.body, now)]
    {
      var rejection := Authenticate(authorization, verify);
      if rejection.Some? {
        return Fail(401, Message(rejection.value));
      }
      var binding := BindPlain(CreateArgs(body));
      if !binding.Columns? {
        return Fail(500, Caught(""));
      }
      var id := MaxId(verifiedNews) + 1;
      verifiedNews := verifiedNews + [CreatedRow(binding.scalars, body, id, now)];
      reply := Ok(201, id);
    }

    /** PUT /:id: overwrite the row with that id; success even when no row matched.
        The route binds the `:id` text itself, and SQLite compares it with the
        INTEGER `id` column after converting it to a number where that is lossless:
        `key` is that integer, `None` when the text converts to none (it then
        matches no row). The plain columns take the values the driver binds; a
        statement that throws, or values pushed across a JSON column, give 500 and
        change nothing. */
    method Update(authorization: Option<string>, verify: string -> bool, key: Option<int>, body: ArticleBody)
      returns (reply: Reply<Ack>)
      requires Valid()
      modifies this`verifiedNews
      ensures Valid()
      ensures Authenticate(authorization, verify).Some? ==>
                reply == Fail(401, Message(Authenticate(authorization, verify).value)) && verifiedNews == old(verifiedNews)
      ensures Authenticate(authorization, verify).None? && !BindPlain(UpdateArgs(body)).Columns? ==>
                reply == Fail(500, Caught("")) && verifiedNews == old(verifiedNews)
      ensures Authenticate(authorization, verify).None? && BindPlain(UpdateArgs(body)).Columns? ==>
                && reply == Ok(200, Success)
                && verifiedNews == Overwrite(old(verifiedNews), key, BindPlain(UpdateArgs(body)).scalars, body)
    {
      var rejection := Authenticate(authorization, verify);
      if rejection.Some? {
        return Fail(401, Message(rejection.value));
      }
      var binding := BindPlain(UpdateArgs(body));
      if !binding.Columns? {
        return Fail(500, Caught(""));
      }
      OverwriteFrame(verifiedNews, key, binding.scalars, body);
      verifiedNews := Overwrite(verifiedNews, key, binding.scalars, body);
      reply := Ok(200, Success);
    }

    /** DELETE /:id: in one transaction, remove the rows of the three dependent tables
        that reference the id, then the article. A statement that throws (`failsAt`)
        rolls everything back and gives 500. When no article had the id the reply is
        404, though the dependent rows are still gone. */
    method Delete(authorization: Option<string>, verify: string -> bool, key: Option<int>, failsAt: Option<Step>)
      returns (reply: Reply<Ack>)
      requires Valid()
      modifies this
      ensures Valid()
      ensures Authenticate(authorization, verify).Some? || failsAt.Some? ==>
                && verifiedNews == old(verifiedNews) && breakingNews == old(breakingNews)
                && savedArticles == old(savedArticles) && readHistory == old(readHistory)
      ensures Authenticate(authorization, verify).Some? ==>
                reply == Fail(401, Message(Authenticate(authorization, verify).value))
      ensures Authenticate(authorization, verify).None? && failsAt.Some? ==>
                reply == Fail(500, Caught("Failed to delete article: "))
      ensures Authenticate(authorization, verify).None? && failsAt.None? ==>
                && breakingNews == Unreferenced(old(breakingNews), key)
                && savedArticles == Unreferenced(old(savedArticles), key)
                && readHistory == Unreferenced(old(readHistory), key)
                && verifiedNews == WithoutArticle(old(verifiedNews), key)
                && (reply.Fail? <==> forall r :: r in old(verifiedNews) ==> !IsArticle(key, r))
                && (reply.Fail? ==> reply == Fail(404, Message("Article not found in database")))
                && (reply.Ok? ==> reply == Ok(200, Success))
    {
      var rejection := Authenticate(authorization, verify);
      if rejection.Some? {
        return Fail(401, Message(rejection.value));
      }
      // The transaction works on its own copy of the four tables and commits it only
      // when every statement has run; a throwing statement leaves the store as it was.
      var failed := Fail(500, Caught("Failed to delete article: "));
      var articles, breaking, saved, read := verifiedNews, breakingNews, savedArticles, readHistory;
      if failsAt.Some? && failsAt.value.BreakingNewsStep? {
        return failed;
      }
      breaking := Unreferenced(breaking, key);
      if failsAt.Some? && failsAt.value.SavedArticlesStep? {
        return failed;
      }
      saved := Unreferenced(saved, key);
      if failsAt.Some? && failsAt.value.ReadHistoryStep? {
        return failed;
      }
      read := Unreferenced(read, key);
      if failsAt.Some? {
        return failed;
      }
      var remaining := WithoutArticle(articles, key);
      var changes := |articles| - |remaining|;
      FilterKeepsDistinct(articles, OtherArticle(key), RowId);
      verifiedNews, breakingNews, savedArticles, readHistory := remaining, breaking, saved, read;
      if changes == 0 {
        return Fail(404, Message("Article not found in database"));
      }
      reply := Ok(200, Success);
    }
  }

  /** Decoding a sorted permutation of the table fails exactly when some row does not
      decode; otherwise it yields each row's view once, still sorted. */
  lemma DecodeOrdered(rows: seq<Row>, ordered: seq<Row>)
    requires multiset(ordered) == multiset(rows) && Sorted(ordered, RowNoEarlier)
    ensures DecodeAll(ordered).None? <==> exists r :: r in rows && DecodeRow(r).None?
    ensures DecodeAll(ordered).Some? ==> var vs := DecodeAll(ordered).value;
      && |vs| == |rows|
      && DecodeAll(rows).Some? && multiset(vs) == multiset(DecodeAll(rows).value)
      && Sorted(vs, ViewNoEarlier)
      && (forall r :: r in rows ==> DecodeRow(r).Some? && DecodeRow(r).value in vs)
      && (forall v :: v in vs ==> exists r :: r in rows && DecodeRow(r) == Some(v))
  {
    SameRows(ordered, rows);
    assert |ordered| == |rows| by {
      assert |multiset(ordered)| == |multiset(rows)|;
    }
    var views := DecodeAll(ordered);
    if views.Some? {
      DecodeKeepsOrder(ordered, views.value);
      DecodeCovers(ordered, views.value);
      DecodePermutation(ordered, rows);
    }
  }

  /** Decoding a concatenation decodes each part. */
  lemma DecodeAllAppend(p: seq<Row>, q: seq<Row>)
    ensures DecodeAll(p + q).Some? <==> DecodeAll(p).Some? && DecodeAll(q).Some?
    ensures DecodeAll(p + q).Some? ==> DecodeAll(p + q).value == DecodeAll(p).value + DecodeAll(q).value
  {
    var pq := p + q;
    assert forall r :: r in pq <==> r in p || r in q;
    if DecodeAll(pq).Some? {
      var vp, vq := DecodeAll(p).value, DecodeAll(q).value;
      assert forall i :: 0 <= i < |pq| ==> DecodeRow(pq[i]) == Some((vp + vq)[i]) by {
        assert forall i :: 0 <= i < |p| ==> pq[i] == p[i];
        assert forall i :: |p| <= i < |pq| ==> pq[i] == q[i - |p|];
      }
    }
  }

  /** Decoding two arrangements of the same rows gives the same views, each as often
      as its row occurs. */
  lemma {:induction false} DecodePermutation(a: seq<Row>, b: seq<Row>)
    requires multiset(a) == multiset(b)
    ensures DecodeAll(a).Some? <==> DecodeAll(b).Some?
    ensures DecodeAll(a).Some? ==> multiset(DecodeAll(a).value) == multiset(DecodeAll(b).value)
    decreases |a|
  {
    SameRows(a, b);
    if a == [] {
      assert |multiset(b)| == 0;
    } else if DecodeAll(a).Some? {
      var i := RemoveFirst(a, b);
      var front, back := b[..i], b[i + 1..];
      assert a == [] + [a[0]] + a[1..] && a[1..] == [] + a[1..];
      DecodeAround([], a[0], a[1..]);
      DecodePermutation(a[1..], front + back);
      DecodeAround(front, a[0], back);
    }
  }

  /** Decoding rows around one row `x` gives the views of the others plus `x`'s. */
  lemma DecodeAround(front: seq<Row>, x: Row, back: seq<Row>)
    requires DecodeAll(front + [x] + back).Some?
    ensures DecodeRow(x).Some? && DecodeAll(front + back).Some?
    ensures multiset(DecodeAll(front + [x] + back).value)
            == multiset(DecodeAll(front + back).value) + multiset{DecodeRow(x).value}
  {
    DecodeAllAppend(front + [x], back);
    DecodeAllAppend(front, [x]);
    DecodeAllAppend(front, back);
    assert DecodeAll([x]).value == [DecodeRow(x).value];
  }

  /** Decoding keeps `published_at`, so a sorted table decodes to a sorted list. */
  lemma DecodeKeepsOrder(ordered: seq<Row>, vs: seq<View>)
    requires Sorted(ordered, RowNoEarlier) && |vs| == |ordered|
    requires forall i :: 0 <= i < |ordered| ==> DecodeRow(ordered[i]) == Some(vs[i])
    ensures Sorted(vs, ViewNoEarlier)
  {
    assert forall i :: 0 <= i < |vs| ==> vs[i].publishedAt == ordered[i].publishedAt;
  }

  /** Decoding row by row gives one view per row and no other. */
  lemma DecodeCovers(ordered: seq<Row>, vs: seq<View>)
    requires |vs| == |ordered|
    requires forall i :: 0 <= i < |ordered| ==> DecodeRow(ordered[i]) == Some(vs[i])
    ensures forall r :: r in ordered ==> DecodeRow(r).Some? && DecodeRow(r).value in vs
    ensures forall v :: v in vs ==> exists r :: r in ordered && DecodeRow(r) == Some(v)
  {
    forall r | r in ordered ensures DecodeRow(r).Some? && DecodeRow(r).value in vs {
      var k :| 0 <= k < |ordered| && ordered[k] == r;
      assert DecodeRow(ordered[k]) == Some(vs[k]);
    }
    forall v | v in vs ensures exists r :: r in ordered && DecodeRow(r) == Some(v) {
      var k :| 0 <= k < |vs| && vs[k] == v;
      assert ordered[k] in ordered && DecodeRow(ordered[k]) == Some(v);
    }
  }
}
