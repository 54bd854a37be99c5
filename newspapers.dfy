/** The newspaper routes over the `newspapers` table: public list ordered by name,
    header-checked insert and delete. */
module Newspapers {
  import opened Wrappers
  import opened Http
  import opened Tables

  /** A row of `newspapers`; `logo_text` and `logo_color` may be NULL (`None`). */
  datatype Newspaper = Newspaper(
    id: int, name: string, url: string, logoText: Option<string>, logoColor: Option<string>,
    country: string, createdAt: Time)

  /** The fields of an insert request; `None` is `undefined`, which binds as NULL. */
  datatype NewspaperBody = NewspaperBody(
    name: Option<string>, url: Option<string>, logoText: Option<string>, logoColor: Option<string>,
    country: Option<string>)

  /** `country || 'Global'`. */
  function CountryOrGlobal(country: Option<string>): (r: string)
    ensures r != ""
    ensures country.Some? && country.value != "" ==> r == country.value
    ensures country.None? || country.value == "" ==> r == "Global"
  {
    if country.Some? && country.value != "" then country.value else "Global"
  }

  /** Text order under SQLite's BINARY collation: code point by code point, a proper
      prefix first. */
  predicate TextLeq(a: string, b: string) {
    a == [] || (b != [] && (a[0] < b[0] || (a[0] == b[0] && TextLeq(a[1..], b[1..]))))
  }

  lemma {:induction false} TextLeqTotal(a: string, b: string)
    ensures TextLeq(a, b) || TextLeq(b, a)
    decreases |a|
  {
    if a != [] && b != [] && a[0] == b[0] {
      TextLeqTotal(a[1..], b[1..]);
    }
  }

  lemma {:induction false} TextLeqTransitive(a: string, b: string, c: string)
    requires TextLeq(a, b) && TextLeq(b, c)
    ensures TextLeq(a, c)
    decreases |a|
  {
    if a != [] && a[0] == b[0] && b[0] == c[0] {
      TextLeqTransitive(a[1..], b[1..], c[1..]);
    }
  }

  /** The sort `ORDER BY name ASC`. */
  predicate NameNoLater(x: Newspaper, y: Newspaper) {
    TextLeq(x.name, y.name)
  }

  /** Ordering by name is a total preorder, so the sorted list is well defined up to
      ties. */
  lemma NameOrderIsPreorder()
    ensures TotalPreorder(NameNoLater)
  {
    forall x: Newspaper, y: Newspaper ensures NameNoLater(x, y) || NameNoLater(y, x) {
      TextLeqTotal(x.name, y.name);
    }
    forall x: Newspaper, y: Newspaper, z: Newspaper | NameNoLater(x, y) && NameNoLater(y, z)
      ensures NameNoLater(x, z)
    {
      TextLeqTransitive(x.name, y.name, z.name);
    }
  }

  predicate HasId(key: Option<int>, p: Newspaper) { key == Some(p.id) }

  /** `DELETE FROM newspapers WHERE id = ?`. */
  function WithoutId(rows: seq<Newspaper>, key: Option<int>): (r: seq<Newspaper>)
    ensures forall p :: p in r <==> p in rows && !HasId(key, p)
    ensures |r| == |rows| <==> forall p :: p in rows ==> !HasId(key, p)
  {
    FilterMembers(rows, OtherId(key));
    FilterLength(rows, OtherId(key));
    Filter(rows, OtherId(key))
  }

  /** The rows `DELETE FROM newspapers WHERE id = ?` keeps. */
  function OtherId(key: Option<int>): Newspaper -> bool {
    p => !HasId(key, p)
  }

  function IdOf(p: Newspaper): int { p.id }

  /** Deleting the id of the only row empties the table. */
  lemma OnlyRowDeleted(p: Newspaper, key: Option<int>)
    requires HasId(key, p)
    ensures WithoutId([p], key) == []
  {
    assert [p][1..] == [] && !OtherId(key)(p);
    assert Filter([p], OtherId(key)) == Filter([], OtherId(key));
  }

  /** The `newspapers` table with its AUTOINCREMENT counter. */
  class NewspaperTable {
    var rows: seq<Newspaper>
    /** The largest id ever handed out (the table's `sqlite_sequence` entry). */
    var lastId: int

    ghost predicate Valid()
      reads this
    {
      && lastId >= 0
      && (forall p :: p in rows ==> 0 < p.id <= lastId)
      && DistinctBy(rows, IdOf)
    }

    constructor ()
      ensures Valid() && rows == [] && lastId == 0
    {
      rows, lastId := [], 0;
    }

    /** GET /: every newspaper, ordered by name; no authorization needed. */
    method List() returns (r: seq<Newspaper>)
      ensures multiset(r) == multiset(rows)
      ensures Sorted(r, NameNoLater)
    {
      NameOrderIsPreorder();
      r := Sort(rows, NameNoLater);
    }

    /** POST /: insert with `country` defaulted to 'Global' under an id above every id
        ever used; a missing `name` or `url` violates NOT NULL and gives 500. The reply
        body is the new id; the route wraps it as `{ id, status: 'success' }`. */
    method Insert(authorization: Option<string>, body: NewspaperBody, now: Time) returns (reply: Reply<int>)
      requires Valid()
      modifies this
      ensures Valid()
      ensures !HeaderPresent(authorization) ==> reply == Fail(401, Unauthorized)
      ensures HeaderPresent(authorization) && (body.name.None? || body.url.None?) ==> reply == Fail(500, Caught(""))
      ensures reply.Fail? ==> rows == old(rows) && lastId == old(lastId)
      ensures reply.Ok? <==> HeaderPresent(authorization) && body.name.Some? && body.url.Some?
      ensures reply.Ok? ==>
                && reply.status == 200 && reply.body == old(lastId) + 1 && lastId == reply.body
                && (forall p :: p in old(rows) ==> p.id < reply.body)
                && rows == old(rows) + [Newspaper(reply.body, body.name.value, body.url.value, body.logoText,
                                                  body.logoColor, CountryOrGlobal(body.country), now)]
    {
      if !HeaderPresent(authorization) {
        return Fail(401, Unauthorized);
      }
      if body.name.None? || body.url.None? {
        return Fail(500, Caught(""));
      }
      var id := lastId + 1;
      rows := rows + [Newspaper(id, body.name.value, body.url.value, body.logoText, body.logoColor,
                                CountryOrGlobal(body.country), now)];
      lastId := id;
      reply := Ok(200, id);
    }

    /** DELETE /:id: remove the row with that numeric id; 404 when none was removed. */
    method Delete(authorization: Option<string>, key: Option<int>) returns (reply: Reply<Ack>)
      requires Valid()
      modifies this`rows
      ensures Valid()
      ensures !HeaderPresent(authorization) ==> reply == Fail(401, Unauthorized) && rows == old(rows)
      ensures HeaderPresent(authorization) ==>
                && rows == WithoutId(old(rows), key)
                && ((exists p :: p in old(rows) && HasId(key, p)) ==> reply == Ok(200, Success))
                && ((forall p :: p in old(rows) ==> !HasId(key, p)) ==> reply == Fail(404, Message("Newspaper not found")))
    {
      if !HeaderPresent(authorization) {
        return Fail(401, Unauthorized);
      }
      var before := |rows|;
      rows := WithoutId(rows, key);
      FilterKeepsDistinct(old(rows), OtherId(key), IdOf);
      if before - |rows| == 0 {
        return Fail(404, Message("Newspaper not found"));
      }
      reply := Ok(200, Success);
    }
  }

  /** Adding `{name: "Daily X", url: "https://x.example"}` answers with a new id and
      stores country 'Global'; deleting that id succeeds once and then gives 404. */
  method AddThenDeleteTwice(now: Time) returns (added: Reply<int>, stored: seq<Newspaper>, first: Reply<Ack>,
                                                second: Reply<Ack>)
    ensures added == Ok(200, 1) && |stored| == 1 && stored[0].country == "Global"
    ensures first == Ok(200, Success)
    ensures second == Fail(404, Message("Newspaper not found"))
  {
    var table := new NewspaperTable();
    var body := NewspaperBody(Some("Daily X"), Some("https://x.example"), None, None, None);
    added := table.Insert(Some("Bearer t"), body, now);
    stored := table.rows;
    var row := Newspaper(1, "Daily X", "https://x.example", None, None, "Global", now);
    assert stored == [row];
    assert row in stored && HasId(Some(1), row);
    first := table.Delete(Some("Bearer t"), Some(1));
    OnlyRowDeleted(row, Some(1));
    second := table.Delete(Some("Bearer t"), Some(1));
  }
}
