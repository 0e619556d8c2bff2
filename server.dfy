/** The link registry behind the HTTP routes of backend/server.js: one collection of
    `Url` documents and the four handlers that read and change it. Each handler is modelled as
    one sequential step. */
module Server {
  import opened Wrappers
  import opened Link
  import opened Collection

  /** The JSON bodies the routes send. */
  datatype Body =
    | Created(record: LinkRecord)                      // the saved document
    | Existing(record: LinkRecord, message: string)    // `{ ...existingUrl, message }`
    | Listing(records: seq<LinkRecord>)
    | Failure(error: string)                           // `{ error }`
    | Confirmation(message: string)                    // `{ message }`

  /** An HTTP answer: a JSON body with its status, or a redirect (`res.redirect` answers 302). */
  datatype Response =
    | Json(status: nat, body: Body)
    | Found(status: nat, location: string)

  const URL_REQUIRED := "URL is required"
  const SERVER_ERROR := "Server error"
  const URL_NOT_FOUND := "URL not found"
  const DELETED := "Deleted"

  /** `!originalUrl` is false: the body field is present and not the empty string. */
  predicate Present(field: Option<string>)
  {
    field.Some? && field.value != []
  }

  class UrlRegistry {
    /** The `urls` collection, in natural (insertion) order. */
    var records: seq<LinkRecord>

    ghost predicate Valid()
      reads this
    {
      WellFormed(records)
    }

    constructor ()
      ensures Valid() && records == []
    {
      records := [];
    }

    /** `POST /api/shorten`. `code` is the draw of `nanoid(6)`, `id` the fresh ObjectId the
        store assigns and `now` the value of `Date.now` for the `createdAt` default. */
    method Shorten(originalUrl: Option<string>, code: string, id: Id, now: int) returns (resp: Response)
      requires Valid()
      requires |code| == CODE_LENGTH
      requires forall x :: x in records ==> x.id != id
      modifies this
      ensures Valid() && Evolves(old(records), records)
      ensures !Present(originalUrl) ==>
        records == old(records) && resp == Json(400, Failure(URL_REQUIRED))
      ensures Present(originalUrl) && FindByUrl(old(records), originalUrl.value).Some? ==>
        && records == old(records)
        && resp == Json(200, Existing(records[FindByUrl(records, originalUrl.value).value], ALREADY_SHORTENED))
      ensures Present(originalUrl) && FindByUrl(old(records), originalUrl.value).None? && FindByCode(old(records), code).Some? ==>
        records == old(records) && resp == Json(500, Failure(SERVER_ERROR))
      ensures Present(originalUrl) && FindByUrl(old(records), originalUrl.value).None? && FindByCode(old(records), code).None? ==>
        && records == old(records) + [LinkRecord(id, originalUrl.value, code, 0, now)]
        && resp == Json(201, Created(records[|records| - 1]))
    {
      if !Present(originalUrl) {
        return Json(400, Failure(URL_REQUIRED));
      }
      var url := originalUrl.value;
      var existing := FindByUrl(records, url);
      if existing.Some? {
        return Json(200, Existing(records[existing.value], ALREADY_SHORTENED));
      }
      var doc := LinkRecord(id, url, code, 0, now);
      // `save()` fails on the unique index of `shortCode`; the handler answers 500 and does not retry
      if FindByCode(records, code).Some? {
        return Json(500, Failure(SERVER_ERROR));
      }
      InsertWellFormed(records, doc);
      records := records + [doc];
      resp := Json(201, Created(doc));
    }

    /** `GET /api/urls`: every stored record, newest first; the store is not touched. */
    method List() returns (resp: Response)
      ensures resp.Json? && resp.status == 200 && resp.body.Listing?
      ensures multiset(resp.body.records) == multiset(records)
      ensures NewestFirstOrder(resp.body.records)
    {
      NewestFirstCorrect(records);
      resp := Json(200, Listing(NewestFirst(records)));
    }

    /** `GET /:shortCode`: one more click on the record with this code, then a redirect to
        its URL; an unknown code answers 404 and changes nothing. */
    method Redirect(code: string) returns (resp: Response)
      requires Valid()
      modifies this
      ensures Valid() && Evolves(old(records), records)
      ensures FindByCode(old(records), code).None? ==>
        records == old(records) && resp == Json(404, Failure(URL_NOT_FOUND))
      ensures FindByCode(old(records), code).Some? ==>
        var i := FindByCode(old(records), code).value;
        && |records| == |old(records)|
        && records[i].clicks == old(records)[i].clicks + 1
        && records[i] == old(records)[i].(clicks := records[i].clicks)
        && (forall j :: 0 <= j < |records| && j != i ==> records[j] == old(records)[j])
        && resp == Found(302, records[i].originalUrl)
    {
      var found := FindByCode(records, code);
      if found.None? {
        return Json(404, Failure(URL_NOT_FOUND));
      }
      ClickedWellFormed(records, found.value);
      records := Clicked(records, found.value);
      resp := Found(302, records[found.value].originalUrl);
    }

    /** `DELETE /api/urls/:id`: removes the record with this id, if there is one, and
        answers "Deleted" either way. */
    method Delete(id: Id) returns (resp: Response)
      requires Valid()
      modifies this
      ensures Valid() && Evolves(old(records), records)
      ensures records == WithoutId(old(records), id)
      ensures resp == Json(200, Confirmation(DELETED))
    {
      WithoutIdWellFormed(records, id);
      WithoutIdKeepsOthers(records, id);
      records := WithoutId(records, id);
      resp := Json(200, Confirmation(DELETED));
    }
  }

  /** The walk-through of the registry's life cycle: shorten, shorten again, three
      redirects, list, delete, list. */
  method LifeCycle(url: string, code: string, id: Id, now: int)
    requires url != [] && |code| == CODE_LENGTH
  {
    var registry := new UrlRegistry();
    var a := LinkRecord(id, url, code, 0, now);
    var first := registry.Shorten(Some(url), code, id, now);
    assert first == Json(201, Created(a)) && registry.records == [a];
    FindByUrlExact(registry.records, 0);
    var second := registry.Shorten(Some(url), code, id + 1, now + 1);
    assert second == Json(200, Existing(a, ALREADY_SHORTENED)) && registry.records == [a];
    Visit(registry);
    Visit(registry);
    Visit(registry);
    assert registry.records == [a.(clicks := 3)];
    var listed := registry.List();
    assert multiset(listed.body.records) == multiset{a.(clicks := 3)};
    var gone := registry.Delete(id);
    assert gone == Json(200, Confirmation(DELETED)) && registry.records == [];
    var empty := registry.List();
    assert |empty.body.records| == |multiset(empty.body.records)| == 0;
  }

  /** One redirect through a registry that holds a single link. */
  method Visit(registry: UrlRegistry)
    requires registry.Valid() && |registry.records| == 1
    modifies registry
    ensures registry.Valid()
    ensures registry.records == [old(registry.records[0]).(clicks := old(registry.records[0].clicks) + 1)]
  {
    var a := registry.records[0];
    FindByCodeExact(registry.records, 0);
    var r := registry.Redirect(a.shortCode);
    assert r == Found(302, a.originalUrl);
  }
}
