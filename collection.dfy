/** The queries the route handlers issue against the `urls` collection:
    `findOne({originalUrl})`, the `{shortCode}` filter of `findOneAndUpdate`,
    and `find().sort({createdAt: -1})`. */
module Collection {
  import opened Wrappers
  import opened Sequences
  import opened Link

  /** `Url.findOne({ originalUrl })`: the first record, in natural order, with exactly this URL. */
  function FindByUrl(rs: seq<LinkRecord>, url: string): (r: Option<nat>)
    ensures r.Some? ==> r.value < |rs| && rs[r.value].originalUrl == url
    ensures r.None? <==> forall x :: x in rs ==> x.originalUrl != url
  {
    FirstWhere(rs, (x: LinkRecord) => x.originalUrl == url)
  }

  /** The record a `{ shortCode }` filter selects. */
  function FindByCode(rs: seq<LinkRecord>, code: string): (r: Option<nat>)
    ensures r.Some? ==> r.value < |rs| && rs[r.value].shortCode == code
    ensures r.None? <==> forall x :: x in rs ==> x.shortCode != code
  {
    FirstWhere(rs, (x: LinkRecord) => x.shortCode == code)
  }

  /** In a well-formed collection a short code selects the one record that carries it. */
  lemma FindByCodeExact(rs: seq<LinkRecord>, i: nat)
    requires WellFormed(rs) && i < |rs|
    ensures FindByCode(rs, rs[i].shortCode) == Some(i)
  {
  }

  /** In a well-formed collection a URL selects the one record that carries it. */
  lemma FindByUrlExact(rs: seq<LinkRecord>, i: nat)
    requires WellFormed(rs) && i < |rs|
    ensures FindByUrl(rs, rs[i].originalUrl) == Some(i)
  {
  }

  /** Saving a record whose id, URL and code are all unused keeps the collection well formed. */
  lemma InsertWellFormed(rs: seq<LinkRecord>, doc: LinkRecord)
    requires WellFormed(rs)
    requires |doc.shortCode| == CODE_LENGTH && doc.originalUrl != []
    requires forall x :: x in rs ==> x.id != doc.id
    requires FindByUrl(rs, doc.originalUrl).None? && FindByCode(rs, doc.shortCode).None?
    ensures WellFormed(rs + [doc])
  {
    var r := rs + [doc];
    forall i, j | 0 <= i < j < |r| ensures Distinct(r[i], r[j]) {
      if j == |rs| {
        assert r[i] in rs;
      }
    }
  }

  /** After a new record is saved, its URL and its code both lead back to it:
      a second shorten of the same URL finds it, a redirect on its code hits it. */
  lemma InsertThenFind(rs: seq<LinkRecord>, doc: LinkRecord)
    requires FindByUrl(rs, doc.originalUrl).None? && FindByCode(rs, doc.shortCode).None?
    ensures FindByUrl(rs + [doc], doc.originalUrl) == Some(|rs|)
    ensures FindByCode(rs + [doc], doc.shortCode) == Some(|rs|)
  {
    FirstWhereAppend(rs, doc, (x: LinkRecord) => x.originalUrl == doc.originalUrl);
    FirstWhereAppend(rs, doc, (x: LinkRecord) => x.shortCode == doc.shortCode);
  }

  /** One more click on record `i`, every other field and record as it was
      (`$inc: { clicks: 1 }`). */
  function Clicked(rs: seq<LinkRecord>, i: nat): (r: seq<LinkRecord>)
    requires i < |rs|
    ensures |r| == |rs|
    ensures r[i].clicks == rs[i].clicks + 1
    ensures r[i] == rs[i].(clicks := r[i].clicks)
    ensures forall j :: 0 <= j < |rs| && j != i ==> r[j] == rs[j]
  {
    rs[i := rs[i].(clicks := rs[i].clicks + 1)]
  }

  /** A click keeps the collection well formed and only raises a counter. */
  lemma ClickedWellFormed(rs: seq<LinkRecord>, i: nat)
    requires WellFormed(rs) && i < |rs|
    ensures WellFormed(Clicked(rs, i))
    ensures Evolves(rs, Clicked(rs, i))
  {
    var r := Clicked(rs, i);
    forall a, b | 0 <= a < b < |r| ensures Distinct(r[a], r[b]) {
      assert Distinct(rs[a], rs[b]);
    }
    forall x, y | x in rs && y in r && x.id == y.id
      ensures y.originalUrl == x.originalUrl && y.shortCode == x.shortCode
      ensures y.createdAt == x.createdAt && x.clicks <= y.clicks
    {
      var a :| 0 <= a < |rs| && rs[a] == x;
      var b :| 0 <= b < |r| && r[b] == y;
    }
  }

  /** Newest first: `createdAt` never increases along the sequence. */
  predicate NewestFirstOrder(rs: seq<LinkRecord>)
  {
    forall i, j :: 0 <= i < j < |rs| ==> rs[i].createdAt >= rs[j].createdAt
  }

  /** Places `x` before the first record that is not newer than it. */
  function InsertByDate(x: LinkRecord, sorted: seq<LinkRecord>): (r: seq<LinkRecord>)
    ensures multiset(r) == multiset(sorted) + multiset{x}
  {
    if sorted == [] || sorted[0].createdAt <= x.createdAt then
      [x] + sorted
    else
      assert sorted == [sorted[0]] + sorted[1..];
      [sorted[0]] + InsertByDate(x, sorted[1..])
  }

  /** `find().sort({ createdAt: -1 })`: the collection's records, newest first. */
  function NewestFirst(rs: seq<LinkRecord>): (r: seq<LinkRecord>)
    ensures multiset(r) == multiset(rs)
  {
    if rs == [] then []
    else
      assert rs == [rs[0]] + rs[1..];
      InsertByDate(rs[0], NewestFirst(rs[1..]))
  }

  lemma {:induction false} InsertByDateOrdered(x: LinkRecord, sorted: seq<LinkRecord>)
    requires NewestFirstOrder(sorted)
    ensures NewestFirstOrder(InsertByDate(x, sorted))
  {
    if !(sorted == [] || sorted[0].createdAt <= x.createdAt) {
      var rest := InsertByDate(x, sorted[1..]);
      InsertByDateOrdered(x, sorted[1..]);
      var r := [sorted[0]] + rest;
      forall j | 0 < j < |r| ensures r[0].createdAt >= r[j].createdAt {
        assert r[j] in multiset(rest);
        assert r[j] == x || r[j] in sorted[1..];
      }
    }
  }

  /** The list route answers with exactly the stored records, newest first. */
  lemma {:induction false} NewestFirstCorrect(rs: seq<LinkRecord>)
    ensures NewestFirstOrder(NewestFirst(rs))
    ensures multiset(NewestFirst(rs)) == multiset(rs)
  {
    if rs != [] {
      NewestFirstCorrect(rs[1..]);
      InsertByDateOrdered(rs[0], NewestFirst(rs[1..]));
      assert rs == [rs[0]] + rs[1..];
    }
  }
}
