/** The `Url` document of the link registry, as the server stores it and the dashboard
    receives it, and the invariant the registry keeps over its whole collection. */
module Link {
  import opened Sequences

  /** The opaque document identifier the store assigns (`_id`). */
  type Id = nat

  /** One stored link. `clicks` starts at 0 and only the redirect route changes it;
      `createdAt` is the creation time in milliseconds. */
  datatype LinkRecord = LinkRecord(
    id: Id,
    originalUrl: string,
    shortCode: string,
    clicks: nat,
    createdAt: int)

  /** Every short code is drawn by `nanoid(6)`. */
  const CODE_LENGTH: nat := 6

  /** The message the shorten route attaches to a record it found rather than created;
      the dashboard compares against the same text. */
  const ALREADY_SHORTENED := "URL already shortened"

  /** Two records share neither their id, nor their short code (the unique index),
      nor their original URL (shortening deduplicates on it). */
  predicate Distinct(a: LinkRecord, b: LinkRecord)
  {
    a.id != b.id && a.shortCode != b.shortCode && a.originalUrl != b.originalUrl
  }

  /** The registry's invariant over its collection. */
  ghost predicate WellFormed(rs: seq<LinkRecord>)
  {
    && (forall i :: 0 <= i < |rs| ==> |rs[i].shortCode| == CODE_LENGTH && rs[i].originalUrl != [])
    && (forall i, j :: 0 <= i < j < |rs| ==> Distinct(rs[i], rs[j]))
  }

  /** No two records share an id. */
  predicate DistinctIds(rs: seq<LinkRecord>)
  {
    forall i, j :: 0 <= i < j < |rs| ==> rs[i].id != rs[j].id
  }

  /** The records that survive removing `id`: `findByIdAndDelete` on the server, and
      `urls.filter(url => url._id !== id)` on the dashboard. It only ever drops records. */
  function WithoutId(rs: seq<LinkRecord>, id: Id): (r: seq<LinkRecord>)
    ensures |r| <= |rs|
    ensures forall k :: 0 <= k < |r| ==> r[k].id != id
  {
    if rs == [] then []
    else
      assert rs == [rs[0]] + rs[1..];
      (if rs[0].id == id then [] else [rs[0]]) + WithoutId(rs[1..], id)
  }

  /** Removal keeps exactly the records with another id, in their original order. */
  lemma {:induction false} WithoutIdKeepsOthers(rs: seq<LinkRecord>, id: Id)
    ensures forall x :: x in WithoutId(rs, id) <==> x in rs && x.id != id
    ensures IsSubsequence(WithoutId(rs, id), rs)
  {
    if rs != [] {
      WithoutIdKeepsOthers(rs[1..], id);
      var rest := WithoutId(rs[1..], id);
      assert rs == [rs[0]] + rs[1..];
      if rs[0].id != id {
        assert WithoutId(rs, id) == [rs[0]] + rest;
        assert ([rs[0]] + rest)[1..] == rest;
      } else {
        assert WithoutId(rs, id) == rest;
        assert rest == [] || rest[0] != rs[0] by {
          if rest != [] { assert rest[0] in rest; }
        }
      }
    }
  }

  /** Removal keeps every copy of each record with another id and no record with this id. */
  lemma {:induction false} WithoutIdCounts(rs: seq<LinkRecord>, id: Id)
    ensures forall x :: multiset(WithoutId(rs, id))[x] == if x.id == id then 0 else multiset(rs)[x]
  {
    if rs != [] {
      WithoutIdCounts(rs[1..], id);
      assert rs == [rs[0]] + rs[1..];
      assert multiset(rs) == multiset{rs[0]} + multiset(rs[1..]);
    }
  }

  /** Removing an id nobody has changes nothing. */
  lemma {:induction false} WithoutAbsentId(rs: seq<LinkRecord>, id: Id)
    requires forall k :: 0 <= k < |rs| ==> rs[k].id != id
    ensures WithoutId(rs, id) == rs
  {
    if rs != [] {
      WithoutAbsentId(rs[1..], id);
    }
  }

  /** Deleting twice is deleting once. */
  lemma WithoutIdIdempotent(rs: seq<LinkRecord>, id: Id)
    ensures WithoutId(WithoutId(rs, id), id) == WithoutId(rs, id)
  {
    WithoutIdKeepsOthers(rs, id);
    var r := WithoutId(rs, id);
    assert forall k :: 0 <= k < |r| ==> r[k] in r;
    WithoutAbsentId(r, id);
  }

  /** Removal works piece by piece along a concatenation. */
  lemma {:induction false} WithoutIdConcat(a: seq<LinkRecord>, b: seq<LinkRecord>, id: Id)
    ensures WithoutId(a + b, id) == WithoutId(a, id) + WithoutId(b, id)
  {
    if a != [] {
      var ab := a + b;
      assert ab[0] == a[0] && ab[1..] == a[1..] + b;
      WithoutIdConcat(a[1..], b, id);
      assert WithoutId(ab, id) == (if a[0].id == id then [] else [a[0]]) + WithoutId(ab[1..], id);
      assert WithoutId(a, id) == (if a[0].id == id then [] else [a[0]]) + WithoutId(a[1..], id);
    } else {
      assert a + b == b;
    }
  }

  /** In a collection with distinct ids, removing a present id drops exactly that one
      record and keeps all the others in their order. */
  lemma WithoutPresentId(rs: seq<LinkRecord>, i: nat)
    requires DistinctIds(rs) && i < |rs|
    ensures WithoutId(rs, rs[i].id) == rs[..i] + rs[i + 1..]
    ensures |WithoutId(rs, rs[i].id)| == |rs| - 1
  {
    var id := rs[i].id;
    forall k | 0 <= k < i ensures rs[..i][k].id != id {
      assert rs[..i][k] == rs[k];
    }
    var tail := rs[i + 1..];
    forall k | 0 <= k < |tail| ensures tail[k].id != id {
      assert tail[k] == rs[i + 1 + k];
    }
    assert rs == rs[..i] + [rs[i]] + rs[i + 1..];
    WithoutIdConcat(rs[..i] + [rs[i]], rs[i + 1..], id);
    WithoutIdConcat(rs[..i], [rs[i]], id);
    WithoutAbsentId(rs[..i], id);
    WithoutAbsentId(rs[i + 1..], id);
    assert WithoutId([rs[i]], id) == [];
  }

  /** Removing records keeps the collection well formed. */
  lemma {:induction false} WithoutIdWellFormed(rs: seq<LinkRecord>, id: Id)
    requires WellFormed(rs)
    ensures WellFormed(WithoutId(rs, id))
  {
    if rs != [] {
      assert WellFormed(rs[1..]);
      WithoutIdWellFormed(rs[1..], id);
      WithoutIdKeepsOthers(rs[1..], id);
      var rest := WithoutId(rs[1..], id);
      if rs[0].id != id {
        var r := [rs[0]] + rest;
        forall j | 0 < j < |r| ensures Distinct(r[0], r[j]) {
          assert r[j] in rs[1..];
          var k :| 0 <= k < |rs[1..]| && rs[1..][k] == r[j];
          assert Distinct(rs[0], rs[k + 1]);
        }
        assert r[1..] == rest;
      }
    }
  }

  /** What a step of the registry may do to a record that exists before and after it:
      its URL, short code and creation time never change and its clicks never decrease. */
  ghost predicate Evolves(before: seq<LinkRecord>, after: seq<LinkRecord>)
  {
    forall x, y :: x in before && y in after && x.id == y.id ==>
      && y.originalUrl == x.originalUrl
      && y.shortCode == x.shortCode
      && y.createdAt == x.createdAt
      && x.clicks <= y.clicks
  }
}
