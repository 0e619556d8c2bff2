/** The dashboard's bookkeeping over its list of links (frontend/src/App.jsx): how a
    shorten reply and a delete update the list, the search filter and the statistics
    cards. Each update builds a fresh list that replaces the old one. */
module Dashboard {
  import opened Wrappers
  import opened Sequences
  import opened Link
  import opened JsString

  const ENTER_URL_ALERT := "Please enter a URL"
  const INVALID_URL_ALERT := "Please enter a valid URL (including http:// or https://)"
  const DUPLICATE_ALERT := "\U{26A0}\U{FE0F} This URL has already been shortened! Using existing short code."
  const SHORTEN_FAILED_ALERT := "Failed to shorten URL. Please try again."
  const DELETE_FAILED_ALERT := "Failed to delete URL"

  /** What `handleSubmit` gets from `POST /api/shorten`: the parsed record with its
      optional `message`, or a failure (the request threw or the status was not 2xx). */
  datatype ShortenReply =
    | Failed
    | Received(data: LinkRecord, message: Option<string>)

  /** What `handleSubmit` leaves behind: the list, the input field, whether a request
      was sent, and the alert shown, if any. */
  datatype SubmitResult = SubmitResult(
    urls: seq<LinkRecord>,
    input: string,
    requested: bool,
    alert: Option<string>)

  /** `!originalUrl.trim()`: the input is empty or whitespace only. */
  predicate IsBlank(input: string): (b: bool)
    ensures b <==> forall i :: 0 <= i < |input| ==> IsWhitespace(input[i])
  {
    TrimEmptyIffWhitespace(input);
    Trim(input) == []
  }

  /** The list after a successful shorten: the returned record goes first; when the
      server says it already existed, its old entry is dropped from the rest. */
  function AfterShorten(urls: seq<LinkRecord>, data: LinkRecord, message: Option<string>): (r: seq<LinkRecord>)
    ensures |r| > 0 && r[0] == data
    ensures message == Some(ALREADY_SHORTENED) ==>
      && r[1..] == WithoutId(urls, data.id)
      && (forall x :: x in r[1..] <==> x in urls && x.id != data.id)
      && IsSubsequence(r[1..], urls)
    ensures message != Some(ALREADY_SHORTENED) ==> r[1..] == urls && |r| == |urls| + 1
  {
    if message == Some(ALREADY_SHORTENED) then
      WithoutIdKeepsOthers(urls, data.id);
      [data] + WithoutId(urls, data.id)
    else
      [data] + urls
  }

  /** `handleSubmit`. `validUrl` is the answer of `isValidUrl` and `reply` what the
      request returned, consulted only when a request is sent. */
  function HandleSubmit(urls: seq<LinkRecord>, input: string, validUrl: bool, reply: ShortenReply): (r: SubmitResult)
    ensures r.requested <==> !IsBlank(input) && validUrl
    ensures IsBlank(input) ==>
      r.urls == urls && r.input == input && r.alert == Some(ENTER_URL_ALERT)
    ensures !IsBlank(input) && !validUrl ==>
      r.urls == urls && r.input == input && r.alert == Some(INVALID_URL_ALERT)
    ensures r.requested && reply.Failed? ==>
      r.urls == urls && r.input == input && r.alert == Some(SHORTEN_FAILED_ALERT)
    ensures r.requested && reply.Received? ==>
      && r.urls == AfterShorten(urls, reply.data, reply.message)
      && r.input == []
      && r.alert == (if reply.message == Some(ALREADY_SHORTENED) then Some(DUPLICATE_ALERT) else None)
  {
    if IsBlank(input) then
      SubmitResult(urls, input, false, Some(ENTER_URL_ALERT))
    else if !validUrl then
      SubmitResult(urls, input, false, Some(INVALID_URL_ALERT))
    else
      match reply
      case Failed =>
        SubmitResult(urls, input, true, Some(SHORTEN_FAILED_ALERT))
      case Received(data, message) =>
        var alert := if message == Some(ALREADY_SHORTENED) then Some(DUPLICATE_ALERT) else None;
        SubmitResult(AfterShorten(urls, data, message), [], true, alert)
  }

  /** A whitespace-only input is turned away before any request: nothing is sent and
      the list and the input stay as they were. */
  lemma BlankInputRejected(urls: seq<LinkRecord>, input: string, validUrl: bool, reply: ShortenReply)
    requires forall i :: 0 <= i < |input| ==> IsWhitespace(input[i])
    ensures var r := HandleSubmit(urls, input, validUrl, reply);
      !r.requested && r.urls == urls && r.input == input
  {
    TrimEmptyIffWhitespace(input);
  }

  /** `handleDelete` for the link `id`. `confirmed` is the answer of `window.confirm`;
      `requestThrew` says whether `fetch` rejected. `fetch` does not reject on an error
      status, so any answer from the server removes the entry. */
  function HandleDelete(urls: seq<LinkRecord>, id: Id, confirmed: bool, requestThrew: bool): (r: (seq<LinkRecord>, Option<string>))
    ensures !confirmed ==> r == (urls, None)
    ensures confirmed && requestThrew ==> r == (urls, Some(DELETE_FAILED_ALERT))
    ensures confirmed && !requestThrew ==>
      && r.1.None?
      && r.0 == WithoutId(urls, id)
      && (forall x :: x in r.0 <==> x in urls && x.id != id)
      && IsSubsequence(r.0, urls)
  {
    if !confirmed then (urls, None)
    else if requestThrew then (urls, Some(DELETE_FAILED_ALERT))
    else
      WithoutIdKeepsOthers(urls, id);
      (WithoutId(urls, id), None)
  }

  /** The search predicate: the lower-cased term occurs in the lower-cased URL or code. */
  predicate Matches(u: LinkRecord, term: string)
  {
    || Includes(ToLower(u.originalUrl), ToLower(term))
    || Includes(ToLower(u.shortCode), ToLower(term))
  }

  /** `filteredUrls`: the entries that match the search term. */
  function FilteredUrls(urls: seq<LinkRecord>, term: string): (r: seq<LinkRecord>)
    ensures |r| <= |urls|
    ensures forall k :: 0 <= k < |r| ==> Matches(r[k], term)
  {
    if urls == [] then []
    else
      assert urls == [urls[0]] + urls[1..];
      (if Matches(urls[0], term) then [urls[0]] else []) + FilteredUrls(urls[1..], term)
  }

  /** The filter keeps exactly the matching entries, in their original order. */
  lemma {:induction false} FilteredKeepsMatches(urls: seq<LinkRecord>, term: string)
    ensures forall x :: x in FilteredUrls(urls, term) <==> x in urls && Matches(x, term)
    ensures IsSubsequence(FilteredUrls(urls, term), urls)
  {
    if urls != [] {
      FilteredKeepsMatches(urls[1..], term);
      var rest := FilteredUrls(urls[1..], term);
      assert urls == [urls[0]] + urls[1..];
      if Matches(urls[0], term) {
        assert FilteredUrls(urls, term) == [urls[0]] + rest;
        assert ([urls[0]] + rest)[1..] == rest;
      } else {
        assert FilteredUrls(urls, term) == rest;
        assert rest == [] || rest[0] != urls[0] by {
          if rest != [] { assert rest[0] in rest; }
        }
      }
    }
  }

  /** The filter keeps every copy of a matching entry and no other entry. */
  lemma {:induction false} FilteredCounts(urls: seq<LinkRecord>, term: string)
    ensures forall x :: multiset(FilteredUrls(urls, term))[x] == if Matches(x, term) then multiset(urls)[x] else 0
  {
    if urls != [] {
      FilteredCounts(urls[1..], term);
      assert urls == [urls[0]] + urls[1..];
      assert multiset(urls) == multiset{urls[0]} + multiset(urls[1..]);
    }
  }

  /** An empty search term keeps the whole list. */
  lemma {:induction false} EmptyTermKeepsAll(urls: seq<LinkRecord>)
    ensures FilteredUrls(urls, "") == urls
  {
    if urls != [] {
      IncludesEmpty(ToLower(urls[0].originalUrl));
      EmptyTermKeepsAll(urls[1..]);
    }
  }

  /** `totalClicks`: `urls.reduce((sum, url) => sum + url.clicks, 0)`, a fold from the left
      over the whole list (not the filtered one). */
  function TotalClicks(urls: seq<LinkRecord>): nat
  {
    if urls == [] then 0 else TotalClicks(urls[..|urls| - 1]) + urls[|urls| - 1].clicks
  }

  /** The total is at least the clicks of every entry, and it is 0 exactly when no entry
      has been clicked. */
  lemma {:induction false} TotalClicksBounds(urls: seq<LinkRecord>)
    ensures forall i :: 0 <= i < |urls| ==> urls[i].clicks <= TotalClicks(urls)
    ensures TotalClicks(urls) == 0 <==> forall i :: 0 <= i < |urls| ==> urls[i].clicks == 0
  {
    if urls != [] {
      var init := urls[..|urls| - 1];
      TotalClicksBounds(init);
      assert forall i :: 0 <= i < |init| ==> urls[i] == init[i];
    }
  }

  /** The total of a concatenation is the sum of the totals. */
  lemma {:induction false} TotalClicksConcat(a: seq<LinkRecord>, b: seq<LinkRecord>)
    ensures TotalClicks(a + b) == TotalClicks(a) + TotalClicks(b)
  {
    if b == [] {
      assert a + b == a;
    } else {
      var last := |b| - 1;
      assert (a + b)[..|a + b| - 1] == a + b[..last];
      TotalClicksConcat(a, b[..last]);
    }
  }

  /** Prepending a link adds its clicks: a new link (0 clicks) leaves the total as it was. */
  lemma TotalAfterNewLink(urls: seq<LinkRecord>, data: LinkRecord, message: Option<string>)
    requires message != Some(ALREADY_SHORTENED)
    ensures TotalClicks(AfterShorten(urls, data, message)) == data.clicks + TotalClicks(urls)
  {
    TotalClicksConcat([data], urls);
    assert TotalClicks([data]) == TotalClicks([]) + data.clicks;
  }

  /** Taking the entry at `i` out of a list takes exactly its clicks off the total. */
  lemma TotalWithout(urls: seq<LinkRecord>, i: nat)
    requires i < |urls|
    ensures TotalClicks(urls[..i] + urls[i + 1..]) == TotalClicks(urls) - urls[i].clicks
  {
    var pre, x, post := urls[..i], urls[i], urls[i + 1..];
    assert urls == (pre + [x]) + post;
    TotalClicksConcat(pre, post);
    TotalClicksConcat(pre + [x], post);
    assert (pre + [x])[..|pre + [x]| - 1] == pre;
  }

  /** Deleting the entry at `i` of a list with distinct ids takes exactly its clicks off the total. */
  lemma TotalAfterDelete(urls: seq<LinkRecord>, i: nat)
    requires DistinctIds(urls) && i < |urls|
    ensures TotalClicks(WithoutId(urls, urls[i].id)) == TotalClicks(urls) - urls[i].clicks
  {
    WithoutPresentId(urls, i);
    TotalWithout(urls, i);
  }

  /** `Math.round(total / n)` on the exact quotient: the integer nearest to it, halves
      rounded up. */
  function RoundedMean(total: nat, n: nat): (q: nat)
    requires n > 0
    ensures n * (2 * q - 1) <= 2 * total < n * (2 * q + 1)
  {
    var q := (2 * total + n) / (2 * n);
    assert 2 * n * q <= 2 * total + n < 2 * n * q + 2 * n;
    q
  }

  /** The "Avg Clicks" card: `Math.round(totalClicks / urls.length)`, or 0 for an empty
      list so that nothing is divided by zero. The result is the integer nearest to
      the mean, halves rounded up. */
  function AverageClicks(urls: seq<LinkRecord>): (r: nat)
    ensures |urls| == 0 ==> r == 0
    ensures |urls| > 0 ==> |urls| * (2 * r - 1) <= 2 * TotalClicks(urls) < |urls| * (2 * r + 1)
  {
    if |urls| > 0 then RoundedMean(TotalClicks(urls), |urls|) else 0
  }
}
