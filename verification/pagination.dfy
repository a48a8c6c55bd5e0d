/**
 * Offset pagination of one parameter combination (fetch_offers). Each GET is replaced
 * by a server oracle that answers a query dict with a decoded response; the loop asks
 * for pages of 30 at offsets 0, 30, 60, ... and stops on the first page that fails to
 * decode, reports `success` false, or has no items.
 */
module Pagination {
  import opened Params
  import opened Seqs

  /** A listing record; only its `id` matters to the harvester, the rest is opaque. */
  datatype Record = Record(id: int, fields: map<string, string>)

  /**
   * The outcome of `res.json()` and the lookups on it: a body that is not JSON, or a
   * decoded object with the truth value of its `success` field (false for false, null,
   * 0, "" and empty containers, true for anything else, "false" included) and its
   * `result.items` list (empty when `items` is missing or null).
   */
  datatype Response = DecodeError | Parsed(success: bool, items: seq<Record>)

  /** Why a pagination loop stopped. */
  datatype StopReason =
    | BadJson      // the body could not be decoded
    | ApiError     // `success` was false
    | Exhausted    // the page had no items

  const OffersUrl := "https://offers-service.domclick.ru/research/v5/offers/"

  /** Page size sent as `limit`; also the step of `offset`. */
  const Limit: nat := 30

  /** The query of the k-th request: `{**params, 'offset': 30 * k, 'limit': 30}`. */
  function PageQuery(params: ParamSet, k: nat): ParamSet
  {
    params["offset" := Number(Limit * k)]["limit" := Number(Limit)]
  }

  /**
   * The k-th request asks for offset 30 * k and limit 30, whatever the combination says
   * under those names, and passes every other key of the combination unchanged.
   */
  lemma PageQueryFields(params: ParamSet, k: nat)
    ensures PageQuery(params, k).Keys == params.Keys + {"offset", "limit"}
    ensures PageQuery(params, k)["offset"] == Number(30 * k) && PageQuery(params, k)["limit"] == Number(30)
    ensures forall key :: key in params && key != "offset" && key != "limit" ==> PageQuery(params, k)[key] == params[key]
  {
  }

  /** A page that lets the loop go on: decoded, successful and non-empty. */
  predicate Continues(r: Response)
  {
    r.Parsed? && r.success && |r.items| > 0
  }

  /** Why a page stops the loop; the checks run in the order decode, success, items. */
  function StopReasonOf(r: Response): (reason: StopReason)
    requires !Continues(r)
    ensures reason == BadJson <==> r.DecodeError?
    ensures reason == ApiError <==> (r.Parsed? && !r.success)
    ensures reason == Exhausted <==> (r.Parsed? && r.success && |r.items| == 0)
  {
    match r
    case DecodeError => BadJson
    case Parsed(success, items) => if !success then ApiError else Exhausted
  }

  /** The items a response carries, none for a body that could not be decoded. */
  function PageItems(r: Response): seq<Record>
  {
    if r.Parsed? then r.items else []
  }

  /** Items of the first `n` pages, in request order. */
  function Pages(server: ParamSet -> Response, params: ParamSet, n: nat): seq<seq<Record>>
  {
    seq(n, k requires 0 <= k < n => PageItems(server(PageQuery(params, k))))
  }

  lemma PagesSnoc(server: ParamSet -> Response, params: ParamSet, n: nat)
    ensures Pages(server, params, n + 1) == Pages(server, params, n) + [PageItems(server(PageQuery(params, n)))]
  {
  }

  /** The queries of the first `n` requests, in order. */
  function Queries(params: ParamSet, n: nat): seq<ParamSet>
  {
    seq(n, k requires 0 <= k < n => PageQuery(params, k))
  }

  /** The first `n` pages all let the loop go on. */
  predicate AllContinue(server: ParamSet -> Response, params: ParamSet, n: nat)
  {
    forall k: nat :: k < n ==> Continues(server(PageQuery(params, k)))
  }

  /** `n` pages are accepted and page `n` stops the loop: the loop makes exactly n + 1 requests. */
  predicate StopsAt(server: ParamSet -> Response, params: ParamSet, n: nat)
  {
    AllContinue(server, params, n) && !Continues(server(PageQuery(params, n)))
  }

  /** The stopping page is the first one that does not continue, so there is only one. */
  lemma StopsAtUnique(server: ParamSet -> Response, params: ParamSet, n: nat, m: nat)
    requires StopsAt(server, params, n) && StopsAt(server, params, m)
    ensures n == m
  {
  }

  /** Some page stops the loop; then the first such page is where it stops. */
  lemma {:induction false} FirstStop(server: ParamSet -> Response, params: ParamSet, bound: nat)
    returns (n: nat)
    requires !Continues(server(PageQuery(params, bound)))
    ensures n <= bound && StopsAt(server, params, n)
  {
    if AllContinue(server, params, bound) {
      n := bound;
    } else {
      var k: nat :| k < bound && !Continues(server(PageQuery(params, k)));
      n := FirstStop(server, params, k);
    }
  }

  /** Different requests of one loop ask for different offsets: no offset is requested twice. */
  lemma QueriesDistinct(params: ParamSet, n: nat)
    ensures forall j, k :: 0 <= j < k < n ==> Queries(params, n)[j] != Queries(params, n)[k]
  {
    forall j, k | 0 <= j < k < n ensures Queries(params, n)[j] != Queries(params, n)[k] {
      PageQueryFields(params, j);
      PageQueryFields(params, k);
    }
  }

  lemma QueriesSnoc(params: ParamSet, n: nat)
    ensures Queries(params, n + 1) == Queries(params, n) + [PageQuery(params, n)]
  {
  }

  /** The query built from the running offset is the next page's query. */
  lemma NextQuery(params: ParamSet, requests: seq<ParamSet>, offset: int)
    requires requests == Queries(params, |requests|) && offset == Limit * |requests|
    ensures params["offset" := Number(offset)]["limit" := Number(Limit)] == PageQuery(params, |requests|)
    ensures requests + [PageQuery(params, |requests|)] == Queries(params, |requests| + 1)
  {
    QueriesSnoc(params, |requests|);
  }

  /** One more step of the loop: one more accepted page. */
  lemma Step(server: ParamSet -> Response, params: ParamSet, n: nat)
    requires AllContinue(server, params, n) && Continues(server(PageQuery(params, n)))
    ensures AllContinue(server, params, n + 1)
    ensures Flatten(Pages(server, params, n + 1)) == Flatten(Pages(server, params, n)) + server(PageQuery(params, n)).items
  {
    PagesSnoc(server, params, n);
    FlattenSnoc(Pages(server, params, n), server(PageQuery(params, n)).items);
  }

  /**
   * fetch_offers. Returns the collected records, why the loop stopped and the queries
   * sent, in order. The loop ends only when some page stops it, which the caller
   * guarantees by `requires`.
   */
  method FetchOffers(server: ParamSet -> Response, params: ParamSet)
    returns (offers: seq<Record>, reason: StopReason, requests: seq<ParamSet>)
    requires exists k: nat :: !Continues(server(PageQuery(params, k)))
    ensures |requests| > 0 && StopsAt(server, params, |requests| - 1)
    ensures requests == Queries(params, |requests|)
    ensures forall j, k :: 0 <= j < k < |requests| ==> requests[j] != requests[k]
    ensures reason == StopReasonOf(server(requests[|requests| - 1]))
    ensures offers == Flatten(Pages(server, params, |requests| - 1))
  {
    ghost var bound: nat :| !Continues(server(PageQuery(params, bound)));
    var offset := 0;
    offers := [];
    requests := [];
    while true
      invariant offset == Limit * |requests| && |requests| <= bound
      invariant requests == Queries(params, |requests|)
      invariant AllContinue(server, params, |requests|)
      invariant offers == Flatten(Pages(server, params, |requests|))
      decreases bound - |requests|
    {
      var query := params["offset" := Number(offset)]["limit" := Number(Limit)];
      var res := server(query);
      ghost var n := |requests|;
      NextQuery(params, requests, offset);
      requests := requests + [query];
      if res.DecodeError? {
        reason := BadJson;
        break;
      }
      if !res.success {
        reason := ApiError;
        break;
      }
      if |res.items| == 0 {
        reason := Exhausted;
        break;
      }
      Step(server, params, n);
      offers := offers + res.items;
      offset := offset + Limit;
    }
    QueriesDistinct(params, |requests|);
  }

  /**
   * The records returned are exactly the items of the accepted pages, in request order;
   * their number is the sum of the page sizes.
   */
  lemma {:induction false} PagesConcatenated(server: ParamSet -> Response, params: ParamSet, n: nat, k: nat, i: nat)
    requires k < n && i < |Pages(server, params, n)[k]|
    ensures |Flatten(Pages(server, params, k))| + i < |Flatten(Pages(server, params, n))|
    ensures Flatten(Pages(server, params, n))[|Flatten(Pages(server, params, k))| + i] == Pages(server, params, n)[k][i]
    decreases n
  {
    var p := Pages(server, params, n);
    if k == n - 1 {
      assert p[..n - 1] == Pages(server, params, n - 1);
    } else {
      PagesConcatenated(server, params, n - 1, k, i);
      assert p[..n - 1] == Pages(server, params, n - 1);
      assert Pages(server, params, n - 1)[k] == p[k];
    }
    assert p[..k] == Pages(server, params, k);
  }
}
