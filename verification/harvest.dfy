/**
 * `main`: one fetch task per generated combination, the finished batches merged in the
 * order the tasks complete until the cap is met. Leaving the executor's `with` block
 * waits for every submitted task, so every combination is fetched whether or not its
 * batch is merged; the completion order is an input.
 */
module Harvest {
  import opened Seqs
  import opened Params
  import opened Pagination
  import opened Aggregation

  /** `order` lists each of `tasks` submitted tasks exactly once: an order of completion. */
  predicate IsCompletionOrder(order: seq<nat>, tasks: nat)
  {
    |order| == tasks &&
    (forall i :: 0 <= i < |order| ==> order[i] < tasks) &&
    (forall i, j :: 0 <= i < j < |order| ==> order[i] != order[j])
  }

  /** The pagination of every combination comes to a stop. */
  ghost predicate AllTerminate(server: ParamSet -> Response, combos: seq<ParamSet>)
  {
    forall i :: 0 <= i < |combos| ==> exists k: nat :: !Continues(server(PageQuery(combos[i], k)))
  }

  /** `offers` is what fetch_offers returns for `params`. */
  ghost predicate IsFetchResult(server: ParamSet -> Response, params: ParamSet, offers: seq<Record>)
  {
    exists n: nat :: StopsAt(server, params, n) && offers == Flatten(Pages(server, params, n))
  }

  /**
   * Runs one fetch task per combination and delivers the finished batches, in completion
   * order, to the merge loop with cap `maxOffers`. Returns the batches in delivery order,
   * the collection and how many batches were merged.
   */
  method RunTasks(server: ParamSet -> Response, combos: seq<ParamSet>, order: seq<nat>, maxOffers: nat)
    returns (batches: seq<seq<Record>>, collection: seq<Record>, consumed: nat)
    requires IsCompletionOrder(order, |combos|)
    requires AllTerminate(server, combos)
    ensures |batches| == |order|
    ensures forall j :: 0 <= j < |batches| ==> IsFetchResult(server, combos[order[j]], batches[j])
    ensures consumed <= |batches| && collection == Merged(batches, consumed)
    ensures UniqueIds(collection)
    ensures forall r :: r in collection ==>
      r.id in Ids(Flatten(batches[..consumed])) && r == FirstWithId(Flatten(batches[..consumed]), r.id)
    ensures |collection| >= maxOffers || consumed == |batches|
    ensures forall n :: 0 < n < consumed ==> |Merged(batches, n)| < maxOffers
    ensures |batches| > 0 ==> consumed > 0
  {
    var results: seq<seq<Record>> := [];
    for i := 0 to |combos|
      invariant |results| == i
      invariant forall j :: 0 <= j < i ==> IsFetchResult(server, combos[j], results[j])
    {
      var offers, _, _ := FetchOffers(server, combos[i]);
      results := results + [offers];
    }
    batches := seq(|order|, j requires 0 <= j < |order| => results[order[j]]);
    collection, consumed := Aggregate(batches, maxOffers);
    MergedUnique(batches, consumed);
  }

  /** main: the generated combinations, the 20000 cap. */
  method Harvest(server: ParamSet -> Response, order: seq<nat>)
    returns (batches: seq<seq<Record>>, collection: seq<Record>, consumed: nat)
    requires IsCompletionOrder(order, |GenerateParamCombinations()|)
    requires AllTerminate(server, GenerateParamCombinations())
    ensures |batches| == |order| == 300
    ensures forall j :: 0 <= j < |batches| ==> IsFetchResult(server, GenerateParamCombinations()[order[j]], batches[j])
    ensures consumed <= |batches| && collection == Merged(batches, consumed)
    ensures UniqueIds(collection)
    ensures forall r :: r in collection ==>
      r.id in Ids(Flatten(batches[..consumed])) && r == FirstWithId(Flatten(batches[..consumed]), r.id)
    ensures |collection| >= MaxOffers || consumed == |batches|
    ensures forall n :: 0 < n < consumed ==> |Merged(batches, n)| < MaxOffers
    ensures consumed > 0
  {
    GeneratedCount();
    batches, collection, consumed := RunTasks(server, GenerateParamCombinations(), order, MaxOffers);
  }
}
