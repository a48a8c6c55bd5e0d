/**
 * The merge loop of `main`: every completed batch is appended to the collected frame,
 * rows with an `id` already seen are dropped (first occurrence kept), and consumption
 * stops as soon as the frame holds at least `max_offers` rows.
 */
module Aggregation {
  import opened Seqs
  import opened Pagination

  /** max_offers */
  const MaxOffers: nat := 20000

  /** The ids present in a collection. */
  function Ids(s: seq<Record>): set<int>
  {
    set r | r in s :: r.id
  }

  /** No two entries share an id. */
  predicate UniqueIds(s: seq<Record>)
  {
    forall i, j :: 0 <= i < j < |s| ==> s[i].id != s[j].id
  }

  /**
   * The rows of `s` kept by drop_duplicates(subset=['id'], keep='first') when the ids in
   * `seen` already occur earlier: the first row of each new id, in order.
   */
  function KeepFirst(s: seq<Record>, seen: set<int>): seq<Record>
  {
    if |s| == 0 then []
    else if s[0].id in seen then KeepFirst(s[1..], seen)
    else [s[0]] + KeepFirst(s[1..], seen + {s[0].id})
  }

  /** drop_duplicates(subset=['id'], keep='first') */
  function DropDuplicates(s: seq<Record>): seq<Record>
  {
    KeepFirst(s, {})
  }

  /** One merge step: pd.concat([df, batch]) followed by drop_duplicates. */
  function Merge(collection: seq<Record>, batch: seq<Record>): seq<Record>
  {
    DropDuplicates(collection + batch)
  }

  /** The collection after the first `n` completed batches have been merged one by one. */
  function Merged(batches: seq<seq<Record>>, n: nat): seq<Record>
    requires n <= |batches|
  {
    if n == 0 then [] else Merge(Merged(batches, n - 1), batches[n - 1])
  }

  /** The first record of `s` that carries `id`. */
  function FirstWithId(s: seq<Record>, id: int): (r: Record)
    requires id in Ids(s)
    ensures r in s && r.id == id
  {
    if s[0].id == id then s[0] else FirstWithId(s[1..], id)
  }

  // ---------------------------------------------------------------------------
  // drop_duplicates
  // ---------------------------------------------------------------------------

  lemma IdsAppend(a: seq<Record>, b: seq<Record>)
    ensures Ids(a + b) == Ids(a) + Ids(b)
  {
    assert forall r :: r in a + b <==> r in a || r in b;
  }

  lemma IdsCons(r: Record, s: seq<Record>)
    ensures Ids([r] + s) == {r.id} + Ids(s)
  {
    IdsAppend([r], s);
  }

  /**
   * KeepFirst keeps exactly the ids not seen before, each once, and every row it keeps is
   * the first row of `s` with that id.
   */
  lemma {:induction false} KeepFirstSpec(s: seq<Record>, seen: set<int>)
    ensures Ids(KeepFirst(s, seen)) == Ids(s) - seen
    ensures UniqueIds(KeepFirst(s, seen))
    ensures forall r :: r in KeepFirst(s, seen) ==> r in s && r.id in Ids(s) && r == FirstWithId(s, r.id)
  {
    if |s| > 0 {
      var rest := s[1..];
      assert s == [s[0]] + rest;
      IdsCons(s[0], rest);
      if s[0].id in seen {
        KeepFirstSpec(rest, seen);
        forall r | r in KeepFirst(s, seen) ensures r in s && r == FirstWithId(s, r.id) {
          assert r.id in Ids(KeepFirst(rest, seen));
        }
      } else {
        var seen' := seen + {s[0].id};
        KeepFirstSpec(rest, seen');
        var k := KeepFirst(rest, seen');
        IdsCons(s[0], k);
        forall i, j | 0 <= i < j < |[s[0]] + k| ensures ([s[0]] + k)[i].id != ([s[0]] + k)[j].id {
          if i == 0 {
            assert k[j - 1] in k;
          }
        }
        forall r | r in KeepFirst(s, seen) ensures r in s && r == FirstWithId(s, r.id) {
          if r != s[0] {
            assert r in k;
            assert r.id != s[0].id;
          }
        }
      }
    }
  }

  /** A collection whose ids are unique and unseen is left as it is. */
  lemma {:induction false} KeepFirstUnique(s: seq<Record>, seen: set<int>)
    requires UniqueIds(s) && Ids(s) !! seen
    ensures KeepFirst(s, seen) == s
  {
    if |s| > 0 {
      var rest := s[1..];
      assert s == [s[0]] + rest;
      IdsCons(s[0], rest);
      KeepFirstUnique(rest, seen + {s[0].id});
    }
  }

  /** Deduplicating a concatenation: the first part first, then the rest minus its ids. */
  lemma {:induction false} KeepFirstAppend(a: seq<Record>, b: seq<Record>, seen: set<int>)
    ensures KeepFirst(a + b, seen) == KeepFirst(a, seen) + KeepFirst(b, seen + Ids(a))
  {
    if |a| == 0 {
      assert a + b == b;
      assert seen + Ids(a) == seen;
    } else {
      assert (a + b)[1..] == a[1..] + b;
      assert (a + b)[0] == a[0];
      IdsCons(a[0], a[1..]);
      assert a == [a[0]] + a[1..];
      if a[0].id in seen {
        KeepFirstAppend(a[1..], b, seen);
        assert seen + Ids(a[1..]) == seen + Ids(a);
      } else {
        KeepFirstAppend(a[1..], b, seen + {a[0].id});
        assert seen + {a[0].id} + Ids(a[1..]) == seen + Ids(a);
      }
    }
  }

  // ---------------------------------------------------------------------------
  // The merge step
  // ---------------------------------------------------------------------------

  /**
   * Merging into a collection with unique ids keeps every existing entry in place and
   * appends exactly the batch's rows whose id is new (first occurrence in the batch).
   */
  lemma MergeAppends(collection: seq<Record>, batch: seq<Record>)
    requires UniqueIds(collection)
    ensures Merge(collection, batch) == collection + KeepFirst(batch, Ids(collection))
    ensures UniqueIds(Merge(collection, batch))
    ensures Ids(Merge(collection, batch)) == Ids(collection) + Ids(batch)
    ensures Ids(KeepFirst(batch, Ids(collection))) !! Ids(collection)
  {
    KeepFirstAppend(collection, batch, {});
    KeepFirstUnique(collection, {});
    assert {} + Ids(collection) == Ids(collection);
    KeepFirstSpec(collection + batch, {});
    KeepFirstSpec(batch, Ids(collection));
    IdsAppend(collection, batch);
  }

  /**
   * Merging the batches one at a time equals deduplicating all of them at once in
   * completion order: the entry kept for an id is the first one delivered.
   */
  lemma {:induction false} MergedIsDropDuplicates(batches: seq<seq<Record>>, n: nat)
    requires n <= |batches|
    ensures Merged(batches, n) == DropDuplicates(Flatten(batches[..n]))
  {
    if n > 0 {
      MergedIsDropDuplicates(batches, n - 1);
      var prev := Flatten(batches[..n - 1]);
      assert batches[..n] == batches[..n - 1] + [batches[n - 1]];
      FlattenSnoc(batches[..n - 1], batches[n - 1]);
      KeepFirstSpec(prev, {});
      MergeAppends(DropDuplicates(prev), batches[n - 1]);
      KeepFirstAppend(prev, batches[n - 1], {});
      assert {} + Ids(prev) == Ids(prev);
      assert Ids(DropDuplicates(prev)) == Ids(prev);
    }
  }

  /** After every merge the ids are unique, and they are the ids of the batches merged so far. */
  lemma MergedUnique(batches: seq<seq<Record>>, n: nat)
    requires n <= |batches|
    ensures UniqueIds(Merged(batches, n))
    ensures Ids(Merged(batches, n)) == Ids(Flatten(batches[..n]))
    ensures forall r :: r in Merged(batches, n) ==> r == FirstWithId(Flatten(batches[..n]), r.id)
  {
    MergedIsDropDuplicates(batches, n);
    KeepFirstSpec(Flatten(batches[..n]), {});
  }

  /** Entries are never replaced or moved: an earlier collection is a prefix of a later one. */
  lemma {:induction false} MergedGrows(batches: seq<seq<Record>>, m: nat, n: nat)
    requires m <= n <= |batches|
    ensures |Merged(batches, m)| <= |Merged(batches, n)|
    ensures Merged(batches, n)[..|Merged(batches, m)|] == Merged(batches, m)
  {
    if m < n {
      MergedGrows(batches, m, n - 1);
      MergedUnique(batches, n - 1);
      MergeAppends(Merged(batches, n - 1), batches[n - 1]);
    }
  }

  // ---------------------------------------------------------------------------
  // The consuming loop
  // ---------------------------------------------------------------------------

  /**
   * The `for future in as_completed(...)` loop: merges the batches in completion order and
   * stops right after the first merge that brings the size to `maxOffers` or more.
   * Returns the collection and how many batches were consumed.
   */
  method Aggregate(batches: seq<seq<Record>>, maxOffers: nat) returns (collection: seq<Record>, consumed: nat)
    ensures consumed <= |batches| && collection == Merged(batches, consumed)
    ensures UniqueIds(collection)
    ensures |collection| >= maxOffers || consumed == |batches|
    ensures forall n :: 0 < n < consumed ==> |Merged(batches, n)| < maxOffers
    ensures |batches| > 0 ==> consumed > 0
  {
    collection := [];
    consumed := 0;
    while consumed < |batches|
      invariant consumed <= |batches| && collection == Merged(batches, consumed)
      invariant UniqueIds(collection)
      invariant forall n :: 0 < n <= consumed ==> |Merged(batches, n)| < maxOffers
    {
      collection := collection + batches[consumed];
      collection := DropDuplicates(collection);
      consumed := consumed + 1;
      MergedUnique(batches, consumed);
      if |collection| >= maxOffers {
        break;
      }
    }
  }
}
