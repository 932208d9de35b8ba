/**
 * The run itself: generate the candidates, look them up batch by batch while
 * the progress bar advances and available domains are pushed, then dedup and
 * sort what was found.
 */
module Pipeline {
  import opened Wrappers
  import opened Text
  import opened Seqs
  import opened Candidates
  import opened Batches
  import opened Resolution
  import opened Finalize

  /** The state `main` updates while it runs: the progress bar's position and
      length, and the growing list of available domains. */
  class Search {
    /** Position of the progress bar. */
    var position: nat
    /** Length of the progress bar: the number of candidates. */
    const length: nat
    /** The available domains found so far. */
    var found: seq<Bytes>
    /** Every domain handed to the resolver so far, in order. */
    ghost var lookups: seq<Bytes>

    constructor (total: nat)
      ensures position == 0 && length == total
      ensures found == [] && lookups == []
    {
      position := 0;
      length := total;
      found := [];
      lookups := [];
    }

    /** `bar.inc(1)`. */
    method Inc()
      modifies this`position
      ensures position == old(position) + 1
    {
      position := position + 1;
    }

    /** One spawned task, from the lookup to the value its handle yields. */
    method Spawn(domain: Bytes, resolver: Resolver) returns (r: Joined)
      modifies this`position, this`lookups
      ensures r == TaskResult(domain, resolver(domain))
      ensures position == old(position) + Increment(resolver(domain))
      ensures lookups == old(lookups) + [domain]
    {
      lookups := lookups + [domain];
      match resolver(domain)
      case Answered(addrs) =>
        if |addrs| == 0 {
          Inc();
          r := Joined(Some(domain));
        } else {
          Inc();
          r := Joined(None);
        }
      case QueryFailed(_) =>
        Inc();
        r := Joined(None);
      case TaskPanicked =>
        r := JoinFailed;
    }

    /** One task per domain of the batch, then wait for all of them; the
        results come back in the order of the batch. */
    method JoinAll(batch: seq<Bytes>, resolver: Resolver) returns (results: seq<Joined>)
      modifies this`position, this`lookups
      ensures |results| == |batch|
      ensures forall i :: 0 <= i < |batch| ==> results[i] == TaskResult(batch[i], resolver(batch[i]))
      ensures position == old(position) + Completed(batch, resolver)
      ensures lookups == old(lookups) + batch
    {
      results := [];
      var i := 0;
      while i < |batch|
        invariant 0 <= i <= |batch|
        invariant |results| == i
        invariant forall j :: 0 <= j < i ==> results[j] == TaskResult(batch[j], resolver(batch[j]))
        invariant position == old(position) + Completed(batch[..i], resolver)
        invariant lookups == old(lookups) + batch[..i]
      {
        var r := Spawn(batch[i], resolver);
        assert batch[..i + 1] == batch[..i] + [batch[i]];
        CompletedAppend(batch[..i], [batch[i]], resolver);
        results := results + [r];
        i := i + 1;
      }
      assert batch[..i] == batch;
    }

    /** Walk the joined results in order and push every `Ok(Some(domain))`. */
    method Collect(results: seq<Joined>)
      modifies this`found
      ensures found == old(found) + Harvest(results)
    {
      var i := 0;
      while i < |results|
        invariant 0 <= i <= |results|
        invariant found == old(found) + Harvest(results[..i])
      {
        assert results[..i + 1] == results[..i] + [results[i]];
        HarvestAppend(results[..i], [results[i]]);
        match results[i] {
          case Joined(Some(domain)) =>
            found := found + [domain];
          case JoinFailed =>
          case Joined(None) =>
        }
        i := i + 1;
      }
      assert results[..i] == results;
    }

    /** One batch: launch, join, collect. */
    method RunBatch(batch: seq<Bytes>, resolver: Resolver)
      modifies this`position, this`found, this`lookups
      ensures found == old(found) + AvailableDomains(batch, resolver)
      ensures position == old(position) + Completed(batch, resolver)
      ensures lookups == old(lookups) + batch
    {
      var results := JoinAll(batch, resolver);
      HarvestTasks(batch, results, resolver);
      Collect(results);
    }

    /** The batch loop: every candidate is looked up once, in order; the
        available ones are appended in candidate order. */
    method ScanAll(candidates: seq<Bytes>, resolver: Resolver)
      modifies this`position, this`found, this`lookups
      ensures found == old(found) + AvailableDomains(candidates, resolver)
      ensures position == old(position) + Completed(candidates, resolver)
      ensures lookups == old(lookups) + candidates
    {
      var batches := Chunks(candidates, BatchSize);
      ghost var done: seq<Bytes> := [];
      assert batches[..0] == [];
      for k := 0 to |batches|
        invariant done == Flatten(batches[..k])
        invariant found == old(found) + AvailableDomains(done, resolver)
        invariant position == old(position) + Completed(done, resolver)
        invariant lookups == old(lookups) + done
      {
        ghost var found0, lookups0 := found, lookups;
        RunBatch(batches[k], resolver);
        assert found == old(found) + (AvailableDomains(done, resolver) + AvailableDomains(batches[k], resolver)) by {
          assert found == found0 + AvailableDomains(batches[k], resolver);
        }
        assert lookups == old(lookups) + (done + batches[k]) by {
          assert lookups == lookups0 + batches[k];
        }
        AvailableAppend(done, batches[k], resolver);
        CompletedAppend(done, batches[k], resolver);
        FlattenPrefix(batches, k);
        done := done + batches[k];
      }
      assert batches[..|batches|] == batches;
    }

    /** `dedup()` then `sort()` on the found list. */
    method Finish()
      modifies this`found
      ensures found == Sort(Dedup(old(found)))
    {
      found := Dedup(found);
      found := Sort(found);
    }
  }

  /** What the run promises about its final list. */
  lemma FinalListSpec(lists: seq<seq<Bytes>>, resolver: Resolver)
    ensures Generate(lists).Some?
    ensures var candidates := Generate(lists).value;
            var final := Sort(Dedup(AvailableDomains(candidates, resolver)));
            && Sorted(final)
            && (forall d :: d in final <==> d in candidates && IsAvailable(resolver(d)))
            && (forall d :: d in final ==> IsCandidateName(d))
            && |final| <= |candidates|
            && (Distinct(candidates) ==> Distinct(final))
  {
    GenerateNeverPanics(lists);
    var candidates := Generate(lists).value;
    var available := AvailableDomains(candidates, resolver);
    var final := Sort(Dedup(available));
    DedupThenSortSpec(available);
    AvailableMembership(candidates, resolver);
    forall d | d in final ensures IsCandidateName(d) {
      GenerateMembership(lists, d);
    }
    if Distinct(candidates) {
      forall d | d in available ensures multiset(available)[d] == 1 {
        AvailableCount(candidates, resolver, d);
      }
      DistinctSurvives(available);
    }
  }

  /** The whole run on word lists that are already read, with the DNS client
      as `resolver`: the final list, the bar's position after the batch loop
      (before `bar.finish()`, which is not modelled) and its length.
      FinalListSpec and CompletedAll say what the results mean. */
  method Run(lists: seq<seq<Bytes>>, resolver: Resolver)
    returns (domains: seq<Bytes>, progress: nat, total: nat, ghost queried: seq<Bytes>)
    ensures Generate(lists).Some?
    ensures queried == Generate(lists).value
    ensures total == |Generate(lists).value| == TotalHacks(lists)
    ensures progress == Completed(Generate(lists).value, resolver) <= total
    ensures domains == Sort(Dedup(AvailableDomains(Generate(lists).value, resolver)))
  {
    GenerateSpec(lists);
    var candidates := Generate(lists).value;
    var search := new Search(|candidates|);
    search.ScanAll(candidates, resolver);
    assert search.found == AvailableDomains(candidates, resolver);
    search.Finish();
    domains, progress, total, queried := search.found, search.position, search.length, search.lookups;
  }
}
