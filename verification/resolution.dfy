/**
 * One lookup per candidate and what becomes of its answer: the body of each
 * spawned task, what awaiting it yields, and which domains are kept.
 */
module Resolution {
  import opened Wrappers
  import opened Text

  /** An address record returned by the resolver. */
  datatype IpAddr = V4(octets: Bytes) | V6(octets: Bytes)

  /** How the lookup of one domain ends. */
  datatype Lookup =
    | Answered(addrs: seq<IpAddr>)  // `query_addrs` returned `Ok(addrs)`
    | QueryFailed(detail: Bytes)    // `query_addrs` returned `Err(e)`
    | TaskPanicked                  // the spawned task panicked inside the lookup

  /** The DNS client, as a function from a domain to the end of its lookup. */
  type Resolver = Bytes -> Lookup

  /** No address record: the domain is taken to be unregistered. */
  predicate IsAvailable(l: Lookup)
  {
    l.Answered? && |l.addrs| == 0
  }

  /** What awaiting one spawned task yields: `Ok(Some(domain))`, `Ok(None)`
      or a `JoinError`. */
  datatype Joined = Joined(value: Option<Bytes>) | JoinFailed

  /** The body of a spawned task: classify the answer. */
  function TaskResult(domain: Bytes, l: Lookup): (r: Joined)
    ensures r == Joined(Some(domain)) <==> IsAvailable(l)
    ensures r.JoinFailed? <==> l.TaskPanicked?
    ensures r.Joined? ==> r.value == Some(domain) || r.value == None
  {
    match l
    case Answered(addrs) => if |addrs| == 0 then Joined(Some(domain)) else Joined(None)
    case QueryFailed(_) => Joined(None)
    case TaskPanicked => JoinFailed
  }

  /** How much a task advances the progress bar: every branch of a task body
      calls `inc(1)` once; a task that panics in the lookup reaches none of them. */
  function Increment(l: Lookup): (k: nat)
    ensures k <= 1
    ensures k == 1 <==> !l.TaskPanicked?
  {
    if l.TaskPanicked? then 0 else 1
  }

  /** The domains pushed while walking the joined results: `Ok(Some(d))` only. */
  function Harvest(results: seq<Joined>): (found: seq<Bytes>)
    ensures |found| <= |results|
  {
    if results == [] then []
    else
      match results[0]
      case Joined(Some(d)) => [d] + Harvest(results[1..])
      case _ => Harvest(results[1..])
  }

  /** The candidates whose lookup found no address, in candidate order. */
  function AvailableDomains(candidates: seq<Bytes>, resolver: Resolver): (found: seq<Bytes>)
    ensures |found| <= |candidates|
  {
    if candidates == [] then []
    else if IsAvailable(resolver(candidates[0])) then
      [candidates[0]] + AvailableDomains(candidates[1..], resolver)
    else AvailableDomains(candidates[1..], resolver)
  }

  /** The number of lookups that advanced the progress bar. */
  function Completed(candidates: seq<Bytes>, resolver: Resolver): (n: nat)
    ensures n <= |candidates|
  {
    if candidates == [] then 0
    else
      Increment(resolver(candidates[0])) + Completed(candidates[1..], resolver)
  }

  /** A domain is kept exactly when it is a candidate whose lookup found no address. */
  lemma {:induction false} AvailableMembership(candidates: seq<Bytes>, resolver: Resolver)
    ensures forall d :: d in AvailableDomains(candidates, resolver) <==> d in candidates && IsAvailable(resolver(d))
  {
    if candidates != [] {
      AvailableMembership(candidates[1..], resolver);
      assert candidates == [candidates[0]] + candidates[1..];
    }
  }

  /** The bar reaches the number of candidates exactly when no task panicked. */
  lemma {:induction false} CompletedAll(candidates: seq<Bytes>, resolver: Resolver)
    ensures Completed(candidates, resolver) == |candidates| <==>
      forall d :: d in candidates ==> !resolver(d).TaskPanicked?
  {
    if candidates != [] {
      CompletedAll(candidates[1..], resolver);
      assert candidates == [candidates[0]] + candidates[1..];
    }
  }

  /** Every occurrence of an available domain is kept and nothing else is. */
  lemma {:induction false} AvailableCount(candidates: seq<Bytes>, resolver: Resolver, d: Bytes)
    ensures multiset(AvailableDomains(candidates, resolver))[d] ==
      if IsAvailable(resolver(d)) then multiset(candidates)[d] else 0
  {
    if candidates != [] {
      assert candidates == [candidates[0]] + candidates[1..];
      AvailableCount(candidates[1..], resolver, d);
    }
  }

  lemma {:induction false} AvailableAppend(a: seq<Bytes>, b: seq<Bytes>, resolver: Resolver)
    ensures AvailableDomains(a + b, resolver) == AvailableDomains(a, resolver) + AvailableDomains(b, resolver)
  {
    if a == [] {
      assert a + b == b;
    } else {
      assert (a + b)[0] == a[0];
      assert (a + b)[1..] == a[1..] + b;
      AvailableAppend(a[1..], b, resolver);
    }
  }

  lemma {:induction false} CompletedAppend(a: seq<Bytes>, b: seq<Bytes>, resolver: Resolver)
    ensures Completed(a + b, resolver) == Completed(a, resolver) + Completed(b, resolver)
  {
    if a == [] {
      assert a + b == b;
    } else {
      assert (a + b)[0] == a[0];
      assert (a + b)[1..] == a[1..] + b;
      CompletedAppend(a[1..], b, resolver);
    }
  }

  lemma {:induction false} HarvestAppend(a: seq<Joined>, b: seq<Joined>)
    ensures Harvest(a + b) == Harvest(a) + Harvest(b)
  {
    if a == [] {
      assert a + b == b;
    } else {
      assert (a + b)[0] == a[0];
      assert (a + b)[1..] == a[1..] + b;
      HarvestAppend(a[1..], b);
    }
  }

  /** Collecting the joined task results keeps exactly the available domains:
      a failed query or a failed join never contributes one. */
  lemma {:induction false} HarvestTasks(candidates: seq<Bytes>, results: seq<Joined>, resolver: Resolver)
    requires |results| == |candidates|
    requires forall i :: 0 <= i < |candidates| ==> results[i] == TaskResult(candidates[i], resolver(candidates[i]))
    ensures Harvest(results) == AvailableDomains(candidates, resolver)
  {
    if candidates != [] {
      HarvestTasks(candidates[1..], results[1..], resolver);
    }
  }
}
