/**
 * The store over the life of the service: it starts empty, each accepted
 * POST appends to it, each DELETE empties it, and after every change it is
 * saved so that a restart loads it back.
 */
module Service {
  import opened Wrappers
  import opened Events
  import opened Ingestion
  import opened Queries

  /** A request that changes the store: a submission with its clock reading, or clearing. */
  datatype Request =
    | Post(sub: Submission, stamp: string)
    | Delete

  /** The store after one request. */
  function Apply(store: seq<Event>, req: Request): seq<Event> {
    match req
    case Post(sub, stamp) => AddEvents(store, sub, stamp).store
    case Delete => Clear(store)
  }

  /** The store after a sequence of requests, applied in order. */
  function Run(store: seq<Event>, reqs: seq<Request>): seq<Event>
    decreases |reqs|
  {
    if reqs == [] then store else Run(Apply(store, reqs[0]), reqs[1..])
  }

  /** Every request keeps the records of the store well formed. */
  lemma ApplyKeepsWellFormed(store: seq<Event>, req: Request)
    requires WellFormedStore(store)
    ensures WellFormedStore(Apply(store, req))
  {
    if req.Post? {
      AddEventsKeepsWellFormed(store, req.sub, req.stamp);
    }
  }

  /** Any sequence of requests keeps the records of the store well formed. */
  lemma {:induction false} RunKeepsWellFormed(store: seq<Event>, reqs: seq<Request>)
    requires WellFormedStore(store)
    ensures WellFormedStore(Run(store, reqs))
    decreases |reqs|
  {
    if reqs != [] {
      ApplyKeepsWellFormed(store, reqs[0]);
      RunKeepsWellFormed(Apply(store, reqs[0]), reqs[1..]);
    }
  }

  /**
   * Whatever requests the service has handled since it started with an
   * empty store, the document it saved last loads back as the same store.
   */
  lemma SavedStoreReloads(reqs: seq<Request>)
    ensures Restore(Snapshot(Run([], reqs))) == Some(Run([], reqs))
  {
    RunKeepsWellFormed([], reqs);
    SnapshotRoundTrip(Run([], reqs));
  }
}
