/** The periodic sweep of player states marked for removal (tasks/CacheCleanTask.java). */
module CacheCleaning {
  import opened RebusTypes
  import opened PlayerCaches

  /**
   * `run`: with nothing marked it returns at once; otherwise it walks a snapshot of the marked
   * set, removing the state of each marked id that has one and unmarking every id.
   */
  method Run(m: PlayerCacheManager)
    modifies m
    ensures m.marked == {}
    ensures m.data == old(m.data) - old(m.marked)
  {
    var empty := m.IsMarkedForRemovalEmpty();
    if empty {
      return;
    }
    var snapshot := m.GetMarkedForRemovalSet();
    var pending := snapshot;
    while pending != {}
      invariant pending <= snapshot
      invariant m.marked == pending
      invariant m.data == old(m.data) - (snapshot - pending)
      decreases pending
    {
      var p :| p in pending;
      var cache := m.Get(p);
      if cache.None? {
        m.UnmarkForRemoval(p);
      } else {
        m.Remove(p);
        m.UnmarkForRemoval(p);
      }
      pending := pending - {p};
    }
  }

  /** What a sweep leaves: no marked id keeps a state, and every unmarked id keeps exactly the state it had. */
  lemma SweepKeepsUnmarked(data: map<PlayerId, PlayerCache>, marked: set<PlayerId>)
    ensures forall p | p in marked :: p !in data - marked
    ensures forall p | p !in marked :: (p in data - marked <==> p in data) && (p in data ==> (data - marked)[p] == data[p])
  {
  }
}
