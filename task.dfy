/** The scheduled task (classes/task/block_mysites_task.php): one tick works
    the transfer queue and then purges stale cached lists, unless the plugin
    is not configured. */
module Task {
  import opened Status
  import opened Config
  import opened Queue
  import JobQueue
  import Lists

  /** Cached lists older than this many minutes are purged each tick. */
  const StaleMinutes: int := 5

  /** execute (classes/task/block_mysites_task.php:55-69). order is the
      selection the database answers; selectThrows stands for that query
      raising, which process_queue does not catch and execute swallows. */
  method Execute(queue: JobQueue.TransferQueue, cache: Lists.ListCache, cfg: Option<Config>, courses: set<int>,
                 order: seq<JobKey>, world: JobKey -> JobWorld, selectThrows: bool, now: int)
    requires IsSelection(queue.rows, order)
    modifies queue, cache
    ensures !Configured(cfg) ==> queue.State() == old(queue.State()) && cache.entries == old(cache.entries)
    ensures Configured(cfg) && selectThrows ==> queue.State() == old(queue.State())
    ensures Configured(cfg) && !selectThrows ==>
      queue.State() == Tick(old(queue.State()), cfg.value, courses, old(queue.rows), order, world)
    ensures Configured(cfg) ==>
      cache.entries == Lists.WithoutStale(old(cache.entries), now - StaleMinutes * Lists.MinuteSeconds)
    ensures old(queue.Valid()) ==> queue.Valid()
  {
    if !Configured(cfg) {
      return;
    }
    if !selectThrows {
      queue.ProcessQueue(cfg.value, courses, order, world);
    }
    cache.ClearStale(now, StaleMinutes);
  }
}
