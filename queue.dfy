/**
 * The `node_temporary.queue` service: the scan that queues every mark whose
 * expiry has passed.
 */
module NodeTemporaryQueue {
  import opened Wrappers
  import opened NodeTemporaryEntity
  import opened Storage

  /** The ids in [i, n), in increasing order, of the marks expiring strictly before `now`. */
  function ExpiredFrom(marks: map<MarkId, Mark>, now: Instant, i: nat, n: nat): (r: seq<MarkId>)
    decreases n - i
    ensures forall k :: 0 <= k < |r| ==> i <= r[k] < n && r[k] in marks && marks[r[k]].dateExpire < now
    ensures forall id :: i <= id < n && id in marks && marks[id].dateExpire < now ==> id in r
    ensures forall a, b :: 0 <= a < b < |r| ==> r[a] < r[b]
  {
    if i >= n then []
    else if i in marks && marks[i].dateExpire < now then [i] + ExpiredFrom(marks, now, i + 1, n)
    else ExpiredFrom(marks, now, i + 1, n)
  }

  /**
   * The entity query `condition('date_expire', $now, '<')` with access checks
   * off: every mark, whoever owns it, whose expiry is strictly before `now`,
   * each once.
   */
  function ExpiredMarks(s: Store, now: Instant): (ids: seq<MarkId>)
    requires s.Valid()
    ensures forall id :: id in ids <==> id in s.marks && s.marks[id].dateExpire < now
    ensures forall a, b :: 0 <= a < b < |ids| ==> ids[a] != ids[b]
  {
    ExpiredFrom(s.marks, now, 0, s.nextId)
  }

  /**
   * `queueExpiredNodes` at moment `now`: one item per expired mark is appended
   * to the delete queue; nothing else changes, in particular not the process
   * queue, the marks or the nodes.
   */
  function ScanSpec(s: Store, now: Instant): (r: Store)
    requires s.Valid()
    ensures r.Valid()
    ensures r.(deleteQueue := s.deleteQueue) == s
    ensures |r.deleteQueue| >= |s.deleteQueue| && r.deleteQueue[..|s.deleteQueue|] == s.deleteQueue
    ensures var added := r.deleteQueue[|s.deleteQueue|..];
      && (forall id :: id in added <==> id in s.marks && s.marks[id].dateExpire < now)
      && (forall a, b :: 0 <= a < b < |added| ==> added[a] != added[b])
    ensures (forall id :: id in s.marks ==> now <= s.marks[id].dateExpire) ==> r == s
  {
    var ids := ExpiredMarks(s, now);
    assert (s.deleteQueue + ids)[|s.deleteQueue|..] == ids;
    if |ids| == 0 then s
    else
      assert ids[0] in ids;
      s.(deleteQueue := s.deleteQueue + ids)
  }

  /** A mark expiring exactly at the scan moment, or later, is not queued. */
  lemma BoundaryNotQueued(s: Store, now: Instant, id: MarkId)
    requires s.Valid() && id in s.marks && now <= s.marks[id].dateExpire
    ensures id !in ScanSpec(s, now).deleteQueue[|s.deleteQueue|..]
  {
  }

  /** The scan appends the query result to the delete queue. */
  lemma ScanAppendsExpired(s: Store, now: Instant)
    requires s.Valid()
    ensures ScanSpec(s, now) == s.(deleteQueue := s.deleteQueue + ExpiredMarks(s, now))
  {
  }

  /** The `foreach` of `queueExpiredNodes`: one delete-queue item per id, in order. */
  method CreateDeleteQueueItems(site: Site, ids: seq<MarkId>)
    modifies site
    ensures site.State() == old(site.State()).(deleteQueue := old(site.deleteQueue) + ids)
  {
    for i := 0 to |ids|
      invariant site.State() == old(site.State()).(deleteQueue := old(site.deleteQueue) + ids[..i])
    {
      site.CreateDeleteQueueItem(ids[i]);
      assert ids[..i + 1] == ids[..i] + [ids[i]];
    }
    assert ids[..|ids|] == ids;
  }

  /** `queueExpiredNodes`, changing the site in place. */
  method QueueExpiredNodes(site: Site, now: Instant)
    requires site.Valid()
    modifies site
    ensures site.Valid()
    ensures site.State() == ScanSpec(old(site.State()), now)
  {
    ghost var s0 := site.State();
    var entities := ExpiredMarks(site.State(), now);
    if |entities| > 0 {
      CreateDeleteQueueItems(site, entities);
    }
    ScanAppendsExpired(s0, now);
  }
}
