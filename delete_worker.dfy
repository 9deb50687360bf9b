/**
 * The `node_temporary_delete_expired_nodes_queue` worker, the queue the scan
 * feeds: deletes the node of an expired mark whatever its `delete` flag says,
 * then deletes the mark.
 */
module DeleteExpiredNodesQueue {
  import opened Wrappers
  import opened NodeTemporaryEntity
  import opened Storage
  import opened NodeTemporaryHelper
  import opened EntityHook
  import opened NodeTemporaryQueue

  /**
   * `processItem(['id' => id])`. A missing mark is a no-op. Otherwise a
   * resolvable parent is deleted, with one notice; an orphan mark gets no
   * node operation and no notice. The mark is deleted in every case. Only the
   * marks, the nodes and the log can change.
   */
  function DeleteItemSpec(s: Store, id: MarkId): (r: Store)
    requires s.Valid()
    ensures r.Valid()
    ensures r.(marks := s.marks, nodes := s.nodes, log := s.log) == s
    ensures id !in s.marks ==> r == s
    ensures id !in r.marks
    ensures r.marks.Keys <= s.marks.Keys
    ensures forall k :: k in r.marks ==> r.marks[k] == s.marks[k]
    ensures r.nodes.Keys <= s.nodes.Keys
    ensures id in s.marks ==>
      var p := s.marks[id].parent;
      && p !in r.nodes
      && r.nodes == s.nodes - {p}
      && (p in s.nodes ==> r.log == s.log + [LogEntry(DeletedExpiredNode, p, s.nodes[p].title)])
      && (p !in s.nodes ==> r.log == s.log && r.marks == s.marks - {id})
      // any other mark that goes is one the deleted parent took with it
      && (forall k :: k in s.marks && k !in r.marks && k != id ==> s.marks[k].parent == p)
    ensures AtMostOnePerParent(s.marks) ==> r.marks == s.marks - {id} && AtMostOnePerParent(r.marks)
  {
    if id !in s.marks then s
    else
      var m := s.marks[id];
      var acted :=
        if m.parent in s.nodes then
          var node := s.nodes[m.parent];
          var d := NodeDeleteSpec(s, m.parent);
          d.(log := d.log + [LogEntry(DeletedExpiredNode, m.parent, node.title)])
        else s;
      assert AtMostOnePerParent(s.marks) ==> acted.marks - {id} == s.marks - {id} by {
        if AtMostOnePerParent(s.marks) {
          OnlyMark(s.marks, m.parent, id);
        }
      }
      acted.(marks := acted.marks - {id})
  }

  /** A redelivered item finds its mark gone and changes nothing. */
  lemma DeleteItemIdempotent(s: Store, id: MarkId)
    requires s.Valid()
    ensures var r := DeleteItemSpec(s, id);
      r.Valid() && DeleteItemSpec(r, id) == r
  {
  }

  /**
   * Cron's run of this queue, which is Drupal's queue runner and not part of
   * the module: take the head item, process it, drop it, until the queue is
   * empty.
   */
  function DrainDeleteQueue(s: Store): (r: Store)
    requires s.Valid()
    decreases |s.deleteQueue|
    ensures r.Valid() && r.deleteQueue == []
  {
    if s.deleteQueue == [] then s
    else DrainDeleteQueue(DeleteItemSpec(s.(deleteQueue := s.deleteQueue[1..]), s.deleteQueue[0]))
  }

  /** The parent nodes of the queued marks that exist. */
  function QueuedParents(s: Store): set<NodeId> {
    set id | id in s.deleteQueue && id in s.marks :: s.marks[id].parent
  }

  /** Draining only removes marks, and removes every queued one. */
  lemma {:induction false} DrainRemovesQueuedMarks(s: Store)
    requires s.Valid()
    decreases |s.deleteQueue|
    ensures var r := DrainDeleteQueue(s);
      && r.marks.Keys <= s.marks.Keys
      && (forall k :: k in r.marks ==> r.marks[k] == s.marks[k])
      && (forall id :: id in s.deleteQueue ==> id !in r.marks)
  {
    if s.deleteQueue != [] {
      var s1 := DeleteItemSpec(s.(deleteQueue := s.deleteQueue[1..]), s.deleteQueue[0]);
      assert s1.deleteQueue == s.deleteQueue[1..];
      DrainRemovesQueuedMarks(s1);
      assert DrainDeleteQueue(s) == DrainDeleteQueue(s1);
    }
  }

  /**
   * One item of the drain: the nodes it deletes, together with those the
   * rest of the queue still names, are the ones the whole queue names.
   */
  lemma DeleteStepParents(s: Store)
    requires s.Valid() && s.deleteQueue != []
    ensures var s1 := DeleteItemSpec(s.(deleteQueue := s.deleteQueue[1..]), s.deleteQueue[0]);
      s1.nodes - QueuedParents(s1) == s.nodes - QueuedParents(s)
  {
    var x := s.deleteQueue[0];
    var s1 := DeleteItemSpec(s.(deleteQueue := s.deleteQueue[1..]), x);
    assert s1.deleteQueue == s.deleteQueue[1..];
    var deleted := if x in s.marks then {s.marks[x].parent} else {};
    assert s1.nodes == s.nodes - deleted;
    assert QueuedParents(s1) <= QueuedParents(s) by {
      forall p | p in QueuedParents(s1) ensures p in QueuedParents(s) {
        var id :| id in s1.deleteQueue && id in s1.marks && s1.marks[id].parent == p;
        assert id in s.deleteQueue;
      }
    }
    assert QueuedParents(s) <= QueuedParents(s1) + deleted by {
      forall p | p in QueuedParents(s) ensures p in QueuedParents(s1) + deleted {
        var id :| id in s.deleteQueue && id in s.marks && s.marks[id].parent == p;
        if id != x && id in s1.marks {
          assert id in s1.deleteQueue;
        }
      }
    }
    assert x in s.marks ==> s.marks[x].parent in QueuedParents(s);
    SetDifferenceStep(s.nodes.Keys, deleted, QueuedParents(s), QueuedParents(s1));
  }

  /** Removing `d` and then `b` is removing `a`, when `d` and `b` together make up `a`. */
  lemma SetDifferenceStep(n: set<NodeId>, d: set<NodeId>, a: set<NodeId>, b: set<NodeId>)
    requires b <= a && d <= a && a <= b + d
    ensures (n - d) - b == n - a
  {
  }

  /** Draining deletes exactly the parent nodes of the queued marks that exist. */
  lemma {:induction false} DrainDeletesQueuedParents(s: Store)
    requires s.Valid()
    decreases |s.deleteQueue|
    ensures DrainDeleteQueue(s).nodes == s.nodes - QueuedParents(s)
  {
    if s.deleteQueue != [] {
      var s1 := DeleteItemSpec(s.(deleteQueue := s.deleteQueue[1..]), s.deleteQueue[0]);
      assert s1.deleteQueue == s.deleteQueue[1..];
      DrainDeletesQueuedParents(s1);
      DeleteStepParents(s);
      assert DrainDeleteQueue(s) == DrainDeleteQueue(s1);
    }
  }

  /**
   * Draining retires every queued mark, deletes exactly the parent nodes of
   * the queued marks and leaves every other node as it was, and otherwise
   * only removes marks: nothing is added back or changed.
   */
  lemma DrainRetiresQueuedMarks(s: Store)
    requires s.Valid()
    ensures var r := DrainDeleteQueue(s);
      && r.marks.Keys <= s.marks.Keys
      && (forall k :: k in r.marks ==> r.marks[k] == s.marks[k])
      && (forall id :: id in s.deleteQueue ==> id !in r.marks)
      && r.nodes == s.nodes - QueuedParents(s)
  {
    DrainRemovesQueuedMarks(s);
    DrainDeletesQueuedParents(s);
  }

  /**
   * A scan at `now`, then a drain of the delete queue, leaves none of the
   * marks that had expired at `now`, and none of their nodes.
   */
  lemma ScanThenDrainRetiresExpired(s: Store, now: Instant)
    requires s.Valid()
    ensures var r := DrainDeleteQueue(ScanSpec(s, now));
      forall id :: id in s.marks && s.marks[id].dateExpire < now ==>
        id !in r.marks && s.marks[id].parent !in r.nodes
  {
    var t := ScanSpec(s, now);
    DrainRetiresQueuedMarks(t);
    forall id | id in s.marks && s.marks[id].dateExpire < now
      ensures id in t.deleteQueue
    {
      assert id in t.deleteQueue[|s.deleteQueue|..];
    }
  }

  /** `processItem`, changing the site in place. */
  method DeleteItem(site: Site, id: MarkId)
    requires site.Valid()
    modifies site
    ensures site.Valid()
    ensures site.State() == DeleteItemSpec(old(site.State()), id)
  {
    if id !in site.marks {
      return;
    }
    var temporary := site.marks[id];
    var parent := temporary.parent;
    if parent in site.nodes {
      var node := site.nodes[parent];
      NodeDelete(site, parent);
      site.Notice(LogEntry(DeletedExpiredNode, parent, node.title));
    }
    site.DeleteMark(id);
  }
}
