/**
 * The `node_temporary_process_expired_nodes_queue` worker: deletes or
 * unpublishes the node of an expired mark, then deletes the mark.
 */
module ProcessExpiredNodesQueue {
  import opened Wrappers
  import opened NodeTemporaryEntity
  import opened Storage
  import opened NodeTemporaryHelper
  import opened EntityHook

  /**
   * `processItem(['id' => id])`. A missing mark is a no-op. Otherwise a
   * resolvable parent is deleted when the mark's `delete` field is non-empty
   * (whatever its value) and unpublished when it is empty, with one notice
   * either way; an orphan mark gets no node operation and no notice. The mark
   * is deleted in every case. Only the marks, the nodes and the log can change.
   */
  function ProcessItemSpec(s: Store, id: MarkId): (r: Store)
    requires s.Valid()
    ensures r.Valid()
    ensures r.(marks := s.marks, nodes := s.nodes, log := s.log) == s
    ensures id !in s.marks ==> r == s
    ensures id !in r.marks
    ensures r.marks.Keys <= s.marks.Keys
    ensures forall k :: k in r.marks ==> r.marks[k] == s.marks[k]
    ensures id in s.marks ==>
      var m := s.marks[id];
      var p := m.parent;
      && (p !in s.nodes ==> r.nodes == s.nodes && r.log == s.log && r.marks == s.marks - {id})
      && (p in s.nodes && m.delete.Some? ==>
            && r.nodes == s.nodes - {p}
            && r.log == s.log + [LogEntry(DeletedExpiredNode, p, s.nodes[p].title)])
      && (p in s.nodes && m.delete.None? ==>
            && r.nodes == s.nodes[p := s.nodes[p].(published := false)]
            && r.log == s.log + [LogEntry(UnpublishedExpiredNode, p, s.nodes[p].title)]
            && r.marks == s.marks - {id})
      // any other mark that goes is one the deleted parent took with it
      && (forall k :: k in s.marks && k !in r.marks && k != id ==> s.marks[k].parent == p && p !in r.nodes)
    ensures AtMostOnePerParent(s.marks) ==> r.marks == s.marks - {id} && AtMostOnePerParent(r.marks)
  {
    if id !in s.marks then s
    else
      var m := s.marks[id];
      var acted :=
        if m.parent in s.nodes then
          var node := s.nodes[m.parent];
          if m.delete.Some? then
            var d := NodeDeleteSpec(s, m.parent);
            d.(log := d.log + [LogEntry(DeletedExpiredNode, m.parent, node.title)])
          else
            s.(nodes := s.nodes[m.parent := node.(published := false)],
               log := s.log + [LogEntry(UnpublishedExpiredNode, m.parent, node.title)])
        else s;
      assert AtMostOnePerParent(s.marks) ==> acted.marks - {id} == s.marks - {id} by {
        if AtMostOnePerParent(s.marks) {
          OnlyMark(s.marks, m.parent, id);
        }
      }
      acted.(marks := acted.marks - {id})
  }

  /** A redelivered item finds its mark gone and changes nothing. */
  lemma ProcessItemIdempotent(s: Store, id: MarkId)
    requires s.Valid()
    ensures var r := ProcessItemSpec(s, id);
      r.Valid() && ProcessItemSpec(r, id) == r
  {
  }

  /**
   * A mark the helper creates has `delete` = FALSE, which is not empty, so
   * this worker deletes its node: the unpublish branch is never taken for it.
   */
  lemma ProcessDeletesNodeOfHelperMark(s: Store, nid: NodeId, d: Day)
    requires s.Valid() && AtMostOnePerParent(s.marks)
    requires GetTemporaryEntity(s, nid).None? && nid in s.nodes
    ensures var created := HandleSpec(s, nid, true, Some(d));
      var r := ProcessItemSpec(created, s.nextId);
      && nid !in r.nodes
      && r.log == s.log + [LogEntry(DeletedExpiredNode, nid, s.nodes[nid].title)]
      && r.marks == s.marks
  {
    var created := HandleSpec(s, nid, true, Some(d));
    assert created.marks - {s.nextId} == s.marks;
  }

  /** `processItem`, changing the site in place. */
  method ProcessItem(site: Site, id: MarkId)
    requires site.Valid()
    modifies site
    ensures site.Valid()
    ensures site.State() == ProcessItemSpec(old(site.State()), id)
  {
    if id !in site.marks {
      return;
    }
    var temporary := site.marks[id];
    var parent := temporary.parent;
    if parent in site.nodes {
      var node := site.nodes[parent];
      if temporary.delete.Some? {
        NodeDelete(site, parent);
        site.Notice(LogEntry(DeletedExpiredNode, parent, node.title));
      } else {
        site.SaveNode(parent, node.(published := false));
        site.Notice(LogEntry(UnpublishedExpiredNode, parent, node.title));
      }
    }
    site.DeleteMark(id);
  }
}
