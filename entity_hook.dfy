/**
 * `hook_entity_delete` of the module, and node deletion as Drupal performs
 * it: the node leaves its storage, then the hook runs and the helper removes
 * the node's mark.
 */
module EntityHook {
  import opened Wrappers
  import opened NodeTemporaryEntity
  import opened Storage
  import opened NodeTemporaryHelper

  /** The entity a delete hook receives: a node, or an entity of another type (a mark, say). */
  datatype DeletedEntity = NodeEntity(nid: NodeId) | OtherEntity

  /** `entityDelete`: for a node, `handleTemporaryEntity($node)` with `selected` FALSE. */
  function EntityDeleteSpec(s: Store, e: DeletedEntity): (r: Store)
    requires s.Valid()
    ensures r.Valid()
    ensures e.OtherEntity? ==> r == s
    ensures r.(marks := s.marks) == s
    ensures e.NodeEntity? ==>
      var t := GetTemporaryEntity(s, e.nid);
      r.marks == if t.Some? then s.marks - {t.value} else s.marks
    ensures e.NodeEntity? && e.nid in s.lookupFailures ==> r == s
    ensures e.NodeEntity? ==>
      forall k :: k in s.marks && s.marks[k].parent != e.nid ==> k in r.marks && r.marks[k] == s.marks[k]
  {
    match e
    case NodeEntity(nid) => HandleSpec(s, nid, false, None)
    case OtherEntity => s
  }

  /**
   * The hook keeps at most one mark per node; when the node's lookup does
   * not throw, the deleted node is left with no mark and no other mark is
   * touched.
   */
  lemma NodeEntityDeleteRemovesItsMark(s: Store, nid: NodeId)
    requires s.Valid()
    ensures var r := EntityDeleteSpec(s, NodeEntity(nid));
      && (AtMostOnePerParent(s.marks) ==> AtMostOnePerParent(r.marks))
      && (AtMostOnePerParent(s.marks) && nid !in s.lookupFailures ==>
            && MarksOf(r.marks, nid) == {}
            && r.marks == s.marks - MarksOf(s.marks, nid))
  {
    if AtMostOnePerParent(s.marks) && nid !in s.lookupFailures {
      LookupUnique(s, nid);
      HandleLeavesOneOrNone(s, nid, false, None);
    }
  }

  /** `$node->delete()`: the node is removed, then `hook_entity_delete` runs for it. */
  function NodeDeleteSpec(s: Store, nid: NodeId): (r: Store)
    requires s.Valid()
    ensures r.Valid()
    ensures r.nodes == s.nodes - {nid}
    ensures r.(marks := s.marks, nodes := s.nodes) == s
    ensures r.marks.Keys <= s.marks.Keys
    ensures forall k :: k in r.marks ==> r.marks[k] == s.marks[k]
    ensures forall k :: k in s.marks && k !in r.marks ==> s.marks[k].parent == nid
    ensures AtMostOnePerParent(s.marks) ==> AtMostOnePerParent(r.marks)
    ensures AtMostOnePerParent(s.marks) && nid !in s.lookupFailures ==> r.marks == s.marks - MarksOf(s.marks, nid)
    ensures nid in s.lookupFailures ==> r.marks == s.marks
  {
    var s' := s.(nodes := s.nodes - {nid});
    assert AtMostOnePerParent(s.marks) ==> AtMostOnePerParent(s'.marks);
    NodeEntityDeleteRemovesItsMark(s', nid);
    EntityDeleteSpec(s', NodeEntity(nid))
  }

  /** `entityDelete`, changing the site in place. */
  method EntityDelete(site: Site, e: DeletedEntity)
    requires site.Valid()
    modifies site
    ensures site.Valid()
    ensures site.State() == EntityDeleteSpec(old(site.State()), e)
  {
    if e.NodeEntity? {
      HandleTemporaryEntity(site, e.nid, false, None);
    }
  }

  /** `$node->delete()`, changing the site in place. */
  method NodeDelete(site: Site, nid: NodeId)
    requires site.Valid()
    modifies site
    ensures site.Valid()
    ensures site.State() == NodeDeleteSpec(old(site.State()), nid)
  {
    site.RemoveNode(nid);
    EntityDelete(site, NodeEntity(nid));
  }
}
