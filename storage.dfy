/**
 * The site state the module reads and writes through Drupal's services: the
 * `node_temporary` entity storage, the node storage, the user storage, the two
 * worker queues and the `node_temporary` logger channel, plus the request
 * context (current user, request time) that entity defaults read.
 *
 * `lookupFailures` holds the nodes for which the mark storage throws when
 * asked for the node's marks (`loadByProperties`); it is part of the
 * environment and no operation changes it.
 *
 * `Store` is that state as a value, for the specification functions of the
 * other modules; `Site` is the same state as an object, for the methods that
 * change it in place.
 */
module Storage {
  import opened Wrappers
  import opened NodeTemporaryEntity

  /** A node as far as this module uses it. */
  datatype Node = Node(bundle: string, title: string, published: bool)

  datatype LogKind = DeletedExpiredNode | UnpublishedExpiredNode

  /** One notice on the `node_temporary` channel: its kind, then `@nid` and `@label` (the title). */
  datatype LogEntry = LogEntry(kind: LogKind, nid: NodeId, title: string)

  datatype Store = Store(
    marks: map<MarkId, Mark>,
    nextId: MarkId,
    nodes: map<NodeId, Node>,
    users: set<UserId>,
    currentUser: UserId,
    requestTime: Instant,
    lookupFailures: set<NodeId>,
    log: seq<LogEntry>,
    deleteQueue: seq<MarkId>,
    processQueue: seq<MarkId>)
  {
    /** Mark ids are handed out in increasing order: every id in use is below `nextId`. */
    ghost predicate Valid() {
      forall id :: id in marks ==> id < nextId
    }
  }

  /** The marks whose parent is node `nid`. */
  function MarksOf(marks: map<MarkId, Mark>, nid: NodeId): set<MarkId> {
    set k | k in marks && marks[k].parent == nid
  }

  /** The invariant the helper is meant to keep: no node has two marks. */
  ghost predicate AtMostOnePerParent(marks: map<MarkId, Mark>) {
    forall a, b :: a in marks && b in marks && marks[a].parent == marks[b].parent ==> a == b
  }

  class Site {
    var marks: map<MarkId, Mark>
    var nextId: MarkId
    var nodes: map<NodeId, Node>
    var users: set<UserId>
    var currentUser: UserId
    var requestTime: Instant
    var lookupFailures: set<NodeId>
    var log: seq<LogEntry>
    var deleteQueue: seq<MarkId>
    var processQueue: seq<MarkId>

    function State(): Store
      reads this
    {
      Store(marks, nextId, nodes, users, currentUser, requestTime, lookupFailures, log, deleteQueue, processQueue)
    }

    ghost predicate Valid()
      reads this
    {
      State().Valid()
    }

    /** A site with the given nodes, users and lookup failures, no marks, empty queues and an empty log. */
    constructor (nodes: map<NodeId, Node>, users: set<UserId>, currentUser: UserId, requestTime: Instant,
                 lookupFailures: set<NodeId>)
      ensures Valid()
      ensures State() == Store(map[], 1, nodes, users, currentUser, requestTime, lookupFailures, [], [], [])
    {
      this.marks := map[];
      this.nextId := 1;
      this.nodes := nodes;
      this.users := users;
      this.currentUser := currentUser;
      this.requestTime := requestTime;
      this.lookupFailures := lookupFailures;
      this.log := [];
      this.deleteQueue := [];
      this.processQueue := [];
    }

    /** Entity storage `save()` of a new mark: it receives the next serial id. */
    method InsertMark(m: Mark) returns (id: MarkId)
      requires Valid()
      modifies this
      ensures Valid()
      ensures id == old(nextId) && id !in old(marks)
      ensures State() == old(State()).(marks := old(marks)[id := m], nextId := id + 1)
    {
      id := nextId;
      marks := marks[id := m];
      nextId := nextId + 1;
    }

    /** Entity storage `save()` of an existing mark. */
    method UpdateMark(id: MarkId, m: Mark)
      requires Valid() && id in marks
      modifies this
      ensures Valid()
      ensures State() == old(State()).(marks := old(marks)[id := m])
    {
      marks := marks[id := m];
    }

    /**
     * Entity `delete()` of a mark. Deleting a mark that is already gone
     * removes nothing. The `entity_delete` hook that follows receives a
     * non-node entity and changes nothing (EntityHook.EntityDeleteSpec).
     */
    method DeleteMark(id: MarkId)
      requires Valid()
      modifies this
      ensures Valid()
      ensures State() == old(State()).(marks := old(marks) - {id})
    {
      marks := marks - {id};
    }

    /** Node storage removal, the part of `$node->delete()` before its hooks run. */
    method RemoveNode(nid: NodeId)
      modifies this
      ensures State() == old(State()).(nodes := old(nodes) - {nid})
    {
      nodes := nodes - {nid};
    }

    /** `$node->save()` of a node already in storage. */
    method SaveNode(nid: NodeId, n: Node)
      requires nid in nodes
      modifies this
      ensures State() == old(State()).(nodes := old(nodes)[nid := n])
    {
      nodes := nodes[nid := n];
    }

    /** `$this->logger->get('node_temporary')->notice(...)`. */
    method Notice(e: LogEntry)
      modifies this
      ensures State() == old(State()).(log := old(log) + [e])
    {
      log := log + [e];
    }

    /** `createItem(['id' => id])` on `node_temporary_delete_expired_nodes_queue`. */
    method CreateDeleteQueueItem(id: MarkId)
      modifies this
      ensures State() == old(State()).(deleteQueue := old(deleteQueue) + [id])
    {
      deleteQueue := deleteQueue + [id];
    }
  }
}
