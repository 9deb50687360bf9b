/**
 * The `node_temporary.helper` service: looking up a node's mark, creating,
 * updating and removing it, the owner check, the status message and the
 * enabled checks against the module's configuration.
 */
module NodeTemporaryHelper {
  import opened Wrappers
  import opened NodeTemporaryEntity
  import opened Storage

  /** One entry of the `bundles` setting. `enabled` is kept as submitted. */
  datatype BundleSettings = BundleSettings(enabled: int, expireDays: int)

  /** The `node_temporary.settings` configuration object. */
  datatype Config = Config(enabled: int, bundles: map<string, BundleSettings>)

  /** PHP's truth value of a string: everything but "" and "0" is true. */
  predicate PhpTruthy(s: string) {
    s != "" && s != "0"
  }

  /** Mark `k` is the first mark of node `nid`: no smaller id has that parent. */
  ghost predicate IsFirstMark(marks: map<MarkId, Mark>, nid: NodeId, k: MarkId) {
    && k in marks && marks[k].parent == nid
    && forall j :: j in marks && j < k ==> marks[j].parent != nid
  }

  /** The first mark of `nid` among the ids in [i, n), in id order. */
  function FirstFrom(marks: map<MarkId, Mark>, nid: NodeId, i: nat, n: nat): (r: Option<MarkId>)
    decreases n - i
    ensures r.Some? ==> i <= r.value < n && r.value in marks && marks[r.value].parent == nid
    ensures r.Some? ==> forall j :: i <= j < r.value && j in marks ==> marks[j].parent != nid
    ensures r.None? ==> forall j :: i <= j < n && j in marks ==> marks[j].parent != nid
  {
    if i >= n then None
    else if i in marks && marks[i].parent == nid then Some(i)
    else FirstFrom(marks, nid, i + 1, n)
  }

  /**
   * `getTemporaryEntity`: `reset()` of `loadByProperties(['parent' => nid])`,
   * the first matching mark in id order, or none when nothing matches or the
   * storage call throws (the node is in `lookupFailures`).
   */
  function GetTemporaryEntity(s: Store, nid: NodeId): (r: Option<MarkId>)
    ensures nid in s.lookupFailures ==> r.None?
    ensures r.Some? ==> IsFirstMark(s.marks, nid, r.value)
    ensures s.Valid() && nid !in s.lookupFailures && r.None? ==> MarksOf(s.marks, nid) == {}
  {
    if nid in s.lookupFailures then None else FirstFrom(s.marks, nid, 0, s.nextId)
  }

  /** With at most one mark per node, the lookup finds exactly the node's mark. */
  lemma LookupUnique(s: Store, nid: NodeId)
    requires s.Valid() && AtMostOnePerParent(s.marks) && nid !in s.lookupFailures
    ensures var t := GetTemporaryEntity(s, nid);
      MarksOf(s.marks, nid) == if t.Some? then {t.value} else {}
  {
    var t := GetTemporaryEntity(s, nid);
    if t.Some? {
      forall k | k in MarksOf(s.marks, nid) ensures k == t.value {
        assert s.marks[k].parent == s.marks[t.value].parent;
      }
    }
  }

  /**
   * `isEnabled`: with no (or a falsy) bundle name, the global `enabled`
   * setting; otherwise the bundle's own `enabled` setting, false when there
   * are no bundle settings or none for that bundle.
   */
  function IsEnabled(config: Config, bundle: string): (r: bool)
    ensures !PhpTruthy(bundle) ==> (r <==> config.enabled != 0)
    ensures PhpTruthy(bundle) ==> (r <==> bundle in config.bundles && config.bundles[bundle].enabled != 0)
  {
    if !PhpTruthy(bundle) then config.enabled != 0
    else if |config.bundles| == 0 then false
    else bundle in config.bundles && config.bundles[bundle].enabled != 0
  }

  /** The per-bundle check never consults the global flag. */
  lemma BundleCheckIgnoresGlobalFlag(config: Config, bundle: string, globalFlag: int)
    requires PhpTruthy(bundle)
    ensures IsEnabled(config.(enabled := globalFlag), bundle) == IsEnabled(config, bundle)
  {
  }

  /** `isOwner`: the mark's owner resolves to a user whose id is the current user's. */
  function IsOwner(m: Mark, users: set<UserId>, currentUser: UserId): (r: bool)
    ensures r <==> m.uid == Some(currentUser) && currentUser in users
  {
    var owner := GetUser(m, users);
    if owner.None? then false
    else owner.value == currentUser
  }

  /**
   * Which message `getMessage` builds: none without a mark, the owner's
   * variant, or the other-user variant naming the owner. `NullOwnerError`
   * is the PHP Error raised by `getUser()->getAccountName()` on NULL.
   */
  datatype Message =
    | NoMessage
    | OwnerMessage(expire: Instant)
    | OtherUserMessage(owner: Option<UserId>, expire: Instant)
    | NullOwnerError

  /** `getMessage`, as written: the other-user branch dereferences the owner unchecked. */
  function GetMessage(s: Store, nid: NodeId): (msg: Message)
    ensures var t := GetTemporaryEntity(s, nid);
      && (msg.NoMessage? <==> t.None?)
      && (msg.OwnerMessage? <==> t.Some? && IsOwner(s.marks[t.value], s.users, s.currentUser))
      && (msg.NullOwnerError? <==> t.Some? && GetUser(s.marks[t.value], s.users).None?)
      && (msg.OwnerMessage? || msg.OtherUserMessage? ==> msg.expire == s.marks[t.value].dateExpire)
      && (msg.OtherUserMessage? ==> msg.owner == GetUser(s.marks[t.value], s.users))
      && (msg.OtherUserMessage? ==> msg.owner.Some? && msg.owner.value != s.currentUser)
  {
    match GetTemporaryEntity(s, nid)
    case None => NoMessage
    case Some(k) =>
      var m := s.marks[k];
      if IsOwner(m, s.users, s.currentUser) then OwnerMessage(m.dateExpire)
      else match GetUser(m, s.users)
        case Some(u) => OtherUserMessage(Some(u), m.dateExpire)
        case None => NullOwnerError
  }

  /** A mark whose owner account no longer exists makes `getMessage` fail. */
  lemma GetMessageFailsForMissingOwner()
    ensures var s := Store(map[1 := Mark(Some(5), 7, 0, Some(false), None)], 2, map[], {}, 0, 0, {}, [], [], []);
      GetMessage(s, 7) == NullOwnerError
  {
    var s := Store(map[1 := Mark(Some(5), 7, 0, Some(false), None)], 2, map[], {}, 0, 0, {}, [], [], []);
    assert FirstFrom(s.marks, 7, 1, 2) == Some(1);
  }

  /** `getMessage` with the owner checked before use: an absent owner gets the other-user variant without a name. */
  function GetMessageGuarded(s: Store, nid: NodeId): (msg: Message)
    ensures !msg.NullOwnerError?
    ensures msg.NoMessage? <==> GetTemporaryEntity(s, nid).None?
    ensures !(GetMessage(s, nid).NullOwnerError?) ==> msg == GetMessage(s, nid)
  {
    match GetTemporaryEntity(s, nid)
    case None => NoMessage
    case Some(k) =>
      var m := s.marks[k];
      if IsOwner(m, s.users, s.currentUser) then OwnerMessage(m.dateExpire)
      else OtherUserMessage(GetUser(m, s.users), m.dateExpire)
  }

  /**
   * The effect of `handleTemporaryEntity(node, selected, date)` on the store.
   * `date` is the helper's string argument as far as it matters: None when
   * it is falsy, otherwise the day PHP's DateTime reads from it, of which the
   * helper keeps 00:00:00 UTC.
   */
  function HandleSpec(s: Store, nid: NodeId, selected: bool, date: Option<Day>): (r: Store)
    requires s.Valid()
    ensures r.Valid()
    // only the mark store changes
    ensures r.(marks := s.marks, nextId := s.nextId) == s
    ensures var t := GetTemporaryEntity(s, nid);
      // create: one new mark, for this node, with the field defaults
      && (selected && date.Some? && t.None? ==>
            && s.nextId !in s.marks
            && r.marks.Keys == s.marks.Keys + {s.nextId}
            && r.marks[s.nextId].parent == nid
            && r.marks[s.nextId].dateExpire == Midnight(date.value)
            && r.marks[s.nextId].delete == Some(false)
            && r.marks[s.nextId].uid == Some(s.currentUser)
            && r.marks[s.nextId].created == Some(s.requestTime)
            && forall k :: k in s.marks ==> r.marks[k] == s.marks[k])
      // update: only date_expire of the found mark changes
      && (selected && date.Some? && t.Some? ==>
            && r.marks.Keys == s.marks.Keys
            && r.marks[t.value] == s.marks[t.value].(dateExpire := Midnight(date.value))
            && forall k :: k in s.marks && k != t.value ==> r.marks[k] == s.marks[k])
      // remove: the first mark of the node goes, if there is one
      && (!(selected && date.Some?) ==>
            r.marks == if t.Some? then s.marks - {t.value} else s.marks)
    // a mark is created only when the lookup found none: the node had none, or the lookup threw
    ensures r.marks.Keys - s.marks.Keys != {} ==>
      selected && date.Some? && (nid in s.lookupFailures || MarksOf(s.marks, nid) == {})
    ensures AtMostOnePerParent(s.marks) && nid !in s.lookupFailures ==> AtMostOnePerParent(r.marks)
  {
    var t := GetTemporaryEntity(s, nid);
    if selected && date.Some? then
      var expire := Midnight(date.value);
      if t.Some? then
        s.(marks := s.marks[t.value := s.marks[t.value].(dateExpire := expire)])
      else
        s.(marks := s.marks[s.nextId := Create(nid, expire, s.currentUser, s.requestTime)],
           nextId := s.nextId + 1)
    else if t.Some? then
      s.(marks := s.marks - {t.value})
    else
      s
  }

  /** Under the invariant, a node that has mark `k` has no other. */
  lemma OnlyMark(marks: map<MarkId, Mark>, nid: NodeId, k: MarkId)
    requires AtMostOnePerParent(marks) && k in marks && marks[k].parent == nid
    ensures MarksOf(marks, nid) == {k}
  {
    forall j | j in MarksOf(marks, nid) ensures j == k {
      assert marks[j].parent == marks[k].parent;
    }
  }

  /**
   * The store keeps at most one mark per node, and afterwards the node has a
   * mark exactly when it was selected with a date.
   */
  lemma HandleLeavesOneOrNone(s: Store, nid: NodeId, selected: bool, date: Option<Day>)
    requires s.Valid() && AtMostOnePerParent(s.marks) && nid !in s.lookupFailures
    ensures var r := HandleSpec(s, nid, selected, date);
      |MarksOf(r.marks, nid)| == if selected && date.Some? then 1 else 0
  {
    var r := HandleSpec(s, nid, selected, date);
    var t := GetTemporaryEntity(s, nid);
    LookupUnique(s, nid);
    if selected && date.Some? {
      var k := if t.Some? then t.value else s.nextId;
      OnlyMark(r.marks, nid, k);
    } else {
      assert MarksOf(r.marks, nid) == {};
    }
  }

  /** The owner who schedules a node sees the owner message with the date chosen. */
  lemma OwnerSeesOwnSchedule(s: Store, nid: NodeId, d: Day)
    requires s.Valid() && AtMostOnePerParent(s.marks) && nid !in s.lookupFailures
    requires GetTemporaryEntity(s, nid).None? && s.currentUser in s.users
    ensures GetMessage(HandleSpec(s, nid, true, Some(d)), nid) == OwnerMessage(Midnight(d))
  {
    var r := HandleSpec(s, nid, true, Some(d));
    OnlyMark(r.marks, nid, s.nextId);
    LookupUnique(r, nid);
  }

  /** Clearing twice is clearing once, when no node has two marks. */
  lemma RemoveIsIdempotent(s: Store, nid: NodeId)
    requires s.Valid() && AtMostOnePerParent(s.marks)
    ensures var r := HandleSpec(s, nid, false, None);
      r.Valid() && HandleSpec(r, nid, false, None) == r
  {
    if nid !in s.lookupFailures {
      HandleLeavesOneOrNone(s, nid, false, None);
    }
  }

  /**
   * When the lookup throws, a node that already has mark `k` gets a second
   * mark on scheduling, and keeps `k` on removal.
   */
  lemma FailedLookupBreaksUniqueness(s: Store, nid: NodeId, k: MarkId, d: Day)
    requires s.Valid() && nid in s.lookupFailures && k in s.marks && s.marks[k].parent == nid
    ensures var r := HandleSpec(s, nid, true, Some(d));
      k != s.nextId && {k, s.nextId} <= MarksOf(r.marks, nid) && !AtMostOnePerParent(r.marks)
    ensures HandleSpec(s, nid, false, None) == s
  {
    var r := HandleSpec(s, nid, true, Some(d));
    assert r.marks[k].parent == r.marks[s.nextId].parent;
  }

  /** `handleTemporaryEntity`, changing the site in place. */
  method HandleTemporaryEntity(site: Site, nid: NodeId, selected: bool, date: Option<Day>)
    requires site.Valid()
    modifies site
    ensures site.Valid()
    ensures site.State() == HandleSpec(old(site.State()), nid, selected, date)
  {
    var temporary := GetTemporaryEntity(site.State(), nid);
    if selected && date.Some? {
      var expire := Midnight(date.value);
      if temporary.Some? {
        site.UpdateMark(temporary.value, site.marks[temporary.value].(dateExpire := expire));
      } else {
        var id := site.InsertMark(Create(nid, expire, site.currentUser, site.requestTime));
      }
    } else if temporary.Some? {
      site.DeleteMark(temporary.value);
    }
  }
}
