/**
 * The `node_temporary` content entity: the mark that makes one node temporary.
 *
 * Datetimes are whole seconds since 1970-01-01T00:00:00 UTC. The source stores
 * them as fixed-width 'Y-m-d\TH:i:s' strings and dates as 'Y-m-d' strings; for
 * those formats lexicographic order is chronological order, so comparing the
 * numbers is comparing the strings.
 */
module NodeTemporaryEntity {
  import opened Wrappers

  type NodeId = nat
  type MarkId = nat
  type UserId = nat

  /** A moment, in seconds since the Unix epoch, UTC. */
  type Instant = int

  /** A calendar day, as the number of days since 1970-01-01 (UTC). */
  type Day = int

  const SecondsPerDay: int := 86400

  /** 00:00:00 UTC of day `d`, what `setTime(0, 0, 0)` produces. */
  function Midnight(d: Day): (t: Instant)
    ensures t % SecondsPerDay == 0 && t / SecondsPerDay == d
    ensures d >= 0 ==> t >= 0
  {
    d * SecondsPerDay
  }

  /** The UTC day a moment falls on, what formatting it as 'Y-m-d' shows. */
  function DayOf(t: Instant): (d: Day)
    ensures Midnight(d) <= t < Midnight(d + 1)
  {
    t / SecondsPerDay
  }

  lemma DayOfMidnight(d: Day)
    ensures DayOf(Midnight(d)) == d
  {
    assert Midnight(d) <= Midnight(d) < Midnight(d + 1);
  }

  /** `modify('+1 day')` moves a moment to the next calendar day. */
  lemma DayOfNextDay(t: Instant)
    ensures DayOf(t + SecondsPerDay) == DayOf(t) + 1
  {
    var d := DayOf(t);
    assert Midnight(d + 1) <= t + SecondsPerDay < Midnight(d + 2);
  }

  /**
   * One mark, with the base fields the entity declares. `parent` is a
   * required reference to a node, so it always holds a node id (the node may
   * since have been deleted); `date_expire` is a required datetime. `delete`
   * is a boolean field that may be empty, hence an Option: the workers test
   * its emptiness, not its value. `uid` and `created` may be unset.
   * The uuid, langcode and changed fields are framework bookkeeping.
   */
  datatype Mark = Mark(
    uid: Option<UserId>,
    parent: NodeId,
    dateExpire: Instant,
    delete: Option<bool>,
    created: Option<Instant>)

  /**
   * `NodeTemporaryEntity::create(['parent' => ..., 'date_expire' => ...])`:
   * the unnamed fields take their defaults, `delete` FALSE, `uid` the
   * current user (getCurrentUserId) and `created` the request time.
   */
  function Create(parent: NodeId, dateExpire: Instant, currentUser: UserId, requestTime: Instant): (m: Mark)
    ensures m.parent == parent && m.dateExpire == dateExpire
    ensures m.delete == Some(false)
    ensures m.uid == Some(currentUser) && m.created == Some(requestTime)
  {
    Mark(Some(currentUser), parent, dateExpire, Some(false), Some(requestTime))
  }

  /** `getUser`: the owner, when `uid` refers to an existing user entity. */
  function GetUser(m: Mark, users: set<UserId>): (owner: Option<UserId>)
    ensures owner.Some? <==> m.uid.Some? && m.uid.value in users
    ensures owner.Some? ==> owner == m.uid && owner.value in users
  {
    match m.uid
    case Some(u) => if u in users then Some(u) else None
    case None => None
  }

  /** `getCreatedTime`: `(int)` of the `created` value, and `(int) NULL` is 0. */
  function GetCreatedTime(m: Mark): (t: int)
    ensures m.created.Some? ==> t == m.created.value
    ensures m.created.None? ==> t == 0
  {
    match m.created
    case Some(c) => c
    case None => 0
  }
}
