/**
 * The node form integration: `formNodeFormAlter` (the "Temporary" details
 * group and the handlers it attaches), `validateDateExpireField` and
 * `nodeTemporaryFormSubmit`.
 *
 * Form values are taken as already parsed: a checkbox is a bool, the
 * `date_expire` date element is the day it names, or None when it is empty.
 */
module FormAlter {
  import opened Wrappers
  import opened NodeTemporaryEntity
  import opened Storage
  import opened NodeTemporaryHelper

  /** The two errors `validateDateExpireField` can set on `date_expire`. */
  datatype DateError = ExpireRequired | ExpireNotInFuture

  /** What validation leaves in the form state. */
  datatype Validation = Validation(error: Option<DateError>, entityValidated: bool)

  /**
   * `validateDateExpireField` at moment `now`. With "select" checked, an
   * empty date is required and a given date must come after tomorrow's
   * 'Y-m-d' (so tomorrow is rejected as well); `entity_validated` is always
   * set.
   */
  function ValidateDateExpireField(select: bool, dateExpire: Option<Day>, now: Instant): (v: Validation)
    ensures v.entityValidated
    ensures !select ==> v.error.None?
    ensures select && dateExpire.None? ==> v.error == Some(ExpireRequired)
    ensures select && dateExpire.Some? ==>
      && (v.error.Some? <==> dateExpire.value <= DayOf(now) + 1)
      && (v.error.Some? ==> v.error.value == ExpireNotInFuture)
  {
    if select then
      if dateExpire.None? then Validation(Some(ExpireRequired), true)
      else
        var dateMin := DayOf(now + SecondsPerDay);
        DayOfNextDay(now);
        if dateExpire.value <= dateMin then Validation(Some(ExpireNotInFuture), true)
        else Validation(None, true)
    else Validation(None, true)
  }

  /** The message says "today or earlier", but tomorrow is refused too. */
  lemma TomorrowIsRejected(now: Instant)
    ensures ValidateDateExpireField(true, Some(DayOf(now) + 1), now).error == Some(ExpireNotInFuture)
  {
  }

  /**
   * A date that passes validation lies more than a day ahead: a mark with it
   * is not picked by any scan during the next 24 hours.
   */
  lemma ValidatedDateOutlivesNextDay(now: Instant, d: Day, later: Instant)
    requires ValidateDateExpireField(true, Some(d), now).error.None?
    requires later <= now + SecondsPerDay
    ensures later < Midnight(d) && !(Midnight(d) < later)
  {
    var today := DayOf(now);
    assert Midnight(d) >= Midnight(today + 2);
  }

  /**
   * The default of the `date_expire` element: the day of the existing mark's
   * expiry (`substr` of its 'Y-m-d\TH:i:s' value), otherwise today (UTC)
   * plus the bundle's `expire_days`.
   */
  function DefaultDate(temporary: Option<Mark>, expireDays: int, now: Instant): (d: Day)
    ensures temporary.Some? ==> Midnight(d) <= temporary.value.dateExpire < Midnight(d + 1)
    ensures temporary.None? ==> Midnight(d) == Midnight(DayOf(now)) + expireDays * SecondsPerDay
  {
    match temporary
    case Some(m) => DayOf(m.dateExpire)
    case None => DayOf(now) + expireDays
  }

  /**
   * For a node without a mark, the proposed default date passes validation
   * exactly when the bundle's `expire_days` is at least 2.
   */
  lemma DefaultDateValidIff(expireDays: int, now: Instant)
    ensures ValidateDateExpireField(true, Some(DefaultDate(None, expireDays, now)), now).error.None?
      <==> expireDays >= 2
  {
  }

  /** A form handler callback. */
  datatype Handler = ValidateDateExpire | NodeTemporarySubmit | OtherHandler(name: string)

  /** One entry of `$form['actions']`: its key, its `#type` if set, and its handler lists. */
  datatype FormAction = FormAction(name: string, actionType: Option<string>, validate: seq<Handler>, submit: seq<Handler>)

  /** An action that receives the module's handlers: a submit button other than preview. */
  predicate TakesHandlers(a: FormAction): (takes: bool)
    ensures a.name == "preview" ==> !takes
    ensures a.actionType.None? ==> !takes
    ensures takes <==> a.name != "preview" && a.actionType.Some? && a.actionType.value == "submit"
  {
    a.name != "preview" && a.actionType == Some("submit")
  }

  /** One action after the loop body: the validator and the submitter are appended, if it takes them. */
  function WithHandlers(a: FormAction): (r: FormAction)
    ensures r.name == a.name && r.actionType == a.actionType
    ensures TakesHandlers(a) ==>
      && |r.validate| == |a.validate| + 1 && r.validate[..|a.validate|] == a.validate
      && r.validate[|a.validate|] == ValidateDateExpire
      && |r.submit| == |a.submit| + 1 && r.submit[..|a.submit|] == a.submit
      && r.submit[|a.submit|] == NodeTemporarySubmit
    ensures !TakesHandlers(a) ==> r == a
  {
    if TakesHandlers(a) then
      a.(validate := a.validate + [ValidateDateExpire], submit := a.submit + [NodeTemporarySubmit])
    else a
  }

  /** All actions after the loop. */
  function AllWithHandlers(actions: seq<FormAction>): (r: seq<FormAction>)
    ensures |r| == |actions|
    ensures forall i :: 0 <= i < |r| ==> r[i] == WithHandlers(actions[i])
  {
    seq(|actions|, i requires 0 <= i < |actions| => WithHandlers(actions[i]))
  }

  /** The `foreach (array_keys($form['actions']) ...)` loop. */
  method AttachHandlers(actions: seq<FormAction>) returns (r: seq<FormAction>)
    ensures r == AllWithHandlers(actions)
  {
    r := actions;
    var i := 0;
    while i < |r|
      invariant 0 <= i <= |r| == |actions|
      invariant forall j :: 0 <= j < i ==> r[j] == WithHandlers(actions[j])
      invariant forall j :: i <= j < |r| ==> r[j] == actions[j]
    {
      if r[i].name != "preview" && r[i].actionType.Some? && r[i].actionType.value == "submit" {
        r := r[i := r[i].(validate := r[i].validate + [ValidateDateExpire],
                          submit := r[i].submit + [NodeTemporarySubmit])];
      }
      i := i + 1;
    }
  }

  /** The node form as the hook sees it. */
  datatype FormContext = FormContext(
    isEntityForm: bool,        // the form object is an entity form
    hasAdvanced: bool,         // `$form['advanced']` is set
    formDisabled: bool,        // `$form['#disabled']` is non-empty
    canAccess: bool,           // 'access node temporary'
    canAdminister: bool,       // 'administer node temporary configuration'
    nid: Option<NodeId>,       // None for a node not saved yet
    bundle: string)

  /** The `#description` of the group: the schedule message, or the invitation with its day count. */
  datatype Description = ScheduleMessage(msg: Message) | Invitation(days: int, unit: string)

  /** The parts of `$form['node_temporary_options']` that depend on the state. */
  datatype TemporaryOptions = TemporaryOptions(
    description: Description,
    open: bool,
    selectDefault: bool,
    deleteDefault: bool,
    dateDefault: Day,
    fieldsDisabled: bool,
    settingsLink: bool)

  /**
   * What the hook does to the form: nothing, adds the group and the
   * handlers, or fails while building the message (`getUser()` is NULL).
   */
  datatype AlterOutcome = Unchanged | Altered(options: TemporaryOptions, actions: seq<FormAction>) | MessageFailed

  /**
   * The early returns of `formNodeFormAlter`, in order. Once they pass, the
   * service is on and a (non-empty) bundle has its own settings entry.
   */
  predicate GatesOpen(ctx: FormContext, config: Config): (open: bool)
    ensures open ==> ctx.isEntityForm && ctx.hasAdvanced && ctx.canAccess && config.enabled != 0
    ensures open && PhpTruthy(ctx.bundle) ==> ctx.bundle in config.bundles && config.bundles[ctx.bundle].enabled != 0
    ensures !ctx.isEntityForm || !ctx.hasAdvanced || !ctx.canAccess || config.enabled == 0 ==> !open
  {
    && ctx.isEntityForm
    && ctx.hasAdvanced
    && IsEnabled(config, "")
    && ctx.canAccess
    && IsEnabled(config, ctx.bundle)
  }

  /**
   * The node's mark as the hook looks it up. An unsaved node has no id;
   * `loadByProperties` with a NULL parent matches nothing or throws, and
   * either way the helper returns NULL.
   */
  function FormTemporary(s: Store, nid: Option<NodeId>): (t: Option<MarkId>)
    ensures nid.None? ==> t.None?
    ensures nid.Some? ==> t == GetTemporaryEntity(s, nid.value)
  {
    if nid.Some? then GetTemporaryEntity(s, nid.value) else None
  }

  /**
   * `formNodeFormAlter` at moment `now`. The bundle is a node type machine
   * name, never empty, so `isEnabled($node->bundle())` is the per-bundle
   * check and the bundle then has settings. For a marked node the
   * description is `getMessage`, which fails when the mark's owner account
   * is gone; the form then fails too.
   */
  function NodeFormAlterSpec(s: Store, ctx: FormContext, config: Config, actions: seq<FormAction>, now: Instant): (r: AlterOutcome)
    requires PhpTruthy(ctx.bundle)
    ensures r.Unchanged? <==> !GatesOpen(ctx, config)
    ensures var t := FormTemporary(s, ctx.nid);
      r.MessageFailed? <==> GatesOpen(ctx, config) && t.Some? && GetMessage(s, ctx.nid.value).NullOwnerError?
    ensures r.Altered? ==>
      var t := FormTemporary(s, ctx.nid);
      var o := r.options;
      && r.actions == AllWithHandlers(actions)
      && (o.open <==> t.Some?) && (o.selectDefault <==> t.Some?)
      && (o.deleteDefault <==> t.Some? && s.marks[t.value].delete == Some(true))
      && o.dateDefault == DefaultDate(if t.Some? then Some(s.marks[t.value]) else None,
                                      config.bundles[ctx.bundle].expireDays, now)
      && (o.fieldsDisabled <==> ctx.formDisabled)
      && (o.settingsLink <==> ctx.canAdminister)
      && (t.Some? ==> o.description == ScheduleMessage(GetMessage(s, ctx.nid.value)))
      && (t.Some? ==> o.description.msg.OwnerMessage? || o.description.msg.OtherUserMessage?)
      && (t.None? ==> o.description.Invitation? && o.description.days == config.bundles[ctx.bundle].expireDays)
  {
    if !GatesOpen(ctx, config) then Unchanged
    else
      var expireDays := config.bundles[ctx.bundle].expireDays;
      var t := FormTemporary(s, ctx.nid);
      var temporary := if t.Some? then Some(s.marks[t.value]) else None;
      var description :=
        if t.Some? then ScheduleMessage(GetMessage(s, ctx.nid.value))
        else Invitation(expireDays, if expireDays < 2 then "day" else "days");
      if description == ScheduleMessage(NullOwnerError) then MessageFailed
      else
        var deleteValue := t.Some? && temporary.value.delete.Some? && temporary.value.delete.value;
        Altered(
          TemporaryOptions(description, t.Some?, t.Some?, deleteValue,
                           DefaultDate(temporary, expireDays, now), ctx.formDisabled, ctx.canAdminister),
          AllWithHandlers(actions))
  }

  /** `formNodeFormAlter`, building the altered form. */
  method FormNodeFormAlter(s: Store, ctx: FormContext, config: Config, actions: seq<FormAction>, now: Instant)
    returns (r: AlterOutcome)
    requires PhpTruthy(ctx.bundle)
    ensures r == NodeFormAlterSpec(s, ctx, config, actions, now)
  {
    if !ctx.isEntityForm || !ctx.hasAdvanced || !IsEnabled(config, "") || !ctx.canAccess
       || !IsEnabled(config, ctx.bundle) {
      return Unchanged;
    }
    var bundles := config.bundles;
    var t := FormTemporary(s, ctx.nid);
    var description;
    if t.Some? {
      var message := GetMessage(s, ctx.nid.value);
      if message.NullOwnerError? {
        return MessageFailed;
      }
      description := ScheduleMessage(message);
    } else {
      var days := bundles[ctx.bundle].expireDays;
      description := Invitation(days, if days < 2 then "day" else "days");
    }
    var temporary := if t.Some? then Some(s.marks[t.value]) else None;
    var deleteValue := temporary.Some? && temporary.value.delete.Some? && temporary.value.delete.value;
    var dateValue := DefaultDate(temporary, bundles[ctx.bundle].expireDays, now);
    var withHandlers := AttachHandlers(actions);
    r := Altered(TemporaryOptions(description, t.Some?, t.Some?, deleteValue, dateValue,
                                  ctx.formDisabled, ctx.canAdminister),
                 withHandlers);
  }

  /**
   * The `$date` string `handleTemporaryEntity` receives from the submit
   * handler: the delete checkbox, 0 or 1, coerced to "0" or "1". "0" is
   * falsy; for "1", `dayReadFromOne` is what PHP's DateTime makes of it
   * (None: the constructor throws).
   */
  function DeleteCheckboxAsDate(deleteChecked: bool, dayReadFromOne: Option<Day>): (date: Option<Day>)
    ensures !deleteChecked ==> date.None?
    ensures deleteChecked ==> date == dayReadFromOne
  {
    if deleteChecked then dayReadFromOne else None
  }

  /**
   * `nodeTemporaryFormSubmit` as written: the helper is called with
   * (entity, select, delete, date_expire) against its signature (node,
   * selected, date), so `delete` lands in `$date` and `date_expire` is
   * dropped. When DateTime throws on "1", nothing is saved.
   */
  function SubmitSpec(s: Store, nid: NodeId, select: bool, deleteChecked: bool, dateExpire: Option<Day>,
                      dayReadFromOne: Option<Day>): (r: Store)
    requires s.Valid()
    ensures r.Valid()
    ensures r.(marks := s.marks, nextId := s.nextId) == s
    ensures select && deleteChecked && dayReadFromOne.None? ==> r == s
    ensures !(select && deleteChecked && dayReadFromOne.None?) ==>
      r == HandleSpec(s, nid, select, DeleteCheckboxAsDate(deleteChecked, dayReadFromOne))
  {
    var date := DeleteCheckboxAsDate(deleteChecked, dayReadFromOne);
    if select && deleteChecked && date.None? then s
    else HandleSpec(s, nid, select, date)
  }

  /** The submitted expiration date has no effect on what is saved. */
  lemma SubmitIgnoresDateExpire(s: Store, nid: NodeId, select: bool, deleteChecked: bool,
                                d1: Option<Day>, d2: Option<Day>, dayReadFromOne: Option<Day>)
    requires s.Valid()
    ensures SubmitSpec(s, nid, select, deleteChecked, d1, dayReadFromOne)
         == SubmitSpec(s, nid, select, deleteChecked, d2, dayReadFromOne)
  {
  }

  /**
   * Marking a node temporary with a valid date and "delete" unchecked
   * removes its mark instead of saving one: the node ends with no mark.
   */
  lemma ScheduleWithoutDeleteIsDropped(s: Store, nid: NodeId, d: Day, dayReadFromOne: Option<Day>, now: Instant)
    requires s.Valid() && AtMostOnePerParent(s.marks) && nid !in s.lookupFailures
    requires ValidateDateExpireField(true, Some(d), now).error.None?
    ensures MarksOf(SubmitSpec(s, nid, true, false, Some(d), dayReadFromOne).marks, nid) == {}
  {
    HandleLeavesOneOrNone(s, nid, true, None);
  }

  /** `nodeTemporaryFormSubmit` with the date forwarded: the helper gets (entity, select, date_expire). */
  function SubmitIntendedSpec(s: Store, nid: NodeId, select: bool, dateExpire: Option<Day>): (r: Store)
    requires s.Valid()
    ensures r.Valid()
    ensures r.(marks := s.marks, nextId := s.nextId) == s
    ensures AtMostOnePerParent(s.marks) && nid !in s.lookupFailures ==> AtMostOnePerParent(r.marks)
  {
    HandleSpec(s, nid, select, dateExpire)
  }

  /**
   * With the date forwarded, a validated submission leaves the node with
   * exactly one mark, found by the lookup, expiring at 00:00 UTC of the
   * chosen day; the form then shows that day again as its default.
   */
  lemma IntendedSubmitSchedules(s: Store, nid: NodeId, d: Day, expireDays: int, now: Instant)
    requires s.Valid() && AtMostOnePerParent(s.marks) && nid !in s.lookupFailures
    requires ValidateDateExpireField(true, Some(d), now).error.None?
    ensures var r := SubmitIntendedSpec(s, nid, true, Some(d));
      var t := GetTemporaryEntity(r, nid);
      && |MarksOf(r.marks, nid)| == 1
      && t.Some? && r.marks[t.value].dateExpire == Midnight(d)
      && DefaultDate(Some(r.marks[t.value]), expireDays, now) == d
  {
    var r := SubmitIntendedSpec(s, nid, true, Some(d));
    HandleLeavesOneOrNone(s, nid, true, Some(d));
    LookupUnique(s, nid);
    LookupUnique(r, nid);
    var t := GetTemporaryEntity(r, nid);
    assert t.Some? by {
      var k :| k in MarksOf(r.marks, nid);
    }
    var t0 := GetTemporaryEntity(s, nid);
    if t0.Some? {
      OnlyMark(r.marks, nid, t0.value);
    } else {
      OnlyMark(r.marks, nid, s.nextId);
    }
    DayOfMidnight(d);
  }

  /** `nodeTemporaryFormSubmit`, as written, changing the site in place. */
  method NodeTemporaryFormSubmit(site: Site, nid: NodeId, select: bool, deleteChecked: bool,
                                 dateExpire: Option<Day>, dayReadFromOne: Option<Day>)
    requires site.Valid()
    modifies site
    ensures site.Valid()
    ensures site.State() == SubmitSpec(old(site.State()), nid, select, deleteChecked, dateExpire, dayReadFromOne)
  {
    var date := DeleteCheckboxAsDate(deleteChecked, dayReadFromOne);
    if select && deleteChecked && date.None? {
      return;
    }
    HandleTemporaryEntity(site, nid, select, date);
  }

  /** `nodeTemporaryFormSubmit` with the date forwarded, changing the site in place. */
  method NodeTemporaryFormSubmitIntended(site: Site, nid: NodeId, select: bool, dateExpire: Option<Day>)
    requires site.Valid()
    modifies site
    ensures site.Valid()
    ensures site.State() == SubmitIntendedSpec(old(site.State()), nid, select, dateExpire)
  {
    HandleTemporaryEntity(site, nid, select, dateExpire);
  }
}
