/**
 * The module's settings form: the defaults `buildForm` shows for each node
 * type and the configuration `submitForm` saves.
 */
module SettingsForm {
  import opened Wrappers
  import opened NodeTemporaryEntity
  import opened NodeTemporaryHelper
  import opened FormAlter

  /**
   * The submitted values of one node type, `bundles[<id>]`: each None when
   * the value is absent or empty. Numbers are taken as the whole numbers the
   * number element accepts.
   */
  datatype SubmittedBundle = SubmittedBundle(enabled: Option<int>, expireDays: Option<int>)

  /** The `expire_days` expression: a positive value is kept, anything else becomes 7. */
  function NormaliseExpireDays(v: Option<int>): (days: int)
    ensures days >= 1
    ensures v.Some? && v.value > 0 ==> days == v.value
    ensures !(v.Some? && v.value > 0) ==> days == 7
  {
    if v.Some? && v.value != 0 && v.value > 0 then v.value else 7
  }

  /**
   * The field declares a minimum of 2, which the number element enforces
   * before the submit runs; the handler itself keeps a 1.
   */
  lemma OneDayIsStored()
    ensures NormaliseExpireDays(Some(1)) == 1
  {
  }

  /** The saved settings of one node type; no submitted values at all count as absent ones. */
  function NormaliseBundle(values: Option<SubmittedBundle>): (b: BundleSettings)
    ensures b.expireDays >= 1
    ensures values.Some? && values.value.enabled.Some? ==> b.enabled == values.value.enabled.value
    ensures !(values.Some? && values.value.enabled.Some?) ==> b.enabled == 0
    ensures b.expireDays == NormaliseExpireDays(if values.Some? then values.value.expireDays else None)
  {
    match values
    case None => BundleSettings(0, NormaliseExpireDays(None))
    case Some(v) => BundleSettings(if v.enabled.Some? then v.enabled.value else 0, NormaliseExpireDays(v.expireDays))
  }

  /** The submitted values of node type `b`, if any. */
  function ValuesOf(submitted: map<string, SubmittedBundle>, b: string): Option<SubmittedBundle> {
    if b in submitted then Some(submitted[b]) else None
  }

  /**
   * The configuration `submitForm` saves, given the ids of the node types
   * that exist now, the global checkbox and the per-type values: exactly one
   * entry per existing type (settings of removed types are dropped) and the
   * global flag as 1 or 0.
   */
  function SettingsFromSubmission(existing: seq<string>, enabledValue: int, submitted: map<string, SubmittedBundle>): (c: Config)
    ensures c.enabled == (if enabledValue != 0 then 1 else 0)
    ensures c.bundles.Keys == set b | b in existing
    ensures forall b :: b in c.bundles ==> c.bundles[b] == NormaliseBundle(ValuesOf(submitted, b))
  {
    Config(if enabledValue != 0 then 1 else 0,
           map b | b in existing :: NormaliseBundle(ValuesOf(submitted, b)))
  }

  /** `submitForm`: the `foreach` over the node types, then the saved configuration. */
  method SubmitForm(existing: seq<string>, enabledValue: int, submitted: map<string, SubmittedBundle>)
    returns (saved: Config)
    ensures saved == SettingsFromSubmission(existing, enabledValue, submitted)
  {
    var bundlesSettings: map<string, BundleSettings> := map[];
    for i := 0 to |existing|
      invariant bundlesSettings.Keys == set b | b in existing[..i]
      invariant forall b :: b in bundlesSettings ==> bundlesSettings[b] == NormaliseBundle(ValuesOf(submitted, b))
    {
      var id := existing[i];
      var values := if id in submitted then Some(submitted[id]) else None;
      var expireDays := if values.Some? && values.value.expireDays.Some? && values.value.expireDays.value > 0
        then values.value.expireDays.value else 7;
      var enabled := if values.Some? && values.value.enabled.Some? then values.value.enabled.value else 0;
      bundlesSettings := bundlesSettings[id := BundleSettings(enabled, expireDays)];
      assert existing[..i + 1] == existing[..i] + [id];
    }
    assert existing[..|existing|] == existing;
    saved := Config(if enabledValue != 0 then 1 else 0, bundlesSettings);
  }

  /** After a submit the global check reports the global checkbox. */
  lemma GlobalEnabledAfterSubmit(existing: seq<string>, enabledValue: int, submitted: map<string, SubmittedBundle>)
    ensures IsEnabled(SettingsFromSubmission(existing, enabledValue, submitted), "") <==> enabledValue != 0
  {
  }

  /**
   * After a submit a node type is enabled exactly when it still exists and
   * its checkbox was submitted with a non-zero value.
   */
  lemma BundleEnabledAfterSubmit(existing: seq<string>, enabledValue: int, submitted: map<string, SubmittedBundle>, b: string)
    requires PhpTruthy(b)
    ensures IsEnabled(SettingsFromSubmission(existing, enabledValue, submitted), b) <==>
      b in existing && b in submitted && submitted[b].enabled.Some? && submitted[b].enabled.value != 0
  {
  }

  /**
   * The defaults `buildForm` shows for node type `b`: its saved values, or
   * 0 and 7 when nothing is saved (`bundles` unset reads as empty).
   */
  function BuildFormDefaults(saved: map<string, BundleSettings>, b: string): (d: BundleSettings)
    ensures b in saved ==> d == saved[b]
    ensures b !in saved ==> d == BundleSettings(0, 7)
  {
    if b in saved then saved[b] else BundleSettings(0, 7)
  }

  /** The form as `buildForm` fills it, submitted without changes. */
  function DefaultsAsSubmission(c: Config, existing: seq<string>): map<string, SubmittedBundle> {
    map b | b in existing ::
      SubmittedBundle(Some(BuildFormDefaults(c.bundles, b).enabled), Some(BuildFormDefaults(c.bundles, b).expireDays))
  }

  /** Saving the settings form unchanged reproduces the configuration the last submit saved. */
  lemma ResubmitDefaultsIsIdempotent(existing: seq<string>, enabledValue: int, submitted: map<string, SubmittedBundle>)
    ensures var c := SettingsFromSubmission(existing, enabledValue, submitted);
      SettingsFromSubmission(existing, c.enabled, DefaultsAsSubmission(c, existing)) == c
  {
    var c := SettingsFromSubmission(existing, enabledValue, submitted);
    var again := SettingsFromSubmission(existing, c.enabled, DefaultsAsSubmission(c, existing));
    forall b | b in again.bundles
      ensures again.bundles[b] == c.bundles[b]
    {
      assert b in DefaultsAsSubmission(c, existing);
    }
    assert again.bundles == c.bundles;
  }

  /**
   * A stored `expire_days` of 1 makes the node form propose tomorrow, which
   * its own validation rejects; any value the submit can store other than 1
   * gives a default that passes.
   */
  lemma StoredExpireDaysDefaultPasses(v: Option<int>, now: Instant)
    ensures var days := NormaliseExpireDays(v);
      ValidateDateExpireField(true, Some(DefaultDate(None, days, now)), now).error.None? <==> days != 1
  {
    DefaultDateValidIff(NormaliseExpireDays(v), now);
  }
}
