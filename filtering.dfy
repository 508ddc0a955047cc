/**
 * SerializationPresetFilter and FilterResult: the include and exclude rules of a serialization
 * preset, which decide whether an item lies in the part of the database a provider serves.
 */
module Filtering {
  import opened Outcomes
  import opened Text
  import opened Ids
  import opened SyncItems

  /** FilterResult: whether the item is included, and the reason for a rejection (None for null). */
  datatype FilterResult = FilterResult(isIncluded: bool, justification: Option<string>)

  /** new FilterResult(bool): the verdict as given, with no justification. */
  function Decided(included: bool): (r: FilterResult)
    ensures r.isIncluded == included && r.justification.None?
  {
    FilterResult(included, None)
  }

  /** new FilterResult(string): a rejection that carries its justification. */
  function Rejected(justification: string): (r: FilterResult)
    ensures !r.isIncluded && r.justification == Some(justification)
  {
    FilterResult(false, Some(justification))
  }

  /** `!string.IsNullOrEmpty(result.Justification)`. */
  predicate Justified(r: FilterResult)
  {
    r.justification.Some? && r.justification.value != ""
  }

  /** An exclude rule of a preset: its kind (the `Type` attribute) and its value. */
  datatype ExcludeEntry = ExcludeEntry(kind: string, value: string)

  /** An include entry of a preset: a database, a root path and the exclude rules below it. */
  datatype IncludeEntry = IncludeEntry(database: string, path: string, excludes: seq<ExcludeEntry>)

  /** A filter over the include entries its preset configuration yields. */
  datatype SerializationPresetFilter = SerializationPresetFilter(preset: seq<IncludeEntry>)

  /** SerializationPresetFilter.Name. */
  const FilterName := "Serialization Preset"

  /** Enumerable.Any over the excludes: one of kind `kind` (ordinal, case-sensitive) whose value satisfies `matches`. */
  predicate AnyExclude(excludes: seq<ExcludeEntry>, kind: string, matches: string -> bool)
  {
    exists e | e in excludes :: e.kind == kind && matches(e.value)
  }

  /** An exclude of kind "path" whose value prefixes the path, ignoring case. */
  predicate PathExcluded(excludes: seq<ExcludeEntry>, sitecorePath: string)
  {
    AnyExclude(excludes, "path", (v: string) => StartsWithIgnoreCase(sitecorePath, v))
  }

  /** An exclude of kind "templateid" equal to the template ID, ignoring case. */
  predicate TemplateIdExcluded(excludes: seq<ExcludeEntry>, templateId: Id)
  {
    AnyExclude(excludes, "templateid", (v: string) => EqualsIgnoreCase(v, templateId))
  }

  /** An exclude of kind "template" equal to the template name, ignoring case. */
  predicate TemplateExcluded(excludes: seq<ExcludeEntry>, templateName: string)
  {
    AnyExclude(excludes, "template", (v: string) => EqualsIgnoreCase(v, templateName))
  }

  /** An exclude of kind "id" equal to the item ID, ignoring case. */
  predicate IdExcluded(excludes: seq<ExcludeEntry>, id: Id)
  {
    AnyExclude(excludes, "id", (v: string) => EqualsIgnoreCase(v, id))
  }

  function ExcludeMatchesPath(excludes: seq<ExcludeEntry>, sitecorePath: string): FilterResult
  {
    if PathExcluded(excludes, sitecorePath) then Rejected("Item path exclusion rule") else Decided(true)
  }

  function ExcludeMatchesTemplateId(excludes: seq<ExcludeEntry>, templateId: Id): FilterResult
  {
    if TemplateIdExcluded(excludes, templateId) then Rejected("Item template ID exclusion rule") else Decided(true)
  }

  function ExcludeMatchesTemplate(excludes: seq<ExcludeEntry>, templateName: string): FilterResult
  {
    if TemplateExcluded(excludes, templateName) then Rejected("Item template name exclusion rule") else Decided(true)
  }

  function ExcludeMatchesId(excludes: seq<ExcludeEntry>, id: Id): FilterResult
  {
    if IdExcluded(excludes, id) then Rejected("Item ID exclusion rule") else Decided(true)
  }

  /** ExcludeMatches: path, template ID, template name and item ID excludes, in that order; the first rejection wins. */
  function ExcludeMatches(entry: IncludeEntry, itemPath: string, itemId: Id, templateId: Id, templateName: string): FilterResult
  {
    var byPath := ExcludeMatchesPath(entry.excludes, itemPath);
    if !byPath.isIncluded then byPath
    else
      var byTemplateId := ExcludeMatchesTemplateId(entry.excludes, templateId);
      if !byTemplateId.isIncluded then byTemplateId
      else
        var byTemplate := ExcludeMatchesTemplate(entry.excludes, templateName);
        if !byTemplate.isIncluded then byTemplate
        else ExcludeMatchesId(entry.excludes, itemId)
  }

  /** Includes(entry, itemPath, itemId, templateId, templateName, database). */
  function EntryIncludes(entry: IncludeEntry, itemPath: string, itemId: Id, templateId: Id, templateName: string,
                         databaseName: string): FilterResult
  {
    if databaseName != entry.database then Decided(false)
    else if !StartsWithIgnoreCase(itemPath, entry.path) then Decided(false)
    else ExcludeMatches(entry, itemPath, itemId, templateId, templateName)
  }

  /** Includes(entry, SyncItem): the same tests on the record, whose two IDs ID.Parse must parse (FormatException otherwise). */
  function EntryIncludesItem(entry: IncludeEntry, item: SyncItem): Result<FilterResult>
  {
    if item.databaseName != entry.database then Ok(Decided(false))
    else if !StartsWithIgnoreCase(item.itemPath, entry.path) then Ok(Decided(false))
    else if !IsId(item.id) || !IsId(item.templateId) then Throws(Format)
    else Ok(ExcludeMatches(entry, item.itemPath, item.id, item.templateId, item.templateName))
  }

  /**
   * The four exclude kinds are consulted in order and the first that matches gives the
   * justification; the result is an inclusion exactly when none matches.
   */
  lemma ExcludeOrder(entry: IncludeEntry, itemPath: string, itemId: Id, templateId: Id, templateName: string)
    ensures ExcludeMatches(entry, itemPath, itemId, templateId, templateName).isIncluded <==>
      !PathExcluded(entry.excludes, itemPath) && !TemplateIdExcluded(entry.excludes, templateId) &&
      !TemplateExcluded(entry.excludes, templateName) && !IdExcluded(entry.excludes, itemId)
    ensures ExcludeMatches(entry, itemPath, itemId, templateId, templateName).isIncluded ==>
      ExcludeMatches(entry, itemPath, itemId, templateId, templateName) == Decided(true)
    ensures PathExcluded(entry.excludes, itemPath) ==>
      ExcludeMatches(entry, itemPath, itemId, templateId, templateName) == Rejected("Item path exclusion rule")
    ensures !PathExcluded(entry.excludes, itemPath) && TemplateIdExcluded(entry.excludes, templateId) ==>
      ExcludeMatches(entry, itemPath, itemId, templateId, templateName) == Rejected("Item template ID exclusion rule")
    ensures (!PathExcluded(entry.excludes, itemPath) && !TemplateIdExcluded(entry.excludes, templateId) &&
             TemplateExcluded(entry.excludes, templateName)) ==>
      ExcludeMatches(entry, itemPath, itemId, templateId, templateName) == Rejected("Item template name exclusion rule")
    ensures (!PathExcluded(entry.excludes, itemPath) && !TemplateIdExcluded(entry.excludes, templateId) &&
             !TemplateExcluded(entry.excludes, templateName) && IdExcluded(entry.excludes, itemId)) ==>
      ExcludeMatches(entry, itemPath, itemId, templateId, templateName) == Rejected("Item ID exclusion rule")
  {
  }

  /** An entry rejects without a justification exactly when the database differs or the path is not under the entry's path. */
  lemma UnjustifiedRejection(entry: IncludeEntry, itemPath: string, itemId: Id, templateId: Id, templateName: string,
                             databaseName: string)
    ensures var r := EntryIncludes(entry, itemPath, itemId, templateId, templateName, databaseName);
      (!r.isIncluded && !Justified(r)) <==>
      (databaseName != entry.database || !StartsWithIgnoreCase(itemPath, entry.path))
  {
    var r := ExcludeMatches(entry, itemPath, itemId, templateId, templateName);
    assert r.isIncluded || Justified(r);
  }

  /** Excludes whose kind is none of the four exact, lower-case kinds never exclude anything. */
  lemma UnknownKindsNeverExclude(entry: IncludeEntry, itemPath: string, itemId: Id, templateId: Id, templateName: string)
    requires forall e | e in entry.excludes :: e.kind != "path" && e.kind != "templateid" && e.kind != "template" && e.kind != "id"
    ensures ExcludeMatches(entry, itemPath, itemId, templateId, templateName) == Decided(true)
  {
  }

  /** The kind is compared case-sensitively: a "Path" exclude, even one prefixing every path, excludes nothing. */
  lemma ExcludeKindIsCaseSensitive(database: string, path: string, itemPath: string, itemId: Id, templateId: Id, templateName: string)
    ensures ExcludeMatches(IncludeEntry(database, path, [ExcludeEntry("Path", "")]), itemPath, itemId, templateId, templateName) == Decided(true)
  {
    assert "Path"[0] != "path"[0];
    UnknownKindsNeverExclude(IncludeEntry(database, path, [ExcludeEntry("Path", "")]), itemPath, itemId, templateId, templateName);
  }

  /** An exclude that matches among some excludes still matches once more are added. */
  lemma ExcludedGrows(ex: seq<ExcludeEntry>, more: seq<ExcludeEntry>, itemPath: string, itemId: Id, templateId: Id,
                      templateName: string)
    ensures PathExcluded(ex, itemPath) ==> PathExcluded(ex + more, itemPath)
    ensures TemplateIdExcluded(ex, templateId) ==> TemplateIdExcluded(ex + more, templateId)
    ensures TemplateExcluded(ex, templateName) ==> TemplateExcluded(ex + more, templateName)
    ensures IdExcluded(ex, itemId) ==> IdExcluded(ex + more, itemId)
  {
    var ex' := ex + more;
    assert forall e | e in ex :: e in ex';
    if PathExcluded(ex, itemPath) {
      var e :| e in ex && e.kind == "path" && StartsWithIgnoreCase(itemPath, e.value);
      assert e in ex';
    }
    if TemplateIdExcluded(ex, templateId) {
      var e :| e in ex && e.kind == "templateid" && EqualsIgnoreCase(e.value, templateId);
      assert e in ex';
    }
    if TemplateExcluded(ex, templateName) {
      var e :| e in ex && e.kind == "template" && EqualsIgnoreCase(e.value, templateName);
      assert e in ex';
    }
    if IdExcluded(ex, itemId) {
      var e :| e in ex && e.kind == "id" && EqualsIgnoreCase(e.value, itemId);
      assert e in ex';
    }
  }

  /** Adding excludes to an entry never turns a rejection into an inclusion. */
  lemma MoreExcludesRejectMore(entry: IncludeEntry, more: seq<ExcludeEntry>, itemPath: string, itemId: Id, templateId: Id,
                               templateName: string, databaseName: string)
    ensures !EntryIncludes(entry, itemPath, itemId, templateId, templateName, databaseName).isIncluded ==>
      !EntryIncludes(entry.(excludes := entry.excludes + more), itemPath, itemId, templateId, templateName, databaseName).isIncluded
  {
    var wider := entry.(excludes := entry.excludes + more);
    ExcludeOrder(entry, itemPath, itemId, templateId, templateName);
    ExcludeOrder(wider, itemPath, itemId, templateId, templateName);
    ExcludedGrows(entry.excludes, more, itemPath, itemId, templateId, templateName);
  }

  /** An entry with no excludes takes in every path that extends its own path by any characters. */
  lemma EntryIncludesExtensions(database: string, root: string, tail: string, itemId: Id, templateId: Id, templateName: string)
    ensures EntryIncludes(IncludeEntry(database, root, []), root + tail, itemId, templateId, templateName, database).isIncluded
  {
    assert (root + tail)[..|root|] == root;
  }

  /** The path test is a raw character prefix, not a path segment test: "/sitecore/content" takes in "/sitecore/contents". */
  lemma PrefixIsNotSegmentAware(itemId: Id, templateId: Id)
    ensures EntryIncludes(IncludeEntry("master", "/sitecore/content", []), "/sitecore/contents", itemId, templateId, "", "master").isIncluded
  {
    assert "/sitecore/contents" == "/sitecore/content" + "s";
    EntryIncludesExtensions("master", "/sitecore/content", "s", itemId, templateId, "");
  }

  /** The record overload and the criteria overload agree on a record whose IDs parse. */
  lemma RecordAndCriteriaAgree(entry: IncludeEntry, item: SyncItem)
    requires IsId(item.id) && IsId(item.templateId)
    ensures EntryIncludesItem(entry, item) ==
      Ok(EntryIncludes(entry, item.itemPath, item.id, item.templateId, item.templateName, item.databaseName))
  {
  }

  // ---------------------------------------------------------------- the preset loop

  /** An entry's outcome ends the loop: it includes the item, or it throws. */
  predicate Stops(o: Result<FilterResult>)
  {
    o.Throws? || o.value.isIncluded
  }

  /** An entry's outcome is a rejection with a justification, which the loop keeps as the priority result. */
  predicate JustifiedOutcome(o: Result<FilterResult>)
  {
    o.Ok? && Justified(o.value)
  }

  /** The first entry whose outcome ends the loop. */
  function FirstStop(preset: seq<IncludeEntry>, outcome: IncludeEntry -> Result<FilterResult>): (k: Option<nat>)
    ensures k.Some? ==> k.value < |preset| && Stops(outcome(preset[k.value]))
    ensures k.Some? ==> forall j | 0 <= j < k.value :: !Stops(outcome(preset[j]))
    ensures k.None? ==> forall j | 0 <= j < |preset| :: !Stops(outcome(preset[j]))
    decreases |preset|
  {
    if |preset| == 0 then None
    else if Stops(outcome(preset[0])) then Some(0)
    else match FirstStop(preset[1..], outcome)
      case None => None
      case Some(k) => Some(k + 1)
  }

  /** The last of the first `n` entries whose outcome is a justified rejection. */
  function LastJustified(preset: seq<IncludeEntry>, outcome: IncludeEntry -> Result<FilterResult>, n: nat): (k: Option<nat>)
    requires n <= |preset|
    ensures k.Some? ==> k.value < n && JustifiedOutcome(outcome(preset[k.value]))
    ensures k.Some? ==> forall j | k.value < j < n :: !JustifiedOutcome(outcome(preset[j]))
    ensures k.None? ==> forall j | 0 <= j < n :: !JustifiedOutcome(outcome(preset[j]))
    decreases n
  {
    if n == 0 then None
    else if JustifiedOutcome(outcome(preset[n - 1])) then Some(n - 1)
    else LastJustified(preset, outcome, n - 1)
  }

  /**
   * What both Includes overloads decide from the per-entry outcomes: the first entry that
   * includes (or throws) decides; when none does, the last justified rejection, or else the
   * last rejection; an empty preset includes.
   */
  function PresetDecision(preset: seq<IncludeEntry>, outcome: IncludeEntry -> Result<FilterResult>): Result<FilterResult>
  {
    match FirstStop(preset, outcome)
    case Some(k) => outcome(preset[k])
    case None =>
      if |preset| == 0 then Ok(Decided(true))
      else match LastJustified(preset, outcome, |preset|)
        case Some(k) => outcome(preset[k])
        case None => outcome(preset[|preset| - 1])
  }

  /** The loop both Includes overloads run over the preset, with `outcome` the per-entry Includes. */
  method Decide(preset: seq<IncludeEntry>, outcome: IncludeEntry -> Result<FilterResult>) returns (r: Result<FilterResult>)
    ensures r == PresetDecision(preset, outcome)
  {
    var result := Decided(true);
    var priority: Option<FilterResult> := None;
    for i := 0 to |preset|
      invariant forall j | 0 <= j < i :: !Stops(outcome(preset[j]))
      invariant i == 0 ==> result == Decided(true)
      invariant i > 0 ==> outcome(preset[i - 1]) == Ok(result)
      invariant priority == match LastJustified(preset, outcome, i)
        case None => None
        case Some(k) => Some(outcome(preset[k]).value)
    {
      var o := outcome(preset[i]);
      if Stops(o) {
        assert FirstStop(preset, outcome) == Some(i);
        return o;
      }
      result := o.value;
      if Justified(result) {
        priority := Some(result);
      }
    }
    if priority.Some? {
      return Ok(priority.value);
    }
    return Ok(result);
  }

  /** The per-entry outcome of Includes(SyncItem). */
  function ItemOutcome(item: SyncItem): IncludeEntry -> Result<FilterResult>
  {
    (e: IncludeEntry) => EntryIncludesItem(e, item)
  }

  /** The per-entry outcome of Includes(itemPath, itemId, templateId, templateName, database), which never throws. */
  function CriteriaOutcome(itemPath: string, itemId: Id, templateId: Id, templateName: string, databaseName: string)
    : IncludeEntry -> Result<FilterResult>
  {
    (e: IncludeEntry) => Ok(EntryIncludes(e, itemPath, itemId, templateId, templateName, databaseName))
  }

  /** SerializationPresetFilter.Includes(SyncItem). */
  method Includes(filter: SerializationPresetFilter, item: SyncItem) returns (r: Result<FilterResult>)
    ensures r == PresetDecision(filter.preset, ItemOutcome(item))
  {
    r := Decide(filter.preset, ItemOutcome(item));
  }

  /** SerializationPresetFilter.Includes(itemPath, itemId, templateId, templateName, database). */
  method IncludesCriteria(filter: SerializationPresetFilter, itemPath: string, itemId: Id, templateId: Id,
                          templateName: string, databaseName: string) returns (r: FilterResult)
    ensures Ok(r) == PresetDecision(filter.preset, CriteriaOutcome(itemPath, itemId, templateId, templateName, databaseName))
  {
    var outcome := CriteriaOutcome(itemPath, itemId, templateId, templateName, databaseName);
    var d := Decide(filter.preset, outcome);
    TotalOutcomesDecide(filter.preset, outcome);
    r := d.value;
  }

  /** An empty preset includes everything. */
  lemma EmptyPresetIncludes(outcome: IncludeEntry -> Result<FilterResult>)
    ensures PresetDecision([], outcome) == Ok(Decided(true))
  {
  }

  /** When no entry throws, the decision is an outcome of the preset (or the empty-preset inclusion), so it does not throw. */
  lemma TotalOutcomesDecide(preset: seq<IncludeEntry>, outcome: IncludeEntry -> Result<FilterResult>)
    requires forall j | 0 <= j < |preset| :: outcome(preset[j]).Ok?
    ensures PresetDecision(preset, outcome).Ok?
  {
  }

  /**
   * When no entry throws, the item is included exactly when the preset is empty or some entry
   * includes it; a rejection is justified whenever some entry's rejection is.
   */
  lemma IncludedIffSomeEntryIncludes(preset: seq<IncludeEntry>, outcome: IncludeEntry -> Result<FilterResult>)
    requires forall j | 0 <= j < |preset| :: outcome(preset[j]).Ok?
    ensures PresetDecision(preset, outcome).Ok?
    ensures PresetDecision(preset, outcome).value.isIncluded <==>
      |preset| == 0 || exists j | 0 <= j < |preset| :: outcome(preset[j]).value.isIncluded
    ensures !PresetDecision(preset, outcome).value.isIncluded && (exists j | 0 <= j < |preset| :: Justified(outcome(preset[j]).value)) ==>
      Justified(PresetDecision(preset, outcome).value)
  {
    match FirstStop(preset, outcome)
    case Some(k) =>
    case None =>
      if exists j | 0 <= j < |preset| :: Justified(outcome(preset[j]).value) {
        var j :| 0 <= j < |preset| && Justified(outcome(preset[j]).value);
        assert JustifiedOutcome(outcome(preset[j]));
      }
  }

  /** The first entry that includes the item decides, whatever entries follow it. */
  lemma FirstInclusionDecides(preset: seq<IncludeEntry>, rest: seq<IncludeEntry>, outcome: IncludeEntry -> Result<FilterResult>, k: nat)
    requires k < |preset| && Stops(outcome(preset[k]))
    requires forall j | 0 <= j < k :: !Stops(outcome(preset[j]))
    ensures PresetDecision(preset[..k + 1] + rest, outcome) == outcome(preset[k])
  {
    var s := preset[..k + 1] + rest;
    assert s[k] == preset[k];
    assert forall j | 0 <= j < k :: s[j] == preset[j];
    match FirstStop(s, outcome)
    case None =>
    case Some(m) =>
  }

  /** The decision depends only on the outcomes of the preset's entries. */
  lemma {:induction false} DecisionRespectsOutcomes(preset: seq<IncludeEntry>, f: IncludeEntry -> Result<FilterResult>,
                                                    g: IncludeEntry -> Result<FilterResult>)
    requires forall j | 0 <= j < |preset| :: f(preset[j]) == g(preset[j])
    ensures PresetDecision(preset, f) == PresetDecision(preset, g)
  {
    FirstStopRespectsOutcomes(preset, f, g);
    LastJustifiedRespectsOutcomes(preset, f, g, |preset|);
  }

  lemma {:induction false} FirstStopRespectsOutcomes(preset: seq<IncludeEntry>, f: IncludeEntry -> Result<FilterResult>,
                                                     g: IncludeEntry -> Result<FilterResult>)
    requires forall j | 0 <= j < |preset| :: f(preset[j]) == g(preset[j])
    ensures FirstStop(preset, f) == FirstStop(preset, g)
    decreases |preset|
  {
    if |preset| > 0 {
      assert f(preset[0]) == g(preset[0]);
      assert forall j | 0 <= j < |preset| - 1 :: preset[1..][j] == preset[j + 1];
      FirstStopRespectsOutcomes(preset[1..], f, g);
    }
  }

  lemma {:induction false} LastJustifiedRespectsOutcomes(preset: seq<IncludeEntry>, f: IncludeEntry -> Result<FilterResult>,
                                                         g: IncludeEntry -> Result<FilterResult>, n: nat)
    requires n <= |preset|
    requires forall j | 0 <= j < |preset| :: f(preset[j]) == g(preset[j])
    ensures LastJustified(preset, f, n) == LastJustified(preset, g, n)
    decreases n
  {
    if n > 0 {
      assert f(preset[n - 1]) == g(preset[n - 1]);
      LastJustifiedRespectsOutcomes(preset, f, g, n - 1);
    }
  }

  /** Both Includes overloads give the same result for a record and the criteria taken from it. */
  lemma PresetRecordAndCriteriaAgree(filter: SerializationPresetFilter, item: SyncItem)
    requires IsId(item.id) && IsId(item.templateId)
    ensures PresetDecision(filter.preset, ItemOutcome(item)) ==
      PresetDecision(filter.preset, CriteriaOutcome(item.itemPath, item.id, item.templateId, item.templateName, item.databaseName))
  {
    var f := ItemOutcome(item);
    var g := CriteriaOutcome(item.itemPath, item.id, item.templateId, item.templateName, item.databaseName);
    forall j | 0 <= j < |filter.preset|
      ensures f(filter.preset[j]) == g(filter.preset[j])
    {
      RecordAndCriteriaAgree(filter.preset[j], item);
    }
    DecisionRespectsOutcomes(filter.preset, f, g);
  }
}
