/**
 * CRM_Report_Form_Instance: the part of a report form that edits the saved
 * "report instance" (title, permission, navigation menu entry, cache time,
 * owner, and the criteria stored as form_values).
 *
 *  - FormRule checks that a title is given when a save/next button was used;
 *  - InstanceForm.SetDefaultValues fills in the defaults shown on the form;
 *  - InstanceForm.PostProcess turns a submission into the record handed to
 *    the persistence layer, the navigation entry to delete, the status
 *    message and the redirect parameters.
 *
 * The framework's collaborators (request parameters, the navigation store,
 * the persistence layer, the session) are parameters of these members.
 */
module ReportInstanceForm {
  import opened PhpValues
  import opened PhpStrings

  /** CRM_Core_DAO::VALUE_SEPARATOR, the character joining a stored multi-value. */
  const ValueSeparator: char := '\U{1}'

  // ---------------------------------------------------------------------
  // formRule
  // ---------------------------------------------------------------------

  /** What formRule returns: TRUE, or an array of messages keyed by field. */
  datatype RuleResult = Passed | Errors(errors: map<string, string>)

  const TitleRequired: string := "Title is a required field."

  /** The save button's name: the next button's name with `_next` replaced by `_save`. */
  function SaveButtonOf(nextButton: string): string {
    ReplaceAll(nextButton, "_next", "_save")
  }

  /** The clicked button is (loosely) the next button or its save twin. */
  predicate IsSubmitButton(clicked: Value, nextButton: string) {
    LooseEqualsStr(clicked, nextButton) || LooseEqualsStr(clicked, SaveButtonOf(nextButton))
  }

  /** formRule: the title is required, but only for the next and save buttons.
      The only error it can report is the one keyed `title`. */
  function FormRule(fields: Row, nextButton: string, clicked: Value): (r: RuleResult)
    ensures r.Errors? <==> IsSubmitButton(clicked, nextButton) && EmptyAt(fields, "title")
    ensures r.Errors? ==> r.errors.Keys == {"title"} && r.errors["title"] == TitleRequired
    ensures !IsSubmitButton(clicked, nextButton) ==> r == Passed
  {
    var errors: map<string, string> :=
      if IsSubmitButton(clicked, nextButton) && EmptyAt(fields, "title")
      then map["title" := TitleRequired]
      else map[];
    assert "title" in errors <==> errors != map[];
    if errors == map[] then Passed else Errors(errors)
  }

  /** When the next button's name has no `_next` in it, its save twin is the
      same name, so only that one button makes the title required. */
  lemma FormRulePlainButton(fields: Row, nextButton: string, clicked: Value)
    requires forall i: nat :: !OccursAt(nextButton, "_next", i)
    ensures FormRule(fields, nextButton, clicked).Errors? <==>
            LooseEqualsStr(clicked, nextButton) && EmptyAt(fields, "title")
  {
    ReplaceAbsent(nextButton, "_next", "_save");
  }

  // ---------------------------------------------------------------------
  // setDefaultValues helpers
  // ---------------------------------------------------------------------

  /** The foreach over the explode'd stored grouprole: the role names, in
      order. `implode` gives back the stored string and no name contains the
      separator, which determines the list (see SplitUnique). */
  method ExplodeGroupRoles(stored: string) returns (roles: seq<string>)
    ensures |roles| >= 1
    ensures forall k :: 0 <= k < |roles| ==> ValueSeparator !in roles[k]
    ensures Join(roles, ValueSeparator) == stored
  {
    var parts := Split(stored, ValueSeparator);
    roles := [];
    var i := 0;
    while i < |parts|
      invariant 0 <= i <= |parts|
      invariant roles == parts[..i]
    {
      roles := roles + [parts[i]];
      i := i + 1;
    }
    assert roles == parts;
    JoinSplit(stored, ValueSeparator);
    SplitPiecesFree(stored, ValueSeparator);
  }

  /** A list of role names as the PHP array of strings. */
  function StrList(names: seq<string>): (vs: seq<Value>)
    ensures |vs| == |names|
    ensures forall k :: 0 <= k < |names| ==> vs[k] == Str(names[k])
  {
    seq(|names|, k requires 0 <= k < |names| => Str(names[k]))
  }

  // ---------------------------------------------------------------------
  // postProcess helpers
  // ---------------------------------------------------------------------

  /** Which of the three status messages postProcess sets. */
  datatype Status = Updated | Copied | Created

  /** What one submission does beyond the form: the parameters handed to the
      persistence layer's create (with form_values as the projected map), the
      navigation entry deleted (a menu cache reset follows it), the status
      message and, when redirecting, the redirect's query parameters. */
  datatype Submission = Submission(
    record: Row,
    deletedNavigation: Option<Value>,
    status: Status,
    redirect: Option<Row>)

  /** The submitted keys that are not criteria, removed one by one from the copy. */
  const UnsetFields: seq<string> :=
    ["title", "to_emails", "cc_emails", "header", "footer", "qfKey", "id",
     "_qf_default", "report_header", "report_footer", "grouprole", "task"]

  /** Everything kept out of form_values: UnsetFields and `add_to_my_reports`. */
  const ExcludedKeys: set<string> :=
    {"title", "to_emails", "cc_emails", "header", "footer", "qfKey", "id",
     "_qf_default", "report_header", "report_footer", "grouprole", "task",
     "add_to_my_reports"}

  lemma ExcludedKeysAreUnsetFields()
    ensures forall k :: k in ExcludedKeys <==> k in UnsetFields || k == "add_to_my_reports"
  {
  }

  /** The unset loop: exactly the listed keys are removed, every other key
      keeps its value. */
  method UnsetAll(values: Row, fields: seq<string>) returns (r: Row)
    ensures forall k :: k in r <==> k in values && k !in fields
    ensures forall k :: k in r ==> r[k] == values[k]
  {
    r := values;
    var i := 0;
    while i < |fields|
      invariant 0 <= i <= |fields|
      invariant forall k :: k in r <==> k in values && k !in fields[..i]
      invariant forall k :: k in r ==> r[k] == values[k]
    {
      r := r - {fields[i]};
      assert fields[..i + 1] == fields[..i] + [fields[i]];
      i := i + 1;
    }
    assert fields[..i] == fields;
  }

  /** The owner: the logged-in contact when "add to my reports" is ticked,
      otherwise the literal string 'null' (a shared report). */
  function OwnerFor(formValues: Row, contactId: Value): Value {
    if !EmptyAt(formValues, "add_to_my_reports") then contactId else Str("null")
  }

  /** The status message chosen from the instance id left after copy handling
      and from the original id: an update of an existing instance, a copy of
      one, or a creation. */
  function StatusOf(instanceId: Value, createNew: Value): (s: Status)
    ensures s == Updated <==> Truthy(instanceId) && !Truthy(createNew)
    ensures s == Copied <==> Truthy(instanceId) && Truthy(createNew)
    ensures s == Created <==> !Truthy(instanceId)
  {
    var remaining := if Truthy(createNew) then Null else instanceId;
    if Truthy(remaining) && !Truthy(createNew) then Updated
    else if Truthy(instanceId) && Truthy(createNew) then Copied
    else Created
  }

  /** The redirect's query parameters: always `reset=1`, then `force=1` for
      the view mode `view` and `output=criteria` for anything else, never both. */
  function RedirectParams(viewMode: Value): (q: Row)
    ensures "reset" in q && q["reset"] == Int(1)
    ensures "force" in q <==> LooseEqualsStr(viewMode, "view")
    ensures "output" in q <==> !LooseEqualsStr(viewMode, "view")
    ensures "force" in q ==> q["force"] == Int(1)
    ensures "output" in q ==> q["output"] == Str("criteria")
    ensures q.Keys <= {"reset", "force", "output"}
  {
    var q := map["reset" := Int(1)];
    if LooseEqualsStr(viewMode, "view") then q["force" := Int(1)]
    else q["output" := Str("criteria")]
  }

  // ---------------------------------------------------------------------
  // setDefaultValues, specified phase by phase
  // ---------------------------------------------------------------------

  /** The keys every form outside dashlet mode gets a value for. */
  const AlwaysSet: set<string> :=
    {"permission", "report_header", "report_footer", "view_mode", "cache_minutes"}

  /** The defaults filled in for every instance, new or existing: a missing
      permission, the default header and footer, the view mode asked for by
      the request, and a cache time when it is empty. */
  function CommonDefaultsOf(defaults: Row, output: Value, headerHtml: string, footerHtml: string)
    : (d: Row)
    ensures forall k {:trigger Get(d, k)} {:trigger k in d} :: k !in AlwaysSet ==>
              (k in d <==> k in defaults) && Get(d, k) == Get(defaults, k)
    ensures "permission" in d && "report_header" in d && "report_footer" in d
    ensures "view_mode" in d && "cache_minutes" in d
    ensures IssetAt(defaults, "permission") ==> d["permission"] == defaults["permission"]
    ensures !IssetAt(defaults, "permission") ==> d["permission"] == Str("access CiviReport")
    ensures d["report_header"] == Str(headerHtml) && d["report_footer"] == Str(footerHtml)
    ensures d["view_mode"] == Str(if LooseEqualsStr(output, "criteria") then "criteria" else "view")
    ensures !EmptyAt(defaults, "cache_minutes") ==> d["cache_minutes"] == defaults["cache_minutes"]
    ensures EmptyAt(defaults, "cache_minutes") ==> d["cache_minutes"] == Str("60")
  {
    var withPermission :=
      if IssetAt(defaults, "permission") then defaults
      else defaults["permission" := Str("access CiviReport")];
    var framed := withPermission["report_header" := Str(headerHtml)]
                                ["report_footer" := Str(footerHtml)];
    var viewed := framed["view_mode" :=
      Str(if LooseEqualsStr(output, "criteria") then "criteria" else "view")];
    if EmptyAt(viewed, "cache_minutes") then viewed["cache_minutes" := Str("60")] else viewed
  }

  /** The keys an existing instance's defaults may change besides AlwaysSet. */
  const ExistingSet: set<string> := {"description", "report_header", "report_footer", "add_to_my_reports"}

  /** For an existing instance: the description is always present (NULL when
      not set), a stored non-empty header or footer replaces the default one,
      and the "add to my reports" box is ticked exactly when the instance has
      an owner. */
  function ExistingDefaultsOf(d0: Row): (d: Row)
    requires "report_header" in d0 && "report_footer" in d0
    ensures forall k {:trigger Get(d, k)} {:trigger k in d} :: k !in ExistingSet ==>
              (k in d <==> k in d0) && Get(d, k) == Get(d0, k)
    ensures "description" in d && "report_header" in d && "report_footer" in d
    ensures "add_to_my_reports" in d
    ensures d["description"] == Get(d0, "description")
    ensures d["report_header"] == if EmptyAt(d0, "header") then d0["report_header"] else d0["header"]
    ensures d["report_footer"] == if EmptyAt(d0, "footer") then d0["report_footer"] else d0["footer"]
    ensures d["add_to_my_reports"] == Int(if LooseNotNull(Get(d0, "owner_id")) then 1 else 0)
  {
    var described := if IssetAt(d0, "description") then d0 else d0["description" := Null];
    var headed := if EmptyAt(described, "header") then described
                  else described["report_header" := described["header"]];
    var footed := if EmptyAt(headed, "footer") then headed
                  else headed["report_footer" := headed["footer"]];
    footed["add_to_my_reports" := Int(if LooseNotNull(Get(footed, "owner_id")) then 1 else 0)]
  }

  /** The saved navigation URL asks for the criteria view (strpos as a truth value). */
  predicate SavedCriteria(navRecord: Row) {
    StrposTruthy(Text(Get(navRecord, "url")), "output=criteria")
  }

  /** For an instance with a navigation_id: the menu entry `navRecord` read
      for it gives the parent, and a saved `criteria` view mode overrides the
      request's. Without a navigation_id nothing changes. */
  function LinkedDefaultsOf(d0: Row, navRecord: Row): (d: Row)
    requires "view_mode" in d0
    ensures !Truthy(Get(d0, "navigation_id")) ==> d == d0
    ensures forall k {:trigger Get(d, k)} {:trigger k in d} ::
              k != "is_navigation" && k != "parent_id" && k != "view_mode" ==>
              (k in d <==> k in d0) && Get(d, k) == Get(d0, k)
    ensures Truthy(Get(d0, "navigation_id")) ==>
      && "is_navigation" in d && d["is_navigation"] == Int(1)
      && "parent_id" in d && d["parent_id"] == Coalesce(navRecord, "parent_id", Null)
    ensures "view_mode" in d
    ensures d["view_mode"] == if Truthy(Get(d0, "navigation_id")) && SavedCriteria(navRecord)
                              then Str("criteria") else d0["view_mode"]
  {
    if EmptyAt(d0, "navigation_id") then d0
    else
      var flagged := d0["is_navigation" := Int(1)];
      var parented := flagged["parent_id" := Coalesce(navRecord, "parent_id", Null)];
      if SavedCriteria(navRecord) then parented["view_mode" := Str("criteria")] else parented
  }

  /** The stored role names of a joined grouprole value. */
  function RoleNames(stored: Value): seq<string> {
    Split(Text(stored), ValueSeparator)
  }

  /** For a stored grouprole: the joined string becomes the list of role names. */
  function RegroupedOf(d0: Row): (d: Row)
    ensures forall k {:trigger k in d} :: (k in d <==> k in d0)
    ensures forall k {:trigger Get(d, k)} :: k != "grouprole" ==> Get(d, k) == Get(d0, k)
    ensures EmptyAt(d0, "grouprole") ==> d == d0
    ensures !EmptyAt(d0, "grouprole") ==> d["grouprole"] == List(StrList(RoleNames(d0["grouprole"])))
  {
    if EmptyAt(d0, "grouprole") then d0
    else d0["grouprole" := List(StrList(RoleNames(d0["grouprole"])))]
  }

  /** The role names join back into the stored string, and none of them
      contains the separator. */
  lemma RoleNamesRoundTrip(stored: Value)
    ensures Join(RoleNames(stored), ValueSeparator) == Text(stored)
    ensures forall k :: 0 <= k < |RoleNames(stored)| ==> ValueSeparator !in RoleNames(stored)[k]
  {
    JoinSplit(Text(stored), ValueSeparator);
    SplitPiecesFree(Text(stored), ValueSeparator);
  }

  /** The grouprole step: a stored grouprole is exploded, name by name, into
      a list. */
  method RegroupRoles(d0: Row) returns (d: Row)
    ensures d == RegroupedOf(d0)
  {
    d := d0;
    if !EmptyAt(d, "grouprole") {
      var roles := ExplodeGroupRoles(Text(d["grouprole"]));
      RoleNamesRoundTrip(d["grouprole"]);
      SplitUnique(roles, RoleNames(d["grouprole"]), ValueSeparator);
      d := d["grouprole" := List(StrList(roles))];
    }
  }

  /** The defaults setDefaultValues leaves: nothing changes in dashlet mode;
      otherwise the common defaults, then for an existing instance its stored
      values, its navigation entry and its roles, and for a new one the
      form's own description when it has one. */
  function DefaultsOf(section: Value, instanceId: Value, description: Option<Value>,
                      defaults: Row, output: Value, navRecord: Row,
                      headerHtml: string, footerHtml: string): (d: Row)
    ensures Truthy(section) ==> d == defaults
  {
    if Truthy(section) then defaults
    else
      var common := CommonDefaultsOf(defaults, output, headerHtml, footerHtml);
      if Truthy(instanceId) then
        RegroupedOf(LinkedDefaultsOf(ExistingDefaultsOf(common), navRecord))
      else if description.Some? then common["description" := description.value]
      else common
  }

  /** The navigation entry stashed for postProcess when the instance's menu
      entry has an id: its id and, when non-empty, its parent. */
  function StashedNavigation(navigation: Row, navRecord: Row): (n: Row)
    ensures Truthy(Get(navRecord, "id")) ==>
      n.Keys == navigation.Keys + {"id", "parent_id"} && n["id"] == navRecord["id"]
      && n["parent_id"] == (if Truthy(Get(navRecord, "parent_id")) then navRecord["parent_id"] else Null)
    ensures forall k :: k in navigation && k != "id" && k != "parent_id" ==> k in n && n[k] == navigation[k]
    ensures !Truthy(Get(navRecord, "id")) ==> n == navigation
  {
    if EmptyAt(navRecord, "id") then navigation
    else navigation["id" := navRecord["id"]]
                   ["parent_id" := if !EmptyAt(navRecord, "parent_id") then navRecord["parent_id"]
                                   else Null]
  }

  lemma NavigationIdUnset()
    ensures "navigation_id" !in AlwaysSet && "navigation_id" !in ExistingSet
  {
  }

  /** The navigation_id survives the phases before the navigation lookup. */
  lemma NavigationIdKept(defaults: Row, output: Value, headerHtml: string, footerHtml: string)
    ensures Get(ExistingDefaultsOf(CommonDefaultsOf(defaults, output, headerHtml, footerHtml)),
                "navigation_id")
            == Get(defaults, "navigation_id")
  {
    NavigationIdUnset();
    var common := CommonDefaultsOf(defaults, output, headerHtml, footerHtml);
    assert Get(common, "navigation_id") == Get(defaults, "navigation_id");
    var existing := ExistingDefaultsOf(common);
    assert Get(existing, "navigation_id") == Get(common, "navigation_id");
  }

  /** The navigation and grouprole phases leave every other key alone. */
  lemma LateKeep(d0: Row, navRecord: Row, k: string)
    requires "view_mode" in d0
    requires k != "is_navigation" && k != "parent_id" && k != "view_mode" && k != "grouprole"
    ensures Get(RegroupedOf(LinkedDefaultsOf(d0, navRecord)), k) == Get(d0, k)
  {
    var linked := LinkedDefaultsOf(d0, navRecord);
    assert Get(linked, k) == Get(d0, k);
  }

  // ---------------------------------------------------------------------
  // setDefaultValues, what the composed phases promise
  // ---------------------------------------------------------------------

  /** The keys the common phase adds. */
  lemma CommonKeys(defaults: Row, output: Value, headerHtml: string, footerHtml: string)
    ensures CommonDefaultsOf(defaults, output, headerHtml, footerHtml).Keys == defaults.Keys + AlwaysSet
  {
    var common := CommonDefaultsOf(defaults, output, headerHtml, footerHtml);
    assert forall k :: k in common <==> k in defaults || k in AlwaysSet;
  }

  /** The keys the existing-instance phase adds. */
  lemma ExistingKeys(d0: Row)
    requires "report_header" in d0 && "report_footer" in d0
    ensures ExistingDefaultsOf(d0).Keys == d0.Keys + {"description", "add_to_my_reports"}
  {
    var existing := ExistingDefaultsOf(d0);
    assert forall k :: k in existing <==> k in d0 || k == "description" || k == "add_to_my_reports";
  }

  /** The keys the navigation phase adds. */
  lemma LinkedKeys(d0: Row, navRecord: Row)
    requires "view_mode" in d0
    ensures LinkedDefaultsOf(d0, navRecord).Keys
            == d0.Keys + (if Truthy(Get(d0, "navigation_id")) then {"is_navigation", "parent_id"} else {})
  {
    var linked := LinkedDefaultsOf(d0, navRecord);
    if Truthy(Get(d0, "navigation_id")) {
      assert forall k :: k in linked <==> k in d0 || k == "is_navigation" || k == "parent_id";
    }
  }

  /** The keys present afterwards. */
  lemma DefaultsKeys(section: Value, instanceId: Value, description: Option<Value>,
                     defaults: Row, output: Value, navRecord: Row,
                     headerHtml: string, footerHtml: string)
    requires !Truthy(section)
    ensures var existing := Truthy(instanceId);
      DefaultsOf(section, instanceId, description, defaults, output, navRecord, headerHtml, footerHtml).Keys
      == defaults.Keys + AlwaysSet
         + (if existing then {"description", "add_to_my_reports"} else {})
         + (if existing && Truthy(Get(defaults, "navigation_id")) then {"is_navigation", "parent_id"} else {})
         + (if !existing && description.Some? then {"description"} else {})
  {
    var common := CommonDefaultsOf(defaults, output, headerHtml, footerHtml);
    CommonKeys(defaults, output, headerHtml, footerHtml);
    if Truthy(instanceId) {
      var existing := ExistingDefaultsOf(common);
      ExistingKeys(common);
      LinkedKeys(existing, navRecord);
      NavigationIdKept(defaults, output, headerHtml, footerHtml);
    }
  }

  /** A permission is filled in only when missing. */
  lemma DefaultsPermission(section: Value, instanceId: Value, description: Option<Value>,
                           defaults: Row, output: Value, navRecord: Row,
                           headerHtml: string, footerHtml: string)
    requires !Truthy(section)
    ensures Get(DefaultsOf(section, instanceId, description, defaults, output, navRecord,
                           headerHtml, footerHtml), "permission")
            == if IssetAt(defaults, "permission") then defaults["permission"] else Str("access CiviReport")
  {
    var common := CommonDefaultsOf(defaults, output, headerHtml, footerHtml);
    var existing := ExistingDefaultsOf(common);
    assert Get(existing, "permission") == Get(common, "permission");
    LateKeep(existing, navRecord, "permission");
  }

  /** A cache time is filled in only when empty (0 and "0" count as empty). */
  lemma DefaultsCacheMinutes(section: Value, instanceId: Value, description: Option<Value>,
                             defaults: Row, output: Value, navRecord: Row,
                             headerHtml: string, footerHtml: string)
    requires !Truthy(section)
    ensures Get(DefaultsOf(section, instanceId, description, defaults, output, navRecord,
                           headerHtml, footerHtml), "cache_minutes")
            == if EmptyAt(defaults, "cache_minutes") then Str("60") else defaults["cache_minutes"]
  {
    var common := CommonDefaultsOf(defaults, output, headerHtml, footerHtml);
    var existing := ExistingDefaultsOf(common);
    assert Get(existing, "cache_minutes") == Get(common, "cache_minutes");
    LateKeep(existing, navRecord, "cache_minutes");
  }

  /** The view mode shown: `criteria` when the request asks for it, or when
      the instance's saved navigation URL has `output=criteria` after its
      first character; `view` otherwise. */
  predicate CriteriaView(output: Value, existing: bool, defaults: Row, navRecord: Row) {
    || LooseEqualsStr(output, "criteria")
    || (existing && Truthy(Get(defaults, "navigation_id")) && SavedCriteria(navRecord))
  }

  lemma DefaultsViewMode(section: Value, instanceId: Value, description: Option<Value>,
                         defaults: Row, output: Value, navRecord: Row,
                         headerHtml: string, footerHtml: string)
    requires !Truthy(section)
    ensures Get(DefaultsOf(section, instanceId, description, defaults, output, navRecord,
                           headerHtml, footerHtml), "view_mode")
            == Str(if CriteriaView(output, Truthy(instanceId), defaults, navRecord)
                   then "criteria" else "view")
  {
    var common := CommonDefaultsOf(defaults, output, headerHtml, footerHtml);
    if Truthy(instanceId) {
      NavigationIdKept(defaults, output, headerHtml, footerHtml);
      var existing := ExistingDefaultsOf(common);
      assert Get(existing, "view_mode") == Get(common, "view_mode");
    }
  }

  /** A URL that starts with `output=criteria` does not select the criteria
      view: strpos finds it at position 0, which reads as false. */
  lemma SavedCriteriaAtStart(navRecord: Row, rest: string)
    requires Get(navRecord, "url") == Str("output=criteria" + rest)
    ensures !SavedCriteria(navRecord)
  {
    StrposFalseAtStart("output=criteria", rest);
  }

  /** A stored, non-empty header wins over the rendered default one, but
      only for an existing instance. */
  lemma DefaultsHeader(section: Value, instanceId: Value, description: Option<Value>,
                       defaults: Row, output: Value, navRecord: Row,
                       headerHtml: string, footerHtml: string)
    requires !Truthy(section)
    ensures Get(DefaultsOf(section, instanceId, description, defaults, output, navRecord,
                           headerHtml, footerHtml), "report_header")
            == if Truthy(instanceId) && !EmptyAt(defaults, "header") then defaults["header"]
               else Str(headerHtml)
  {
    var common := CommonDefaultsOf(defaults, output, headerHtml, footerHtml);
    assert Get(common, "header") == Get(defaults, "header");
    var existing := ExistingDefaultsOf(common);
    assert Get(existing, "report_header")
           == if EmptyAt(defaults, "header") then Str(headerHtml) else defaults["header"];
    LateKeep(existing, navRecord, "report_header");
  }

  /** Likewise for the footer. */
  lemma DefaultsFooter(section: Value, instanceId: Value, description: Option<Value>,
                       defaults: Row, output: Value, navRecord: Row,
                       headerHtml: string, footerHtml: string)
    requires !Truthy(section)
    ensures Get(DefaultsOf(section, instanceId, description, defaults, output, navRecord,
                           headerHtml, footerHtml), "report_footer")
            == if Truthy(instanceId) && !EmptyAt(defaults, "footer") then defaults["footer"]
               else Str(footerHtml)
  {
    var common := CommonDefaultsOf(defaults, output, headerHtml, footerHtml);
    assert Get(common, "footer") == Get(defaults, "footer");
    var existing := ExistingDefaultsOf(common);
    assert Get(existing, "report_footer")
           == if EmptyAt(defaults, "footer") then Str(footerHtml) else defaults["footer"];
    LateKeep(existing, navRecord, "report_footer");
  }

  /** For an existing instance the description is kept, NULL when missing. */
  lemma DefaultsExistingDescription(section: Value, instanceId: Value, description: Option<Value>,
                                    defaults: Row, output: Value, navRecord: Row,
                                    headerHtml: string, footerHtml: string)
    requires !Truthy(section) && Truthy(instanceId)
    ensures Get(DefaultsOf(section, instanceId, description, defaults, output, navRecord,
                           headerHtml, footerHtml), "description") == Get(defaults, "description")
  {
    var common := CommonDefaultsOf(defaults, output, headerHtml, footerHtml);
    assert Get(common, "description") == Get(defaults, "description");
    var existing := ExistingDefaultsOf(common);
    LateKeep(existing, navRecord, "description");
  }

  /** For an existing instance the private-report box is ticked exactly when
      the owner is loosely different from NULL. */
  lemma DefaultsOwnerFlag(section: Value, instanceId: Value, description: Option<Value>,
                          defaults: Row, output: Value, navRecord: Row,
                          headerHtml: string, footerHtml: string)
    requires !Truthy(section) && Truthy(instanceId)
    ensures Get(DefaultsOf(section, instanceId, description, defaults, output, navRecord,
                           headerHtml, footerHtml), "add_to_my_reports")
            == Int(if LooseNotNull(Get(defaults, "owner_id")) then 1 else 0)
  {
    var common := CommonDefaultsOf(defaults, output, headerHtml, footerHtml);
    assert Get(common, "owner_id") == Get(defaults, "owner_id");
    var existing := ExistingDefaultsOf(common);
    LateKeep(existing, navRecord, "add_to_my_reports");
  }

  /** An existing instance linked to a menu entry is flagged as in the menu
      and gets the entry's parent. */
  lemma DefaultsLinkedNavigation(section: Value, instanceId: Value, description: Option<Value>,
                                 defaults: Row, output: Value, navRecord: Row,
                                 headerHtml: string, footerHtml: string)
    requires !Truthy(section) && Truthy(instanceId) && Truthy(Get(defaults, "navigation_id"))
    ensures var d := DefaultsOf(section, instanceId, description, defaults, output, navRecord,
                                headerHtml, footerHtml);
      Get(d, "is_navigation") == Int(1) && Get(d, "parent_id") == Coalesce(navRecord, "parent_id", Null)
  {
    NavigationIdKept(defaults, output, headerHtml, footerHtml);
  }

  /** An existing instance's stored roles become the list of role names. */
  lemma DefaultsRoles(section: Value, instanceId: Value, description: Option<Value>,
                      defaults: Row, output: Value, navRecord: Row,
                      headerHtml: string, footerHtml: string)
    requires !Truthy(section) && Truthy(instanceId) && Truthy(Get(defaults, "grouprole"))
    ensures Get(DefaultsOf(section, instanceId, description, defaults, output, navRecord,
                           headerHtml, footerHtml), "grouprole")
            == List(StrList(RoleNames(defaults["grouprole"])))
  {
    var common := CommonDefaultsOf(defaults, output, headerHtml, footerHtml);
    assert Get(common, "grouprole") == Get(defaults, "grouprole");
    var existing := ExistingDefaultsOf(common);
    assert Get(existing, "grouprole") == Get(defaults, "grouprole");
    var linked := LinkedDefaultsOf(existing, navRecord);
    assert Get(linked, "grouprole") == Get(defaults, "grouprole");
  }

  /** For a new instance the form's own description, when it has one, is used. */
  lemma DefaultsNewInstance(section: Value, instanceId: Value, description: Option<Value>,
                            defaults: Row, output: Value, navRecord: Row,
                            headerHtml: string, footerHtml: string)
    requires !Truthy(section) && !Truthy(instanceId)
    ensures var d := DefaultsOf(section, instanceId, description, defaults, output, navRecord,
                                headerHtml, footerHtml);
      && (description.Some? ==> Get(d, "description") == description.value)
      && (description.None? ==> Get(d, "description") == Get(defaults, "description"))
  {
    var common := CommonDefaultsOf(defaults, output, headerHtml, footerHtml);
    assert Get(common, "description") == Get(defaults, "description");
  }

  /** The keys setDefaultValues may set. */
  const DefaultedKeys: set<string> :=
    AlwaysSet + ExistingSet + {"is_navigation", "parent_id", "grouprole"}

  lemma NotDefaulted(k: string)
    requires k !in DefaultedKeys
    ensures k !in AlwaysSet && k !in ExistingSet && k != "description"
    ensures k != "is_navigation" && k != "parent_id" && k != "view_mode" && k != "grouprole"
  {
  }

  /** Every other key keeps its value. */
  lemma DefaultsFrame(section: Value, instanceId: Value, description: Option<Value>,
                      defaults: Row, output: Value, navRecord: Row,
                      headerHtml: string, footerHtml: string, k: string)
    requires k in defaults && k !in DefaultedKeys
    ensures Get(DefaultsOf(section, instanceId, description, defaults, output, navRecord,
                           headerHtml, footerHtml), k) == defaults[k]
  {
    NotDefaulted(k);
    var common := CommonDefaultsOf(defaults, output, headerHtml, footerHtml);
    assert Get(common, k) == defaults[k];
    var existing := ExistingDefaultsOf(common);
    assert Get(existing, k) == defaults[k];
    LateKeep(existing, navRecord, k);
  }

  // ---------------------------------------------------------------------
  // postProcess, specification
  // ---------------------------------------------------------------------

  /** The submitted parameters after copy handling and navigation
      reconciliation: a copy takes the original's report_id and loses its
      instance id; the stashed navigation entry rides along when the report
      is to be in the menu. Nothing else changes. */
  function Prepared(params: Row, instanceId: Value, createNew: Value,
                    originalReportId: Value, navigation: Row): (p: Row)
    ensures "instance_id" in p && p["instance_id"] == if Truthy(createNew) then Null else instanceId
    ensures Truthy(createNew) ==> "report_id" in p && p["report_id"] == originalReportId
    ensures !Truthy(createNew) ==>
              ("report_id" in p <==> "report_id" in params) && Get(p, "report_id") == Get(params, "report_id")
    ensures Truthy(Get(params, "is_navigation")) ==>
              "navigation" in p && p["navigation"] == Dict(navigation)
    ensures !Truthy(Get(params, "is_navigation")) ==>
              ("navigation" in p <==> "navigation" in params) && Get(p, "navigation") == Get(params, "navigation")
    ensures forall k {:trigger Get(p, k)} {:trigger k in p} ::
              k != "instance_id" && k != "report_id" && k != "navigation" ==>
              (k in p <==> k in params) && Get(p, k) == Get(params, k)
  {
    var copied := if Truthy(createNew) then params["report_id" := originalReportId] else params;
    var placed := copied["instance_id" := if Truthy(createNew) then Null else instanceId];
    if !EmptyAt(placed, "is_navigation") then placed["navigation" := Dict(navigation)] else placed
  }

  /** form_values: the prepared parameters without the excluded keys; every
      other key, `view_mode` among them, keeps its value. */
  function FormValues(prepared: Row): (fv: Row)
    ensures forall k {:trigger k in fv} :: k in fv <==> k in prepared && k !in ExcludedKeys
    ensures forall k {:trigger fv[k]} :: k in fv ==> fv[k] == prepared[k]
    ensures Get(fv, "view_mode") == Get(prepared, "view_mode")
  {
    prepared - ExcludedKeys
  }

  /** The record handed to the persistence layer: the prepared parameters
      with the owner (the contact for a private report, else the string
      'null') and the criteria, form_values, added. */
  function RecordFrom(prepared: Row, contactId: Value): (r: Row)
    ensures "owner_id" in r
    ensures r["owner_id"] == if Truthy(Get(prepared, "add_to_my_reports")) then contactId else Str("null")
    ensures "form_values" in r && r["form_values"] == Dict(FormValues(prepared))
    ensures forall k {:trigger Get(r, k)} {:trigger k in r} :: k != "owner_id" && k != "form_values" ==>
              (k in r <==> k in prepared) && Get(r, k) == Get(prepared, k)
  {
    prepared["owner_id" := OwnerFor(prepared, contactId)]["form_values" := Dict(FormValues(prepared))]
  }

  /** The middle of postProcess: the copy of the parameters loses the
      non-criteria fields one by one, the owner is read from it, then it
      loses the owner flag too and becomes form_values. */
  method CriteriaRecord(prepared: Row, contactId: Value) returns (record: Row, viewMode: Value)
    ensures record == RecordFrom(prepared, contactId)
    ensures viewMode == Get(FormValues(prepared), "view_mode")
  {
    var formValues := UnsetAll(prepared, UnsetFields);
    UnsetThenOwnerFlag(prepared, formValues);
    UnsetKeepsOwnerFlagAndViewMode(prepared, formValues);
    viewMode := Get(formValues, "view_mode");

    record := prepared["owner_id" := OwnerFor(formValues, contactId)];
    formValues := formValues - {"add_to_my_reports"};
    record := record["form_values" := Dict(formValues)];
  }

  /** The owner recorded follows the submitted "add to my reports" box. */
  lemma RecordOwner(params: Row, instanceId: Value, createNew: Value, originalReportId: Value,
                    navigation: Row, contactId: Value)
    ensures RecordFrom(Prepared(params, instanceId, createNew, originalReportId, navigation), contactId)["owner_id"]
            == if Truthy(Get(params, "add_to_my_reports")) then contactId else Str("null")
  {
    var p := Prepared(params, instanceId, createNew, originalReportId, navigation);
    assert Get(p, "add_to_my_reports") == Get(params, "add_to_my_reports");
  }

  /** The redirect follows the submitted view mode: form_values keeps it. */
  lemma FormValuesViewMode(params: Row, instanceId: Value, createNew: Value,
                           originalReportId: Value, navigation: Row)
    ensures Get(FormValues(Prepared(params, instanceId, createNew, originalReportId, navigation)), "view_mode")
            == Get(params, "view_mode")
  {
    var p := Prepared(params, instanceId, createNew, originalReportId, navigation);
    assert Get(p, "view_mode") == Get(params, "view_mode");
  }

  /** form_values against the submitted parameters: a key other than the
      three postProcess adds is a criterion exactly when it was submitted and
      is not excluded, and it keeps its submitted value. */
  lemma FormValuesProjection(params: Row, instanceId: Value, createNew: Value,
                             originalReportId: Value, navigation: Row, k: string)
    requires k != "instance_id" && k != "report_id" && k != "navigation"
    ensures var fv := FormValues(Prepared(params, instanceId, createNew, originalReportId, navigation));
      && (k in fv <==> k in params && k !in ExcludedKeys)
      && (k in fv ==> fv[k] == params[k])
  {
    var p := Prepared(params, instanceId, createNew, originalReportId, navigation);
    assert (k in p <==> k in params) && Get(p, k) == Get(params, k);
  }

  /** The three keys postProcess adds reach form_values too: instance_id
      always, report_id for a copy or when submitted, and navigation when
      the report is in the menu or when submitted. */
  lemma FormValuesAddedKeys(params: Row, instanceId: Value, createNew: Value,
                            originalReportId: Value, navigation: Row)
    ensures var fv := FormValues(Prepared(params, instanceId, createNew, originalReportId, navigation));
      && "instance_id" in fv && fv["instance_id"] == (if Truthy(createNew) then Null else instanceId)
      && ("report_id" in fv <==> Truthy(createNew) || "report_id" in params)
      && ("navigation" in fv <==> Truthy(Get(params, "is_navigation")) || "navigation" in params)
  {
    var p := Prepared(params, instanceId, createNew, originalReportId, navigation);
    assert "instance_id" !in ExcludedKeys && "report_id" !in ExcludedKeys && "navigation" !in ExcludedKeys;
  }

  /** A copy is saved under the original's report_id as a new instance. */
  lemma CopyRecord(params: Row, instanceId: Value, createNew: Value, originalReportId: Value,
                   navigation: Row, contactId: Value)
    requires Truthy(createNew)
    ensures var r := RecordFrom(Prepared(params, instanceId, createNew, originalReportId, navigation),
                                contactId);
      Get(r, "instance_id") == Null && Get(r, "report_id") == originalReportId
  {
    var p := Prepared(params, instanceId, createNew, originalReportId, navigation);
    var r := RecordFrom(p, contactId);
    assert Get(r, "instance_id") == Get(p, "instance_id");
    assert Get(r, "report_id") == Get(p, "report_id");
  }

  lemma UnsetThenOwnerFlagKeys(prepared: Row, unset: Row)
    requires forall k :: k in unset <==> k in prepared && k !in UnsetFields
    ensures (unset - {"add_to_my_reports"}).Keys == FormValues(prepared).Keys
  {
    ExcludedKeysAreUnsetFields();
  }

  /** The unset loop followed by the removal of `add_to_my_reports` leaves
      exactly form_values. */
  lemma UnsetThenOwnerFlag(prepared: Row, unset: Row)
    requires forall k :: k in unset <==> k in prepared && k !in UnsetFields
    requires forall k :: k in unset ==> unset[k] == prepared[k]
    ensures unset - {"add_to_my_reports"} == FormValues(prepared)
  {
    UnsetThenOwnerFlagKeys(prepared, unset);
    var fv := unset - {"add_to_my_reports"};
    assert forall k :: k in fv ==> fv[k] == FormValues(prepared)[k];
  }

  /** The unset loop keeps the owner flag and the view mode, which
      postProcess reads from the copy. */
  lemma UnsetKeepsOwnerFlagAndViewMode(prepared: Row, unset: Row)
    requires forall k :: k in unset <==> k in prepared && k !in UnsetFields
    requires forall k :: k in unset ==> unset[k] == prepared[k]
    ensures Get(unset, "add_to_my_reports") == Get(prepared, "add_to_my_reports")
    ensures Get(unset, "view_mode") == Get(prepared, "view_mode")
  {
    assert "add_to_my_reports" !in UnsetFields;
    assert "view_mode" !in UnsetFields;
  }

  // ---------------------------------------------------------------------
  // The form
  // ---------------------------------------------------------------------

  /** The form object the three phases share. The constant fields are what
      the framework supplies; the variable ones are what the phases update. */
  class InstanceForm {
    /** `_section`: set when the report is shown as a dashlet. */
    const section: Value
    /** `_id`: the instance being edited, empty for a new one. */
    const instanceId: Value
    /** `_createNew`: the submission asks for a copy. */
    const createNew: Value
    /** `_description`, None when the form has no such property. */
    const description: Option<Value>
    /** `_params`: the submitted values. */
    const params: Row
    /** `_navigation`: the navigation entry stashed for postProcess. */
    var navigation: Row
    /** Template variables assigned by the form. */
    var templateVars: Row
    /** The instance id stored with `set('id', ...)` after saving. */
    var savedId: Value

    constructor (section: Value, instanceId: Value, createNew: Value,
                 description: Option<Value>, params: Row)
      ensures this.section == section && this.instanceId == instanceId
      ensures this.createNew == createNew && this.description == description
      ensures this.params == params
      ensures navigation == map[] && templateVars == map[] && savedId == Null
    {
      this.section := section;
      this.instanceId := instanceId;
      this.createNew := createNew;
      this.description := description;
      this.params := params;
      navigation := map[];
      templateVars := map[];
      savedId := Null;
    }

    /** The navigation step of setDefaultValues for an existing instance:
        when it has a navigation_id, the menu entry `navRecord` read for it
        gives the parent and may override the view mode; an active entry is
        flagged to the template, and an entry with an id is stashed for
        postProcess. */
    method LinkNavigation(d0: Row, navRecord: Row) returns (d: Row)
      requires "view_mode" in d0
      modifies this`navigation, this`templateVars
      ensures d == LinkedDefaultsOf(d0, navRecord)
      ensures navigation == if Truthy(Get(d0, "navigation_id"))
                            then StashedNavigation(old(navigation), navRecord)
                            else old(navigation)
      ensures templateVars == if Truthy(Get(d0, "navigation_id")) && Truthy(Get(navRecord, "is_active"))
                              then old(templateVars)["is_navigation" := Bool(true)]
                              else old(templateVars)
    {
      d := d0;
      if !EmptyAt(d, "navigation_id") {
        d := d["is_navigation" := Int(1)];
        d := d["parent_id" := Coalesce(navRecord, "parent_id", Null)];
        if !EmptyAt(navRecord, "is_active") {
          templateVars := templateVars["is_navigation" := Bool(true)];
        }
        // A saved view mode overrides what the request said.
        if SavedCriteria(navRecord) {
          d := d["view_mode" := Str("criteria")];
        }
        if !EmptyAt(navRecord, "id") {
          navigation := navigation["id" := navRecord["id"]];
          navigation := navigation["parent_id" :=
            if !EmptyAt(navRecord, "parent_id") then navRecord["parent_id"] else Null];
        }
      }
    }

    /** setDefaultValues: `defaults` comes in and goes out by reference.
        `output` is the request's `output` parameter, `navRecord` what the
        navigation store returns for the instance's navigation_id, and
        `headerHtml`/`footerHtml` the rendered default header and footer.
        The defaults are those DefaultsOf describes; the navigation entry is
        stashed, and flagged to the template when active, only for an
        existing instance linked to one. */
    method SetDefaultValues(defaults: Row, output: Value, navRecord: Row,
                            headerHtml: string, footerHtml: string)
      returns (d: Row)
      modifies this`navigation, this`templateVars
      ensures d == DefaultsOf(section, instanceId, description, defaults, output, navRecord,
                              headerHtml, footerHtml)
      ensures navigation ==
        if !Truthy(section) && Truthy(instanceId) && Truthy(Get(defaults, "navigation_id"))
        then StashedNavigation(old(navigation), navRecord)
        else old(navigation)
      ensures templateVars ==
        if !Truthy(section) && Truthy(instanceId) && Truthy(Get(defaults, "navigation_id"))
           && Truthy(Get(navRecord, "is_active"))
        then old(templateVars)["is_navigation" := Bool(true)]
        else old(templateVars)
    {
      d := defaults;
      // No form elements in dashlet mode.
      if Truthy(section) {
        return;
      }
      d := CommonDefaultsOf(d, output, headerHtml, footerHtml);
      if Truthy(instanceId) {
        d := ExistingDefaultsOf(d);
        NavigationIdKept(defaults, output, headerHtml, footerHtml);
        d := LinkNavigation(d, navRecord);
        d := RegroupRoles(d);
      } else if description.Some? {
        d := d["description" := description.value];
      }
    }

    /** The first steps of postProcess: copy handling, then the navigation
        entry, which rides along when the report is to be in the menu and is
        otherwise deleted (when stored) for an edited instance. */
    method PrepareParams(originalReportId: Value, storedNavigationId: Value)
      returns (p: Row, deleted: Option<Value>)
      ensures p == Prepared(params, instanceId, createNew, originalReportId, navigation)
      ensures deleted ==
        if !Truthy(Get(params, "is_navigation")) && !Truthy(createNew)
           && Truthy(instanceId) && Truthy(storedNavigationId)
        then Some(storedNavigationId) else None
    {
      p := params;
      var current := instanceId;
      if Truthy(createNew) {
        p := p["report_id" := originalReportId];
        current := Null;
      }
      p := p["instance_id" := current];

      deleted := None;
      if !EmptyAt(p, "is_navigation") {
        p := p["navigation" := Dict(navigation)];
      } else if Truthy(current) {
        if Truthy(storedNavigationId) {
          deleted := Some(storedNavigationId);
        }
      }
    }

    /** postProcess. `originalReportId` is the report id looked up for the
        instance being copied, `storedNavigationId` the navigation_id stored
        with the instance, `contactId` the logged-in contact and `createdId`
        the id of the instance the persistence layer saved. */
    method PostProcess(redirect: bool, originalReportId: Value, storedNavigationId: Value,
                       contactId: Value, createdId: Value)
      returns (out: Submission)
      modifies this`savedId
      ensures savedId == createdId
      ensures out.record ==
        RecordFrom(Prepared(params, instanceId, createNew, originalReportId, navigation), contactId)
      // The stored navigation entry is deleted only when the submission leaves
      // the report out of the menu and an instance (not a copy) is edited.
      ensures out.deletedNavigation ==
        if !Truthy(Get(params, "is_navigation")) && !Truthy(createNew)
           && Truthy(instanceId) && Truthy(storedNavigationId)
        then Some(storedNavigationId) else None
      ensures out.status == StatusOf(instanceId, createNew)
      // The redirect follows the view mode kept in form_values.
      ensures out.redirect ==
        if redirect
        then Some(RedirectParams(Get(FormValues(Prepared(params, instanceId, createNew,
                                                         originalReportId, navigation)), "view_mode")))
        else None
    {
      var prepared, deleted := PrepareParams(originalReportId, storedNavigationId);
      var record, viewMode := CriteriaRecord(prepared, contactId);
      savedId := createdId;

      var query: Option<Row> := None;
      if redirect {
        query := Some(RedirectParams(viewMode));
      }
      out := Submission(record, deleted, StatusOf(instanceId, createNew), query);
    }
  }
}
