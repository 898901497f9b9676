# Report instance form (CRM_Report_Form_Instance)

A Dafny model of the decision logic of CiviCRM's report-instance form,
`CRM/Report/Form/Instance.php`. A report instance is a saved report: title,
permission, menu (navigation) entry, cache time, owner and the criteria,
stored as `form_values`. The form has three entry points, all modelled here:

- **formRule** validates a submission. A non-empty `title` is required when
  the clicked button is the form's "next" button or its `_save` twin.
- **setDefaultValues** fills in the defaults shown on the form.
  - Outside dashlet mode, for every instance: a missing permission, the
    rendered header and footer, the view mode asked for by the request, and
    a default cache time.
  - For an existing instance: its stored header and footer, its
    private-report flag, its navigation entry and its role list.
  - For a new instance: the form's own description.
  - It also stashes the navigation entry for postProcess and flags an active
    one to the template.
- **postProcess** turns a submission into what it produces:
  - the parameters handed to the persistence layer, with the owner and
    `form_values` added;
  - the navigation entry to delete, if any;
  - the status message: updated, copied or created;
  - the redirect's query parameters.

Modules:

- `PhpValues`: the PHP values the form works on and the PHP rules its
  branches use. These are `empty()`, `isset()`, `??`, truthiness, string
  conversion, loose `==` against a non-numeric string, and `!= NULL`.
- `PhpStrings`: `strpos` (with its position-0 truthiness), `explode` /
  `implode` on a one-character separator, and `str_replace`.
- `ReportInstanceForm`: the three entry points and what they promise.
  - `FormRule` is a function.
  - `InstanceForm` is a class. Its fields are the form's `_section`, `_id`,
    `_createNew`, `_description` and `_params`, and the state its methods
    update: `_navigation`, the template variables, and the saved id.
  - `setDefaultValues` is specified phase by phase by pure functions on the
    defaults map: `CommonDefaultsOf`, `ExistingDefaultsOf`,
    `LinkedDefaultsOf` and `RegroupedOf`. `DefaultsOf` composes them.
  - The methods are proved equal to these functions. The `Defaults*` lemmas
    state what the whole of setDefaultValues guarantees for each key.
  - postProcess is specified by `Prepared`, `FormValues` and `RecordFrom`.

The framework's collaborators are parameters:

- the clicked and next button names;
- the request's `output` parameter;
- the navigation record read for the instance;
- the rendered default header and footer;
- the original report id looked up for a copy;
- the stored navigation_id;
- the logged-in contact;
- the id the persistence layer gives the saved instance.

## Model

| member | source | states |
|---|---|---|
| PhpValues.Coalesce | CRM/Report/Form/Instance.php:260-269 | with a NULL default, `$m[$k] ?? NULL` is the plain read: a missing key and a NULL entry both give NULL, any other entry is returned as stored |
| PhpValues.LooseNotNull | CRM/Report/Form/Instance.php:260 | `$v != NULL` holds exactly for truthy values and for the string "0" |
| PhpValues.IsEmpty | CRM/Report/Form/Instance.php:181 | definition, no contract: `empty()` holds of NULL, FALSE, 0, "", "0" and the empty array |
| PhpValues.Truthy | CRM/Report/Form/Instance.php:274 | definition, no contract: PHP truthiness, the negation of `empty()` |
| PhpValues.EmptyAt | CRM/Report/Form/Instance.php:244 | definition, no contract: `empty($m[$k])`, true also for a missing key |
| PhpValues.IssetAt | CRM/Report/Form/Instance.php:205 | definition, no contract: `isset($m[$k])`, the key exists and is not NULL |
| PhpValues.Text | CRM/Report/Form/Instance.php:274 | definition, no contract: the string PHP makes of a value for `strpos` and `explode` (an array becomes "Array") |
| PhpValues.LooseEqualsStr | CRM/Report/Form/Instance.php:240 | definition, no contract: PHP 8 `==` of a value against a non-numeric string, used at lines 180, 240 and 380 |
| PhpStrings.StrposFrom | CRM/Report/Form/Instance.php:274 | the search returns the first occurrence at or after the start position, or none when there is no occurrence there |
| PhpStrings.Strpos | CRM/Report/Form/Instance.php:274 | `strpos` returns the first occurrence, and FALSE exactly when the needle occurs nowhere |
| PhpStrings.StrposTruthyIff | CRM/Report/Form/Instance.php:274 | `if (strpos(...))` holds iff the needle does not occur at position 0 and occurs at some later position |
| PhpStrings.StrposFalseAtStart | CRM/Report/Form/Instance.php:274 | a haystack that starts with the needle never passes the strpos truth test |
| PhpStrings.StrposTruthy | CRM/Report/Form/Instance.php:274 | definition, no contract: `if (strpos(...))`, a match found at a position other than 0 |
| PhpStrings.Split | CRM/Report/Form/Instance.php:286 | `explode` never returns an empty list |
| PhpStrings.JoinSplit | CRM/Report/Form/Instance.php:286 | joining the pieces of `explode` with the separator gives back the original string |
| PhpStrings.SplitPiecesFree | CRM/Report/Form/Instance.php:286 | no piece of `explode` contains the separator |
| PhpStrings.SplitFree | CRM/Report/Form/Instance.php:286 | a string without the separator explodes into itself alone |
| PhpStrings.SplitCons | CRM/Report/Form/Instance.php:286 | exploding at the first separator puts the piece before it first |
| PhpStrings.SplitJoin | CRM/Report/Form/Instance.php:286 | exploding a join of separator-free pieces gives back the pieces |
| PhpStrings.SplitUnique | CRM/Report/Form/Instance.php:286 | the pieces of `explode` are the only separator-free list that joins into the string |
| PhpStrings.ReplaceAbsent | CRM/Report/Form/Instance.php:176 | `str_replace` leaves a subject in which the search string does not occur unchanged |
| PhpStrings.ReplaceAtHit | CRM/Report/Form/Instance.php:176 | a suffix that starts with the search string has it replaced, and the scan goes on after the match |
| PhpStrings.ReplaceAtSkip | CRM/Report/Form/Instance.php:176 | a suffix that does not start with the search string keeps its first character, and the scan goes on from the next one |
| PhpStrings.ReplaceAtFirst | CRM/Report/Form/Instance.php:176 | from any position, the text up to the first later occurrence is kept, that occurrence becomes the replacement, and the rest after it is replaced in turn |
| PhpStrings.ReplaceFirst | CRM/Report/Form/Instance.php:176 | `str_replace` keeps the text before the first occurrence, writes the replacement for it, and is `str_replace` of the text after it; with ReplaceAbsent this fixes the result on every subject |
| PhpStrings.ReplaceAll | CRM/Report/Form/Instance.php:176 | definition, no contract: `str_replace`; its meaning is stated by ReplaceAbsent and ReplaceFirst |
| ReportInstanceForm.FormRule | CRM/Report/Form/Instance.php:173-188 | an error exists iff the clicked button loosely equals the next button or its `_save` twin and the title is empty; the only error is the `title` one with the required-field message; any other button passes |
| ReportInstanceForm.FormRulePlainButton | CRM/Report/Form/Instance.php:176-181 | when the next button's name contains no `_next`, only that button makes the title required |
| ReportInstanceForm.SaveButtonOf | CRM/Report/Form/Instance.php:176 | definition, no contract: the save button is the next button with `_next` replaced by `_save` |
| ReportInstanceForm.IsSubmitButton | CRM/Report/Form/Instance.php:180 | definition, no contract: the clicked button loosely equals the next button or its save twin |
| ReportInstanceForm.ExplodeGroupRoles | CRM/Report/Form/Instance.php:286-288 | the foreach collects a non-empty list of separator-free role names that joins back into the stored string |
| ReportInstanceForm.ExcludedKeysAreUnsetFields | CRM/Report/Form/Instance.php:331-358 | the keys kept out of form_values are exactly the unset list plus `add_to_my_reports` |
| ReportInstanceForm.UnsetAll | CRM/Report/Form/Instance.php:345-347 | the unset loop removes exactly the listed keys; every other key keeps its value |
| ReportInstanceForm.StatusOf | CRM/Report/Form/Instance.php:366-375 | the status is "updated" iff an instance is edited without copying, "copied" iff an instance is copied, and "created" iff there was no instance |
| ReportInstanceForm.RedirectParams | CRM/Report/Form/Instance.php:378-385 | the query always has reset=1; it has force=1 iff the view mode loosely equals 'view', and output=criteria otherwise, never both; it has no other keys |
| ReportInstanceForm.CommonDefaultsOf | CRM/Report/Form/Instance.php:205-246 | a permission is filled in only when not set; the header and footer are the rendered ones; the view mode is `criteria` iff the request's output is `criteria`; the cache time is '60' only when empty; no other key changes |
| ReportInstanceForm.ExistingDefaultsOf | CRM/Report/Form/Instance.php:250-262 | the description is always present (NULL when not set); a non-empty stored header or footer replaces the default one; `add_to_my_reports` is 1 iff the owner is `!= NULL`, else 0; no other key changes |
| ReportInstanceForm.LinkedDefaultsOf | CRM/Report/Form/Instance.php:264-276 | without a navigation_id nothing changes; with one, `is_navigation` is 1, the parent is the record's parent (NULL when unset), and the view mode becomes `criteria` when the saved URL passes the strpos test; no other key changes |
| ReportInstanceForm.SavedCriteria | CRM/Report/Form/Instance.php:274 | definition, no contract: the saved menu URL passes the strpos test for `output=criteria` |
| ReportInstanceForm.RoleNames | CRM/Report/Form/Instance.php:286 | definition, no contract: the role names are the explode of the stored grouprole on the value separator |
| ReportInstanceForm.StrList | CRM/Report/Form/Instance.php:287-289 | the stored role list holds the role names as strings, one for one and in order |
| ReportInstanceForm.RegroupedOf | CRM/Report/Form/Instance.php:285-290 | an empty grouprole leaves the defaults as they are; a stored one becomes the list of its exploded role names; no other key changes |
| ReportInstanceForm.RoleNamesRoundTrip | CRM/Report/Form/Instance.php:286-289 | the role names join back into the stored grouprole string, and none contains the separator |
| ReportInstanceForm.RegroupRoles | CRM/Report/Form/Instance.php:285-290 | the grouprole step, built by the foreach, produces exactly RegroupedOf |
| ReportInstanceForm.DefaultsOf | CRM/Report/Form/Instance.php:196-200 | in dashlet mode the defaults are left untouched |
| ReportInstanceForm.StashedNavigation | CRM/Report/Form/Instance.php:278-282 | when the record has an id, `_navigation` gains that id and the parent (NULL when empty), and every other entry keeps its value; otherwise it is unchanged |
| ReportInstanceForm.NavigationIdKept | CRM/Report/Form/Instance.php:205-264 | the navigation_id tested at line 264 is the one passed in |
| ReportInstanceForm.LateKeep | CRM/Report/Form/Instance.php:264-290 | the navigation and grouprole steps change no key but is_navigation, parent_id, view_mode and grouprole |
| ReportInstanceForm.CommonKeys | CRM/Report/Form/Instance.php:205-246 | the common step adds exactly permission, report_header, report_footer, view_mode and cache_minutes |
| ReportInstanceForm.ExistingKeys | CRM/Report/Form/Instance.php:250-262 | the existing-instance step adds exactly description and add_to_my_reports |
| ReportInstanceForm.LinkedKeys | CRM/Report/Form/Instance.php:264-276 | the navigation step adds is_navigation and parent_id exactly when there is a navigation_id |
| ReportInstanceForm.DefaultsKeys | CRM/Report/Form/Instance.php:196-295 | outside dashlet mode, the keys afterwards are the incoming ones plus the five common keys. An existing instance also gets description and add_to_my_reports, and is_navigation and parent_id when linked. A new instance gets description when the form has one |
| ReportInstanceForm.DefaultsPermission | CRM/Report/Form/Instance.php:205-207 | the permission afterwards is the submitted one when set, 'access CiviReport' otherwise |
| ReportInstanceForm.DefaultsCacheMinutes | CRM/Report/Form/Instance.php:244-246 | the cache time afterwards is '60' when it was empty in PHP's sense (missing, '', 0, '0', ...), else the one given |
| ReportInstanceForm.DefaultsViewMode | CRM/Report/Form/Instance.php:238-276 | the view mode is `criteria` iff the request asks for it, or the instance is linked and its saved URL passes the strpos test; `view` otherwise. Once `criteria`, it is never reset |
| ReportInstanceForm.SavedCriteriaAtStart | CRM/Report/Form/Instance.php:274-276 | a saved URL that starts with `output=criteria` does not select the criteria view |
| ReportInstanceForm.DefaultsHeader | CRM/Report/Form/Instance.php:216-253 | the header is the stored one when the instance exists and it is non-empty, the rendered default otherwise |
| ReportInstanceForm.DefaultsFooter | CRM/Report/Form/Instance.php:225-256 | the footer is the stored one when the instance exists and it is non-empty, the rendered default otherwise |
| ReportInstanceForm.DefaultsExistingDescription | CRM/Report/Form/Instance.php:250 | an existing instance keeps its description (NULL when missing) |
| ReportInstanceForm.DefaultsOwnerFlag | CRM/Report/Form/Instance.php:259-262 | an existing instance's `add_to_my_reports` is 1 iff its owner is `!= NULL`, else 0 |
| ReportInstanceForm.DefaultsLinkedNavigation | CRM/Report/Form/Instance.php:264-269 | a linked existing instance gets is_navigation = 1 and the record's parent (NULL when unset) |
| ReportInstanceForm.DefaultsRoles | CRM/Report/Form/Instance.php:285-290 | an existing instance's non-empty grouprole becomes the list of its exploded role names |
| ReportInstanceForm.DefaultsNewInstance | CRM/Report/Form/Instance.php:292-294 | a new instance takes the form's description when the form has one, and keeps the given one otherwise |
| ReportInstanceForm.DefaultsFrame | CRM/Report/Form/Instance.php:196-295 | every key setDefaultValues does not set keeps its value |
| ReportInstanceForm.Prepared | CRM/Report/Form/Instance.php:304-317 | a copy takes the original's report_id and a NULL instance_id; otherwise instance_id is the form's id and report_id is present exactly when submitted, with its value; the stashed navigation is passed on when is_navigation is non-empty, and otherwise navigation is present exactly when submitted; nothing else changes |
| ReportInstanceForm.FormValues | CRM/Report/Form/Instance.php:328-358 | form_values is the prepared parameters without exactly the excluded keys; every other key, view_mode among them, keeps its value |
| ReportInstanceForm.FormValuesProjection | CRM/Report/Form/Instance.php:328-358 | against the submitted parameters: a key other than instance_id, report_id and navigation (the keys postProcess sets first) is a criterion iff it was submitted and is not excluded, and it keeps its submitted value |
| ReportInstanceForm.FormValuesAddedKeys | CRM/Report/Form/Instance.php:307-328 | the keys set before the copy reach form_values: instance_id always (NULL for a copy), report_id iff copying or submitted, navigation iff is_navigation is non-empty or submitted |
| ReportInstanceForm.RecordFrom | CRM/Report/Form/Instance.php:350-361 | the record is the prepared parameters plus the owner and form_values |
| ReportInstanceForm.CriteriaRecord | CRM/Report/Form/Instance.php:328-361 | the unset loop, the owner choice and the removal of the owner flag build exactly RecordFrom, and the view mode read is form_values' |
| ReportInstanceForm.RecordOwner | CRM/Report/Form/Instance.php:352-357 | the recorded owner is the contact iff the submitted `add_to_my_reports` is non-empty, else 'null' |
| ReportInstanceForm.FormValuesViewMode | CRM/Report/Form/Instance.php:348 | the view mode the redirect reads is the submitted one |
| ReportInstanceForm.CopyRecord | CRM/Report/Form/Instance.php:307-314 | a copy is saved with a NULL instance_id under the original's report_id |
| ReportInstanceForm.UnsetThenOwnerFlag | CRM/Report/Form/Instance.php:345-358 | the unset loop followed by removing `add_to_my_reports` leaves exactly form_values |
| ReportInstanceForm.UnsetKeepsOwnerFlagAndViewMode | CRM/Report/Form/Instance.php:348-352 | the unset loop keeps `add_to_my_reports` and `view_mode`, which are read afterwards |
| ReportInstanceForm.InstanceForm.constructor | CRM/Report/Form/Instance.php:303-306 | the form starts with the framework's section, id, copy flag, description and params, an empty stash and no template variables |
| ReportInstanceForm.InstanceForm.LinkNavigation | CRM/Report/Form/Instance.php:264-283 | the navigation step gives LinkedDefaultsOf. `_navigation` is stashed only when linked. The template's is_navigation flag is set only when linked and the entry is active |
| ReportInstanceForm.InstanceForm.SetDefaultValues | CRM/Report/Form/Instance.php:196-295 | the defaults become DefaultsOf. The navigation entry is stashed, and an active one flagged, only for a linked existing instance outside dashlet mode |
| ReportInstanceForm.InstanceForm.PrepareParams | CRM/Report/Form/Instance.php:303-325 | the parameters become Prepared. The stored navigation entry is deleted only when is_navigation is empty, the instance is edited rather than copied, and a navigation_id is stored |
| ReportInstanceForm.InstanceForm.PostProcess | CRM/Report/Form/Instance.php:303-388 | the record is RecordFrom of the prepared parameters, and the saved id is the created one. The navigation deletion is as in PrepareParams. The status is StatusOf. The redirect, when asked for, follows form_values' view mode |

## Left out

- buildForm, with its widgets, permission and role lists, navigation list and drilldown lists, is not part of this model: it declares form elements and makes framework calls.
- The authorisation redirect (statusBounce, isInstanceGroupRoleAllowed) is an external permission service and is not modelled.
- Persistence and navigation-store calls are parameters or outputs: ReportInstance create, getFieldValue, Navigation retrieve, deleteRecord and resetNavigation. The deletion is reported as `deletedNavigation`; the cache reset that follows it is implied.
- `serialize` of form_values is a library format; form_values is kept as the projected map itself.
- The default header and footer are template text rendered from a theme region and the resource URL; they are the parameters `headerHtml` and `footerHtml`.
- `ts()` translation, the session status call, URL building and the actual redirect are left out. The status is a three-valued result and the redirect a map of query parameters.
- formRule's `assign('instanceFormError', TRUE)` is not kept as state; it happens exactly when the result is an error.
- PhpValues.LooseEqualsStr: compares only against a non-numeric string, as all the literals and button names here are; PHP's numeric-string comparison is not modelled.
- PhpValues.Text: an array converts to "Array"; PHP 8 instead throws a TypeError when `strpos` or `explode` gets an array (a saved URL or grouprole that is an array).
- PHP arrays are ordered; maps here are not, so the order of keys in the defaults, the parameters and form_values is not modelled.
- Floating-point values are not among the PHP values modelled.
- The value separator is the character "\x01"; CRM/Core/DAO.php, which defines it, is not part of this model.
- `_navigation` starts as an empty array when the form is constructed; the framework leaves it unset until setDefaultValues stashes an entry.
