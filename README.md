# Ambari wizard views: host registration and add-service, in Dafny

This project models two Ember views of the Ambari web console.

- `App.WizardStep3View` (module `WizardStep3`, file `step3_view.dfy`) is the host-registration step of the cluster install wizard. It keeps references to the wizard's host records (`Host`: `bootStatus`, `isChecked`). Around them it holds:
  - five bootStatus categories (ALL, RUNNING, REGISTERING, REGISTERED, FAILED), each with a host count and an active flag;
  - the host list filtered by the active category;
  - the page and selection checkbox bookkeeping;
  - a status summary: alert level, warnings-link text, and message.

  `Host`, `Category` and `Step3View` are classes whose methods update their fields in place. The recomputations (`CountCategoryHosts`, `DoFilter`, `WatchSelection`, `MonitorStatuses`) are proved against specification functions over the host list, namely `CategoryCount`, `FilterByStatus`, `CheckedCount` and `StatusTable`. Lemmas then prove what the view promises about those functions.
- `App.AddServiceView` (module `AddService`, file `add_service_view.dfy`) contributes:
  - the step gating lookups `isStepDisabled` and `isStep1Disabled` … `isStep7Disabled`, each a first-match lookup in the controller's list;
  - the success handler of the confirmed-hosts request. It builds the wizard's hosts dictionary, keyed by host name, and hands it to the wizard-state store under the key `"hosts"`. The handler is a method whose loop fills the map. It is proved equal to `HostsMap`, the fold over the items in order in which a later item overwrites an earlier one.

`wrappers.dfy` holds the `Option` type.

Collaborators the views read become inputs:
- the controller's `bootHosts` and warning flags become parameters of `MonitorStatuses`;
- the controller's `isStepDisabled` list is the `flags` argument;
- the request's response is the `response` argument;
- the page slice `pageContent`, supplied by the table view's paging, is a field set from outside.

Localised strings are represented by their i18n keys, plus the integers formatted into them.

The four specific category counts need not add up to the ALL count. `countCategoryHosts` (`ambari-web/app/views/wizard/step3_view.js:189-205`) only bumps the four named statuses, so a host with any other `bootStatus` is counted in ALL alone. The sum is therefore at most ALL (`FourCountsWithinAll`), and equal to it only when every host has one of the four statuses (`FourCountsCoverKnownStatuses`).

## Model

| member | source | states |
|---|---|---|
| WizardStep3.Category.Label | ambari-web/app/views/wizard/step3_view.js:92-94 | the tab caption carries the category's display name and its current host count |
| WizardStep3.Category.ItemClass | ambari-web/app/views/wizard/step3_view.js:96-98 | the CSS class is "active" exactly when the category is active, and empty otherwise |
| WizardStep3.Step3View.constructor | ambari-web/app/views/wizard/step3_view.js:105-113 | five fresh categories in the order ALL, RUNNING, REGISTERING, REGISTERED, FAILED with their display names; only ALL is active; only FAILED is last; counts start at 0; status, link and message start empty |
| WizardStep3.Step3View.SelectedCategory | ambari-web/app/views/wizard/step3_view.js:68-70 | the result is the first active category in list order, and none exactly when no category is active |
| WizardStep3.FirstActive | ambari-web/app/views/wizard/step3_view.js:69 | findProperty('isActive'): the index of an active category with no active category before it, and none iff no category is active |
| WizardStep3.TallyStatuses | ambari-web/app/views/wizard/step3_view.js:190-200 | the counters map has exactly the four specific status keys, and each counter is the number of hosts with that status; other statuses are skipped |
| WizardStep3.Step3View.CountCategoryHosts | ambari-web/app/views/wizard/step3_view.js:189-205 | every category's count becomes the number of content hosts with its status (all hosts for ALL); active flags are unchanged |
| WizardStep3.CountsPartition | ambari-web/app/views/wizard/step3_view.js:196-200 | every host falls in exactly one of the four status buckets or in none: the four counts plus the unknown-status count equal the host count |
| WizardStep3.FourCountsWithinAll | ambari-web/app/views/wizard/step3_view.js:196-201 | the RUNNING, REGISTERING, REGISTERED and FAILED counts together never exceed the ALL count |
| WizardStep3.FourCountsCoverKnownStatuses | ambari-web/app/views/wizard/step3_view.js:196-201 | when every host has one of the four statuses, the four counts add up to the ALL count |
| WizardStep3.NoOtherStatus | ambari-web/app/views/wizard/step3_view.js:197 | when every host has a known status, no host is skipped by the counters |
| WizardStep3.FilterByStatus | ambari-web/app/views/wizard/step3_view.js:230 | the filtered list is as long as the number of hosts with the key's status |
| WizardStep3.FilterMembers | ambari-web/app/views/wizard/step3_view.js:230 | a host is in the filtered list iff it is in content and has the key's status |
| WizardStep3.FilterIsSubsequence | ambari-web/app/views/wizard/step3_view.js:230 | the filtered list keeps the hosts in their content order |
| WizardStep3.FilterIdempotent | ambari-web/app/views/wizard/step3_view.js:230 | filtering the filtered list again by the same key gives the same list |
| WizardStep3.Step3View.DoFilter | ambari-web/app/views/wizard/step3_view.js:224-233 | with no active category or ALL active, filteredContent is content itself; otherwise it is the hosts of content with the active key's status; nothing but filteredContent changes |
| WizardStep3.SetEachChecked | ambari-web/app/views/wizard/step3_view.js:125 | setEach('isChecked', v): every listed host gets v, and no bootStatus changes |
| WizardStep3.Step3View.OnPageChecked | ambari-web/app/views/wizard/step3_view.js:123-126 | with the guard set, no check box changes; otherwise every page host takes the page check box's value; only page hosts can change, and no bootStatus does |
| WizardStep3.Step3View.SelectAll | ambari-web/app/views/wizard/step3_view.js:132-134 | every content host becomes checked, whatever the filter or page; no bootStatus changes |
| WizardStep3.Step3View.UnSelectAll | ambari-web/app/views/wizard/step3_view.js:140-142 | every content host becomes unchecked; no bootStatus changes |
| WizardStep3.CheckedCount | ambari-web/app/views/wizard/step3_view.js:168 | the number of checked hosts is at most the host count, and is 0 iff no host is checked |
| WizardStep3.TallySelection | ambari-web/app/views/wizard/step3_view.js:165-170 | the count is the number of checked hosts, and the flag is true iff no host is checked, iff the count is 0 |
| WizardStep3.Step3View.WatchSelection | ambari-web/app/views/wizard/step3_view.js:161-173 | afterwards, pageChecked holds iff the page is non-empty and every page host is checked; selectedHostsCount is the number of checked content hosts; noHostsSelected iff that count is 0; the guard is off; the nested page-checkbox notification changes no check box |
| WizardStep3.Step3View.SelectCategory | ambari-web/app/views/wizard/step3_view.js:240-246 | each category is active iff its key is the selected key; for one of the five keys exactly one category is active and it is the selected category; for any other key none is; counts are unchanged; the selection fields are recomputed; the page hosts keep their check boxes and statuses |
| WizardStep3.Step3View.RetrySelectedHosts | ambari-web/app/views/wizard/step3_view.js:253-255 | ALL becomes the single active category and the selected category; counts are unchanged; the selection fields are recomputed; the page hosts keep their check boxes and statuses, so the selection handed on to the controller's retry is intact |
| WizardStep3.Step3View.MonitorStatuses | ambari-web/app/views/wizard/step3_view.js:263-306 | the status, link text and message become the row of the decision table for the host count, the number of FAILED boot hosts and the warning flags |
| WizardStep3.StatusArgumentsAreHostCounts | ambari-web/app/views/wizard/step3_view.js:282-300 | every number in the status message is a host count between 0 and the number of boot hosts; the some-failed message splits the hosts into two non-empty parts that add up to the total |
| WizardStep3.LinkShownIffResultAvailable | ambari-web/app/views/wizard/step3_view.js:267-304 | a warnings link is shown iff there are boot hosts, warnings are loaded, and there is a warning or not every host failed |
| AddService.IsStepDisabled | ambari-web/app/views/main/service/add_view.js:54-56 | the result is the value of the first entry for the step; an entry for the step must exist |
| AddService.StepOfSingleEntry | ambari-web/app/views/main/service/add_view.js:54-56 | when a step has exactly one entry, its flag is that entry's value |
| AddService.IsStep1Disabled | ambari-web/app/views/main/service/add_view.js:26-28 | the value of the first entry for step 1 |
| AddService.IsStep2Disabled | ambari-web/app/views/main/service/add_view.js:30-32 | the value of the first entry for step 2 |
| AddService.IsStep3Disabled | ambari-web/app/views/main/service/add_view.js:34-36 | the value of the first entry for step 3 |
| AddService.IsStep4Disabled | ambari-web/app/views/main/service/add_view.js:38-40 | the value of the first entry for step 4 |
| AddService.IsStep5Disabled | ambari-web/app/views/main/service/add_view.js:42-44 | the value of the first entry for step 5 |
| AddService.IsStep6Disabled | ambari-web/app/views/main/service/add_view.js:46-48 | the value of the first entry for step 6 |
| AddService.IsStep7Disabled | ambari-web/app/views/main/service/add_view.js:50-52 | the value of the first entry for step 7 |
| AddService.HostInfos | ambari-web/app/views/main/service/add_view.js:71 | mapProperty('Hosts'): one host object per response item, in order |
| AddService.HostsMapKeys | ambari-web/app/views/main/service/add_view.js:71-72 | the dictionary's keys are exactly the host names of the items |
| AddService.HostsMapLastWins | ambari-web/app/views/main/service/add_view.js:71-79 | the entry for a name is made from the last item with that name |
| AddService.HostsMapEntries | ambari-web/app/views/main/service/add_view.js:72-78 | every entry carries its key as name, cpu, memory and disk info copied from an item with that name, bootStatus "REGISTERED" and isInstalled true |
| AddService.LoadConfirmedHostsSuccessCallback | ambari-web/app/views/main/service/add_view.js:69-81 | the filled dictionary is the in-order, last-write-wins map of the response's hosts; its keys are the host names; every entry is named by its key, registered and installed; it is stored under the key "hosts" |

## Left out

- `contentObserver` and the lazy-loading utility, which fill `content` in timed chunks. `content` is taken as given.
- The framework's observers and run-loop deferral (`watchSelectionOnce`, `hostBootStatusObserver`, `filter`). The recomputations are operations that are called directly.
- The display texts. The `"%@ (%@)"` label format, `Em.I18n.t` and `.format` are represented by i18n keys and integer arguments.
- `didInsertElement` in both views: `controller.loadStep()` and the confirmed-hosts request are lifecycle and network plumbing.
- `App.WizardHostView`: its actions only forward to the controller, and `isRetryable` is constant false.
- `controller.retrySelectedHosts()` and `controller.setDBProperty`: controller code that is not part of this model. `RetrySelectedHosts` models only the category reset, and `LoadConfirmedHostsSuccessCallback` returns the key and the dictionary instead of storing them.
- The paging of the table view that produces `pageContent`. The page is a field set from outside.
- Template wiring (`templateName`, `classNameBindings`).
- WizardStep3.Step3View.DoFilter: in JavaScript, `filteredContent` becomes the same array object as `content` for ALL. The model assigns the same sequence of host references, so later changes to the array itself are not shared.
- Unknown boot statuses: a status string other than the four known ones is represented as `Other(name)`, whose name can never be one of the four. A host whose status string is literally "ALL" is `Other("ALL")`: like the code, which adds the ALL counter only after the counting loop and never filters for ALL, it treats it as any other unknown status.
- AddService.IsStepDisabled: requires an entry for the step. When none exists, `add_view.js:55` throws a TypeError by calling `.get` on undefined, and that error path is not modelled.
- AddService.HostsMap: host names that clash with JavaScript object-prototype keys such as `__proto__` are treated like any other key.
- Host item fields: `cpu_count`, `total_mem` and `disk_info` are copied without interpretation. They are modelled as integers and a list of string maps.
