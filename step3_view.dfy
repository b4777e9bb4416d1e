/**
 * The host-registration step of the cluster install wizard (App.WizardStep3View).
 *
 * The view holds references to host records owned by the wizard controller and keeps
 * bookkeeping about them: five bootStatus categories with a count and an active flag,
 * the list filtered by the active category, the page/selection checkboxes and a status
 * summary (status level, link text, message).
 *
 * The framework's observers and run-loop deferral are not modelled: every recompute
 * (CountCategoryHosts, DoFilter, WatchSelection, MonitorStatuses) is an operation that
 * is called directly. Localised strings are represented by their i18n keys.
 */
module WizardStep3 {
  import opened Wrappers

  /** A bootStatus string other than the four registration states ("ALL" included). */
  type OtherStatusName = s: string | s != "RUNNING" && s != "REGISTERING" && s != "REGISTERED" && s != "FAILED"
    witness ""

  /**
   * A host's bootStatus. The four registration states are named; any other string the
   * host record may carry is Other, whose name is never one of the four.
   */
  datatype BootStatus = Running | Registering | Registered | Failed | Other(name: OtherStatusName)

  /** A category's filter key (hostsBootStatus): "ALL" or one bootStatus. */
  datatype CategoryKey = AllKey | StatusKey(status: BootStatus)

  /** Filter keys of the five categories, in display order. */
  const CategoryKeys: seq<CategoryKey> :=
    [AllKey, StatusKey(Running), StatusKey(Registering), StatusKey(Registered), StatusKey(Failed)]

  /** i18n keys of the categories' display names, in the same order. */
  const CategoryNames: seq<string> :=
    ["common.all", "installer.step3.hosts.status.installing",
     "installer.step3.hosts.status.registering", "common.success", "common.fail"]

  /** A host record of the wizard. The view only holds references to it. */
  class Host {
    var bootStatus: BootStatus
    var isChecked: bool

    constructor (bootStatus: BootStatus, isChecked: bool)
      ensures this.bootStatus == bootStatus && this.isChecked == isChecked
    {
      this.bootStatus := bootStatus;
      this.isChecked := isChecked;
    }
  }

  /** The text "value (hostsCount)", kept as the display name's i18n key and the count. */
  datatype CategoryLabel = CategoryLabel(value: string, hostsCount: int)

  /** A bootStatus category (the view's categoryObject). */
  class Category {
    const value: string
    const hostsBootStatus: CategoryKey
    const last: bool
    var hostsCount: int
    var isActive: bool

    constructor (value: string, hostsBootStatus: CategoryKey, isActive: bool, last: bool)
      ensures this.value == value && this.hostsBootStatus == hostsBootStatus && this.last == last
      ensures this.isActive == isActive && hostsCount == 0
    {
      this.value := value;
      this.hostsBootStatus := hostsBootStatus;
      this.last := last;
      this.isActive := isActive;
      hostsCount := 0;
    }

    /** The tab caption: the display name followed by the current count. */
    function Label(): (r: CategoryLabel)
      reads this
      ensures r.value == value && r.hostsCount == hostsCount
    {
      CategoryLabel(value, hostsCount)
    }

    /** The CSS class of the tab: "active" exactly for the active category. */
    function ItemClass(): (r: string)
      reads this
      ensures r == "active" <==> isActive
      ensures !isActive ==> r == ""
    {
      if isActive then "active" else ""
    }
  }

  // ---------------------------------------------------------------------------
  // Specification functions over host lists

  /** Number of hosts whose bootStatus is `k`. */
  function CountStatus(hs: seq<Host>, k: BootStatus): (n: nat)
    reads hs
    ensures n <= |hs|
  {
    if hs == [] then 0
    else CountStatus(hs[..|hs| - 1], k) + (if hs[|hs| - 1].bootStatus == k then 1 else 0)
  }

  /** Number of hosts whose bootStatus is none of RUNNING, REGISTERING, REGISTERED, FAILED. */
  function CountOther(hs: seq<Host>): nat
    reads hs
  {
    if hs == [] then 0
    else CountOther(hs[..|hs| - 1]) + (if hs[|hs| - 1].bootStatus.Other? then 1 else 0)
  }

  /** The count the category with filter key `key` shows for the hosts `hs`. */
  function CategoryCount(hs: seq<Host>, key: CategoryKey): nat
    reads hs
  {
    match key
    case AllKey => |hs|
    case StatusKey(s) => CountStatus(hs, s)
  }

  /** Every host is counted in exactly one of the four specific buckets or in none. */
  lemma {:induction false} CountsPartition(hs: seq<Host>)
    ensures CountStatus(hs, Running) + CountStatus(hs, Registering) + CountStatus(hs, Registered)
            + CountStatus(hs, Failed) + CountOther(hs) == |hs|
  {
    if hs != [] {
      CountsPartition(hs[..|hs| - 1]);
    }
  }

  /** The four specific counts never exceed the ALL count. */
  lemma FourCountsWithinAll(hs: seq<Host>)
    ensures CategoryCount(hs, CategoryKeys[1]) + CategoryCount(hs, CategoryKeys[2])
            + CategoryCount(hs, CategoryKeys[3]) + CategoryCount(hs, CategoryKeys[4])
            <= CategoryCount(hs, CategoryKeys[0])
  {
    CountsPartition(hs);
  }

  /** When every host has one of the four known statuses, the four counts add up to ALL. */
  lemma FourCountsCoverKnownStatuses(hs: seq<Host>)
    requires forall h :: h in hs ==> !h.bootStatus.Other?
    ensures CategoryCount(hs, CategoryKeys[1]) + CategoryCount(hs, CategoryKeys[2])
            + CategoryCount(hs, CategoryKeys[3]) + CategoryCount(hs, CategoryKeys[4])
            == CategoryCount(hs, CategoryKeys[0])
  {
    CountsPartition(hs);
    NoOtherStatus(hs);
  }

  lemma {:induction false} NoOtherStatus(hs: seq<Host>)
    requires forall h :: h in hs ==> !h.bootStatus.Other?
    ensures CountOther(hs) == 0
  {
    if hs != [] {
      NoOtherStatus(hs[..|hs| - 1]);
    }
  }

  /** Number of checked hosts. */
  function CheckedCount(hs: seq<Host>): (n: nat)
    reads hs
    ensures n <= |hs|
    ensures n == 0 <==> forall h :: h in hs ==> !h.isChecked
  {
    if hs == [] then 0
    else CheckedCount(hs[..|hs| - 1]) + (if hs[|hs| - 1].isChecked then 1 else 0)
  }

  /** Every host is checked (Ember's everyProperty('isChecked', true)). */
  predicate AllChecked(hs: seq<Host>)
    reads hs
  {
    forall i :: 0 <= i < |hs| ==> hs[i].isChecked
  }

  /** The hosts whose bootStatus is `k`, in their original order (filterProperty). */
  function FilterByStatus(hs: seq<Host>, k: BootStatus): (r: seq<Host>)
    reads hs
    ensures |r| == CountStatus(hs, k)
  {
    if hs == [] then []
    else FilterByStatus(hs[..|hs| - 1], k) + (if hs[|hs| - 1].bootStatus == k then [hs[|hs| - 1]] else [])
  }

  /** The filtered list holds exactly the hosts of `hs` whose status is `k`. */
  lemma {:induction false} FilterMembers(hs: seq<Host>, k: BootStatus)
    ensures forall h :: h in FilterByStatus(hs, k) <==> h in hs && h.bootStatus == k
  {
    if hs != [] {
      var init := hs[..|hs| - 1];
      FilterMembers(init, k);
      assert hs == init + [hs[|hs| - 1]];
    }
  }

  /** `a` is `b` with some entries dropped, the rest kept in order. */
  ghost predicate IsSubsequence<T>(a: seq<T>, b: seq<T>)
    decreases |b|
  {
    if a == [] then true
    else if b == [] then false
    else (a[|a| - 1] == b[|b| - 1] && IsSubsequence(a[..|a| - 1], b[..|b| - 1]))
         || IsSubsequence(a, b[..|b| - 1])
  }

  /** Filtering keeps the order of `content`. */
  lemma {:induction false} FilterIsSubsequence(hs: seq<Host>, k: BootStatus)
    ensures IsSubsequence(FilterByStatus(hs, k), hs)
  {
    if hs != [] {
      var init := hs[..|hs| - 1];
      FilterIsSubsequence(init, k);
      var r := FilterByStatus(hs, k);
      if hs[|hs| - 1].bootStatus == k {
        assert r[..|r| - 1] == FilterByStatus(init, k);
      } else {
        assert r == FilterByStatus(init, k);
        if r != [] {
          assert IsSubsequence(r, init);
        }
      }
    }
  }

  /** Filtering an already filtered list by the same key changes nothing. */
  lemma {:induction false} FilterIdempotent(hs: seq<Host>, k: BootStatus)
    ensures FilterByStatus(FilterByStatus(hs, k), k) == FilterByStatus(hs, k)
  {
    if hs != [] {
      var init := hs[..|hs| - 1];
      FilterIdempotent(init, k);
      var f := FilterByStatus(init, k);
      if hs[|hs| - 1].bootStatus == k {
        var r := f + [hs[|hs| - 1]];
        assert FilterByStatus(hs, k) == r;
        assert r[..|r| - 1] == f;
        assert FilterByStatus(r, k) == FilterByStatus(f, k) + [hs[|hs| - 1]];
      } else {
        assert FilterByStatus(hs, k) == f;
      }
    }
  }

  /** Index of the first active category (findProperty('isActive')), if any. */
  function FirstActive(cs: seq<Category>): (r: Option<nat>)
    reads cs
    ensures r.None? <==> forall i :: 0 <= i < |cs| ==> !cs[i].isActive
    ensures r.Some? ==> r.value < |cs| && cs[r.value].isActive
    ensures r.Some? ==> forall j :: 0 <= j < r.value ==> !cs[j].isActive
  {
    if cs == [] then None
    else if cs[0].isActive then Some(0)
    else match FirstActive(cs[1..])
      case None => None
      case Some(i) => Some(i + 1)
  }

  // ---------------------------------------------------------------------------
  // Status summary

  /** The alert level of the status box: '' before the first update, 'alert-warn', 'alert-info', 'alert-success'. */
  datatype Alert = NoAlert | AlertWarn | AlertInfo | AlertSuccess

  /**
   * The warnings-link text: '' (no link), or the i18n texts installer.step3.warnings.linkText
   * and installer.step3.noWarnings.linkText.
   */
  datatype LinkText = NoLink | WarningsLink | NoWarningsLink

  /**
   * The i18n key of the status message, installer.step3.warnings.{missingHosts, fails,
   * noWarnings, allFailed, someWarnings} and installer.step3.warning.loading; NoMessage is
   * the empty message the view starts with.
   */
  datatype MessageKey = NoMessage | MissingHosts | Loading | Fails | NoWarnings | AllFailed | SomeWarnings

  /** A localised message: its i18n key and the integers formatted into it. */
  datatype Message = Message(key: MessageKey, args: seq<int>)

  /** What the status box shows: alert level, warnings-link text, message. */
  datatype Summary = Summary(status: Alert, linkText: LinkText, message: Message)

  /** The controller's host-check results read by the status summary. */
  datatype WarningsState = WarningsState(
    isWarningsLoaded: bool,
    isHostHaveWarnings: bool,
    repoCategoryWarnings: nat,   // length of controller.repoCategoryWarnings
    diskCategoryWarnings: nat    // length of controller.diskCategoryWarnings
  )

  /** The status decision table, one row per outcome, first matching row wins. */
  function StatusTable(n: nat, failed: nat, w: WarningsState): Summary
  {
    if n == 0 then
      Summary(AlertWarn, NoLink, Message(MissingHosts, []))
    else if !w.isWarningsLoaded then
      Summary(AlertInfo, NoLink, Message(Loading, []))
    else if w.isHostHaveWarnings || w.repoCategoryWarnings > 0 || w.diskCategoryWarnings > 0 then
      Summary(AlertWarn, WarningsLink, Message(Fails, [n - failed]))
    else if failed == 0 then
      Summary(AlertSuccess, NoWarningsLink, Message(NoWarnings, [n]))
    else if failed == n then
      Summary(AlertWarn, NoLink, Message(AllFailed, [failed]))
    else
      Summary(AlertSuccess, NoWarningsLink, Message(SomeWarnings, [n - failed, failed]))
  }

  /**
   * For real boot hosts every number in the message is a host count between 0 and the
   * number of hosts, and the "some failed" message splits the hosts into two parts.
   */
  lemma StatusArgumentsAreHostCounts(bootHosts: seq<Host>, w: WarningsState)
    ensures var s := StatusTable(|bootHosts|, CountStatus(bootHosts, Failed), w);
            forall i :: 0 <= i < |s.message.args| ==> 0 <= s.message.args[i] <= |bootHosts|
    ensures var s := StatusTable(|bootHosts|, CountStatus(bootHosts, Failed), w);
            s.message.key == SomeWarnings ==>
              |s.message.args| == 2 && s.message.args[0] + s.message.args[1] == |bootHosts|
              && s.message.args[0] > 0 && s.message.args[1] > 0
  {
  }

  /** The warnings link is offered exactly when there is a registration result to inspect. */
  lemma LinkShownIffResultAvailable(bootHosts: seq<Host>, w: WarningsState)
    ensures var n, failed := |bootHosts|, CountStatus(bootHosts, Failed);
            StatusTable(n, failed, w).linkText != NoLink <==>
              n > 0 && w.isWarningsLoaded
              && (w.isHostHaveWarnings || w.repoCategoryWarnings > 0 || w.diskCategoryWarnings > 0
                  || failed < n)
  {
  }

  /**
   * The counters dictionary of the category count: one counter per specific bootStatus,
   * bumped for every host with that status; hosts with any other status are skipped.
   */
  method TallyStatuses(hs: seq<Host>) returns (counters: map<CategoryKey, int>)
    ensures counters.Keys == {StatusKey(Running), StatusKey(Registering), StatusKey(Registered), StatusKey(Failed)}
    ensures forall s :: StatusKey(s) in counters ==> counters[StatusKey(s)] == CountStatus(hs, s)
  {
    counters := map[StatusKey(Running) := 0, StatusKey(Registering) := 0,
                    StatusKey(Registered) := 0, StatusKey(Failed) := 0];
    for i := 0 to |hs|
      invariant counters.Keys == {StatusKey(Running), StatusKey(Registering), StatusKey(Registered), StatusKey(Failed)}
      invariant forall s :: StatusKey(s) in counters ==> counters[StatusKey(s)] == CountStatus(hs[..i], s)
    {
      assert hs[..i + 1][..i] == hs[..i];
      var s := hs[i].bootStatus;
      if StatusKey(s) in counters {
        counters := counters[StatusKey(s) := counters[StatusKey(s)] + 1];
      }
    }
    assert hs[..|hs|] == hs;
  }

  /**
   * The selection loop of watchSelection: the number of checked hosts, and whether none is
   * checked (the flag stays true until the first checked host and then keeps its value).
   */
  method TallySelection(hs: seq<Host>) returns (noHostsSelected: bool, selectedHostsCount: nat)
    ensures selectedHostsCount == CheckedCount(hs)
    ensures noHostsSelected == (forall h :: h in hs ==> !h.isChecked)
    ensures noHostsSelected == (selectedHostsCount == 0)
  {
    noHostsSelected := true;
    selectedHostsCount := 0;
    for i := 0 to |hs|
      invariant selectedHostsCount == CheckedCount(hs[..i])
      invariant noHostsSelected == forall h :: h in hs[..i] ==> !h.isChecked
    {
      assert hs[..i + 1][..i] == hs[..i];
      selectedHostsCount := selectedHostsCount + (if hs[i].isChecked then 1 else 0);
      noHostsSelected := if noHostsSelected then !hs[i].isChecked else noHostsSelected;
    }
    assert hs[..|hs|] == hs;
  }

  // ---------------------------------------------------------------------------
  // In-place updates of host records

  /** Ember's setEach('isChecked', v): every listed host gets `v`, nothing else changes. */
  method SetEachChecked(hs: seq<Host>, v: bool)
    modifies hs
    ensures forall h :: h in hs ==> h.isChecked == v
    ensures forall h :: h in hs ==> h.bootStatus == old(h.bootStatus)
  {
    for i := 0 to |hs|
      invariant forall j :: 0 <= j < i ==> hs[j].isChecked == v
      invariant forall h :: h in hs ==> h.bootStatus == old(h.bootStatus)
    {
      hs[i].isChecked := v;
    }
  }

  // ---------------------------------------------------------------------------
  // The view

  class Step3View {
    /** All hosts of the wizard (the controller's hosts). */
    var content: seq<Host>
    /** The hosts shown on the current page; supplied by the table view's paging. */
    var pageContent: seq<Host>
    /** The hosts of the active category. */
    var filteredContent: seq<Host>
    const categories: seq<Category>

    var pageChecked: bool
    var selectionInProgress: bool
    var noHostsSelected: bool
    var selectedHostsCount: nat

    var status: Alert
    var linkText: LinkText
    var message: Message

    /** The five categories, in order, with their fixed filter keys. */
    ghost predicate Valid()
    {
      |categories| == 5
      && forall i :: 0 <= i < 5 ==> categories[i].hostsBootStatus == CategoryKeys[i]
    }

    /** The derived selection fields agree with the check boxes of the hosts. */
    ghost predicate SelectionConsistent()
      reads this, content, pageContent
    {
      && pageChecked == (|pageContent| > 0 && AllChecked(pageContent))
      && selectedHostsCount == CheckedCount(content)
      && noHostsSelected == (forall h :: h in content ==> !h.isChecked)
      && noHostsSelected == (selectedHostsCount == 0)
      && !selectionInProgress
    }

    constructor (content: seq<Host>, pageContent: seq<Host>)
      ensures Valid()
      ensures this.content == content && this.pageContent == pageContent && filteredContent == []
      ensures forall i :: 0 <= i < 5 ==> fresh(categories[i])
      ensures forall i :: 0 <= i < 5 ==> categories[i].value == CategoryNames[i]
      ensures forall i :: 0 <= i < 5 ==> categories[i].hostsCount == 0
      ensures forall i :: 0 <= i < 5 ==> categories[i].isActive == (i == 0)
      ensures forall i :: 0 <= i < 5 ==> categories[i].last == (i == 4)
      ensures !pageChecked && !selectionInProgress
      ensures status == NoAlert && linkText == NoLink && message == Message(NoMessage, [])
    {
      this.content := content;
      this.pageContent := pageContent;
      filteredContent := [];
      var all := new Category(CategoryNames[0], CategoryKeys[0], true, false);
      var running := new Category(CategoryNames[1], CategoryKeys[1], false, false);
      var registering := new Category(CategoryNames[2], CategoryKeys[2], false, false);
      var registered := new Category(CategoryNames[3], CategoryKeys[3], false, false);
      var failed := new Category(CategoryNames[4], CategoryKeys[4], false, true);
      categories := [all, running, registering, registered, failed];
      pageChecked := false;
      selectionInProgress := false;
      noHostsSelected := true;
      selectedHostsCount := 0;
      status := NoAlert;
      linkText := NoLink;
      message := Message(NoMessage, []);
    }

    /** The first active category, if any. */
    function SelectedCategory(): (r: Option<Category>)
      reads categories
      ensures r.None? <==> forall i :: 0 <= i < |categories| ==> !categories[i].isActive
      ensures r.Some? ==> exists i :: 0 <= i < |categories| && categories[i] == r.value
                                      && r.value.isActive
                                      && forall j :: 0 <= j < i ==> !categories[j].isActive
    {
      match FirstActive(categories)
      case None => None
      case Some(i) => Some(categories[i])
    }

    /** Recount the hosts of `content` per category; ALL counts every host. */
    method CountCategoryHosts()
      requires Valid()
      modifies categories
      ensures forall i :: 0 <= i < 5 ==>
        categories[i].hostsCount == CategoryCount(content, categories[i].hostsBootStatus)
      ensures forall i :: 0 <= i < 5 ==> categories[i].isActive == old(categories[i].isActive)
    {
      var counters := TallyStatuses(content);
      counters := counters[AllKey := |content|];
      assert forall m :: 0 <= m < 5 ==> CategoryKeys[m] in counters;
      for j := 0 to 5
        invariant forall m :: 0 <= m < j ==>
          categories[m].hostsCount == counters[categories[m].hostsBootStatus]
        invariant forall m :: 0 <= m < 5 ==> categories[m].isActive == old(categories[m].isActive)
      {
        categories[j].hostsCount := counters[categories[j].hostsBootStatus];
      }
    }

    /** filteredContent becomes the hosts of the active category (all hosts for ALL or none). */
    method DoFilter()
      requires Valid()
      modifies this`filteredContent
      ensures SelectedCategory().None? || SelectedCategory().value.hostsBootStatus == AllKey ==>
        filteredContent == content
      ensures SelectedCategory().Some? && SelectedCategory().value.hostsBootStatus != AllKey ==>
        filteredContent == FilterByStatus(content, SelectedCategory().value.hostsBootStatus.status)
    {
      var selected := SelectedCategory();
      if selected.None? || selected.value.hostsBootStatus == AllKey {
        filteredContent := content;
      } else {
        filteredContent := FilterByStatus(content, selected.value.hostsBootStatus.status);
      }
    }

    /** The page check box pushed down to the page's rows, unless a recompute is running. */
    method OnPageChecked()
      modifies pageContent
      ensures selectionInProgress ==> forall h :: h in pageContent ==> h.isChecked == old(h.isChecked)
      ensures !selectionInProgress ==> forall h :: h in pageContent ==> h.isChecked == pageChecked
      ensures forall h :: h in pageContent ==> h.bootStatus == old(h.bootStatus)
    {
      if selectionInProgress {
        return;
      }
      SetEachChecked(pageContent, pageChecked);
    }

    /** Check every host, whatever the filter or page. */
    method SelectAll()
      modifies content
      ensures forall h :: h in content ==> h.isChecked
      ensures forall h :: h in content ==> h.bootStatus == old(h.bootStatus)
    {
      SetEachChecked(content, true);
    }

    /** Uncheck every host, whatever the filter or page. */
    method UnSelectAll()
      modifies content
      ensures forall h :: h in content ==> !h.isChecked
      ensures forall h :: h in content ==> h.bootStatus == old(h.bootStatus)
    {
      SetEachChecked(content, false);
    }

    /**
     * Recompute pageChecked, noHostsSelected and selectedHostsCount from the hosts.
     * Setting pageChecked notifies OnPageChecked at once; the selectionInProgress guard
     * turns that notification into a no-op, so no host's check box changes.
     */
    method WatchSelection()
      modifies this`pageChecked, this`selectionInProgress, this`noHostsSelected,
               this`selectedHostsCount, pageContent
      ensures SelectionConsistent()
      ensures forall h :: h in pageContent ==> h.isChecked == old(h.isChecked)
      ensures forall h :: h in pageContent ==> h.bootStatus == old(h.bootStatus)
    {
      selectionInProgress := true;
      pageChecked := |pageContent| > 0 && AllChecked(pageContent);
      OnPageChecked();
      selectionInProgress := false;
      noHostsSelected, selectedHostsCount := TallySelection(content);
    }

    /** Make the category with filter key `key` the only active one, then recompute the selection. */
    method SelectCategory(key: CategoryKey)
      requires Valid()
      modifies categories, this`pageChecked, this`selectionInProgress, this`noHostsSelected,
               this`selectedHostsCount, pageContent
      ensures forall i :: 0 <= i < 5 ==> categories[i].isActive == (categories[i].hostsBootStatus == key)
      ensures forall i :: 0 <= i < 5 ==> categories[i].hostsCount == old(categories[i].hostsCount)
      ensures key in CategoryKeys ==>
        exists i :: 0 <= i < 5 && categories[i].isActive
                    && forall j :: 0 <= j < 5 && j != i ==> !categories[j].isActive
      ensures key in CategoryKeys ==>
        SelectedCategory().Some? && SelectedCategory().value.hostsBootStatus == key
      ensures key !in CategoryKeys ==> SelectedCategory().None?
      ensures SelectionConsistent()
      ensures forall h :: h in pageContent ==> h.isChecked == old(h.isChecked)
      ensures forall h :: h in pageContent ==> h.bootStatus == old(h.bootStatus)
    {
      for j := 0 to 5
        modifies categories
        invariant forall m :: 0 <= m < j ==> categories[m].isActive == (categories[m].hostsBootStatus == key)
        invariant forall m :: 0 <= m < 5 ==> categories[m].hostsCount == old(categories[m].hostsCount)
      {
        categories[j].isActive := categories[j].hostsBootStatus == key;
      }
      WatchSelection();
      if key in CategoryKeys {
        var i :| 0 <= i < 5 && CategoryKeys[i] == key;
        assert forall j :: 0 <= j < 5 && j != i ==> !categories[j].isActive;
      }
    }

    /** The category part of retrying hosts: ALL becomes the single active category. */
    method RetrySelectedHosts()
      requires Valid()
      modifies categories, this`pageChecked, this`selectionInProgress, this`noHostsSelected,
               this`selectedHostsCount, pageContent
      ensures categories[0].isActive
      ensures forall i :: 1 <= i < 5 ==> !categories[i].isActive
      ensures SelectedCategory() == Some(categories[0])
      ensures forall i :: 0 <= i < 5 ==> categories[i].hostsCount == old(categories[i].hostsCount)
      ensures SelectionConsistent()
      ensures forall h :: h in pageContent ==> h.isChecked == old(h.isChecked) && h.bootStatus == old(h.bootStatus)
    {
      SelectCategory(AllKey);
    }

    /** Update status, linkText and message from the controller's boot hosts and warnings. */
    method MonitorStatuses(bootHosts: seq<Host>, w: WarningsState)
      modifies this`status, this`linkText, this`message
      ensures Summary(status, linkText, message)
              == StatusTable(|bootHosts|, CountStatus(bootHosts, Failed), w)
    {
      var failedHosts := |FilterByStatus(bootHosts, Failed)|;
      if |bootHosts| == 0 {
        status := AlertWarn;
        linkText := NoLink;
        message := Message(MissingHosts, []);
      } else {
        if !w.isWarningsLoaded {
          status := AlertInfo;
          linkText := NoLink;
          message := Message(Loading, []);
        } else {
          if w.isHostHaveWarnings || w.repoCategoryWarnings > 0 || w.diskCategoryWarnings > 0 {
            status := AlertWarn;
            linkText := WarningsLink;
            message := Message(Fails, [|bootHosts| - failedHosts]);
          } else {
            status := AlertSuccess;
            linkText := NoWarningsLink;
            if failedHosts == 0 {
              message := Message(NoWarnings, [|bootHosts|]);
            } else {
              if failedHosts == |bootHosts| {
                status := AlertWarn;
                linkText := NoLink;
                message := Message(AllFailed, [failedHosts]);
              } else {
                message := Message(SomeWarnings, [|bootHosts| - failedHosts, failedHosts]);
              }
            }
          }
        }
      }
    }
  }
}
