/**
 * The add-service wizard view (App.AddServiceView).
 *
 * Two pieces of logic: the per-step "disabled" flags, which look up the controller's
 * isStepDisabled list, and the handler of the confirmed-hosts response, which turns the
 * response's host items into the wizard's hosts dictionary keyed by host name before
 * handing it to the wizard-state store under the key "hosts".
 */
module AddService {

  // ---------------------------------------------------------------------------
  // Step gating

  /** One entry of the controller's isStepDisabled list. */
  datatype StepFlag = StepFlag(step: int, value: bool)

  /** Some entry of `flags` is for step `index`. */
  predicate HasStep(flags: seq<StepFlag>, index: int)
  {
    exists i :: 0 <= i < |flags| && flags[i].step == index
  }

  /** Entry `i` is the first entry of `flags` for step `index`. */
  ghost predicate FirstEntryFor(flags: seq<StepFlag>, index: int, i: int)
  {
    && 0 <= i < |flags|
    && flags[i].step == index
    && forall j :: 0 <= j < i ==> flags[j].step != index
  }

  /**
   * The value of the first entry for step `index` (findProperty('step', index).value).
   * The source dereferences the lookup's result, so an entry for the step must exist.
   */
  function IsStepDisabled(flags: seq<StepFlag>, index: int): (r: bool)
    requires HasStep(flags, index)
    ensures exists i :: FirstEntryFor(flags, index, i) && flags[i].value == r
  {
    if flags[0].step == index then
      assert FirstEntryFor(flags, index, 0);
      flags[0].value
    else
      assert HasStep(flags[1..], index) by {
        var i :| 0 <= i < |flags| && flags[i].step == index;
        assert flags[1..][i - 1].step == index;
      }
      var r := IsStepDisabled(flags[1..], index);
      assert exists k :: FirstEntryFor(flags, index, k) && flags[k].value == r by {
        var k :| FirstEntryFor(flags[1..], index, k) && flags[1..][k].value == r;
        assert FirstEntryFor(flags, index, k + 1);
      }
      r
  }

  /** When a step has a single entry, its flag is that entry's value. */
  lemma StepOfSingleEntry(flags: seq<StepFlag>, index: int, i: int)
    requires 0 <= i < |flags| && flags[i].step == index
    requires forall j :: 0 <= j < |flags| && j != i ==> flags[j].step != index
    ensures HasStep(flags, index) && IsStepDisabled(flags, index) == flags[i].value
  {
    var r := IsStepDisabled(flags, index);
    var k :| FirstEntryFor(flags, index, k) && flags[k].value == r;
    assert k == i;
  }

  function IsStep1Disabled(flags: seq<StepFlag>): (r: bool)
    requires HasStep(flags, 1)
    ensures exists i :: FirstEntryFor(flags, 1, i) && flags[i].value == r
  {
    IsStepDisabled(flags, 1)
  }

  function IsStep2Disabled(flags: seq<StepFlag>): (r: bool)
    requires HasStep(flags, 2)
    ensures exists i :: FirstEntryFor(flags, 2, i) && flags[i].value == r
  {
    IsStepDisabled(flags, 2)
  }

  function IsStep3Disabled(flags: seq<StepFlag>): (r: bool)
    requires HasStep(flags, 3)
    ensures exists i :: FirstEntryFor(flags, 3, i) && flags[i].value == r
  {
    IsStepDisabled(flags, 3)
  }

  function IsStep4Disabled(flags: seq<StepFlag>): (r: bool)
    requires HasStep(flags, 4)
    ensures exists i :: FirstEntryFor(flags, 4, i) && flags[i].value == r
  {
    IsStepDisabled(flags, 4)
  }

  function IsStep5Disabled(flags: seq<StepFlag>): (r: bool)
    requires HasStep(flags, 5)
    ensures exists i :: FirstEntryFor(flags, 5, i) && flags[i].value == r
  {
    IsStepDisabled(flags, 5)
  }

  function IsStep6Disabled(flags: seq<StepFlag>): (r: bool)
    requires HasStep(flags, 6)
    ensures exists i :: FirstEntryFor(flags, 6, i) && flags[i].value == r
  {
    IsStepDisabled(flags, 6)
  }

  function IsStep7Disabled(flags: seq<StepFlag>): (r: bool)
    requires HasStep(flags, 7)
    ensures exists i :: FirstEntryFor(flags, 7, i) && flags[i].value == r
  {
    IsStepDisabled(flags, 7)
  }

  // ---------------------------------------------------------------------------
  // Confirmed hosts

  /** A host's disk_info list, copied without interpretation. */
  type DiskInfo = seq<map<string, string>>

  /** The Hosts object of one response item: host_name, cpu_count, total_mem, disk_info. */
  datatype HostInfo = HostInfo(hostName: string, cpuCount: int, totalMem: int, diskInfo: DiskInfo)

  /** One element of response.items; its Hosts field. */
  datatype ResponseItem = ResponseItem(hosts: HostInfo)

  /** The confirmed-hosts response. */
  datatype Response = Response(items: seq<ResponseItem>)

  /** The items' Hosts objects, in order (items.mapProperty('Hosts')). */
  function HostInfos(response: Response): (r: seq<HostInfo>)
    ensures |r| == |response.items|
    ensures forall i :: 0 <= i < |r| ==> r[i] == response.items[i].hosts
  {
    seq(|response.items|, i requires 0 <= i < |response.items| => response.items[i].hosts)
  }

  /** An entry of the wizard's hosts dictionary. */
  datatype HostRecord = HostRecord(
    name: string,
    cpu: int,
    memory: int,
    diskInfo: DiskInfo,
    bootStatus: string,
    isInstalled: bool
  )

  /** The wizard-state key the dictionary is stored under. */
  const HostsDbKey := "hosts"

  /** The bootStatus every confirmed host is recorded with. */
  const RegisteredStatus := "REGISTERED"

  /** The dictionary entry made from one host item. */
  function ToRecord(info: HostInfo): HostRecord
  {
    HostRecord(info.hostName, info.cpuCount, info.totalMem, info.diskInfo, RegisteredStatus, true)
  }

  /** The host names of the items. */
  function HostNames(infos: seq<HostInfo>): set<string>
  {
    set i | 0 <= i < |infos| :: infos[i].hostName
  }

  /** The dictionary after storing the items in order, each one overwriting its name's entry. */
  function HostsMap(infos: seq<HostInfo>): map<string, HostRecord>
  {
    if infos == [] then map[]
    else HostsMap(infos[..|infos| - 1])[infos[|infos| - 1].hostName := ToRecord(infos[|infos| - 1])]
  }

  /** The keys are exactly the host names of the items. */
  lemma {:induction false} HostsMapKeys(infos: seq<HostInfo>)
    ensures HostsMap(infos).Keys == HostNames(infos)
  {
    if infos != [] {
      var init := infos[..|infos| - 1];
      HostsMapKeys(init);
      assert HostNames(infos) == HostNames(init) + {infos[|infos| - 1].hostName} by {
        forall n | n in HostNames(infos) ensures n in HostNames(init) + {infos[|infos| - 1].hostName} {
          var i :| 0 <= i < |infos| && infos[i].hostName == n;
          if i < |infos| - 1 {
            assert init[i].hostName == n;
          }
        }
        forall n | n in HostNames(init) ensures n in HostNames(infos) {
          var i :| 0 <= i < |init| && init[i].hostName == n;
          assert infos[i].hostName == n;
        }
      }
    }
  }

  /** The entry of a name is made from the last item carrying that name. */
  lemma {:induction false} HostsMapLastWins(infos: seq<HostInfo>, name: string)
    requires name in HostsMap(infos)
    ensures exists i :: 0 <= i < |infos| && infos[i].hostName == name
                        && HostsMap(infos)[name] == ToRecord(infos[i])
                        && forall j :: i < j < |infos| ==> infos[j].hostName != name
  {
    var last := |infos| - 1;
    if infos[last].hostName != name {
      var init := infos[..last];
      HostsMapLastWins(init, name);
      var i :| 0 <= i < |init| && init[i].hostName == name
                && HostsMap(init)[name] == ToRecord(init[i])
                && forall j :: i < j < |init| ==> init[j].hostName != name;
      assert infos[i] == init[i];
      assert forall j :: i < j < |infos| ==> infos[j].hostName != name by {
        forall j | i < j < |infos| ensures infos[j].hostName != name {
          if j < last {
            assert infos[j] == init[j];
          }
        }
      }
    }
  }

  /** Every entry is keyed by its own name, registered and installed, and copies its item. */
  lemma HostsMapEntries(infos: seq<HostInfo>)
    ensures forall name :: name in HostsMap(infos) ==>
      var e := HostsMap(infos)[name];
      && e.name == name
      && e.bootStatus == RegisteredStatus
      && e.isInstalled
      && exists i :: 0 <= i < |infos| && infos[i].hostName == name
                     && e.cpu == infos[i].cpuCount && e.memory == infos[i].totalMem
                     && e.diskInfo == infos[i].diskInfo
  {
    forall name | name in HostsMap(infos)
      ensures var e := HostsMap(infos)[name];
        && e.name == name && e.bootStatus == RegisteredStatus && e.isInstalled
        && exists i :: 0 <= i < |infos| && infos[i].hostName == name
                       && e.cpu == infos[i].cpuCount && e.memory == infos[i].totalMem
                       && e.diskInfo == infos[i].diskInfo
    {
      HostsMapLastWins(infos, name);
    }
  }

  /**
   * The success handler of the confirmed-hosts request: collect the items' Hosts objects,
   * store one entry per host name (a later item overwrites an earlier one), and return the
   * dictionary together with the wizard-state key it is stored under.
   */
  method LoadConfirmedHostsSuccessCallback(response: Response)
    returns (dbKey: string, hosts: map<string, HostRecord>)
    ensures dbKey == HostsDbKey
    ensures hosts == HostsMap(HostInfos(response))
    ensures hosts.Keys == HostNames(HostInfos(response))
    ensures forall name :: name in hosts ==>
      hosts[name].name == name && hosts[name].bootStatus == RegisteredStatus && hosts[name].isInstalled
  {
    var infos := HostInfos(response);
    hosts := map[];
    for i := 0 to |infos|
      invariant hosts == HostsMap(infos[..i])
    {
      assert infos[..i + 1][..i] == infos[..i];
      var item := infos[i];
      hosts := hosts[item.hostName := HostRecord(item.hostName, item.cpuCount, item.totalMem,
                                                 item.diskInfo, RegisteredStatus, true)];
    }
    assert infos[..|infos|] == infos;
    HostsMapKeys(infos);
    HostsMapEntries(infos);
    dbKey := HostsDbKey;
  }
}
