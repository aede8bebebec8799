/** The tag inventory: `get_instance_tag`, the instance filter and the host set `get_ec2_hosts` builds. */
module Instances {
  import opened Wrappers
  import opened Strings
  import opened Models

  /** One `{'Key': ..., 'Value': ...}` entry of `instance.tags`. */
  datatype Tag = Tag(key: string, value: string)

  /** The attributes of an EC2 instance that the script reads; `vpcId` is `None` outside a VPC. */
  datatype Instance = Instance(tags: seq<Tag>, vpcId: Option<string>, privateIpAddress: Option<string>)

  /** What `get_instance_tag` returns for a matching tag value: the value itself, or with `name_is_fqdn` the part
      before its first dot. */
  function TagHostname(value: string, nameIsFqdn: bool): (r: string)
    ensures |r| <= |value| && r == value[..|r|]
    ensures !nameIsFqdn ==> r == value
    ensures nameIsFqdn ==> '.' !in r && (|r| < |value| ==> value[|r|] == '.')
  {
    if nameIsFqdn then FirstLabel(value) else value
  }

  /** `get_instance_tag(tag_name, instance, name_is_fqdn)`: the first tag whose key matches wins. */
  function GetInstanceTag(tagName: string, tags: seq<Tag>, nameIsFqdn: bool := false): (r: Result<string>)
    ensures r.Failure? <==> forall i :: 0 <= i < |tags| ==> tags[i].key != tagName
    ensures r.Failure? ==> r.error == KeyError(tagName)
    ensures r.Success? ==>
      exists i :: 0 <= i < |tags| && tags[i].key == tagName
        && (forall j :: 0 <= j < i ==> tags[j].key != tagName)
        && r.value == TagHostname(tags[i].value, nameIsFqdn)
  {
    if tags == [] then Failure(KeyError(tagName))
    else if tags[0].key == tagName then Success(TagHostname(tags[0].value, nameIsFqdn))
    else
      var r := GetInstanceTag(tagName, tags[1..], nameIsFqdn);
      assert r.Success? ==> (exists i :: 1 <= i < |tags| && tags[i].key == tagName
                              && (forall j :: 0 <= j < i ==> tags[j].key != tagName)
                              && r.value == TagHostname(tags[i].value, nameIsFqdn))
      by {
        if r.Success? {
          var k :| 0 <= k < |tags| - 1 && tags[1..][k].key == tagName
            && (forall j :: 0 <= j < k ==> tags[1..][j].key != tagName)
            && r.value == TagHostname(tags[1..][k].value, nameIsFqdn);
          assert forall j :: 0 <= j < k + 1 ==> tags[j].key != tagName by {
            forall j | 0 <= j < k + 1 ensures tags[j].key != tagName {
              if j > 0 { assert tags[j] == tags[1..][j - 1]; }
            }
          }
        }
      }
      r
  }

  /** With `name_is_fqdn` the hostname is the first label of the tag value, so it holds no dot. */
  lemma FqdnHostnameHasNoDot(tagName: string, tags: seq<Tag>)
    requires GetInstanceTag(tagName, tags, true).Success?
    ensures '.' !in GetInstanceTag(tagName, tags, true).value
  {
  }

  /** The filter of `get_ec2_hosts`: in one of the VPCs, or EC2-Classic (no or an empty VPC id, which Python takes
      as false) when `include_ec2` is set. */
  function Selected(i: Instance, vpcIds: seq<string>, includeEc2: bool): (r: bool)
    ensures i.vpcId.Some? && i.vpcId.value in vpcIds ==> r
    ensures !includeEc2 ==> (r <==> i.vpcId.Some? && i.vpcId.value in vpcIds)
    ensures i.vpcId.None? ==> (r <==> includeEc2)
    ensures includeEc2 && i.vpcId == Some("") ==> r
    ensures i.vpcId.Some? && i.vpcId.value != "" && i.vpcId.value !in vpcIds ==> !r
  {
    (i.vpcId.Some? && i.vpcId.value in vpcIds) || (includeEc2 && (i.vpcId.None? || i.vpcId.value == ""))
  }

  /** The set comprehension of `get_ec2_hosts` over the instances the EC2 query returned. */
  function Ec2Hosts(instances: seq<Instance>, vpcIds: seq<string>, hostnameTag: string,
                    nameIsFqdn: bool, includeEc2: bool): (r: Result<set<HostIP>>)
    ensures r.Failure? <==>
      exists k :: 0 <= k < |instances| && Selected(instances[k], vpcIds, includeEc2)
        && GetInstanceTag(hostnameTag, instances[k].tags, nameIsFqdn).Failure?
    ensures r.Failure? ==> r.error == KeyError(hostnameTag)
    ensures r.Success? ==> forall h :: h in r.value <==>
      exists k :: 0 <= k < |instances| && Selected(instances[k], vpcIds, includeEc2)
        && GetInstanceTag(hostnameTag, instances[k].tags, nameIsFqdn) == Success(h.hostname)
        && h.ipAddress == instances[k].privateIpAddress
  {
    if instances == [] then Success({})
    else
      var i := instances[0];
      var rest := Ec2Hosts(instances[1..], vpcIds, hostnameTag, nameIsFqdn, includeEc2);
      assert forall k :: 1 <= k < |instances| ==> instances[k] == instances[1..][k - 1];
      if !Selected(i, vpcIds, includeEc2) then rest
      else
        var name := GetInstanceTag(hostnameTag, i.tags, nameIsFqdn);
        if name.Failure? then Failure(name.error)
        else if rest.Failure? then rest
        else Success({HostIP(name.value, i.privateIpAddress)} + rest.value)
  }
}
