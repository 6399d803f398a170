/**
 * What applying a change record does to the cluster: which single call it
 * issues, which value or name that call carries, and how the cluster's error
 * comes back to the caller. The last lemma relates application to the
 * description of the same delete record.
 */
module ApplyLaws {
  import opened Wrappers
  import opened Errors
  import opened Events
  import opened DescriptionFormat

  /** A call is fixed by its sub-client, its option, and the value or name it carries. */
  lemma CallDeterminedByObservers(c: Call, d: Call)
    requires TargetOf(c) == TargetOf(d) && OptionOf(c) == OptionOf(d)
    requires PayloadOf(c) == PayloadOf(d) && DeletedNameOf(c) == DeletedNameOf(d)
    ensures c == d
  {
  }

  /**
   * For a known kind and option, the one call issued sends the record's
   * `Value`: the value itself to create or update, its name to delete.
   * Together with the sub-client and option that `Apply` ensures, this fixes
   * the call completely (`CallDeterminedByObservers`).
   */
  lemma ApplyForwardsValue(e: Event, cluster: Cluster)
    requires CanApply(e) && IsKnownType(e.resourceType) && IsKnownOption(e.option)
    ensures var r := Apply(e, cluster);
      && r.call.Some?
      && (e.option == DeleteOption ==>
            PayloadOf(r.call.value).None? && DeletedNameOf(r.call.value) == Some(e.value.value.name))
      && (e.option != DeleteOption ==>
            PayloadOf(r.call.value) == e.value && DeletedNameOf(r.call.value).None?)
  {
  }

  /** The call issued depends on the record alone, not on how the cluster answers. */
  lemma ApplyCallIgnoresCluster(e: Event, cluster: Cluster, other: Cluster)
    requires CanApply(e)
    ensures Apply(e, cluster).call == Apply(e, other).call
  {
  }

  /** Application never reads the old value, not even for a delete. */
  lemma ApplyIgnoresOldValue(e: Event, cluster: Cluster, other: Option<Resource>)
    requires CanApply(e)
    ensures CanApply(e.(oldValue := other))
    ensures Apply(e.(oldValue := other), cluster) == Apply(e, cluster)
  {
  }

  /** A record of an unknown resource kind issues no call and succeeds. */
  lemma ApplyUnknownTypeIsNoop(e: Event, cluster: Cluster)
    requires !IsKnownType(e.resourceType)
    ensures CanApply(e) && Apply(e, cluster) == Applied(None, None)
  {
  }

  /** The context message of a failed call: "failed to apply <kind>". */
  function FailureMessage(rt: ResourceType): string {
    "failed to apply " + rt
  }

  /**
   * The cluster's error comes back unchanged for a service update, and
   * wrapped with "failed to apply <kind>" for every other call; a call that
   * succeeds gives nil.
   */
  lemma ApplyErrorWrapping(e: Event, cluster: Cluster)
    requires CanApply(e) && IsKnownType(e.resourceType) && IsKnownOption(e.option)
    ensures var r := Apply(e, cluster); var answer := cluster(r.call.value);
      && (answer.None? ==> r.err.None?)
      && (answer.Some? && e.resourceType == ServiceResourceType && e.option == UpdateOption ==>
            r.err == answer)
      && (answer.Some? && !(e.resourceType == ServiceResourceType && e.option == UpdateOption) ==>
            && r.err == Some(WithMessage(FailureMessage(e.resourceType), answer.value))
            && Text(r.err.value) == FailureMessage(e.resourceType) + ": " + Text(answer.value))
  {
    assert FailureMessage(ServiceResourceType) == ServiceFailure;
    assert FailureMessage(RouteResourceType) == RouteFailure;
  }

  /**
   * For a delete of a known kind, the description is the headline of the very
   * name the cluster is asked to delete exactly when the old and new values
   * carry the same name: the description reads the old value, application
   * the new one. When kind and name are readable, the same holds of the name
   * read back from the description.
   */
  lemma DeleteTargetsDescribedResourceIff(e: Event, codec: Codec, cluster: Cluster)
    requires e.option == DeleteOption && IsKnownType(e.resourceType)
    requires e.oldValue.Some? && e.value.Some?
    ensures var deleted := DeletedNameOf(Apply(e, cluster).call.value);
      && deleted.Some?
      && (Output(e, codec).text == Headline("deleting", e.resourceType, deleted.value) <==>
          e.value.value.name == e.oldValue.value.name)
    ensures Readable(e.resourceType, e.oldValue.value.name) ==>
      && ParseDescription(Output(e, codec).text).Some?
      && (DeletedNameOf(Apply(e, cluster).call.value) ==
            Some(ParseDescription(Output(e, codec).text).value.header.name) <==>
          e.value.value.name == e.oldValue.value.name)
  {
    DescribeDelete(e, codec);
    ApplyForwardsValue(e, cluster);
    HeadlineInjective("deleting", e.resourceType, e.value.value.name, e.oldValue.value.name);
  }
}
