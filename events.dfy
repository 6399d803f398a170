/**
 * A change record of the reconciler (pkg/data/events.go): which kind of
 * resource changes, how (create, delete or update), and its remote (old) and
 * local (new) values. A record can be described as text for the user, and
 * applied to the cluster through that resource kind's sub-client.
 */
module Events {
  import opened Wrappers
  import opened Errors

  /** A resource kind is any string; two kinds are known to this core. */
  type ResourceType = string

  const ServiceResourceType: ResourceType := "service"
  const RouteResourceType: ResourceType := "route"

  /** The option of a record is any integer; three codes have a meaning. */
  const CreateOption: int := 0
  const DeleteOption: int := 1
  const UpdateOption: int := 2

  predicate IsKnownType(rt: ResourceType) {
    rt == ServiceResourceType || rt == RouteResourceType
  }

  predicate IsKnownOption(option: int) {
    option == CreateOption || option == DeleteOption || option == UpdateOption
  }

  /** The option codes are pairwise distinct, so each record takes exactly one branch. */
  lemma OptionsDistinct()
    ensures CreateOption != DeleteOption && DeleteOption != UpdateOption && CreateOption != UpdateOption
    ensures forall option :: IsKnownOption(option) <==> 0 <= option < 3
  {
  }

  /**
   * A resource value: a service or a route. Both carry the `Name` field that
   * the reflective lookup `getName` reads, so `getName(value)` is written
   * `value.name` below; the remaining fields are only seen by the JSON
   * encoder.
   */
  datatype Resource =
    | Service(name: string, fields: map<string, string>)
    | Route(name: string, fields: map<string, string>)

  /** A change record. A value is `None` where the Go field holds nil. */
  datatype Event = Event(
    resourceType: ResourceType,
    option: int,
    oldValue: Option<Resource>,
    value: Option<Resource>)

  // ---------------------------------------------------------------- Output

  /**
   * The libraries the description relies on, whose code is not modelled:
   * `marshal` is `json.MarshalIndent(v, "", "\t")` (nil encodes too), and
   * `unifiedDiff(from, to, before, after)` is the Myers edit script from
   * `before` to `after` rendered as a unified diff labelled `from` and `to`.
   */
  datatype Codec = Codec(
    marshal: Option<Resource> -> Result<string, Error>,
    unifiedDiff: (string, string, string, string) -> string)

  const RemoteLabel: string := "remote"
  const LocalLabel: string := "local"

  /** The text and error returned by `Output`. */
  datatype Described = Described(text: string, err: Option<Error>)

  /** The one-line form `<verb> <kind>: "<name>"`. */
  function Headline(verb: string, rt: ResourceType, name: string): string {
    verb + " " + (rt + ": \"" + name + "\"")
  }

  /**
   * The values `Output` reads are present: the new value of a create, the old
   * value of a delete, and the new value of an update once both encodings
   * have succeeded (the name lookup of a nil value panics).
   */
  predicate CanDescribe(e: Event, codec: Codec) {
    && (e.option == CreateOption ==> e.value.Some?)
    && (e.option == DeleteOption ==> e.oldValue.Some?)
    && (e.option == UpdateOption ==>
          codec.marshal(e.oldValue).Success? && codec.marshal(e.value).Success? ==> e.value.Some?)
  }

  /** `Event.Output`: the user-facing description of a record. */
  function Output(e: Event, codec: Codec): (r: Described)
    requires CanDescribe(e, codec)
    ensures r.err.Some? <==>
      e.option == UpdateOption && (codec.marshal(e.oldValue).Failure? || codec.marshal(e.value).Failure?)
    ensures r.err.Some? ==> r.text == ""
    ensures r.text == "" <==> !IsKnownOption(e.option) || r.err.Some?
  {
    if e.option == CreateOption then
      Described(Headline("creating", e.resourceType, e.value.value.name), None)
    else if e.option == DeleteOption then
      Described(Headline("deleting", e.resourceType, e.oldValue.value.name), None)
    else if e.option == UpdateOption then
      match codec.marshal(e.oldValue)
      case Failure(err) => Described("", Some(err))
      case Success(remote) =>
        match codec.marshal(e.value)
        case Failure(err) => Described("", Some(err))
        case Success(local) =>
          var diff := codec.unifiedDiff(RemoteLabel, LocalLabel, remote + "\n", local + "\n");
          Described(Headline("updating", e.resourceType, e.value.value.name) + "\n" + diff, None)
    else
      Described("", None)
  }

  // ----------------------------------------------------------------- Apply

  /** One operation on a sub-client of the cluster. */
  datatype Call =
    | ServiceCreate(service: Resource)
    | ServiceDelete(serviceName: string)
    | ServiceUpdate(service: Resource)
    | RouteCreate(route: Resource)
    | RouteDelete(routeName: string)
    | RouteUpdate(route: Resource)

  /** The sub-client a call goes to. */
  function TargetOf(c: Call): ResourceType {
    if c.ServiceCreate? || c.ServiceDelete? || c.ServiceUpdate? then ServiceResourceType
    else RouteResourceType
  }

  /** The option code a call carries out. */
  function OptionOf(c: Call): int {
    match c
    case ServiceCreate(_) => CreateOption
    case RouteCreate(_) => CreateOption
    case ServiceDelete(_) => DeleteOption
    case RouteDelete(_) => DeleteOption
    case ServiceUpdate(_) => UpdateOption
    case RouteUpdate(_) => UpdateOption
  }

  /** The resource value a create or update sends; none for a delete. */
  function PayloadOf(c: Call): Option<Resource> {
    match c
    case ServiceCreate(v) => Some(v)
    case ServiceUpdate(v) => Some(v)
    case RouteCreate(v) => Some(v)
    case RouteUpdate(v) => Some(v)
    case ServiceDelete(_) => None
    case RouteDelete(_) => None
  }

  /** The name a delete removes; none for a create or update. */
  function DeletedNameOf(c: Call): Option<string> {
    match c
    case ServiceDelete(n) => Some(n)
    case RouteDelete(n) => Some(n)
    case _ => None
  }

  /** The cluster, seen from this core: the error (or nil) it answers to each call. */
  type Cluster = Call -> Option<Error>

  /** The call issued (at most one) and the error returned. */
  datatype Applied = Applied(call: Option<Call>, err: Option<Error>)

  const ServiceFailure: string := "failed to apply service"
  const RouteFailure: string := "failed to apply route"

  /**
   * The value passed to a sub-client is usable: a create or update asserts it
   * is a service (resp. route) pointer, a delete looks up its name.
   */
  predicate ServiceArgument(option: int, value: Option<Resource>) {
    && (option == CreateOption || option == UpdateOption ==> value.Some? && value.value.Service?)
    && (option == DeleteOption ==> value.Some?)
  }

  predicate RouteArgument(option: int, value: Option<Resource>) {
    && (option == CreateOption || option == UpdateOption ==> value.Some? && value.value.Route?)
    && (option == DeleteOption ==> value.Some?)
  }

  /** `applyService`: an update's error is returned as is; the others are wrapped. */
  function ApplyService(cluster: Cluster, option: int, value: Option<Resource>): (r: Applied)
    requires ServiceArgument(option, value)
    ensures r.call.Some? <==> IsKnownOption(option)
    ensures r.call.Some? ==> TargetOf(r.call.value) == ServiceResourceType && OptionOf(r.call.value) == option
    ensures r.call.None? ==> r.err.None?
    ensures r.call.Some? && option == UpdateOption ==> r.err == cluster(r.call.value)
    ensures r.call.Some? && option != UpdateOption ==> r.err == Wrap(cluster(r.call.value), ServiceFailure)
  {
    if option == CreateOption then
      var call := ServiceCreate(value.value);
      Applied(Some(call), Wrap(cluster(call), ServiceFailure))
    else if option == DeleteOption then
      var call := ServiceDelete(value.value.name);
      Applied(Some(call), Wrap(cluster(call), ServiceFailure))
    else if option == UpdateOption then
      var call := ServiceUpdate(value.value);
      Applied(Some(call), cluster(call))
    else
      Applied(None, Wrap(None, ServiceFailure))
  }

  /** `applyRoute`: every error of the route sub-client is wrapped. */
  function ApplyRoute(cluster: Cluster, option: int, value: Option<Resource>): (r: Applied)
    requires RouteArgument(option, value)
    ensures r.call.Some? <==> IsKnownOption(option)
    ensures r.call.Some? ==> TargetOf(r.call.value) == RouteResourceType && OptionOf(r.call.value) == option
    ensures r.call.None? ==> r.err.None?
    ensures r.call.Some? ==> r.err == Wrap(cluster(r.call.value), RouteFailure)
  {
    var call :=
      if option == CreateOption then Some(RouteCreate(value.value))
      else if option == DeleteOption then Some(RouteDelete(value.value.name))
      else if option == UpdateOption then Some(RouteUpdate(value.value))
      else None;
    var err := if call.Some? then cluster(call.value) else None;
    Applied(call, Wrap(err, RouteFailure))
  }

  /** The value `Apply` forwards (always `Value`) suits the sub-client it picks. */
  predicate CanApply(e: Event) {
    if e.resourceType == ServiceResourceType then ServiceArgument(e.option, e.value)
    else if e.resourceType == RouteResourceType then RouteArgument(e.option, e.value)
    else true
  }

  /** `Event.Apply`: dispatch on the resource kind, forwarding the option and `Value`. */
  function Apply(e: Event, cluster: Cluster): (r: Applied)
    requires CanApply(e)
    ensures r.call.Some? <==> IsKnownType(e.resourceType) && IsKnownOption(e.option)
    ensures r.call.Some? ==> TargetOf(r.call.value) == e.resourceType && OptionOf(r.call.value) == e.option
    ensures r.err.None? <==> r.call.None? || cluster(r.call.value).None?
    ensures r.err.Some? ==> Cause(r.err.value) == Cause(cluster(r.call.value).value)
  {
    if e.resourceType == ServiceResourceType then ApplyService(cluster, e.option, e.value)
    else if e.resourceType == RouteResourceType then ApplyRoute(cluster, e.option, e.value)
    else Applied(None, None)
  }
}
