# Change records of the adc reconciler, modelled in Dafny

The reconciler compares the resources a user declares (services and routes of
an APISIX gateway) with those on the cluster and produces one change record,
an `Event`, per difference. Each record holds four things:

- the resource type (`"service"`, `"route"`, or any other string);
- an option code: create = 0, delete = 1, update = 2, or any other integer;
- the old (remote) value;
- the new (local) value.

The core in `pkg/data/events.go` does two things with a record:

- **Output** describes the record for the user: `creating <type>: "<name>"`,
  `deleting <type>: "<name>"`, or `updating <type>: "<name>"` followed on the
  next line by a unified diff. The diff compares the JSON of the old value
  (labelled `remote`) with the JSON of the new one (labelled `local`).
- **Apply** sends the record to the cluster. For a service or route record
  with a known option, it picks that sub-client, issues one create,
  delete-by-name or update call, and returns that call's error. The error
  comes back wrapped with "failed to apply service" or "failed to apply
  route", except a service update's error, which comes back as it is. An
  unknown resource type or an unknown option issues no call and returns nil.

The project has five modules:

- `Wrappers` (`wrappers.dfy`): Go's nil-or-value (`Option`) and a `Result`.
- `Errors` (`errors.dfy`): the part of `github.com/pkg/errors` that the core
  uses. `Wrap` keeps nil as nil. It wraps any other error with a message and
  keeps the original error as the cause. `Text` is what `Error()` returns.
  `Cause` is `errors.Cause`.
- `Events` (`events.dfy`): the record and its constants. The uniform name
  lookup `getName` becomes the `name` field that both resource constructors
  carry. It also holds `Output`, and `applyService`, `applyRoute` and
  `Event.Apply` written as functions that return the call issued (if any) and
  the error.
- `DescriptionFormat` (`description.dfy`): a reader for description texts,
  `ParseDescription`. Whatever text it accepts is exactly the rendering of
  what it returns (`ParseDescriptionExact`, for every input). The other
  direction holds when the resource type has no ':' and no newline and the
  name has no newline: reading a description then gives back the verb, the
  type, the name and the diff block (`DescriptionRoundTrip`). Because the
  type ends at the first colon, a type with a colon may be rejected (with
  type `a:b` the colon is not followed by a space) or misread (with type
  `a: "b` and name `c` the text reads back as type `a` and name `b: "c`). The
  lemmas about `Output` state each exact text for every input, and its
  reading back under that condition.
- `ApplyLaws` (`apply_laws.dfy`): which call `Apply` issues and with what
  argument, what `Apply` ignores, how errors are wrapped, and how application
  relates to the description of the same delete.

External code becomes parameters:

- `Codec.marshal` stands for `json.MarshalIndent(v, "", "\t")`.
- `Codec.unifiedDiff(from, to, before, after)` stands for the Myers edit
  script rendered by `gotextdiff.ToUnified` and `fmt.Sprint`.
- The cluster is a function `Cluster = Call -> Option<Error>`: the error, or
  nil, that the cluster answers to each sub-client call.

Two behaviours of the code are worth stating plainly:

- A delete is described with the old value's name (line 63), but
  `Event.Apply` forwards `e.Value` for every option (lines 117 and 119), so
  the cluster deletes by the new value's name.
  `ApplyLaws.ApplyIgnoresOldValue` and
  `ApplyLaws.DeleteTargetsDescribedResourceIff` state the consequence: the
  resource that is deleted is the one the description names only when the old
  and new values have the same name.
- `applyService` returns a service update's error unwrapped (line 94); every
  other call's error is wrapped (lines 97 and 111).

## Model

| member | source | states |
|---|---|---|
| `Errors.Wrap` | pkg/data/events.go:97 | nil stays nil and an error stays an error; a wrapped error keeps its cause and its text (`Errors.Text`, what `Error()` returns) is the message, ": ", then the original text |
| `Errors.Cause` | pkg/data/events.go:111 | an error that wraps nothing is its own cause, and a wrapped error has the cause of the error it wraps; the cause wraps nothing and its text ends the wrapped error's text |
| `Events.OptionsDistinct` | pkg/data/events.go:28-35 | create, delete and update are 0, 1 and 2, pairwise distinct, and they are the only known option codes |
| `Events.Output` | pkg/data/events.go:57-83 | the error is set exactly for an update where the old or new value fails to encode, and then the text is empty; the text is empty exactly for an unknown option or an encoding failure |
| `Events.ApplyService` | pkg/data/events.go:85-98 | a call is issued exactly for a known option, always to the service sub-client with that option; an update returns the cluster's error as it is; create and delete wrap it with "failed to apply service"; no call gives nil |
| `Events.ApplyRoute` | pkg/data/events.go:100-112 | a call is issued exactly for a known option, always to the route sub-client with that option; its error is always wrapped with "failed to apply route"; no call gives nil |
| `Events.Apply` | pkg/data/events.go:114-123 | a call is issued exactly when both the type (service or route) and the option are known; it goes to that type's sub-client with that option; the result is nil exactly when there is no call or the cluster answers nil; an error keeps the cluster error as its cause |
| `DescriptionFormat.HeadlineRoundTrip` | pkg/data/events.go:61-63 | reading back `<verb> <type>: "<name>"` gives the verb, type and name it was built from (for a verb without spaces and a type without colons) |
| `DescriptionFormat.ParseHeadlineExact` | pkg/data/events.go:61-63 | every line the reader accepts is exactly the headline of the verb, type and name it returns |
| `DescriptionFormat.DescriptionRoundTrip` | pkg/data/events.go:79 | for a verb without space or newline, a type without ':' or newline and a name without newline, reading a headline, optionally followed by a newline and a body, gives back both the headline and the body |
| `DescriptionFormat.ParseDescriptionExact` | pkg/data/events.go:79 | every text the reader accepts is exactly the headline plus, when present, a newline and the body it returns |
| `DescriptionFormat.DescribeCreate` | pkg/data/events.go:60-61 | a create has no error and its text is exactly `Events.Headline` of "creating", the type and the new value's name (`getName` of `Value`, lines 45-51): `creating <type>: "<name>"`; for a readable type and name it reads back as that one line |
| `DescriptionFormat.DescribeDelete` | pkg/data/events.go:62-63 | a delete has no error and its text is exactly `Events.Headline` of "deleting", the type and the old value's name (`getName` of `OldValue`, lines 45-51): `deleting <type>: "<name>"`; for a readable type and name it reads back as that one line |
| `DescriptionFormat.DescribeUpdate` | pkg/data/events.go:64-79 | when both values encode, an update has no error. Its text is exactly `updating <type>: "<name>"` (`Events.Headline`) with the new value's name (`getName` of `Value`, lines 45-51), a newline, then the diff. The diff compares the old encoding plus a newline, labelled remote, with the new encoding plus a newline, labelled local; for a readable type and name the text reads back to all three |
| `DescriptionFormat.DescribeUpdateFailure` | pkg/data/events.go:65-74 | when the old or the new value fails to encode, an update gives the empty text and the first encoding error (the old value's encoding error if it has one) |
| `DescriptionFormat.DescribeUnknownOption` | pkg/data/events.go:58-59 | an unknown option code gives the empty text and a nil error, whatever the values |
| `DescriptionFormat.DescribeUnchangedUpdate` | pkg/data/events.go:77-79 | if the diff of identical texts is empty, an update whose two values encode identically is described by its headline and a newline alone |
| `DescriptionFormat.DescriptionIgnoresUnreadValue` | pkg/data/events.go:60-63 | the description of a create does not depend on the old value, and that of a delete does not depend on the new value |
| `ApplyLaws.ApplyForwardsValue` | pkg/data/events.go:114-120 | for a known type and option, the single call sends `Value`: the whole value for a create or update, its name (`getName` of `Value`, lines 45-51) for a delete |
| `ApplyLaws.ApplyCallIgnoresCluster` | pkg/data/events.go:87-93 | which call is issued depends only on the record, not on how the cluster answers |
| `ApplyLaws.ApplyIgnoresOldValue` | pkg/data/events.go:117-119 | changing the old value changes neither the call nor the error, deletes included |
| `ApplyLaws.ApplyUnknownTypeIsNoop` | pkg/data/events.go:114-122 | a resource type other than service or route issues no call and gives nil, whatever the option and values |
| `ApplyLaws.ApplyErrorWrapping` | pkg/data/events.go:85-112 | a successful call gives nil. A failed service update returns the cluster's error as it is. Any other failed call returns that error wrapped with "failed to apply <type>", and its text is that message, ": ", then the cluster's text |
| `ApplyLaws.DeleteTargetsDescribedResourceIff` | pkg/data/events.go:117-119 | for every service or route delete, the description is exactly the `deleting` headline of the name sent to the cluster exactly when the old and new values have the same name; for a readable old name the same holds of the name read back from the description |

## Left out

- JSON encoding (`json.MarshalIndent`) and the Myers diff with its unified rendering are external libraries. They are the two fields of `Codec`, and nothing about them is assumed. The one exception is that `DescribeUnchangedUpdate` takes "the diff of identical texts is empty" as a hypothesis.
- The cluster client, its transport and `context.Background()`: a call is only a `Call` value, and the cluster's answer is a parameter. The created or updated value that `Create` and `Update` return is dropped by the source, so the model drops it too.
- Panics are not modelled; the preconditions rule out the inputs that cause them. `Output` and `Apply` look up the name of a nil value (`CanDescribe`, `CanApply`). A create or update asserts the value is a service (resp. route) pointer (`ServiceArgument`, `RouteArgument`).
- A typed nil pointer inside the interface is not distinguished from a missing value, and a resource without a `Name` field does not exist in the model. The reflective lookup in `getName` becomes a field that every resource carries.
- The stack trace that `errors.Wrap` attaches is not modelled; only the message and the cause are.
- `ServiceResourceType` and `RouteResourceType` are mutable package variables in Go and constants here.
- DescriptionFormat.DescribeCreate: states the exact text for every input, but reading it back only for a resource type without ':' or newline and a name without newline; for other inputs the text cannot be read back unambiguously.
- DescriptionFormat.DescribeDelete: states the exact text for every input, but reading it back only for a resource type without ':' or newline and a name without newline.
- DescriptionFormat.DescribeUpdate: states the exact text for every input whose values encode, but reading it back only for a resource type without ':' or newline and a name without newline.
