# Destination selection for Xcode builds and tests

A Dafny model of how the project-generation tool Tuist chooses where a build or
test action runs (`XcodeBuildDestination.find`). Given a target, a scheme, an
optional requested OS version and an optional device name, the rule picks this Mac
for a macOS target. For an iOS, tvOS, watchOS or visionOS target it asks the
simulator controller for a device and returns that device's UDID. The minimum OS
version it passes along comes from the target's own deployment target for its
platform. If the target declares none, it is the lowest version declared for that
platform by the direct local dependencies of the scheme's target references.

Files:

- `wrappers.dfy`: `Option` and `Result`, standing in for Swift optionals and `throws`.
- `versions.dfy`: versions as `major.minor.patch` with semantic-versioning precedence.
  It also holds `sorted()` (an insertion sort proved sorted and a permutation) and
  `sorted().first` (`Lowest`, proved to be the least element).
- `destination_find.dfy`: the data model (platform, target, scheme, destination,
  simulator device and runtime), the selection `Find`, and the lemmas about it.

The collaborators are parameters of plain function type:

- the graph traverser's `directLocalTargetDependencies(path:name:)`: project path and
  name to the ordered dependency targets;
- the simulator controller's `findAvailableDevice(platform:version:minVersion:deviceName:)`:
  a `Result` holding a device and runtime or the error it throws;
- `String.version()`: a partial map from a deployment-target string to a version.

Because every lemma quantifies over these parameters, "not consulted" and "has no
influence" can be stated as "the result is the same for every choice of it".

## Model

| member | source | states |
|---|---|---|
| `XcodeBuildDestinationFind.Find` | Sources/TuistAutomation/Utilities/XcodeBuildDestination+Find.swift:17-51 | The result is `.mac` exactly when the target's platform is macOS, whatever the traverser, controller and parser are. For a simulator platform the controller is asked once, with the target's platform, the requested version unchanged, the computed minimum version and the requested device name unchanged. If it answers with a device, the result is that device's UDID. If it fails, the result is the same error. |
| `XcodeBuildDestinationFind.MinimumVersion` | Sources/TuistAutomation/Utilities/XcodeBuildDestination+Find.swift:27-39 | When the target declares a deployment target for its own platform, the minimum is that string's parsed version. This holds even when parsing yields nothing, and dependencies are not used then. Otherwise the minimum is absent exactly when the dependency pool is empty; when present it is a member of the pool and lower than or equal to every member. |
| `XcodeBuildDestinationFind.DeclaredVersionOnlyReadsPlatform` | Sources/TuistAutomation/Utilities/XcodeBuildDestination+Find.swift:35 | The optional chain `deploymentTargets[platform]?.version()` (`DeclaredVersion`) reads only the entry for the target's platform. Two dependency targets that agree on that entry, both missing it or both holding the same string, declare the same version, whatever their entries for other platforms. |
| `XcodeBuildDestinationFind.DeclaredVersions` | Sources/TuistAutomation/Utilities/XcodeBuildDestination+Find.swift:35 | A version is in the `compactMap` result exactly when some target in the list has a deployment-target entry for the platform and that entry parses to the version. Targets with no entry or an unparsable one contribute nothing. |
| `XcodeBuildDestinationFind.DependencyVersions` | Sources/TuistAutomation/Utilities/XcodeBuildDestination+Find.swift:31-36 | The `flatMap` pool holds a version exactly when some direct local dependency of some scheme target reference declares it, parsably, for the platform. This if-and-only-if is the function's own contract, proved by induction over the references. |
| `XcodeBuildDestinationFind.NoDeclarationMeansNoMinimum` | Sources/TuistAutomation/Utilities/XcodeBuildDestination+Find.swift:30-38 | Without an own deployment target, the minimum is absent exactly when no direct local dependency of any scheme target reference declares a parsable deployment target for the platform. A scheme with no target dependencies is one such case. |
| `XcodeBuildDestinationFind.MinimumIsLeastDeclared` | Sources/TuistAutomation/Utilities/XcodeBuildDestination+Find.swift:30-38 | Without an own deployment target, a present minimum is declared by some direct local dependency. It is lower than or equal to every version any of them declares for the platform. |
| `XcodeBuildDestinationFind.MinimumIgnoresSchemeOrder` | Sources/TuistAutomation/Utilities/XcodeBuildDestination+Find.swift:31-38 | Two schemes that refer to the same set of targets give the same minimum, whatever the order or repetition of their references. |
| `XcodeBuildDestinationFind.MinimumIgnoresTraverserOrder` | Sources/TuistAutomation/Utilities/XcodeBuildDestination+Find.swift:31-38 | Two graph traversers that report the same dependency targets for every project path and name give the same minimum, whatever the order or repetition within their answers. |
| `XcodeBuildDestinationFind.DeclaredVersionsOnlyReadPlatform` | Sources/TuistAutomation/Utilities/XcodeBuildDestination+Find.swift:35 | Two target lists whose entries for the platform agree position by position give the same versions. Entries for other platforms do not matter. |
| `XcodeBuildDestinationFind.DependencyVersionsOnlyReadPlatform` | Sources/TuistAutomation/Utilities/XcodeBuildDestination+Find.swift:31-36 | Two traversers whose answers agree on the platform's entries give the same pool. |
| `XcodeBuildDestinationFind.FindOnlyReadsOwnPlatform` | Sources/TuistAutomation/Utilities/XcodeBuildDestination+Find.swift:25-47 | Changing deployment-target entries for platforms other than the target's own does not change the destination. This holds for entries on the target and on any dependency. |
| `Versions.Insert` | Sources/TuistAutomation/Utilities/XcodeBuildDestination+Find.swift:37 | Inserting into an ascending sequence keeps it ascending, and the result holds exactly the old elements plus the new one. |
| `Versions.Sorted` | Sources/TuistAutomation/Utilities/XcodeBuildDestination+Find.swift:37 | `sorted()` returns an ascending rearrangement: sorted, with the same multiset of elements. |
| `Versions.Lowest` | Sources/TuistAutomation/Utilities/XcodeBuildDestination+Find.swift:37-38 | `sorted().first` is absent exactly for an empty sequence. Otherwise it is an element lower than or equal to every element. |
| `Versions.LowestDependsOnlyOnMembers` | Sources/TuistAutomation/Utilities/XcodeBuildDestination+Find.swift:37-38 | Two sequences with the same members have the same `sorted().first`, whatever their order and repetitions. |

## Left out

- `async`/`await`: the suspension at the simulator controller call is not modelled. The call is a function returning a `Result`.
- The simulator controller's device and runtime matching is left out because it enumerates the installed simulators. It is an arbitrary function parameter, so every property holds for any controller.
- `directLocalTargetDependencies` and `Scheme.targetDependencies()` are graph collaborators whose outputs are taken as given. The traverser is a function parameter, and the scheme is reduced to its list of target references.
- `String.version()` is an arbitrary partial function from strings to versions. No version string is parsed here.
- Versions keep only `major.minor.patch`. Prerelease and build-metadata identifiers of `TSCUtility.Version` are not modelled, so their contribution to ordering is not captured.
- `Versions.Sorted`: `sorted()` is modelled as an insertion sort. Whatever algorithm `sorted()` uses, the first element of the ascending arrangement is the unique least version here, because equal versions are identical values. `Versions.LeIsTotalOrder` states that the abstracted order is total.
- Sources/TuistCore/NodeLoaders/FrameworkNodeLoader.swift is not part of this model. Its existence check goes through a global file system, and everything else it does is forwarded to an opaque framework-metadata provider.
- `XcodeBuildDestinationFind.Find`: the UDID the controller returns is passed through unchecked. A simulator destination therefore carries a non-empty device identifier only if the controller returns one.
- Error descriptions and error types are presentation only. A controller error is an opaque value passed through unchanged.
