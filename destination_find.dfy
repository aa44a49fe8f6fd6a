/**
 * Selection of the destination a build or test action runs on
 * (`XcodeBuildDestination.find`).
 *
 * The collaborators the selection consults are parameters:
 * - `traverser` answers `directLocalTargetDependencies(path:name:)` with the
 *   dependency targets, in order;
 * - `controller` answers `findAvailableDevice(platform:version:minVersion:deviceName:)`
 *   with a device and runtime, or the error it throws;
 * - `parse` is `String.version()`, a partial reading of a deployment-target string.
 */
module XcodeBuildDestinationFind {
  import opened Wrappers
  import opened Versions

  /** The target platform the selection switches on (`legacyPlatform`). */
  datatype Platform = IOS | MacOS | TvOS | WatchOS | VisionOS

  /** A target: its platform and its deployment targets, at most one string per platform. */
  datatype Target = Target(name: string, platform: Platform, deploymentTargets: map<Platform, string>)

  /** A scheme's reference to a target it builds: the project it lives in and its name. */
  datatype TargetReference = TargetReference(projectPath: string, name: string)

  /** A scheme, reduced to the target references `targetDependencies()` yields. */
  datatype Scheme = Scheme(name: string, targetDependencies: seq<TargetReference>)

  datatype SimulatorDevice = SimulatorDevice(udid: string, name: string)
  datatype SimulatorRuntime = SimulatorRuntime(identifier: string, version: Version)
  datatype DeviceAndRuntime = DeviceAndRuntime(device: SimulatorDevice, runtime: SimulatorRuntime)

  /** Whatever `findAvailableDevice` throws; it is passed on untouched. */
  datatype SimulatorError = SimulatorError(description: string)

  /** Where the action runs: a simulator device by UDID, or this Mac. */
  datatype XcodeBuildDestination = Device(udid: string) | Mac

  type GraphTraverser = (string, string) -> seq<Target>
  type SimulatorController =
    (Platform, Option<Version>, Option<Version>, Option<string>) -> Result<DeviceAndRuntime, SimulatorError>
  type VersionParser = string -> Option<Version>

  predicate IsSimulatorPlatform(p: Platform) {
    p.IOS? || p.TvOS? || p.WatchOS? || p.VisionOS?
  }

  /**
   * `target.deploymentTargets[platform]?.version()`: absent when the target has no
   * entry for `p`, otherwise whatever parsing that entry yields.
   */
  function DeclaredVersion(t: Target, p: Platform, parse: VersionParser): Option<Version> {
    if p in t.deploymentTargets then parse(t.deploymentTargets[p]) else None
  }

  /** The inner `compactMap`: the parsable `p` deployment targets of `targets`, in order. */
  function DeclaredVersions(targets: seq<Target>, p: Platform, parse: VersionParser): (r: seq<Version>)
    ensures forall v :: v in r <==> exists k :: 0 <= k < |targets| && DeclaredVersion(targets[k], p, parse) == Some(v)
  {
    if targets == [] then []
    else
      var rest := DeclaredVersions(targets[1..], p, parse);
      assert forall v :: (exists k :: 0 <= k < |targets[1..]| && DeclaredVersion(targets[1..][k], p, parse) == Some(v))
                     <==> (exists k :: 1 <= k < |targets| && DeclaredVersion(targets[k], p, parse) == Some(v)) by {
        forall v ensures (exists k :: 0 <= k < |targets[1..]| && DeclaredVersion(targets[1..][k], p, parse) == Some(v))
                     <==> (exists k :: 1 <= k < |targets| && DeclaredVersion(targets[k], p, parse) == Some(v)) {
          if k :| 1 <= k < |targets| && DeclaredVersion(targets[k], p, parse) == Some(v) {
            assert targets[1..][k - 1] == targets[k];
          }
        }
      }
      match DeclaredVersion(targets[0], p, parse)
      case Some(v) => [v] + rest
      case None => rest
  }

  /**
   * The candidate pool of the fallback: the `flatMap` over the scheme's target
   * references of their direct local dependencies' `p` deployment targets. It holds
   * exactly the versions some of those dependencies declare, parsably, for `p`.
   */
  function DependencyVersions(refs: seq<TargetReference>, p: Platform, traverser: GraphTraverser, parse: VersionParser)
    : (r: seq<Version>)
    ensures forall v :: v in r <==> DeclaredByDependency(refs, p, traverser, parse, v)
  {
    if refs == [] then []
    else
      var head := DeclaredVersions(traverser(refs[0].projectPath, refs[0].name), p, parse);
      var rest := DependencyVersions(refs[1..], p, traverser, parse);
      assert forall v :: v in head + rest <==> DeclaredByDependency(refs, p, traverser, parse, v) by {
        forall v ensures v in head + rest <==> DeclaredByDependency(refs, p, traverser, parse, v) {
          if DeclaredByDependency(refs, p, traverser, parse, v) {
            var i, k :| 0 <= i < |refs| && 0 <= k < |traverser(refs[i].projectPath, refs[i].name)|
                        && DeclaredVersion(traverser(refs[i].projectPath, refs[i].name)[k], p, parse) == Some(v);
            if i > 0 {
              assert refs[1..][i - 1] == refs[i];
              assert DeclaredByDependency(refs[1..], p, traverser, parse, v);
            }
          }
          if DeclaredByDependency(refs[1..], p, traverser, parse, v) {
            var i, k :| 0 <= i < |refs[1..]| && 0 <= k < |traverser(refs[1..][i].projectPath, refs[1..][i].name)|
                        && DeclaredVersion(traverser(refs[1..][i].projectPath, refs[1..][i].name)[k], p, parse) == Some(v);
            assert refs[1..][i] == refs[i + 1];
          }
        }
      }
      head + rest
  }

  /**
   * The minimum OS version handed to the simulator controller. The target's own
   * deployment target for its platform decides it whenever it is present, parsable
   * or not; otherwise it is the lowest version in the dependencies' pool, and absent
   * when the pool is empty.
   */
  function MinimumVersion(target: Target, scheme: Scheme, traverser: GraphTraverser, parse: VersionParser): (r: Option<Version>)
    ensures target.platform in target.deploymentTargets ==> r == parse(target.deploymentTargets[target.platform])
    ensures target.platform !in target.deploymentTargets ==>
      var pool := DependencyVersions(scheme.targetDependencies, target.platform, traverser, parse);
      && (r.None? <==> pool == [])
      && (r.Some? ==> IsLeast(r.value, pool))
  {
    var p := target.platform;
    if p in target.deploymentTargets then parse(target.deploymentTargets[p])
    else Lowest(DependencyVersions(scheme.targetDependencies, p, traverser, parse))
  }

  /** `XcodeBuildDestination.find(for:scheme:version:deviceName:graphTraverser:simulatorController:)`. */
  function Find(target: Target, scheme: Scheme, version: Option<Version>, deviceName: Option<string>,
                traverser: GraphTraverser, controller: SimulatorController, parse: VersionParser)
    : (r: Result<XcodeBuildDestination, SimulatorError>)
    ensures r == Ok(Mac) <==> target.platform == MacOS
    ensures IsSimulatorPlatform(target.platform) ==>
      var answer := controller(target.platform, version, MinimumVersion(target, scheme, traverser, parse), deviceName);
      && (r.Ok? <==> answer.Ok?)
      && (answer.Ok? ==> r.value == Device(answer.value.device.udid))
      && (answer.Err? ==> r.error == answer.error)
  {
    match target.platform
    case IOS() | TvOS() | WatchOS() | VisionOS() =>
      var minVersion := MinimumVersion(target, scheme, traverser, parse);
      (match controller(target.platform, version, minVersion, deviceName)
       case Ok(deviceAndRuntime) => Ok(Device(deviceAndRuntime.device.udid))
       case Err(e) => Err(e))
    case MacOS() => Ok(Mac)
  }

  // Properties of the dependency fallback

  /** Some direct local dependency of a scheme target reference in `refs` declares `v` for `p`. */
  ghost predicate DeclaredByDependency(refs: seq<TargetReference>, p: Platform, traverser: GraphTraverser, parse: VersionParser, v: Version) {
    exists i, k :: 0 <= i < |refs| && 0 <= k < |traverser(refs[i].projectPath, refs[i].name)|
                && DeclaredVersion(traverser(refs[i].projectPath, refs[i].name)[k], p, parse) == Some(v)
  }

  /**
   * Without an own deployment target, an absent minimum means that no direct local
   * dependency of any scheme target reference declares a parsable one for the platform;
   * in particular a scheme without target dependencies yields no minimum.
   */
  lemma NoDeclarationMeansNoMinimum(target: Target, scheme: Scheme, traverser: GraphTraverser, parse: VersionParser)
    requires target.platform !in target.deploymentTargets
    ensures MinimumVersion(target, scheme, traverser, parse).None? <==>
            forall v :: !DeclaredByDependency(scheme.targetDependencies, target.platform, traverser, parse, v)
  {
  }

  /**
   * Without an own deployment target, a present minimum is declared by some direct
   * local dependency and is lower than or equal to every version any of them declares.
   */
  lemma MinimumIsLeastDeclared(target: Target, scheme: Scheme, traverser: GraphTraverser, parse: VersionParser)
    requires target.platform !in target.deploymentTargets
    requires MinimumVersion(target, scheme, traverser, parse).Some?
    ensures var m := MinimumVersion(target, scheme, traverser, parse).value;
      && DeclaredByDependency(scheme.targetDependencies, target.platform, traverser, parse, m)
      && forall v :: DeclaredByDependency(scheme.targetDependencies, target.platform, traverser, parse, v) ==> Le(m, v)
  {
  }

  /**
   * The minimum does not depend on the order (or repetition) of the scheme's
   * target references: schemes referring to the same targets get the same minimum.
   */
  lemma MinimumIgnoresSchemeOrder(target: Target, scheme1: Scheme, scheme2: Scheme, traverser: GraphTraverser, parse: VersionParser)
    requires forall ref :: ref in scheme1.targetDependencies <==> ref in scheme2.targetDependencies
    ensures MinimumVersion(target, scheme1, traverser, parse) == MinimumVersion(target, scheme2, traverser, parse)
  {
    var p := target.platform;
    if p !in target.deploymentTargets {
      var refs1, refs2 := scheme1.targetDependencies, scheme2.targetDependencies;
      forall v ensures v in DependencyVersions(refs1, p, traverser, parse) <==> v in DependencyVersions(refs2, p, traverser, parse) {
        SameReferencesSameDeclarations(refs1, refs2, p, traverser, parse, v);
        SameReferencesSameDeclarations(refs2, refs1, p, traverser, parse, v);
      }
      LowestDependsOnlyOnMembers(DependencyVersions(refs1, p, traverser, parse), DependencyVersions(refs2, p, traverser, parse));
    }
  }

  /** The traversers answer every query with the same targets, possibly in another order or repeated. */
  ghost predicate TraversersAnswerSameTargets(traverser1: GraphTraverser, traverser2: GraphTraverser) {
    forall path, name, t :: t in traverser1(path, name) <==> t in traverser2(path, name)
  }

  /**
   * The minimum does not depend on the order (or repetition) of the dependency
   * targets the graph traverser reports for each scheme target reference.
   */
  lemma MinimumIgnoresTraverserOrder(target: Target, scheme: Scheme, traverser1: GraphTraverser, traverser2: GraphTraverser,
                                     parse: VersionParser)
    requires TraversersAnswerSameTargets(traverser1, traverser2)
    ensures MinimumVersion(target, scheme, traverser1, parse) == MinimumVersion(target, scheme, traverser2, parse)
  {
    var p := target.platform;
    if p !in target.deploymentTargets {
      var refs := scheme.targetDependencies;
      forall v ensures v in DependencyVersions(refs, p, traverser1, parse) <==> v in DependencyVersions(refs, p, traverser2, parse) {
        SameAnswersSameDeclarations(refs, p, traverser1, traverser2, parse, v);
        SameAnswersSameDeclarations(refs, p, traverser2, traverser1, parse, v);
      }
      LowestDependsOnlyOnMembers(DependencyVersions(refs, p, traverser1, parse), DependencyVersions(refs, p, traverser2, parse));
    }
  }

  lemma SameAnswersSameDeclarations(refs: seq<TargetReference>, p: Platform, traverser1: GraphTraverser,
                                    traverser2: GraphTraverser, parse: VersionParser, v: Version)
    requires TraversersAnswerSameTargets(traverser1, traverser2)
    ensures DeclaredByDependency(refs, p, traverser1, parse, v) ==> DeclaredByDependency(refs, p, traverser2, parse, v)
  {
    if DeclaredByDependency(refs, p, traverser1, parse, v) {
      var i, k :| 0 <= i < |refs| && 0 <= k < |traverser1(refs[i].projectPath, refs[i].name)|
                  && DeclaredVersion(traverser1(refs[i].projectPath, refs[i].name)[k], p, parse) == Some(v);
      var t := traverser1(refs[i].projectPath, refs[i].name)[k];
      assert t in traverser2(refs[i].projectPath, refs[i].name);
      var j :| 0 <= j < |traverser2(refs[i].projectPath, refs[i].name)| && traverser2(refs[i].projectPath, refs[i].name)[j] == t;
      assert DeclaredVersion(traverser2(refs[i].projectPath, refs[i].name)[j], p, parse) == Some(v);
    }
  }

  lemma SameReferencesSameDeclarations(refs1: seq<TargetReference>, refs2: seq<TargetReference>, p: Platform,
                                       traverser: GraphTraverser, parse: VersionParser, v: Version)
    requires forall ref :: ref in refs1 ==> ref in refs2
    ensures DeclaredByDependency(refs1, p, traverser, parse, v) ==> DeclaredByDependency(refs2, p, traverser, parse, v)
  {
    if DeclaredByDependency(refs1, p, traverser, parse, v) {
      var i, k :| 0 <= i < |refs1| && 0 <= k < |traverser(refs1[i].projectPath, refs1[i].name)|
                  && DeclaredVersion(traverser(refs1[i].projectPath, refs1[i].name)[k], p, parse) == Some(v);
      assert refs1[i] in refs2;
      var j :| 0 <= j < |refs2| && refs2[j] == refs1[i];
      assert DeclaredVersion(traverser(refs2[j].projectPath, refs2[j].name)[k], p, parse) == Some(v);
    }
  }

  // Only the target's own platform key is ever read

  /** `a` and `b` carry the same deployment-target entry (or none) for `p`. */
  predicate SameEntry(a: Target, b: Target, p: Platform) {
    (p in a.deploymentTargets <==> p in b.deploymentTargets)
    && (p in a.deploymentTargets ==> a.deploymentTargets[p] == b.deploymentTargets[p])
  }

  /** `DeclaredVersion` looks at the `p` entry only: targets that agree on it declare the same version. */
  lemma DeclaredVersionOnlyReadsPlatform(a: Target, b: Target, p: Platform, parse: VersionParser)
    requires SameEntry(a, b, p)
    ensures DeclaredVersion(a, p, parse) == DeclaredVersion(b, p, parse)
  {
  }

  predicate SameEntries(ts1: seq<Target>, ts2: seq<Target>, p: Platform) {
    |ts1| == |ts2| && forall k :: 0 <= k < |ts1| ==> SameEntry(ts1[k], ts2[k], p)
  }

  /** The traversers answer every query with targets that agree on their `p` entries. */
  ghost predicate TraversersAgreeOn(traverser1: GraphTraverser, traverser2: GraphTraverser, p: Platform) {
    forall path, name :: SameEntries(traverser1(path, name), traverser2(path, name), p)
  }

  lemma {:induction false} DeclaredVersionsOnlyReadPlatform(ts1: seq<Target>, ts2: seq<Target>, p: Platform, parse: VersionParser)
    requires SameEntries(ts1, ts2, p)
    ensures DeclaredVersions(ts1, p, parse) == DeclaredVersions(ts2, p, parse)
  {
    if ts1 != [] {
      DeclaredVersionsOnlyReadPlatform(ts1[1..], ts2[1..], p, parse);
      DeclaredVersionOnlyReadsPlatform(ts1[0], ts2[0], p, parse);
    }
  }

  lemma {:induction false} DependencyVersionsOnlyReadPlatform(refs: seq<TargetReference>, p: Platform,
                                                              traverser1: GraphTraverser, traverser2: GraphTraverser, parse: VersionParser)
    requires TraversersAgreeOn(traverser1, traverser2, p)
    ensures DependencyVersions(refs, p, traverser1, parse) == DependencyVersions(refs, p, traverser2, parse)
  {
    if refs != [] {
      DeclaredVersionsOnlyReadPlatform(traverser1(refs[0].projectPath, refs[0].name),
                                       traverser2(refs[0].projectPath, refs[0].name), p, parse);
      DependencyVersionsOnlyReadPlatform(refs[1..], p, traverser1, traverser2, parse);
    }
  }

  /**
   * Deployment-target entries for platforms other than the target's own, on the
   * target or on any dependency, never change the destination.
   */
  lemma FindOnlyReadsOwnPlatform(target1: Target, target2: Target, scheme: Scheme, version: Option<Version>,
                                 deviceName: Option<string>, traverser1: GraphTraverser, traverser2: GraphTraverser,
                                 controller: SimulatorController, parse: VersionParser)
    requires target1.platform == target2.platform
    requires SameEntry(target1, target2, target1.platform)
    requires TraversersAgreeOn(traverser1, traverser2, target1.platform)
    ensures Find(target1, scheme, version, deviceName, traverser1, controller, parse)
         == Find(target2, scheme, version, deviceName, traverser2, controller, parse)
  {
    DependencyVersionsOnlyReadPlatform(scheme.targetDependencies, target1.platform, traverser1, traverser2, parse);
  }
}
