/** Building the images replicas will run, and handing them over: every resource given back, nothing half-built sent. */
module ReplicaImages {
  import opened Options

  /** A service to build; `envFile` and `smokeTest` say whether those parts apply. */
  datatype ServiceSpec = ServiceSpec(service: string, envFile: bool, smokeTest: bool)

  datatype PropagateConfig = PropagateConfig(buildImage: bool, fromClone: bool, services: seq<ServiceSpec>,
                                             legacy: ServiceSpec,
                                             requireAllReplicas: bool)

  datatype ImageRef = ImageRef(service: string, imageId: string)

  /** What the outside calls for one service would do. */
  datatype ServiceWorld = ServiceWorld(envFails: bool, buildFails: bool, smokeFails: bool, stageFails: bool,
                                       imageId: string)

  /** And those around it; `None` is a propagation that throws. */
  datatype World = World(cloneFails: bool, services: ServiceSpec -> ServiceWorld, allReplicasOk: Option<bool>)

  datatype Event = Cloned | CloneRemoved | EnvStaged(service: string) | EnvRemoved(service: string)
                 | Built(service: string) | Tested(service: string) | Staged(service: string)
                 | Dispatched(images: seq<ImageRef>)

  /** A step from before multi-service support is read as one service. */
  function ServiceSpecs(c: PropagateConfig): (specs: seq<ServiceSpec>)
    ensures specs != []
  {
    if c.services != [] then c.services else [c.legacy]
  }

  predicate ServiceFails(s: ServiceSpec, w: ServiceWorld) {
    (s.envFile && w.envFails) || w.buildFails || (s.smokeTest && w.smokeFails) || w.stageFails
  }

  /** The smoke test where it is asked for, and the staging once that passed. */
  function AfterBuild(s: ServiceSpec, w: ServiceWorld): seq<Event> {
    if s.smokeTest && w.smokeFails then []
    else (if s.smokeTest then [Tested(s.service)] else []) + (if w.stageFails then [] else [Staged(s.service)])
  }

  /** Everything one turn of the build loop does, its finally included. */
  function ServiceLog(s: ServiceSpec, w: ServiceWorld): seq<Event> {
    if s.envFile && w.envFails then []
    else
      (if s.envFile then [EnvStaged(s.service)] else [])
      + (if w.buildFails then [] else [Built(s.service)] + AfterBuild(s, w))
      + (if s.envFile then [EnvRemoved(s.service)] else [])
  }

  function BuildLog(specs: seq<ServiceSpec>, w: World): seq<Event> {
    if specs == [] then []
    else ServiceLog(specs[0], w.services(specs[0]))
         + if ServiceFails(specs[0], w.services(specs[0])) then [] else BuildLog(specs[1..], w)
  }

  lemma BuildLogStep(specs: seq<ServiceSpec>, w: World)
    ensures BuildLog(specs, w) ==
            if specs == [] then []
            else if ServiceFails(specs[0], w.services(specs[0])) then ServiceLog(specs[0], w.services(specs[0]))
            else ServiceLog(specs[0], w.services(specs[0])) + BuildLog(specs[1..], w)
  {
  }

  predicate AllBuild(specs: seq<ServiceSpec>, w: World) {
    forall i :: 0 <= i < |specs| ==> !ServiceFails(specs[i], w.services(specs[i]))
  }

  function Images(specs: seq<ServiceSpec>, w: World): (images: seq<ImageRef>)
    ensures |images| == |specs|
    ensures forall i :: 0 <= i < |specs| ==> images[i] == ImageRef(specs[i].service, w.services(specs[i]).imageId)
  {
    if specs == [] then [] else [ImageRef(specs[0].service, w.services(specs[0]).imageId)] + Images(specs[1..], w)
  }

  lemma ImagesOneMore(specs: seq<ServiceSpec>, w: World, i: nat)
    requires i < |specs|
    ensures Images(specs, w)[..i + 1]
         == Images(specs, w)[..i] + [ImageRef(specs[i].service, w.services(specs[i]).imageId)]
  {
    hide Images;
    var images := Images(specs, w);
    assert images[..i + 1] == images[..i] + [images[i]];
  }

  /** `filter(i => !rebuilt.has(i.service))` */
  function NotRebuilt(old_: seq<ImageRef>, built: seq<ImageRef>): seq<ImageRef> {
    if old_ == [] then []
    else (if exists i :: 0 <= i < |built| && built[i].service == old_[0].service then [] else [old_[0]])
         + NotRebuilt(old_[1..], built)
  }

  function Merged(old_: seq<ImageRef>, built: seq<ImageRef>): seq<ImageRef> {
    NotRebuilt(old_, built) + built
  }

  class PropagateStep {
    const config: PropagateConfig
    var images: seq<ImageRef>
    var log: seq<Event>

    constructor (config: PropagateConfig, images: seq<ImageRef>)
      ensures this.config == config && this.images == images && log == []
    {
      this.config, this.images, log := config, images, [];
    }

    /** One turn of the build loop, with its try and finally. */
    method BuildService(s: ServiceSpec, w: ServiceWorld) returns (image: Option<ImageRef>)
      modifies this`log
      ensures log == old(log) + ServiceLog(s, w)
      ensures image ==
              if (s.envFile ==> !w.envFails) && !w.buildFails && (s.smokeTest ==> !w.smokeFails) && !w.stageFails
              then Some(ImageRef(s.service, w.imageId)) else None
    {
      if s.envFile {
        if w.envFails {
          return None;
        }
        log := log + [EnvStaged(s.service)];
      }
      image := None;
      if !w.buildFails {
        log := log + [Built(s.service)];
        if !(s.smokeTest && w.smokeFails) {
          if s.smokeTest {
            log := log + [Tested(s.service)];
          }
          if !w.stageFails {
            log := log + [Staged(s.service)];
            image := Some(ImageRef(s.service, w.imageId));
          }
        }
      }
      if s.envFile {
        log := log + [EnvRemoved(s.service)];
      }
    }

    /** buildReplicaImages(): a failure removes the clone here; a success hands it to the caller. */
    method BuildReplicaImages(w: World) returns (built: Option<seq<ImageRef>>, clone: bool)
      modifies this`log
      ensures var specs := ServiceSpecs(config);
              if config.fromClone && w.cloneFails then built == None && !clone && log == old(log)
              else
                var opened_ := old(log) + (if config.fromClone then [Cloned] else []) + BuildLog(specs, w);
                if AllBuild(specs, w)
                    then built == Some(Images(specs, w)) && clone == config.fromClone && log == opened_
                else built == None && !clone && log == opened_ + if config.fromClone then [CloneRemoved] else []
      ensures var specs := if config.services != [] then config.services else [config.legacy];
              built.Some? <==>
                && (config.fromClone ==> !w.cloneFails)
                && forall i :: 0 <= i < |specs| ==>
                     var s, x := specs[i], w.services(specs[i]);
                     (s.envFile ==> !x.envFails) && !x.buildFails && (s.smokeTest ==> !x.smokeFails) && !x.stageFails
    {
      hide BuildLog;
      clone := false;
      if config.fromClone {
        if w.cloneFails {
          return None, false;
        }
        log := log + [Cloned];
        clone := true;
      }
      built := BuildServices(ServiceSpecs(config), w);
      if built.None? && clone {
        log := log + [CloneRemoved];
        clone := false;
      }
    }

    /** The build loop: it ends at the first service that fails. */
    method BuildServices(specs: seq<ServiceSpec>, w: World) returns (built: Option<seq<ImageRef>>)
      modifies this`log
      ensures log == old(log) + BuildLog(specs, w)
      ensures built == if AllBuild(specs, w) then Some(Images(specs, w)) else None
    {
      hide ServiceLog, BuildLog, Images;
      ghost var before := log;
      var images: seq<ImageRef> := [];
      var i := 0;
      assert specs[0..] == specs;
      while i < |specs|
        invariant 0 <= i <= |specs|
        invariant images == Images(specs, w)[..i]
        invariant forall k :: 0 <= k < i ==> !ServiceFails(specs[k], w.services(specs[k]))
        invariant before + BuildLog(specs, w) == log + BuildLog(specs[i..], w)
      {
        assert specs[i..][0] == specs[i] && specs[i..][1..] == specs[i + 1..];
        BuildLogStep(specs[i..], w);
        ghost var now := log;
        var image := BuildService(specs[i], w.services(specs[i]));
        if image.None? {
          return None;
        }
        assert now + (ServiceLog(specs[i], w.services(specs[i])) + BuildLog(specs[i + 1..], w))
            == log + BuildLog(specs[i + 1..], w);
        ImagesOneMore(specs, w, i);
        images := images + [image.value];
        i := i + 1;
      }
      assert specs[i..] == [] && Images(specs, w)[..i] == Images(specs, w);
      BuildLogStep(specs[i..], w);
      built := Some(images);
    }

    /** runPropagateStep(): true if the step failed. */
    method RunPropagateStep(w: World) returns (failed: bool)
      modifies this
      ensures log == old(log) + StepLog(config, w, old(images))
      ensures images == ImagesAfter(config, w, old(images))
      ensures failed == StepFailed(config, w)
    {
      hide BuildLog, AllBuild, Merged, Images, ServiceSpecs;
      var clone := false;
      if config.buildImage {
        var built;
        built, clone := BuildReplicaImages(w);
        if built.None? {
          return true;
        }
        images := Merged(images, built.value);
      }
      log := log + [Dispatched(images)];
      failed := w.allReplicasOk.None? || (!w.allReplicasOk.value && config.requireAllReplicas);
      if clone {
        log := log + [CloneRemoved];
      }
    }
  }

  predicate Builds(c: PropagateConfig, w: World) {
    c.buildImage ==> !(c.fromClone && w.cloneFails) && AllBuild(ServiceSpecs(c), w)
  }

  predicate StepFailed(c: PropagateConfig, w: World) {
    !Builds(c, w) || w.allReplicasOk.None? || (!w.allReplicasOk.value && c.requireAllReplicas)
  }

  function ImagesAfter(c: PropagateConfig, w: World, old_: seq<ImageRef>): seq<ImageRef> {
    if c.buildImage && Builds(c, w) then Merged(old_, Images(ServiceSpecs(c), w)) else old_
  }

  /** The events of one step. */
  function StepLog(c: PropagateConfig, w: World, old_: seq<ImageRef>): seq<Event> {
    var clones := c.buildImage && c.fromClone && !w.cloneFails;
    (if clones then [Cloned] else [])
    + (if c.buildImage && !(c.fromClone && w.cloneFails) then BuildLog(ServiceSpecs(c), w) else [])
    + (if Builds(c, w) then [Dispatched(ImagesAfter(c, w, old_))] else [])
    + (if clones then [CloneRemoved] else [])
  }

  // ------------------------------------------------------------------ what the log says

  function Count(log: seq<Event>, e: Event): nat {
    if log == [] then 0 else (if log[0] == e then 1 else 0) + Count(log[1..], e)
  }

  lemma {:induction false} CountTogether(a: seq<Event>, b: seq<Event>, e: Event)
    ensures Count(a + b, e) == Count(a, e) + Count(b, e)
  {
    if a == [] {
      assert a + b == b;
    } else {
      assert (a + b)[1..] == a[1..] + b;
      CountTogether(a[1..], b, e);
    }
  }

  lemma {:induction false} CountNone(log: seq<Event>, e: Event)
    requires e !in log
    ensures Count(log, e) == 0
  {
    if log != [] {
      CountNone(log[1..], e);
    }
  }

  lemma {:induction false} BuildLogHasNoClone(specs: seq<ServiceSpec>, w: World)
    ensures Cloned !in BuildLog(specs, w) && CloneRemoved !in BuildLog(specs, w)
    ensures forall images :: Dispatched(images) !in BuildLog(specs, w)
  {
    hide ServiceLog;
    if specs != [] {
      TurnHasNoClone(specs[0], w.services(specs[0]));
      BuildLogHasNoClone(specs[1..], w);
    }
  }

  lemma TurnHasNoClone(s: ServiceSpec, w: ServiceWorld)
    ensures forall e :: e in ServiceLog(s, w) ==> !e.Cloned? && !e.CloneRemoved? && !e.Dispatched?
  {
  }

  /** On every path a clone that was obtained is removed exactly once, as the last thing the step does. */
  lemma CloneIsRemovedExactlyOnce(c: PropagateConfig, w: World, old_: seq<ImageRef>)
    ensures var log := StepLog(c, w, old_);
            && Count(log, Cloned) == Count(log, CloneRemoved)
                == (if c.buildImage && c.fromClone && !w.cloneFails then 1 else 0)
            && (Cloned in log ==> log[0] == Cloned && log[|log| - 1] == CloneRemoved)
  {
    hide BuildLog, Count, AllBuild, ImagesAfter;
    var clones := c.buildImage && c.fromClone && !w.cloneFails;
    var body := (if c.buildImage && !(c.fromClone && w.cloneFails) then BuildLog(ServiceSpecs(c), w) else [])
                + (if Builds(c, w) then [Dispatched(ImagesAfter(c, w, old_))] else []);
    BuildLogHasNoClone(ServiceSpecs(c), w);
    assert Cloned !in body && CloneRemoved !in body;
    CountNone(body, Cloned);
    CountNone(body, CloneRemoved);
    var log := StepLog(c, w, old_);
    if clones {
      assert log == [Cloned] + (body + [CloneRemoved]);
      forall e | e == Cloned || e == CloneRemoved ensures Count(log, e) == 1 {
        CountTogether([Cloned], body + [CloneRemoved], e);
        CountTogether(body, [CloneRemoved], e);
        CountOne(Cloned, e);
        CountOne(CloneRemoved, e);
      }
    } else {
      assert log == body;
    }
  }

  lemma CountOne(x: Event, e: Event)
    ensures Count([x], e) == if x == e then 1 else 0
  {
    assert [x][1..] == [];
  }

  /** Environment files are put down one at a time, and each is taken away before the next service or the dispatch. */
  predicate EnvFilesNest(log: seq<Event>, present: Option<string>) {
    if log == [] then present.None?
    else match log[0]
      case EnvStaged(s) => present.None? && EnvFilesNest(log[1..], Some(s))
      case EnvRemoved(s) => present == Some(s) && EnvFilesNest(log[1..], None)
      case Built(s) => (present.None? || present == Some(s)) && EnvFilesNest(log[1..], present)
      case Tested(s) => (present.None? || present == Some(s)) && EnvFilesNest(log[1..], present)
      case Staged(s) => (present.None? || present == Some(s)) && EnvFilesNest(log[1..], present)
      case _ => present.None? && EnvFilesNest(log[1..], None)
  }

  lemma {:induction false} NestingTogether(a: seq<Event>, b: seq<Event>, present: Option<string>)
    requires EnvFilesNest(a, present) && EnvFilesNest(b, None)
    ensures EnvFilesNest(a + b, present)
  {
    if a == [] {
      assert a + b == b;
    } else {
      assert (a + b)[1..] == a[1..] + b && (a + b)[0] == a[0];
      match a[0] {
        case EnvStaged(s) => NestingTogether(a[1..], b, Some(s));
        case EnvRemoved(s) => NestingTogether(a[1..], b, None);
        case Built(s) => NestingTogether(a[1..], b, present);
        case Tested(s) => NestingTogether(a[1..], b, present);
        case Staged(s) => NestingTogether(a[1..], b, present);
        case _ => NestingTogether(a[1..], b, None);
      }
    }
  }

  lemma OneEventNests(e: Event)
    requires !e.EnvStaged? && !e.EnvRemoved?
    ensures EnvFilesNest([e], None)
  {
    assert [e][1..] == [];
  }

  /** Building, testing and staging happen with this service's environment file in place, or with none. */
  lemma {:induction false} WorkNests(work: seq<Event>, end: seq<Event>, service: string, present: Option<string>)
    requires forall e :: e in work ==> e in {Built(service), Tested(service), Staged(service)}
    requires (present.None? || present == Some(service)) && EnvFilesNest(end, present)
    ensures EnvFilesNest(work + end, present)
  {
    if work == [] {
      assert work + end == end;
    } else {
      assert (work + end)[1..] == work[1..] + end && work[0] in work;
      assert forall e :: e in work[1..] ==> e in work;
      WorkNests(work[1..], end, service, present);
    }
  }

  lemma ServiceNests(s: ServiceSpec, w: ServiceWorld)
    ensures EnvFilesNest(ServiceLog(s, w), None)
  {
    var work := if w.buildFails then [] else [Built(s.service)] + AfterBuild(s, w);
    if s.envFile && !w.envFails {
      var end := [EnvRemoved(s.service)];
      assert end[1..] == [];
      WorkNests(work, end, s.service, Some(s.service));
      assert ServiceLog(s, w) == [EnvStaged(s.service)] + (work + end);
      assert ([EnvStaged(s.service)] + (work + end))[1..] == work + end;
    } else if !s.envFile {
      WorkNests(work, [], s.service, None);
      assert ServiceLog(s, w) == work + [];
    }
  }

  lemma {:induction false} BuildLogNests(specs: seq<ServiceSpec>, w: World)
    ensures EnvFilesNest(BuildLog(specs, w), None)
  {
    hide ServiceLog;
    if specs != [] {
      var s := specs[0];
      ServiceNests(s, w.services(s));
      if ServiceFails(s, w.services(s)) {
        assert ServiceLog(s, w.services(s)) + [] == ServiceLog(s, w.services(s));
      } else {
        BuildLogNests(specs[1..], w);
        NestingTogether(ServiceLog(s, w.services(s)), BuildLog(specs[1..], w), None);
      }
    }
  }

  /** Over the whole step, on every path. */
  lemma NoEnvFileIsLeftBehind(c: PropagateConfig, w: World, old_: seq<ImageRef>)
    ensures EnvFilesNest(StepLog(c, w, old_), None)
  {
    hide BuildLog;
    BuildLogNests(ServiceSpecs(c), w);
    OneEventNests(Cloned);
    OneEventNests(CloneRemoved);
    OneEventNests(Dispatched(ImagesAfter(c, w, old_)));
    var a := if c.buildImage && c.fromClone && !w.cloneFails then [Cloned] else [];
    var b := if c.buildImage && !(c.fromClone && w.cloneFails) then BuildLog(ServiceSpecs(c), w) else [];
    var d := if Builds(c, w) then [Dispatched(ImagesAfter(c, w, old_))] else [];
    var e := if c.buildImage && c.fromClone && !w.cloneFails then [CloneRemoved] else [];
    NestingTogether(d, e, None);
    NestingTogether(b, d + e, None);
    NestingTogether(a, b + (d + e), None);
    assert a + (b + (d + e)) == StepLog(c, w, old_);
  }

  function StagedServices(log: seq<Event>): seq<string> {
    if log == [] then [] else (if log[0].Staged? then [log[0].service] else []) + StagedServices(log[1..])
  }

  function Services(specs: seq<ServiceSpec>): seq<string> {
    if specs == [] then [] else [specs[0].service] + Services(specs[1..])
  }

  lemma {:induction false} StagedTogether(a: seq<Event>, b: seq<Event>)
    ensures StagedServices(a + b) == StagedServices(a) + StagedServices(b)
  {
    if a == [] {
      assert a + b == b;
    } else {
      assert (a + b)[1..] == a[1..] + b;
      StagedTogether(a[1..], b);
    }
  }

  lemma StagedOne(e: Event)
    ensures StagedServices([e]) == if e.Staged? then [e.service] else []
  {
    assert [e][1..] == [];
  }

  lemma StagedAfterBuild(s: ServiceSpec, w: ServiceWorld)
    ensures StagedServices(AfterBuild(s, w)) ==
            if (s.smokeTest ==> !w.smokeFails) && !w.stageFails then [s.service] else []
  {
    hide StagedServices;
    var test := if s.smokeTest then [Tested(s.service)] else [];
    var stage := if w.stageFails then [] else [Staged(s.service)];
    StagedOne(Tested(s.service));
    StagedOne(Staged(s.service));
    StagedNone();
    StagedTogether(test, stage);
  }

  lemma StagedNone()
    ensures StagedServices([]) == []
  {
  }

  lemma StagedOfService(s: ServiceSpec, w: ServiceWorld)
    ensures StagedServices(ServiceLog(s, w)) ==
            if (s.envFile ==> !w.envFails) && !w.buildFails && (s.smokeTest ==> !w.smokeFails) && !w.stageFails
            then [s.service] else []
  {
    hide StagedServices, AfterBuild;
    var start := if s.envFile then [EnvStaged(s.service)] else [];
    var end := if s.envFile then [EnvRemoved(s.service)] else [];
    var work := if w.buildFails then [] else [Built(s.service)] + AfterBuild(s, w);
    StagedNone();
    StagedOne(EnvStaged(s.service));
    StagedOne(EnvRemoved(s.service));
    StagedOne(Built(s.service));
    StagedAfterBuild(s, w);
    StagedTogether([Built(s.service)], AfterBuild(s, w));
    StagedTogether(start, work);
    StagedTogether(start + work, end);
  }

  /**
   * The services staged are a prefix of those configured: the ones before the first whose environment
   * file, build, smoke test or staging fails, where it has or asks for them.
   */
  lemma {:induction false} StagedArePrefix(specs: seq<ServiceSpec>, w: World)
    ensures var staged := StagedServices(BuildLog(specs, w));
            && staged <= Services(specs) && |Services(specs)| == |specs|
            && (forall i :: 0 <= i < |staged| ==>
                  var s, x := specs[i], w.services(specs[i]);
                  (s.envFile ==> !x.envFails) && !x.buildFails && (s.smokeTest ==> !x.smokeFails) && !x.stageFails)
            && (|staged| < |specs| ==>
                  var s, x := specs[|staged|], w.services(specs[|staged|]);
                  (s.envFile && x.envFails) || x.buildFails || (s.smokeTest && x.smokeFails) || x.stageFails)
    ensures StagedServices(BuildLog(specs, w)) == Services(specs) <==> AllBuild(specs, w)
  {
    hide ServiceLog;
    if specs != [] {
      var s, rest := specs[0], specs[1..];
      StagedOfService(s, w.services(s));
      StagedArePrefix(rest, w);
      assert Services(specs)[1..] == Services(rest);
      if ServiceFails(s, w.services(s)) {
        assert BuildLog(specs, w) == ServiceLog(s, w.services(s));
        assert StagedServices(BuildLog(specs, w)) == [];
      } else {
        StagedTogether(ServiceLog(s, w.services(s)), BuildLog(rest, w));
        assert forall i :: 0 < i < |specs| ==> specs[i] == rest[i - 1];
        assert forall i :: 0 <= i < |rest| ==> rest[i] == specs[i + 1];
        assert StagedServices(BuildLog(specs, w)) == [s.service] + StagedServices(BuildLog(rest, w));
        assert ([s.service] + StagedServices(BuildLog(rest, w)))[1..] == StagedServices(BuildLog(rest, w));
      }
    }
  }

  /** What a service that works leaves in the log, in this order. */
  lemma ATurnThatWorks(s: ServiceSpec, w: ServiceWorld)
    requires (s.envFile ==> !w.envFails) && !w.buildFails && (s.smokeTest ==> !w.smokeFails) && !w.stageFails
    ensures var n := s.service;
            ServiceLog(s, w) ==
            if s.envFile && s.smokeTest then [EnvStaged(n), Built(n), Tested(n), Staged(n), EnvRemoved(n)]
            else if s.envFile then [EnvStaged(n), Built(n), Staged(n), EnvRemoved(n)]
            else if s.smokeTest then [Built(n), Tested(n), Staged(n)]
            else [Built(n), Staged(n)]
  {
  }

  /**
   * A step that builds orders replicas exactly when the clone, where one is made, and every configured
   * service's environment file, build, smoke test and staging worked, where it has or asks for them; with
   * every service staged, in order, and with the new images put in for those of earlier runs. A step that
   * fails to build leaves these as they were.
   */
  lemma DispatchedIffAllStaged(c: PropagateConfig, w: World, old_: seq<ImageRef>)
    requires c.buildImage
    ensures var specs := if c.services != [] then c.services else [c.legacy];
            (exists images :: Dispatched(images) in StepLog(c, w, old_)) <==>
              && (c.fromClone ==> !w.cloneFails)
              && forall i :: 0 <= i < |specs| ==>
                   var s, x := specs[i], w.services(specs[i]);
                   (s.envFile ==> !x.envFails) && !x.buildFails && (s.smokeTest ==> !x.smokeFails) && !x.stageFails
    ensures !(c.fromClone && w.cloneFails) ==>
              ((exists images :: Dispatched(images) in StepLog(c, w, old_)) <==>
                 StagedServices(BuildLog(ServiceSpecs(c), w)) == Services(ServiceSpecs(c)))
    ensures forall images :: Dispatched(images) in StepLog(c, w, old_) ==>
            images == Merged(old_, Images(ServiceSpecs(c), w))
    ensures !Builds(c, w) ==> ImagesAfter(c, w, old_) == old_ && StepFailed(c, w)
  {
    hide BuildLog;
    StagedArePrefix(ServiceSpecs(c), w);
    BuildLogHasNoClone(ServiceSpecs(c), w);
    if Builds(c, w) {
      assert Dispatched(ImagesAfter(c, w, old_)) in StepLog(c, w, old_);
    }
  }

  /** A step that does not build orders the images of earlier runs, whatever a build would have come to. */
  lemma WithoutABuildTheOldImagesGo(c: PropagateConfig, w: World, old_: seq<ImageRef>)
    requires !c.buildImage
    ensures StepLog(c, w, old_) == [Dispatched(old_)] && ImagesAfter(c, w, old_) == old_
  {
  }

  /** The step succeeds exactly when it ordered replicas and all of them deployed, or they need not. */
  lemma TheStepSucceedsIff(c: PropagateConfig, w: World, old_: seq<ImageRef>)
    ensures !StepFailed(c, w) <==>
            && (exists images :: Dispatched(images) in StepLog(c, w, old_))
            && w.allReplicasOk.Some? && (c.requireAllReplicas ==> w.allReplicasOk.value)
  {
    hide BuildLog;
    BuildLogHasNoClone(ServiceSpecs(c), w);
    if Builds(c, w) {
      assert Dispatched(ImagesAfter(c, w, old_)) in StepLog(c, w, old_);
    }
  }
  predicate Rebuilt(built: seq<ImageRef>, service: string) {
    exists i :: 0 <= i < |built| && built[i].service == service
  }

  lemma {:induction false} NotRebuiltContents(old_: seq<ImageRef>, built: seq<ImageRef>)
    ensures forall i :: i in NotRebuilt(old_, built) <==> i in old_ && !Rebuilt(built, i.service)
  {
    if old_ != [] {
      NotRebuiltContents(old_[1..], built);
      assert old_ == [old_[0]] + old_[1..];
      assert (exists i :: 0 <= i < |built| && built[i].service == old_[0].service) <==> Rebuilt(built, old_[0].service);
    }
  }

  /** A rebuilt service has only its new image; every other service keeps the ones it had. */
  lemma MergingReplacesByService(old_: seq<ImageRef>, built: seq<ImageRef>)
    ensures forall i :: i in Merged(old_, built) <==> i in built || (i in old_ && !Rebuilt(built, i.service))
    ensures forall i :: i in Merged(old_, built) && Rebuilt(built, i.service) ==> i in built
  {
    NotRebuiltContents(old_, built);
  }
}
