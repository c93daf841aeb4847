/** Restoring a pod from a whole-sandbox checkpoint (changes/runsc_service.go:238-299;
    changes/proc_init.go:235-253; changes/runsc_container.go:396-407). The sentry, which is not
    part of the repository, follows docs/HLD.md:64-98. */
module Restore {
  import opened Wrappers

  const RESTORE_KEY := "dev.neevcloud.restore-image-path"

  /** The container's OCI spec as `Start` finds it in the bundle. */
  datatype Spec = Unreadable | Readable(annotations: map<string, string>)

  datatype Container = Container(name: string, isRoot: bool, spec: Spec, execs: set<string>)

  /** A checkpoint: the name of every container it holds, by its ID in the source pod. */
  datatype Image = Image(names: map<string, string>) {
    function Total(): nat {
      |names|
    }
  }

  /** While restoring: the new ID registered for each name, and the containers restored. */
  datatype Sentry =
    | Fresh
    | Cold
    | Restoring(image: Image, ids: map<string, string>, restored: set<string>)
    | Resumed(image: Image, ids: map<string, string>, restored: set<string>)

  datatype Pod = Pod(
    containers: map<string, Container>, images: map<string, Image>,
    sentry: Sentry, started: set<string>)

  datatype StartError = NoContainer | NoProcess | AlreadyStarted | Rejected | RuntimeFailed

  datatype Mode = ColdStarted | RestoredFrom(path: string) | ExecStarted

  /** `works` is whether the runtime itself succeeds. */
  datatype Request = Request(id: string, execID: string, works: bool)

  /** The image to restore from, "" to start cold. */
  function ShouldRestore(annotations: map<string, string>): string {
    if RESTORE_KEY in annotations then annotations[RESTORE_KEY] else ""
  }

  /** Where an init start goes: only a spec that can be read can ask for a restore. */
  function Route(spec: Spec): string {
    if spec.Unreadable? then "" else ShouldRestore(spec.annotations)
  }

  /** One more container arrives; the last one resumes the kernel. */
  function Arrive(image: Image, ids: map<string, string>, restored: set<string>, id: string, name: string): Sentry {
    var now := restored + {id};
    if |now| == image.Total() then Resumed(image, ids[name := id], now) else Restoring(image, ids[name := id], now)
  }

  /** The root opens the restore; a sub-container must find it open. */
  function SentryRestore(s: Sentry, id: string, c: Container, image: Image): Option<Sentry> {
    if c.isRoot then if s.Fresh? then Some(Arrive(image, map[], {}, id, c.name)) else None
    else if s.Restoring? then Some(Arrive(s.image, s.ids, s.restored, id, c.name))
    else None
  }

  function SentryStart(s: Sentry, c: Container): Sentry {
    if c.isRoot && s.Fresh? then Cold else s
  }

  /** Init.start: a container starts at most once. */
  function InitStart(pod: Pod, id: string, path: string, works: bool): (Pod, Result<Mode, StartError>)
    requires id in pod.containers
  {
    var c := pod.containers[id];
    if id in pod.started then (pod, Failure(AlreadyStarted))
    else if !works then (pod, Failure(RuntimeFailed))
    else if path == "" then
      (pod.(sentry := SentryStart(pod.sentry, c), started := pod.started + {id}), Success(ColdStarted))
    else if path !in pod.images then (pod, Failure(RuntimeFailed))
    else
      match SentryRestore(pod.sentry, id, c, pod.images[path])
      case None => (pod, Failure(Rejected))
      case Some(sentry) => (pod.(sentry := sentry, started := pod.started + {id}), Success(RestoredFrom(path)))
  }

  function StartOf(pod: Pod, r: Request): (Pod, Result<Mode, StartError>) {
    if r.id !in pod.containers then (pod, Failure(NoContainer))
    else if r.execID == "" then InitStart(pod, r.id, Route(pod.containers[r.id].spec), r.works)
    else if r.execID !in pod.containers[r.id].execs then (pod, Failure(NoProcess))
    else (pod, if r.works then Success(ExecStarted) else Failure(RuntimeFailed))
  }

  function After(pod: Pod, requests: seq<Request>): Pod
    decreases |requests|
  {
    if requests == [] then pod else After(StartOf(pod, requests[0]).0, requests[1..])
  }

  /** The task service: its containers, and the sandbox it drives. */
  class Service {
    var containers: map<string, Container>
    var images: map<string, Image>
    var sentry: Sentry
    var started: set<string>

    ghost function Value(): Pod
      reads this
    {
      Pod(containers, images, sentry, started)
    }

    method Start(r: Request) returns (result: Result<Mode, StartError>)
      modifies this`sentry, this`started
      ensures (Value(), result) == StartOf(old(Value()), r)
      ensures r.id in containers && r.execID == "" && Route(containers[r.id].spec) != "" ==>
                result != Success(ColdStarted)
    {
      if r.id !in containers {
        return Failure(NoContainer);
      }
      if r.execID == "" {
        var spec := containers[r.id].spec;
        if spec.Readable? {
          var path := ShouldRestore(spec.annotations);
          if path != "" {
            result := RestoreInit(r.id, path, r.works);
            return;
          }
        }
      }
      result := StartProcess(r);
    }

    method RestoreInit(id: string, path: string, works: bool) returns (result: Result<Mode, StartError>)
      requires id in containers && path != ""
      modifies this`sentry, this`started
      ensures (Value(), result) == InitStart(old(Value()), id, path, works)
      ensures result.Success? ==> result.value == RestoredFrom(path)
      ensures result.Failure? ==> Value() == old(Value())
    {
      if id in started {
        return Failure(AlreadyStarted);
      }
      if !works || path !in images {
        return Failure(RuntimeFailed);
      }
      var restored := SentryRestore(sentry, id, containers[id], images[path]);
      if restored.None? {
        return Failure(Rejected);
      }
      sentry, started := restored.value, started + {id};
      return Success(RestoredFrom(path));
    }

    method StartProcess(r: Request) returns (result: Result<Mode, StartError>)
      requires r.id in containers && (r.execID == "" ==> Route(containers[r.id].spec) == "")
      modifies this`sentry, this`started
      ensures (Value(), result) == StartOf(old(Value()), r)
    {
      if r.execID != "" {
        if r.execID !in containers[r.id].execs {
          return Failure(NoProcess);
        }
        return if r.works then Success(ExecStarted) else Failure(RuntimeFailed);
      }
      if r.id in started {
        return Failure(AlreadyStarted);
      }
      if !r.works {
        return Failure(RuntimeFailed);
      }
      sentry, started := SentryStart(sentry, containers[r.id]), started + {r.id};
      return Success(ColdStarted);
    }
  }

  /** What a start answers, case by case. An exec is started if and only if it is registered and
      the runtime works; an init is started cold if and only if it has not been started, the
      runtime works, and its spec cannot be read or has no path under the annotation; it is
      restored only from the path that its readable spec names. */
  lemma StartAnswers(pod: Pod, r: Request)
    ensures var (next, result) := StartOf(pod, r);
            && (result == Failure(NoContainer) <==> r.id !in pod.containers)
            && (r.id in pod.containers && r.execID != "" ==>
                  && next == pod
                  && (result == Success(ExecStarted) <==> r.execID in pod.containers[r.id].execs && r.works)
                  && (result == Failure(NoProcess) <==> r.execID !in pod.containers[r.id].execs))
            && (r.id in pod.containers && r.execID == "" ==>
                  var spec := pod.containers[r.id].spec;
                  && (result == Success(ColdStarted) <==>
                        && r.id !in pod.started && r.works
                        && (spec.Unreadable?
                            || "dev.neevcloud.restore-image-path" !in spec.annotations
                            || spec.annotations["dev.neevcloud.restore-image-path"] == ""))
                  && (result.Success? && result.value.RestoredFrom? ==>
                        && r.id !in pod.started && r.works && spec.Readable?
                        && "dev.neevcloud.restore-image-path" in spec.annotations
                        && result.value.path == spec.annotations["dev.neevcloud.restore-image-path"] != ""))
            && (result.Failure? ==> next == pod)
            && (r.id in pod.containers && r.execID == "" && result.Success? ==> next.started == pod.started + {r.id})
  {
  }

  /** Over any run an init that has been started stays so, and is never started again. */
  lemma {:induction false} StartsOnce(pod: Pod, requests: seq<Request>, id: string, works: bool)
    requires id in pod.started && id in pod.containers
    ensures var after := After(pod, requests);
            && id in after.started && id in after.containers
            && StartOf(after, Request(id, "", works)) == (after, Failure(AlreadyStarted))
    decreases |requests|
  {
    if requests != [] { StartsOnce(StartOf(pod, requests[0]).0, requests[1..], id, works); }
  }

  // --- Runs of an annotated pod -------------------------------------------------------------

  /** Every container's spec can be read and names the same, existing checkpoint. */
  predicate Annotated(pod: Pod, path: string) {
    && path != "" && path in pod.images && pod.images[path].Total() > 0
    && forall id | id in pod.containers :: Route(pod.containers[id].spec) == path
  }

  /** Each registered name belongs to a restored container, and each such container's name is
      registered. */
  predicate Registered(containers: map<string, Container>, ids: map<string, string>, restored: set<string>) {
    && (forall n | n in ids :: ids[n] in restored && ids[n] in containers && containers[ids[n]].name == n)
    && (forall id | id in restored :: id in containers && containers[id].name in ids)
  }

  /** How far the sentry is, told from the containers started. */
  predicate Progress(pod: Pod, image: Image) {
    match pod.sentry
    case Fresh => pod.started == {}
    case Cold => false
    case Restoring(im, ids, restored) =>
      && im == image && restored == pod.started && 0 < |restored| < image.Total()
      && Registered(pod.containers, ids, restored)
    case Resumed(im, ids, restored) =>
      && im == image && restored == pod.started && |restored| == image.Total()
      && Registered(pod.containers, ids, restored)
  }

  function Arrived(pod: Pod, image: Image, ids: map<string, string>, restored: set<string>, id: string): Pod
    requires id in pod.containers
  {
    pod.(sentry := Arrive(image, ids, restored, id, pod.containers[id].name), started := pod.started + {id})
  }

  /** A start of an annotated pod changes nothing, or one container arrives. */
  lemma StartArrivesOrNot(pod: Pod, path: string, r: Request)
    requires Annotated(pod, path) && !pod.sentry.Cold?
    ensures var after := StartOf(pod, r).0;
            after == pod ||
            (&& r.id in pod.containers && r.id !in pod.started && !pod.sentry.Resumed?
             && after == if pod.sentry.Fresh? then Arrived(pod, pod.images[path], map[], {}, r.id)
                         else Arrived(pod, pod.sentry.image, pod.sentry.ids, pod.sentry.restored, r.id))
  {
  }

  lemma StartKeepsProgress(pod: Pod, path: string, r: Request)
    requires Annotated(pod, path) && Progress(pod, pod.images[path])
    ensures var after := StartOf(pod, r).0;
            && Annotated(after, path) && Progress(after, pod.images[path])
            && after.images == pod.images && after.containers == pod.containers
  {
    StartArrivesOrNot(pod, path, r);
    if StartOf(pod, r).0 != pod {
      if pod.sentry.Fresh? {
        ArrivalIsProgress(pod, pod.images[path], map[], {}, r.id);
      } else {
        ArrivalIsProgress(pod, pod.images[path], pod.sentry.ids, pod.sentry.restored, r.id);
      }
    }
  }

  lemma ArrivalIsProgress(pod: Pod, image: Image, ids: map<string, string>, restored: set<string>, id: string)
    requires id in pod.containers && Registered(pod.containers, ids, restored)
    requires id !in restored && |restored| < image.Total() && pod.started == restored
    ensures Progress(Arrived(pod, image, ids, restored, id), image)
  {
    ArrivalIsRegistered(pod.containers, ids, restored, id);
    assert |restored + {id}| == |restored| + 1;
  }

  lemma ArrivalIsRegistered(
      containers: map<string, Container>, ids: map<string, string>, restored: set<string>, id: string)
    requires id in containers && Registered(containers, ids, restored)
    ensures Registered(containers, ids[containers[id].name := id], restored + {id})
  {
  }

  /** Whatever is started in whatever order, however often the runtime fails: an annotated pod
      never runs cold, and it resumes exactly when as many containers are started as the
      checkpoint holds. */
  lemma {:induction false} AnnotatedPodsResumeExactly(pod: Pod, path: string, requests: seq<Request>)
    requires Annotated(pod, path) && Progress(pod, pod.images[path])
    ensures var after := After(pod, requests);
            && Annotated(after, path) && Progress(after, pod.images[path])
            && after.images == pod.images && after.containers == pod.containers
            && !after.sentry.Cold?
            && (after.sentry.Resumed? <==> |after.started| == pod.images[path].Total())
    decreases |requests|
  {
    if requests != [] {
      StartKeepsProgress(pod, path, requests[0]);
      AnnotatedPodsResumeExactly(StartOf(pod, requests[0]).0, path, requests[1..]);
    }
  }

  /** Which starts succeed: the first of the root, and a sub-container's once something is
      restored and something is still missing; never by falling back to a cold start. */
  lemma AcceptedIff(pod: Pod, path: string, r: Request)
    requires Annotated(pod, path) && Progress(pod, pod.images[path])
    requires r.id in pod.containers && r.execID == "" && r.id !in pod.started && r.works
    ensures var result := StartOf(pod, r).1;
            && (result == Success(RestoredFrom(path)) <==>
                if pod.containers[r.id].isRoot then pod.started == {}
                else 0 < |pod.started| < pod.images[path].Total())
            && (result != Success(RestoredFrom(path)) ==> result == Failure(Rejected) && StartOf(pod, r).0 == pod)
  {
  }

  function Results(pod: Pod, requests: seq<Request>): seq<Result<Mode, StartError>>
    decreases |requests|
  {
    if requests == [] then [] else [StartOf(pod, requests[0]).1] + Results(StartOf(pod, requests[0]).0, requests[1..])
  }

  predicate Distinct(order: seq<string>) {
    forall i, j | 0 <= i < j < |order| :: order[i] != order[j]
  }

  function InitStarted(pod: Pod, id: string): Pod {
    StartOf(pod, Request(id, "", true)).0
  }

  /** The pod after a first start of each container in order. */
  function AllStarted(pod: Pod, order: seq<string>): Pod
    decreases |order|
  {
    if order == [] then pod else AllStarted(InitStarted(pod, order[0]), order[1..])
  }

  /** Each of these starts answers with a restore. */
  predicate AllRestored(pod: Pod, path: string, order: seq<string>)
    decreases |order|
  {
    order == [] ||
    (&& StartOf(pod, Request(order[0], "", true)).1 == Success(RestoredFrom(path))
     && AllRestored(InitStarted(pod, order[0]), path, order[1..]))
  }

  /** With the root first, every container of the pod is restored if and only if the checkpoint
      holds at least as many. */
  lemma RootFirstRestoresAll(pod: Pod, path: string, order: seq<string>)
    requires Annotated(pod, path) && pod.sentry == Fresh && pod.started == {}
    requires order != [] && Distinct(order) && forall i | 0 <= i < |order| :: order[i] in pod.containers
    requires forall i | 0 <= i < |order| :: pod.containers[order[i]].isRoot <==> i == 0
    ensures AllRestored(pod, path, order) <==> |order| <= pod.images[path].Total()
    ensures |order| == pod.images[path].Total() ==> AllStarted(pod, order).sentry.Resumed?
  {
    StartIsAccepted(pod, path, order[0]);
    var next := InitStarted(pod, order[0]);
    assert next.started == {order[0]} && Waiting(next, order[1..]);
    SubsRestore(next, path, order[1..]);
  }

  lemma StartIsAccepted(pod: Pod, path: string, id: string)
    requires Annotated(pod, path) && Progress(pod, pod.images[path]) && id in pod.containers && id !in pod.started
    ensures var (next, result) := StartOf(pod, Request(id, "", true));
            && Annotated(next, path) && Progress(next, pod.images[path])
            && next.images == pod.images && next.containers == pod.containers
            && (result == Success(RestoredFrom(path)) <==>
                if pod.containers[id].isRoot then pod.started == {} else 0 < |pod.started| < pod.images[path].Total())
            && (result == Success(RestoredFrom(path)) ==> next.started == pod.started + {id})
  {
    StartKeepsProgress(pod, path, Request(id, "", true));
    AcceptedIff(pod, path, Request(id, "", true));
  }

  /** Different sub-containers that have not been started. */
  predicate Waiting(pod: Pod, order: seq<string>) {
    && Distinct(order)
    && (forall i | 0 <= i < |order| :: order[i] in pod.containers && order[i] !in pod.started)
    && (forall i | 0 <= i < |order| && order[i] in pod.containers :: !pod.containers[order[i]].isRoot)
  }

  lemma OthersWait(pod: Pod, next: Pod, order: seq<string>)
    requires Waiting(pod, order) && order != []
    requires next.containers == pod.containers && next.started == pod.started + {order[0]}
    ensures Waiting(next, order[1..])
  {
  }

  lemma {:induction false} SubsRestore(pod: Pod, path: string, order: seq<string>)
    requires Annotated(pod, path) && Progress(pod, pod.images[path]) && pod.started != {} && Waiting(pod, order)
    ensures AllRestored(pod, path, order) <==> |pod.started| + |order| <= pod.images[path].Total()
    ensures |pod.started| + |order| == pod.images[path].Total() ==> AllStarted(pod, order).sentry.Resumed?
    decreases |order|
  {
    if order != [] {
      StartIsAccepted(pod, path, order[0]);
      if |pod.started| < pod.images[path].Total() {
        var next := InitStarted(pod, order[0]);
        OthersWait(pod, next, order);
        assert |next.started| == |pod.started| + 1;
        SubsRestore(next, path, order[1..]);
      }
    }
  }

  // --- Identities -----------------------------------------------------------------------------

  predicate InjectiveMap(m: map<string, string>) {
    forall a, b | a in m && b in m && m[a] == m[b] :: a == b
  }

  /** Restored containers all carry different names. */
  predicate NamesDiffer(containers: map<string, Container>, ids: set<string>)
    requires ids <= containers.Keys
  {
    forall a, b | a in ids && b in ids && containers[a].name == containers[b].name :: a == b
  }

  /** The new ID of each checkpointed container that has one. */
  function Remap(image: Image, ids: map<string, string>): map<string, string> {
    map src | src in image.names && image.names[src] in ids :: ids[image.names[src]]
  }

  /** A map that keeps the members of a set apart takes it to a set of the same size. */
  lemma {:induction false} SameSize(f: map<string, string>, a: set<string>, b: set<string>)
    requires a <= f.Keys && InjectiveMap(f) && b == set x | x in a :: f[x]
    ensures |a| == |b|
    decreases |a|
  {
    if a != {} {
      var x :| x in a;
      var rest := set y | y in a - {x} :: f[y];
      assert b == rest + {f[x]} && f[x] !in rest;
      SameSize(f, a - {x}, rest);
    }
  }

  lemma {:induction false} SubsetOfSameSize(a: set<string>, b: set<string>)
    requires a <= b && |a| >= |b|
    ensures a == b
    decreases |a|
  {
    if a == {} {
      assert b == {};
    } else {
      var x :| x in a;
      SubsetOfSameSize(a - {x}, b - {x});
      assert a == (a - {x}) + {x} && b == (b - {x}) + {x};
    }
  }

  /** As many different names as the checkpoint holds: every name of the checkpoint is taken. */
  lemma AllNamesTaken(pod: Pod, image: Image)
    requires pod.sentry.Resumed? && Progress(pod, image)
    requires InjectiveMap(image.names) && pod.started <= pod.containers.Keys && NamesDiffer(pod.containers, pod.started)
    requires NamesKnown(pod.containers, pod.started, image)
    ensures pod.sentry.ids.Keys == image.names.Values
  {
    var ids := pod.sentry.ids;
    var name := map id | id in pod.started :: pod.containers[id].name;
    assert ids.Keys == set id | id in pod.started :: name[id];
    SameSize(name, pod.started, ids.Keys);
    assert image.names.Values == set src | src in image.names.Keys :: image.names[src];
    SameSize(image.names, image.names.Keys, image.names.Values);
    SubsetOfSameSize(ids.Keys, image.names.Values);
  }

  predicate Bijective(m: map<string, string>, keys: set<string>, values: set<string>) {
    m.Keys == keys && InjectiveMap(m) && m.Values == values
  }

  predicate NamesKnown(containers: map<string, Container>, ids: set<string>, image: Image)
    requires ids <= containers.Keys
  {
    forall id | id in ids :: containers[id].name in image.names.Values
  }

  /** After a restore every checkpointed container gets a new ID, and each restored one is the
      new ID of exactly one, if and only if names differ within the checkpoint and among the
      restored containers, and the checkpoint knows the name of each of these. */
  lemma RemapIsBijectionIff(pod: Pod, image: Image)
    requires pod.sentry.Resumed? && Progress(pod, image)
    ensures pod.started <= pod.containers.Keys
    ensures Bijective(Remap(image, pod.sentry.ids), image.names.Keys, pod.started) <==>
            && InjectiveMap(image.names)
            && NamesKnown(pod.containers, pod.started, image)
            && NamesDiffer(pod.containers, pod.started)
  {
    if InjectiveMap(image.names) && NamesKnown(pod.containers, pod.started, image)
       && NamesDiffer(pod.containers, pod.started) {
      MatchingNamesGiveBijection(pod, image);
    }
    if Bijective(Remap(image, pod.sentry.ids), image.names.Keys, pod.started) {
      BijectionNeedsMatchingNames(pod, image);
    }
  }

  lemma MatchingNamesGiveBijection(pod: Pod, image: Image)
    requires pod.sentry.Resumed? && Progress(pod, image) && pod.started <= pod.containers.Keys
    requires InjectiveMap(image.names) && NamesKnown(pod.containers, pod.started, image)
    requires NamesDiffer(pod.containers, pod.started)
    ensures Bijective(Remap(image, pod.sentry.ids), image.names.Keys, pod.started)
  {
    var ids := pod.sentry.ids;
    var remap := Remap(image, ids);
    AllNamesTaken(pod, image);
    assert forall src | src in image.names :: image.names[src] in image.names.Values;
    forall id | id in pod.started
      ensures id in remap.Values
    {
      var name := pod.containers[id].name;
      var src :| src in image.names && image.names[src] == name;
      assert remap[src] == ids[name] == id;
    }
  }

  lemma BijectionNeedsMatchingNames(pod: Pod, image: Image)
    requires pod.sentry.Resumed? && Progress(pod, image) && pod.started <= pod.containers.Keys
    requires Bijective(Remap(image, pod.sentry.ids), image.names.Keys, pod.started)
    ensures InjectiveMap(image.names) && NamesKnown(pod.containers, pod.started, image)
    ensures NamesDiffer(pod.containers, pod.started)
  {
    var ids := pod.sentry.ids;
    var remap := Remap(image, ids);
    forall a, b | a in image.names && b in image.names && image.names[a] == image.names[b]
      ensures a == b
    {
      assert a in remap && b in remap && remap[a] == remap[b];
    }
    forall id | id in pod.started
      ensures pod.containers[id].name in image.names.Values && ids[pod.containers[id].name] == id
    {
      var src :| src in remap && remap[src] == id;
      assert image.names[src] in image.names.Values;
    }
  }

  // --- Specs that cannot be read --------------------------------------------------------------

  predicate NoneRestored(results: seq<Result<Mode, StartError>>) {
    forall i | 0 <= i < |results| :: results[i].Failure? || !results[i].value.RestoredFrom?
  }

  /** Once the sandbox runs cold nothing can be restored into it, whatever is started. */
  lemma {:induction false} ColdStaysCold(pod: Pod, requests: seq<Request>)
    requires pod.sentry == Cold
    ensures After(pod, requests).sentry == Cold && NoneRestored(Results(pod, requests))
    decreases |requests|
  {
    if requests != [] {
      var next := StartOf(pod, requests[0]).0;
      ColdStaysCold(next, requests[1..]);
      var rest := Results(next, requests[1..]);
      var all := [StartOf(pod, requests[0]).1] + rest;
      assert forall i | 0 < i < |all| :: all[i] == rest[i - 1];
    }
  }

  /** A first start of the root opens the restore if and only if its spec can be read and names
      an image. An unreadable spec starts it cold, whatever its annotation, and then no
      sub-container of the pod can be restored any more. */
  lemma RootDecides(pod: Pod, id: string, requests: seq<Request>)
    requires id in pod.containers && pod.containers[id].isRoot && pod.sentry == Fresh && id !in pod.started
    ensures var (next, result) := StartOf(pod, Request(id, "", true));
            (next.sentry == Cold && result == Success(ColdStarted) && NoneRestored(Results(next, requests)))
            <==> Route(pod.containers[id].spec) == ""
  {
    var next := StartOf(pod, Request(id, "", true)).0;
    if next.sentry == Cold { ColdStaysCold(next, requests); }
  }
}
