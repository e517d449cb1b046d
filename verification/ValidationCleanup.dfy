/**
 Garbage collection of validation images, caches and containers.  Every step may fail, before or
 after it took effect; the contracts speak about the host after each single step, not only at the
 end.
 */
module ValidationCleanup {
  import opened Strings
  import opened Wrappers

  datatype Runtime = AppleContainers | WslDocker | LocalDocker

  datatype Image = Image(repository: string, tag: string)

  /** An entry of the cache root. */
  datatype Kind = Directory | Symlink | File

  datatype Container = Container(labelled: bool, status: string)

  datatype Resources = Resources(images: set<Image>, caches: map<string, Kind>, containers: map<string, Container>)

  datatype Error =
    | InvalidGeneration(generation: string)
    | InvalidImage(image: string)
    | StepFailed(step: Step)
    | NestedValidation

  const IMAGE_NAME := "sub2api-validation"
  const REPOSITORIES: set<string> := {IMAGE_NAME, "localhost/" + IMAGE_NAME}
  const LEGACY_CACHE_DIRECTORIES: set<string> := {"go", "pnpm", "frontend-node-modules"}
  const STOPPED: set<string> := {"exited", "created"}

  predicate IsGeneration(s: string) {
    |s| == 16 && forall i :: 0 <= i < 16 ==> '0' <= s[i] <= '9' || 'a' <= s[i] <= 'f'
  }

  /** A generation is sixteen hexadecimal digits, in lower case. */
  lemma GenerationIff(s: string)
    ensures IsGeneration(s) <==> |s| == 16 && AllIn(s, HEX)
  {
    Alphabets();
    hide HEX;
    if AllIn(s, HEX) {
      assert forall i :: 0 <= i < |s| ==> s[i] in s;
    }
  }

  /** What follows the last colon of an image reference, or all of it. */
  function CurrentTag(image: string): (tag: string)
    ensures ':' !in tag
  {
    if image == "" || image[|image| - 1] == ':' then ""
    else CurrentTag(image[..|image| - 1]) + [image[|image| - 1]]
  }

  /** The tag of a reference follows its last colon; a reference without one is its own tag. */
  lemma {:induction false} TagFollowsColon(x: string, tag: string)
    requires ':' !in tag
    ensures CurrentTag(tag) == tag && CurrentTag(x + ":" + tag) == tag
  {
    if tag != "" {
      var init, last := tag[..|tag| - 1], tag[|tag| - 1];
      assert last in tag;
      TagFollowsColon(x, init);
      assert (x + ":" + tag)[..|x + ":" + tag| - 1] == x + ":" + init;
      assert tag == init + [last];
    }
  }

  // ---------------------------------------------------------------- what is stale

  /** The resources that one cleanup removes. */
  datatype Stale = Stale(images: set<Image>, caches: set<string>, containers: set<string>)

  predicate StaleImage(tag: string, image: Image) {
    image.repository in REPOSITORIES && IsGeneration(image.tag) && image.tag != tag
  }

  /** Under WSL only known names are stale; elsewhere every directory and link but the current one. */
  predicate StaleCache(runtime: Runtime, generation: string, name: string, kind: Kind) {
    && name != generation
    && if runtime == WslDocker then kind == Directory && (IsGeneration(name) || name in LEGACY_CACHE_DIRECTORIES)
       else kind != File
  }

  predicate StaleContainer(runtime: Runtime, container: Container) {
    runtime != AppleContainers && container.labelled && container.status in STOPPED
  }

  function StaleOf(runtime: Runtime, tag: string, generation: string, r: Resources): Stale {
    Stale(set image | image in r.images && StaleImage(tag, image),
          set name | name in r.caches && StaleCache(runtime, generation, name, r.caches[name]),
          set id | id in r.containers && StaleContainer(runtime, r.containers[id]))
  }

  function Without(r: Resources, stale: Stale): Resources {
    Resources(r.images - stale.images, r.caches - stale.caches, r.containers - stale.containers)
  }

  ghost predicate SubMap<K(!new), V>(a: map<K, V>, b: map<K, V>) {
    forall k <- a :: k in b && a[k] == b[k]
  }

  ghost predicate Within(a: Resources, b: Resources) {
    a.images <= b.images && SubMap(a.caches, b.caches) && SubMap(a.containers, b.containers)
  }

  /** Nothing but stale resources has been removed, and nothing added. */
  ghost predicate Safe(before: Resources, stale: Stale, now: Resources) {
    Within(Without(before, stale), now) && Within(now, before)
  }

  // ---------------------------------------------------------------- the host

  /** A listing is a step too: it changes nothing, but it may fail. */
  datatype Step =
    | LookAtImages
    | LookAtCaches
    | LookAtContainers(status: Option<string>)
    | RemoveImage(image: Image)
    | MakeCacheRoot
    | RemoveCache(name: string)
    | RemoveCacheRoot
    | RemoveContainer(id: string)
    | StopContainer(id: string)
    | MakeCache(name: string)
    | RunValidation(leftover: Option<string>)

  /** How a step ends: done, or failed before or after it took effect. */
  datatype Outcome = Done | FailedBefore | FailedAfter

  function Effect(step: Step, r: Resources): Resources {
    match step
    case LookAtImages => r
    case LookAtCaches => r
    case LookAtContainers(_) => r
    case RemoveImage(image) => r.(images := r.images - {image})
    case MakeCacheRoot => r
    case RemoveCache(name) => r.(caches := r.caches - {name})
    case RemoveCacheRoot => r.(caches := map[])
    case RemoveContainer(id) => r.(containers := r.containers - {id})
    case StopContainer(id) => if id in r.containers then r.(containers := r.containers[id := r.containers[id].(status := "exited")]) else r
    case MakeCache(name) => if name in r.caches then r else r.(caches := r.caches[name := Directory])
    case RunValidation(leftover) =>
      if leftover.Some? then r.(containers := r.containers[leftover.value := Container(true, "exited")]) else r
  }

  /** The steps a cleanup may take. */
  predicate Allowed(step: Step, stale: Stale) {
    match step
    case RemoveImage(image) => image in stale.images
    case RemoveCache(name) => name in stale.caches
    case RemoveContainer(id) => id in stale.containers
    case _ => KeepsAll(step)
  }

  /** The steps that change no resource. */
  predicate KeepsAll(step: Step) {
    step.LookAtImages? || step.LookAtCaches? || step.LookAtContainers? || step.MakeCacheRoot?
  }

  lemma AllowedStepIsSafe(before: Resources, stale: Stale, now: Resources, step: Step)
    requires Safe(before, stale, now) && Allowed(step, stale)
    ensures Safe(before, stale, Effect(step, now))
  {
  }

  /** The table shows the image, below its header. */
  ghost predicate Listed(lines: seq<seq<string>>, image: Image) {
    exists k :: 1 <= k < |lines| && |lines[k]| >= 2 && image == Image(lines[k][0], lines[k][1])
  }

  lemma ListedSnoc(lines: seq<seq<string>>, image: Image, x: Image)
    requires |lines| >= 1
    ensures Listed(lines + [[image.repository, image.tag]], x) <==> Listed(lines, x) || x == image
  {
    var more := lines + [[image.repository, image.tag]];
    if k :| 1 <= k < |lines| && |lines[k]| >= 2 && x == Image(lines[k][0], lines[k][1]) {
      assert more[k] == lines[k];
    }
    assert more[|lines|] == [image.repository, image.tag];
    if k :| 1 <= k < |more| && |more[k]| >= 2 && x == Image(more[k][0], more[k][1]) {
      if k < |lines| {
        assert more[k] == lines[k];
      }
    }
  }

  class Host {
    const outcomes: nat -> Outcome
    var now: Resources
    var steps: seq<Step>
    /** The resources after every step. */
    ghost var history: seq<Resources>

    constructor (outcomes: nat -> Outcome, now: Resources)
      ensures this.outcomes == outcomes && this.now == now && steps == [] && history == []
    {
      this.outcomes, this.now, steps, history := outcomes, now, [], [];
    }

    method Perform(step: Step) returns (r: Result<(), Error>)
      modifies this
      ensures steps == old(steps) + [step] && history == old(history) + [now]
      ensures now == if outcomes(|old(steps)|) == FailedBefore then old(now) else Effect(step, old(now))
      ensures r == if outcomes(|old(steps)|) == Done then Ok(()) else Err(StepFailed(step))
    {
      var outcome := outcomes(|steps|);
      if outcome != FailedBefore {
        now := Effect(step, now);
      }
      steps := steps + [step];
      history := history + [now];
      r := if outcome == Done then Ok(()) else Err(StepFailed(step));
    }

    /** Since some step, only stale resources were touched, and the host was safe after every step. */
    ghost predicate CleansOnly(before: Resources, stale: Stale, since: nat)
      reads this
    {
      && since <= |steps| == |history|
      && Safe(before, stale, now)
      && forall k :: since <= k < |steps| ==> Allowed(steps[k], stale) && Safe(before, stale, history[k])
    }

    /** The steps since some step were all done, or the last of them failed and is the error. */
    ghost predicate Ended(since: nat, r: Result<(), Error>)
      reads this
    {
      since <= |steps| &&
      match r
      case Ok(_) => forall k :: since <= k < |steps| ==> outcomes(k) == Done
      case Err(e) =>
        && since < |steps| && e == StepFailed(steps[|steps| - 1]) && outcomes(|steps| - 1) != Done
        && forall k :: since <= k < |steps| - 1 ==> outcomes(k) == Done
    }

    method Clean(step: Step, ghost before: Resources, ghost stale: Stale, ghost since: nat) returns (r: Result<(), Error>)
      requires CleansOnly(before, stale, since) && Allowed(step, stale) && Ended(since, Ok(()))
      modifies this
      ensures CleansOnly(before, stale, since) && Ended(since, r)
      ensures old(steps) <= steps && old(history) <= history
      ensures r.Ok? ==> now == Effect(step, old(now))
    {
      AllowedStepIsSafe(before, stale, now, step);
      hide Safe, Allowed;
      r := Perform(step);
    }

    /** The lines of the image table, the first being its header; the order is the engine's. */
    method ListImages() returns (r: Result<seq<seq<string>>, Error>)
      modifies this
      ensures now == old(now) && steps == old(steps) + [LookAtImages] && history == old(history) + [now]
      ensures if outcomes(|old(steps)|) == Done then r.Ok? else r == Err(StepFailed(LookAtImages))
      ensures r.Ok? ==> forall image :: image in now.images <==> Listed(r.value, image)
    {
      var _ :- Perform(LookAtImages);
      var lines := [["REPOSITORY", "TAG"]];
      var todo := now.images;
      while todo != {}
        invariant todo <= now.images && |lines| >= 1
        invariant forall image :: image in now.images - todo <==> Listed(lines, image)
        decreases |todo|
      {
        var image :| image in todo;
        forall x ensures Listed(lines + [[image.repository, image.tag]], x) <==> Listed(lines, x) || x == image {
          ListedSnoc(lines, image, x);
        }
        lines := lines + [[image.repository, image.tag]];
        todo := todo - {image};
      }
      r := Ok(lines);
    }

    /** The names of the directories, or of all entries, in the order of the file system. */
    method ListCaches(directoriesOnly: bool) returns (r: Result<seq<string>, Error>)
      modifies this
      ensures now == old(now) && steps == old(steps) + [LookAtCaches] && history == old(history) + [now]
      ensures if outcomes(|old(steps)|) == Done then r.Ok? else r == Err(StepFailed(LookAtCaches))
      ensures r.Ok? ==> forall name :: name in r.value <==> name in now.caches && (directoriesOnly ==> now.caches[name] == Directory)
    {
      var _ :- Perform(LookAtCaches);
      var names := [];
      var todo := now.caches.Keys;
      while todo != {}
        invariant todo <= now.caches.Keys
        invariant forall name :: name in names <==>
                    name in now.caches.Keys - todo && (directoriesOnly ==> now.caches[name] == Directory)
        decreases |todo|
      {
        var name :| name in todo;
        if !directoriesOnly || now.caches[name] == Directory {
          names := names + [name];
        }
        todo := todo - {name};
      }
      r := Ok(names);
    }

    /** The labelled containers in one status, or in any. */
    method ListContainers(status: Option<string>) returns (r: Result<seq<string>, Error>)
      modifies this
      ensures now == old(now) && steps == old(steps) + [LookAtContainers(status)] && history == old(history) + [now]
      ensures if outcomes(|old(steps)|) == Done then r.Ok? else r == Err(StepFailed(LookAtContainers(status)))
      ensures r.Ok? ==> forall id :: id in r.value <==>
                id in now.containers && now.containers[id].labelled && (status.None? || now.containers[id].status == status.value)
    {
      var _ :- Perform(LookAtContainers(status));
      var ids := [];
      var todo := now.containers.Keys;
      while todo != {}
        invariant todo <= now.containers.Keys
        invariant forall id :: id in ids <==>
                    && id in now.containers.Keys - todo && now.containers[id].labelled
                    && (status.None? || now.containers[id].status == status.value)
        decreases |todo|
      {
        var id :| id in todo;
        if now.containers[id].labelled && (status.None? || now.containers[id].status == status.value) {
          ids := ids + [id];
        }
        todo := todo - {id};
      }
      r := Ok(ids);
    }
  }

  // ---------------------------------------------------------------- cleanup

  method RemoveStaleImages(host: Host, tag: string, ghost before: Resources, ghost stale: Stale, ghost since: nat)
    returns (r: Result<(), Error>)
    requires host.CleansOnly(before, stale, since) && host.Ended(since, Ok(()))
    requires forall image :: image in stale.images <==> image in before.images && StaleImage(tag, image)
    modifies host
    ensures host.CleansOnly(before, stale, since) && host.Ended(since, r)
    ensures old(host.steps) <= host.steps && old(host.history) <= host.history
    ensures r.Ok? ==> host.now == old(host.now).(images := before.images - stale.images)
  {
    hide IsGeneration, Allowed;
    LookingIsAllowed(stale);
    var lines :- host.ListImages();
    ghost var listed := host.now.images;
    ghost var gone: set<Image> := {};
    var k := 1;
    while k < |lines|
      invariant host.CleansOnly(before, stale, since) && host.Ended(since, Ok(()))
      invariant old(host.steps) <= host.steps && old(host.history) <= host.history
      invariant host.now == old(host.now).(images := listed - gone) && gone <= stale.images
      invariant forall i :: 1 <= i < k && i < |lines| && |lines[i]| >= 2 && StaleImage(tag, Image(lines[i][0], lines[i][1])) ==>
                  Image(lines[i][0], lines[i][1]) in gone
    {
      if |lines[k]| >= 2 {
        var image := Image(lines[k][0], lines[k][1]);
        if image.repository in REPOSITORIES && IsGeneration(image.tag) && image.tag != tag {
          assert Listed(lines, image);
          MayRemoveImage(before, stale, old(host.now), image);
          var _ :- host.Clean(RemoveImage(image), before, stale, since);
          gone := gone + {image};
        }
      }
      k := k + 1;
    }
    r := Ok(());
    forall image ensures image in host.now.images <==> image in before.images - stale.images {
    }
  }

  lemma MayRemoveImage(before: Resources, stale: Stale, now: Resources, image: Image)
    requires Safe(before, stale, now) && image in now.images
    ensures image in stale.images ==> Allowed(RemoveImage(image), stale)
    ensures image in before.images
  {
  }

  method RemoveStaleCaches(host: Host, runtime: Runtime, generation: string,
                           ghost before: Resources, ghost stale: Stale, ghost since: nat)
    returns (r: Result<(), Error>)
    requires host.CleansOnly(before, stale, since) && host.Ended(since, Ok(())) && host.now.caches == before.caches
    requires stale.caches == set name | name in before.caches && StaleCache(runtime, generation, name, before.caches[name])
    modifies host
    ensures host.CleansOnly(before, stale, since) && host.Ended(since, r)
    ensures old(host.steps) <= host.steps && old(host.history) <= host.history
    ensures r.Ok? ==> host.now == old(host.now).(caches := before.caches - stale.caches)
  {
    hide IsGeneration, Allowed, Safe;
    LookingIsAllowed(stale);
    if runtime == WslDocker {
      var _ :- host.Clean(MakeCacheRoot, before, stale, since);
    }
    var names :- host.ListCaches(runtime == WslDocker);
    ghost var gone: set<string> := {};
    for k := 0 to |names|
      invariant host.CleansOnly(before, stale, since) && host.Ended(since, Ok(()))
      invariant old(host.steps) <= host.steps && old(host.history) <= host.history
      invariant host.now == old(host.now).(caches := before.caches - gone) && gone <= stale.caches
      invariant forall i :: 0 <= i < k && names[i] in stale.caches ==> names[i] in gone
    {
      var name := names[k];
      assert name in names && name in before.caches;
      if name == generation {
        continue;
      }
      if runtime == WslDocker {
        if IsGeneration(name) || name in LEGACY_CACHE_DIRECTORIES {
          MayRemoveCache(stale, name);
          var _ :- host.Clean(RemoveCache(name), before, stale, since);
          gone := gone + {name};
        }
      } else if name in host.now.caches && host.now.caches[name] != File {
        MayRemoveCache(stale, name);
        var _ :- host.Clean(RemoveCache(name), before, stale, since);
        gone := gone + {name};
      }
    }
    assert gone == stale.caches;
    r := Ok(());
  }

  lemma LookingIsAllowed(stale: Stale)
    ensures Allowed(LookAtImages, stale) && Allowed(LookAtCaches, stale) && Allowed(MakeCacheRoot, stale)
    ensures forall status :: Allowed(LookAtContainers(status), stale)
    ensures forall r :: Effect(MakeCacheRoot, r) == r
  {
  }

  lemma MayRemoveCache(stale: Stale, name: string)
    ensures name in stale.caches ==> Allowed(RemoveCache(name), stale)
  {
  }

  lemma MayRemoveContainer(stale: Stale, id: string)
    ensures id in stale.containers ==> Allowed(RemoveContainer(id), stale)
  {
  }

  method RemoveContainers(host: Host, ids: seq<string>, ghost before: Resources, ghost stale: Stale, ghost since: nat)
    returns (r: Result<(), Error>)
    requires host.CleansOnly(before, stale, since) && host.Ended(since, Ok(())) && forall id <- ids :: id in stale.containers
    modifies host
    ensures host.CleansOnly(before, stale, since) && host.Ended(since, r)
    ensures old(host.steps) <= host.steps && old(host.history) <= host.history
    ensures r.Ok? ==> host.now == old(host.now).(containers := old(host.now).containers - set id | id in ids)
  {
    hide Allowed, Safe;
    ghost var gone: set<string> := {};
    for k := 0 to |ids|
      invariant host.CleansOnly(before, stale, since) && host.Ended(since, Ok(()))
      invariant old(host.steps) <= host.steps && old(host.history) <= host.history
      invariant host.now == old(host.now).(containers := old(host.now).containers - gone)
      invariant gone == set i | 0 <= i < k :: ids[i]
    {
      assert ids[k] in ids;
      MayRemoveContainer(stale, ids[k]);
      var _ :- host.Clean(RemoveContainer(ids[k]), before, stale, since);
      gone := gone + {ids[k]};
    }
    assert gone == set id | id in ids;
    r := Ok(());
  }

  method RemoveStopped(host: Host, status: string, ghost before: Resources, ghost stale: Stale, ghost since: nat)
    returns (r: Result<(), Error>)
    requires host.CleansOnly(before, stale, since) && host.Ended(since, Ok(()))
    requires forall id <- host.now.containers :: host.now.containers[id].labelled && host.now.containers[id].status == status ==> id in stale.containers
    modifies host
    ensures host.CleansOnly(before, stale, since) && host.Ended(since, r)
    ensures old(host.steps) <= host.steps && old(host.history) <= host.history
    ensures r.Ok? ==> host.now == old(host.now).(containers := old(host.now).containers - InStatus(old(host.now), status))
  {
    hide Allowed, Safe;
    LookingIsAllowed(stale);
    var ids :- host.ListContainers(Some(status));
    assert InStatus(host.now, status) == set id | id in ids;
    r := RemoveContainers(host, ids, before, stale, since);
  }

  /** The project's containers in one status. */
  function InStatus(r: Resources, status: string): set<string> {
    set id | id in r.containers && r.containers[id].labelled && r.containers[id].status == status
  }

  method RemoveStaleContainers(host: Host, runtime: Runtime, ghost before: Resources, ghost stale: Stale, ghost since: nat)
    returns (r: Result<(), Error>)
    requires host.CleansOnly(before, stale, since) && host.Ended(since, Ok(())) && host.now.containers == before.containers
    requires stale.containers == set id | id in before.containers && StaleContainer(runtime, before.containers[id])
    modifies host
    ensures host.CleansOnly(before, stale, since) && host.Ended(since, r)
    ensures old(host.steps) <= host.steps && old(host.history) <= host.history
    ensures r.Ok? ==> host.now == old(host.now).(containers := before.containers - stale.containers)
  {
    hide Allowed, Safe;
    ghost var gone: set<string> := {};
    if runtime != AppleContainers {
      var statuses := ["exited", "created"];
      assert forall status :: status in statuses <==> status in STOPPED;
      for j := 0 to 2
        invariant host.CleansOnly(before, stale, since) && host.Ended(since, Ok(()))
        invariant old(host.steps) <= host.steps && old(host.history) <= host.history
        invariant host.now == old(host.now).(containers := before.containers - gone) && gone <= stale.containers
        invariant forall id <- stale.containers :: before.containers[id].status in statuses[..j] ==> id in gone
      {
        assert statuses[j] in statuses && statuses[..j + 1] == statuses[..j] + [statuses[j]];
        ghost var listed := InStatus(host.now, statuses[j]);
        assert forall id <- stale.containers :: before.containers[id].status == statuses[j] ==> id in gone || id in listed;
        var _ :- RemoveStopped(host, statuses[j], before, stale, since);
        assert before.containers - gone - listed == before.containers - (gone + listed);
        gone := gone + listed;
      }
    }
    assert gone == stale.containers;
    r := Ok(());
  }

  /** How a cleanup ended that began on these resources after some step.  An invalid reference stops it
      before its first step.  Otherwise it ends with its first failing step, which is the error, or
      succeeds with every step done and all stale resources gone.  After each step nothing but stale
      resources is gone. */
  ghost predicate CleanedUp(host: Host, before: Resources, since: nat, runtime: Runtime, image: string, generation: string,
                            r: Result<(), Error>)
    reads host
  {
    var stale := StaleOf(runtime, CurrentTag(image), generation, before);
    && host.CleansOnly(before, stale, since)
    && (r.Ok? ==> host.now == Without(before, stale))
    && if !IsGeneration(generation) then r == Err(InvalidGeneration(generation)) && |host.steps| == since
       else if !IsGeneration(CurrentTag(image)) then r == Err(InvalidImage(image)) && |host.steps| == since
       else host.Ended(since, r)
  }

  /** `cleanup_validation_runtime`. */
  method Cleanup(host: Host, runtime: Runtime, image: string, generation: string) returns (r: Result<(), Error>)
    requires |host.steps| == |host.history|
    modifies host
    ensures CleanedUp(host, old(host.now), |old(host.steps)|, runtime, image, generation, r)
    ensures old(host.steps) <= host.steps && old(host.history) <= host.history
    ensures r.Ok? <==> IsGeneration(generation) && IsGeneration(CurrentTag(image)) &&
                       forall k :: |old(host.steps)| <= k < |host.steps| ==> host.outcomes(k) == Done
    ensures !IsGeneration(generation) || !IsGeneration(CurrentTag(image)) ==>
              host.now == old(host.now) && host.steps == old(host.steps)
  {
    ghost var before, since := host.now, |host.steps|;
    ghost var stale := StaleOf(runtime, CurrentTag(image), generation, before);
    if !IsGeneration(generation) {
      return Err(InvalidGeneration(generation));
    }
    var tag := CurrentTag(image);
    if !IsGeneration(tag) {
      return Err(InvalidImage(image));
    }
    hide IsGeneration, CurrentTag, StaleImage, StaleCache, StaleContainer, Allowed;
    var _ :- RemoveStaleImages(host, tag, before, stale, since);
    var _ :- RemoveStaleCaches(host, runtime, generation, before, stale, since);
    var _ :- RemoveStaleContainers(host, runtime, before, stale, since);
    r := Ok(());
  }

  // ---------------------------------------------------------------- what cleanup means

  /** The current image and cache, foreign images, and running or foreign containers are still there. */
  ghost predicate KeepsProtected(tag: string, generation: string, before: Resources, now: Resources) {
    && (forall image <- before.images :: image.tag == tag || image.repository !in REPOSITORIES ==> image in now.images)
    && (generation in before.caches ==> generation in now.caches && now.caches[generation] == before.caches[generation])
    && forall id <- before.containers ::
         before.containers[id].status == "running" || !before.containers[id].labelled ==>
           id in now.containers && now.containers[id] == before.containers[id]
  }

  lemma KeepsOn(tag: string, generation: string, a: Resources, b: Resources, c: Resources)
    requires KeepsProtected(tag, generation, a, b) && KeepsProtected(tag, generation, b, c)
    ensures KeepsProtected(tag, generation, a, c)
  {
  }

  /** What a cleanup never touches: the current image and cache, foreign images, and every container
      that is running or not the project's. */
  lemma ProtectedIsNeverStale(runtime: Runtime, tag: string, generation: string, before: Resources, now: Resources)
    requires Safe(before, StaleOf(runtime, tag, generation, before), now)
    ensures KeepsProtected(tag, generation, before, now)
  {
    hide IsGeneration;
    var stale := StaleOf(runtime, tag, generation, before);
    var kept := Without(before, stale);
    assert "running" !in STOPPED;
    forall id | id in before.containers && (before.containers[id].status == "running" || !before.containers[id].labelled)
      ensures id in now.containers && now.containers[id] == before.containers[id]
    {
      assert id in kept.containers;
    }
    if generation in before.caches {
      assert generation in kept.caches;
    }
  }

  /** The resources a cleanup leaves: the image and the cache in use, and all that is not the
      project's, not of a generation, or not stopped. */
  ghost predicate IsLeft(runtime: Runtime, tag: string, generation: string, before: Resources, after: Resources) {
    && (forall image :: image in after.images <==>
          (image in before.images &&
           (image.tag == tag || !IsGeneration(image.tag) ||
            (image.repository != "sub2api-validation" && image.repository != "localhost/sub2api-validation"))))
    && SubMap(after.caches, before.caches)
    && (forall name <- before.caches :: name in after.caches <==>
          (name == generation || before.caches[name] == File ||
           (runtime == WslDocker &&
            (before.caches[name] == Symlink ||
             (!IsGeneration(name) && name != "go" && name != "pnpm" && name != "frontend-node-modules")))))
    && SubMap(after.containers, before.containers)
    && (forall id <- before.containers :: id in after.containers <==>
          (runtime == AppleContainers || !before.containers[id].labelled ||
           (before.containers[id].status != "exited" && before.containers[id].status != "created")))
  }

  lemma CleanedIsLeft(runtime: Runtime, tag: string, generation: string, before: Resources)
    ensures IsLeft(runtime, tag, generation, before, Without(before, StaleOf(runtime, tag, generation, before)))
  {
    hide IsGeneration;
    assert "localhost/sub2api-validation" == "localhost/" + IMAGE_NAME;
    forall status ensures status in STOPPED <==> status == "exited" || status == "created" {
    }
    forall name ensures name in LEGACY_CACHE_DIRECTORIES <==> name == "go" || name == "pnpm" || name == "frontend-node-modules" {
    }
  }

  /** A cleanup for an image reference, whatever its repository: the image is there after every step,
      and a success leaves exactly the rest. */
  method CleanupForImage(host: Host, runtime: Runtime, name: string, tag: string, generation: string) returns (r: Result<(), Error>)
    requires ':' !in tag && |host.steps| == |host.history|
    modifies host
    ensures |old(host.steps)| <= |host.steps| == |host.history|
    ensures forall k, repository :: |old(host.steps)| <= k < |host.steps| && Image(repository, tag) in old(host.now).images ==>
              Image(repository, tag) in host.history[k].images
    ensures r.Ok? ==> IsLeft(runtime, tag, generation, old(host.now), host.now)
    ensures IsGeneration(tag) && IsGeneration(generation) && (forall k :: host.outcomes(k) == Done) ==> r.Ok?
  {
    TagFollowsColon(name, tag);
    hide IsGeneration, CurrentTag, StaleImage, StaleCache, StaleContainer, Allowed, IsLeft, Without;
    ghost var before, since := host.now, |host.steps|;
    r := Cleanup(host, runtime, name + ":" + tag, generation);
    forall k | since <= k < |host.steps| ensures KeepsProtected(tag, generation, before, host.history[k]) {
      ProtectedIsNeverStale(runtime, tag, generation, before, host.history[k]);
    }
    CleanedIsLeft(runtime, tag, generation, before);
  }

  predicate IsKnownCache(name: string) {
    IsGeneration(name) || name in LEGACY_CACHE_DIRECTORIES
  }

  /** Outside WSL a cleanup also removes directories it does not know and links: the two branches leave
      the same caches exactly when every entry is the current one, a file, or a known directory. */
  lemma CacheBranchesAgreeIff(tag: string, generation: string, r: Resources)
    ensures Without(r, StaleOf(LocalDocker, tag, generation, r)).caches == Without(r, StaleOf(WslDocker, tag, generation, r)).caches <==>
            forall name <- r.caches ::
              name == generation || r.caches[name] == File || (r.caches[name] == Directory && IsKnownCache(name))
  {
    hide IsGeneration, StaleImage, StaleContainer;
    var here, wsl := Without(r, StaleOf(LocalDocker, tag, generation, r)).caches, Without(r, StaleOf(WslDocker, tag, generation, r)).caches;
    forall name | name in r.caches
      ensures (name in here <==> name in wsl) <==>
              name == generation || r.caches[name] == File || (r.caches[name] == Directory && IsKnownCache(name))
    {
    }
    if forall name <- r.caches :: name in here <==> name in wsl {
      assert here == wsl;
    }
  }

  /** A run on each engine with a directory of an unknown name: the local engine removes it, WSL keeps it. */
  method CleanUnknownDirectory(name: string, image: string, generation: string) returns (here: Host, wsl: Host)
    requires IsGeneration(generation) && IsGeneration(CurrentTag(image)) && name != generation && !IsKnownCache(name)
    ensures here.now.caches == map[] && wsl.now.caches == map[name := Directory]
  {
    hide IsGeneration, CurrentTag;
    var resources := Resources({}, map[name := Directory], map[]);
    here := new Host(_ => Done, resources);
    var cleaned := Cleanup(here, LocalDocker, image, generation);
    wsl := new Host(_ => Done, resources);
    cleaned := Cleanup(wsl, WslDocker, image, generation);
    assert StaleCache(LocalDocker, generation, name, Directory) && !StaleCache(WslDocker, generation, name, Directory);
  }

  /** After a cleanup nothing is stale any more. */
  lemma NothingStaleAfterCleanup(runtime: Runtime, tag: string, generation: string, before: Resources)
    ensures var after := Without(before, StaleOf(runtime, tag, generation, before));
            StaleOf(runtime, tag, generation, after) == Stale({}, {}, {})
  {
    hide StaleImage, StaleCache, StaleContainer;
    var stale := StaleOf(runtime, tag, generation, before);
    var after := Without(before, stale);
    assert forall name <- after.caches :: name in before.caches && name !in stale.caches;
    assert forall id <- after.containers :: id in before.containers && id !in stale.containers;
  }

  /** A second cleanup removes nothing, however it ends. */
  lemma SecondCleanupRemovesNothing(host: Host, runtime: Runtime, tag: string, generation: string, before: Resources, since: nat)
    requires var after := Without(before, StaleOf(runtime, tag, generation, before));
             host.CleansOnly(after, StaleOf(runtime, tag, generation, after), since)
    ensures host.now == Without(before, StaleOf(runtime, tag, generation, before))
    ensures forall k :: since <= k < |host.steps| ==> KeepsAll(host.steps[k]) && host.history[k] == host.now
  {
    hide StaleOf, Without, Safe;
    var after := Without(before, StaleOf(runtime, tag, generation, before));
    NothingStaleAfterCleanup(runtime, tag, generation, before);
    NothingToRemove(after, host.now);
    forall k | since <= k < |host.steps| ensures host.history[k] == after {
      NothingToRemove(after, host.history[k]);
    }
  }

  lemma NothingToRemove(before: Resources, now: Resources)
    requires Safe(before, Stale({}, {}, {}), now)
    ensures now == before
  {
    var kept := Without(before, Stale({}, {}, {}));
    assert kept == before;
    assert now.caches == before.caches && now.containers == before.containers;
  }

  // ---------------------------------------------------------------- purge

  /** What is left when every project resource is gone; Apple containers are not looked at. */
  function Purged(runtime: Runtime, r: Resources): Resources {
    Resources(set image | image in r.images && image.repository !in REPOSITORIES,
              map[],
              if runtime == AppleContainers then r.containers
              else map id | id in r.containers && !r.containers[id].labelled :: r.containers[id])
  }

  /** A purge leaves the images of other repositories, no cache, and the containers without the label; with
      Apple Containers all of them. */
  lemma PurgedLeaves(runtime: Runtime, r: Resources)
    ensures var after := Purged(runtime, r);
            && (forall image :: image in after.images <==>
                  (image in r.images && image.repository != "sub2api-validation" && image.repository != "localhost/sub2api-validation"))
            && after.caches == map[] && SubMap(after.containers, r.containers)
            && (forall id <- r.containers :: id in after.containers <==> runtime == AppleContainers || !r.containers[id].labelled)
  {
    assert "localhost/sub2api-validation" == "localhost/" + IMAGE_NAME;
  }

  /** Only project resources were touched: foreign images and unlabelled containers are as before. */
  ghost predicate Confined(runtime: Runtime, before: Resources, now: Resources) {
    && Within(Purged(runtime, before), now)
    && now.images <= before.images && SubMap(now.caches, before.caches) && now.containers.Keys <= before.containers.Keys
    && forall id <- now.containers :: now.containers[id].labelled == before.containers[id].labelled
  }

  /** The steps a purge may take. */
  predicate PurgeStep(runtime: Runtime, before: Resources, step: Step) {
    match step
    case RemoveImage(image) => image.repository in REPOSITORIES
    case RemoveCacheRoot => true
    case StopContainer(id) => runtime != AppleContainers && id in before.containers && before.containers[id].labelled
    case RemoveContainer(id) => runtime != AppleContainers && id in before.containers && before.containers[id].labelled
    case _ => KeepsAll(step)
  }

  lemma PurgeStepIsConfined(runtime: Runtime, before: Resources, now: Resources, step: Step)
    requires Confined(runtime, before, now) && PurgeStep(runtime, before, step)
    ensures Confined(runtime, before, Effect(step, now))
  {
  }

  /** Since some step, only project resources were touched, after every single step. */
  ghost predicate PurgesOnly(host: Host, runtime: Runtime, before: Resources, since: nat)
    reads host
  {
    && since <= |host.steps| == |host.history|
    && Confined(runtime, before, host.now)
    && forall k :: since <= k < |host.steps| ==> Confined(runtime, before, host.history[k])
  }

  method PurgeOne(host: Host, step: Step, runtime: Runtime, ghost before: Resources, ghost since: nat) returns (r: Result<(), Error>)
    requires PurgesOnly(host, runtime, before, since) && host.Ended(since, Ok(())) && PurgeStep(runtime, before, step)
    modifies host
    ensures PurgesOnly(host, runtime, before, since) && host.Ended(since, r)
    ensures r.Ok? ==> host.now == Effect(step, old(host.now))
  {
    PurgeStepIsConfined(runtime, before, host.now, step);
    hide Confined, PurgeStep;
    r := host.Perform(step);
  }

  method PurgeImages(host: Host, runtime: Runtime, ghost before: Resources, ghost since: nat) returns (r: Result<(), Error>)
    requires PurgesOnly(host, runtime, before, since) && host.Ended(since, Ok(()))
    modifies host
    ensures PurgesOnly(host, runtime, before, since) && host.Ended(since, r)
    ensures r.Ok? ==> host.now == old(host.now).(images := set image | image in old(host.now).images && image.repository !in REPOSITORIES)
  {
    hide Confined;
    var lines :- host.ListImages();
    ghost var listed := host.now.images;
    ghost var gone: set<Image> := {};
    var k := 1;
    while k < |lines|
      invariant PurgesOnly(host, runtime, before, since) && host.Ended(since, Ok(()))
      invariant host.now == old(host.now).(images := listed - gone)
      invariant forall image <- gone :: image.repository in REPOSITORIES
      invariant forall i :: 1 <= i < k && i < |lines| && |lines[i]| >= 2 && lines[i][0] in REPOSITORIES ==>
                  Image(lines[i][0], lines[i][1]) in gone
    {
      if |lines[k]| >= 2 && lines[k][0] in REPOSITORIES {
        var _ :- PurgeOne(host, RemoveImage(Image(lines[k][0], lines[k][1])), runtime, before, since);
        gone := gone + {Image(lines[k][0], lines[k][1])};
      }
      k := k + 1;
    }
    assert listed - gone == set image | image in listed && image.repository !in REPOSITORIES;
    r := Ok(());
  }

  method PurgeContainers(host: Host, runtime: Runtime, ghost before: Resources, ghost since: nat) returns (r: Result<(), Error>)
    requires PurgesOnly(host, runtime, before, since) && host.Ended(since, Ok(())) && runtime != AppleContainers && host.now.containers == before.containers
    modifies host
    ensures PurgesOnly(host, runtime, before, since) && host.Ended(since, r)
    ensures r.Ok? ==> host.now == old(host.now).(containers :=
      map id | id in before.containers && !before.containers[id].labelled :: before.containers[id])
  {
    hide Confined;
    var ids :- host.ListContainers(None);
    ghost var gone: set<string> := {};
    for k := 0 to |ids|
      invariant PurgesOnly(host, runtime, before, since) && host.Ended(since, Ok(()))
      invariant host.now == old(host.now).(containers := before.containers - gone)
      invariant gone == set i | 0 <= i < k :: ids[i]
    {
      var id := ids[k];
      assert id in ids;
      var _ :- PurgeOne(host, StopContainer(id), runtime, before, since);
      var _ :- PurgeOne(host, RemoveContainer(id), runtime, before, since);
      gone := gone + {id};
    }
    assert forall id <- before.containers :: id in gone <==> before.containers[id].labelled;
    assert before.containers - gone == map id | id in before.containers && !before.containers[id].labelled :: before.containers[id];
    r := Ok(());
  }

  /** `purge_validation_resources`.  Every step stays inside the project's resources; it ends with its
      first failing step, or succeeds with every step done and all of them gone. */
  method Purge(host: Host, runtime: Runtime) returns (r: Result<(), Error>)
    requires |host.steps| == |host.history|
    modifies host
    ensures PurgesOnly(host, runtime, old(host.now), |old(host.steps)|) && host.Ended(|old(host.steps)|, r)
    ensures r.Ok? <==> forall k :: |old(host.steps)| <= k < |host.steps| ==> host.outcomes(k) == Done
    ensures r.Ok? ==> host.now == Purged(runtime, old(host.now))
  {
    ghost var before, since := host.now, |host.steps|;
    assert PurgesOnly(host, runtime, before, since);
    var _ :- PurgeImages(host, runtime, before, since);
    if runtime != AppleContainers {
      var _ :- PurgeContainers(host, runtime, before, since);
    }
    var _ :- PurgeOne(host, RemoveCacheRoot, runtime, before, since);
    r := Ok(());
  }

  /** A purge removes all that a cleanup would, and what a cleanup keeps of foreign resources stays. */
  lemma PurgeRemovesMore(runtime: Runtime, tag: string, generation: string, r: Resources)
    ensures Within(Purged(runtime, r), Without(r, StaleOf(runtime, tag, generation, r)))
  {
    hide IsGeneration;
  }

  // ---------------------------------------------------------------- launch

  /** The host after the caches of the current generation were made and the container ran. */
  function Launched(r: Resources, generation: string, leftover: Option<string>): Resources {
    Effect(RunValidation(leftover), Effect(MakeCache(generation), r))
  }

  /** How the two steps of a launch end: the step that failed, or none. */
  function LaunchFailure(host: Host, start: nat, generation: string, leftover: Option<string>): Option<Step> {
    if host.outcomes(start) != Done then Some(MakeCache(generation))
    else if host.outcomes(start + 1) != Done then Some(RunValidation(leftover))
    else None
  }

  lemma LaunchStepsKeep(tag: string, generation: string, leftover: Option<string>, r: Resources)
    requires leftover.Some? ==> leftover.value !in r.containers
    ensures KeepsProtected(tag, generation, r, r) && KeepsProtected(tag, generation, r, Effect(MakeCache(generation), r))
    ensures KeepsProtected(tag, generation, r, Launched(r, generation, leftover))
  {
  }

  /** The steps of a launch up to the one that fails. */
  function LaunchSteps(host: Host, start: nat, generation: string, leftover: Option<string>): seq<Step> {
    if host.outcomes(start) != Done then [MakeCache(generation)] else [MakeCache(generation), RunValidation(leftover)]
  }

  /** Make the caches and run the container. */
  method RunLaunched(host: Host, ghost tag: string, generation: string, leftover: Option<string>) returns (r: Result<(), Error>)
    requires |host.steps| == |host.history|
    requires leftover.Some? ==> leftover.value !in host.now.containers
    modifies host
    ensures var start := |old(host.steps)|;
            && host.steps == old(host.steps) + LaunchSteps(host, start, generation, leftover)
            && old(host.history) <= host.history && |host.steps| == |host.history| && host.now == host.history[|host.steps| - 1]
            && (forall k :: start <= k < |host.steps| ==> KeepsProtected(tag, generation, old(host.now), host.history[k]))
            && match LaunchFailure(host, start, generation, leftover)
               case Some(step) => r == Err(StepFailed(step))
               case None => r.Ok? && host.now == Launched(old(host.now), generation, leftover)
  {
    LaunchStepsKeep(tag, generation, leftover, host.now);
    hide KeepsProtected, Effect;
    r := host.Perform(MakeCache(generation));
    if r.Ok? {
      r := host.Perform(RunValidation(leftover));
    }
  }

  /** `launch_in_validation`: run, then clean up in any case.  The error of a failed run is the one
      reported, and a failure of the cleanup behind it only a warning; after a successful run the
      outcome is that of the cleanup. */
  method Launch(host: Host, runtime: Runtime, nested: bool, image: string, generation: string, leftover: Option<string>)
    returns (r: Result<(), Error>, warning: Option<Error>)
    requires |host.steps| == |host.history|
    requires leftover.Some? ==> leftover.value !in host.now.containers
    modifies host
    ensures nested ==> r == Err(NestedValidation) && warning.None? && host.now == old(host.now) && host.steps == old(host.steps)
    ensures !nested ==>
              var start := |old(host.steps)|;
              var launched := LaunchSteps(host, start, generation, leftover);
              var failure, ran := LaunchFailure(host, start, generation, leftover), start + |launched|;
              && ran <= |host.steps| == |host.history| && host.steps[..ran] == old(host.steps) + launched
              && (failure.Some? ==> r == Err(StepFailed(failure.value)))
              && (failure.None? ==> warning.None? && host.history[ran - 1] == Launched(old(host.now), generation, leftover))
              && CleanedUp(host, host.history[ran - 1], ran, runtime, image, generation,
                           if failure.None? then r else if warning.Some? then Err(warning.value) else Ok(()))
    ensures |host.steps| == |host.history|
    ensures forall k :: |old(host.steps)| <= k < |host.steps| ==>
              KeepsProtected(CurrentTag(image), generation, old(host.now), host.history[k])
  {
    if nested {
      return Err(NestedValidation), None;
    }
    hide StaleOf, Without, IsGeneration, CurrentTag, KeepsProtected, Launched, Safe, Allowed;
    ghost var tag, origin := CurrentTag(image), host.now;
    r := RunLaunched(host, tag, generation, leftover);
    ghost var ran, since, early, begun := host.now, |host.steps|, host.history, host.steps;
    var cleaned := Cleanup(host, runtime, image, generation);
    forall k | since <= k < |host.steps| ensures KeepsProtected(tag, generation, origin, host.history[k]) {
      ProtectedIsNeverStale(runtime, tag, generation, ran, host.history[k]);
      KeepsOn(tag, generation, origin, ran, host.history[k]);
    }
    assert forall k :: 0 <= k < since ==> host.history[k] == early[k];
    assert host.steps[..since] == begun;
    warning := None;
    if r.Ok? {
      r := cleaned;
    } else if cleaned.Err? {
      warning := Some(cleaned.error);
    }
  }

  /** After a launch that succeeded, the cache of its generation is there and nothing is stale. */
  lemma LaunchLeavesNothingStale(runtime: Runtime, tag: string, generation: string, leftover: Option<string>, r: Resources)
    ensures var after := Launched(r, generation, leftover);
            var cleaned := Without(after, StaleOf(runtime, tag, generation, after));
            && generation in cleaned.caches && StaleOf(runtime, tag, generation, cleaned) == Stale({}, {}, {})
            && (runtime != AppleContainers && leftover.Some? ==> leftover.value !in cleaned.containers)
  {
    NothingStaleAfterCleanup(runtime, tag, generation, Launched(r, generation, leftover));
    hide IsGeneration, StaleImage;
  }

  /** A launch never removes the image it runs, nor its cache, however the run and the cleanup end. */
  method LaunchForImage(host: Host, runtime: Runtime, nested: bool, name: string, tag: string, generation: string, leftover: Option<string>)
    returns (r: Result<(), Error>, warning: Option<Error>)
    requires ':' !in tag && |host.steps| == |host.history|
    requires leftover.Some? ==> leftover.value !in host.now.containers
    modifies host
    ensures |host.steps| == |host.history|
    ensures forall k, repository :: |old(host.steps)| <= k < |host.steps| && Image(repository, tag) in old(host.now).images ==>
              Image(repository, tag) in host.history[k].images
    ensures forall k :: |old(host.steps)| <= k < |host.steps| && generation in old(host.now).caches ==>
              generation in host.history[k].caches
  {
    TagFollowsColon(name, tag);
    hide CurrentTag, LaunchSteps, LaunchFailure, CleanedUp, Launched;
    r, warning := Launch(host, runtime, nested, name + ":" + tag, generation, leftover);
  }
}
