/** Creation and cleanup of instances (app/spec_create.go, app/cleanup.go) as methods of the
    application. Docker's state and the instances table are fields; every call that can fail takes
    a fault that says how it fails. */
module App {
  import opened Options
  import opened Docker
  import A = Actions
  import L = Lifecycle
  import R = ActionRuns

  /** models.Instance, the copy in memory. */
  class Instance {
    const id: string
    const containerID: string
    const imageID: string
    var active: bool
    var cleaned: bool
    var expiresAt: Option<int>

    constructor (id: string, containerID: string, imageID: string, row: L.Row)
      ensures this.id == id && this.containerID == containerID && this.imageID == imageID && Row() == row
    {
      this.id, this.containerID, this.imageID := id, containerID, imageID;
      active, cleaned, expiresAt := row.active, row.cleaned, row.expiresAt;
    }

    function Row(): L.Row
      reads this
    {
      L.Row(active, cleaned, expiresAt)
    }
  }

  datatype CleanFaults = CleanFaults(kill: Fault, remove: Fault, image: Fault, update: Fault)

  const NO_CLEAN_FAULTS := CleanFaults(Answered, Answered, Answered, Answered)

  /** What cleaning is for: the container is gone, and so is its image, unless another container
      was made from it. */
  function CleanWorld(w: World, containerID: string, imageID: string): World {
    var rest := w.(containers := w.containers - {containerID});
    if Uses(rest, imageID, false) then rest else rest.(images := rest.images - {imageID})
  }

  /** Another container made from the image is running; Docker then refuses to remove the image in
      a way that cleanInstance treats as an error. */
  predicate Stuck(w: World, containerID: string, imageID: string) {
    imageID in w.images && Uses(w.(containers := w.containers - {containerID}), imageID, true)
  }

  function CleanRow(row: L.Row): L.Row {
    L.Row(false, true, row.expiresAt)
  }

  /** Whether cleanInstance goes on after this answer to its request to remove the image. */
  predicate ImageSettled(answer: Answer) {
    answer == Done || answer == NotFound || answer == ImageInUse(false)
  }

  lemma KillAndRemove(w: World, id: string, kill: Fault, remove: Fault)
    ensures var w1 := ContainerKill(w, id, kill).0;
      var (w2, answer) := ContainerRemove(w1, id, remove);
      && w2.images == w.images && w2.containers - {id} == w.containers - {id}
      && (answer == Done || answer == NotFound ==> id !in w2.containers)
      && (kill == remove == Answered ==> answer == Done || answer == NotFound)
  {
    var w1 := ContainerKill(w, id, kill).0;
    assert w1.containers - {id} == w.containers - {id};
    var w2 := ContainerRemove(w1, id, remove).0;
    assert w2.containers - {id} == w1.containers - {id};
  }

  lemma RemoveOwnImage(w: World, id: string, image: string, f: Fault)
    requires id !in w.containers
    ensures var (w', answer) := ImageRemove(w, image, f);
      && w'.containers == w.containers
      && (w' == w || w' == CleanWorld(w, id, image))
      && (f == Answered ==> w' == CleanWorld(w, id, image) && (ImageSettled(answer) <==> !Stuck(w, id, image)))
  {
    assert w.containers - {id} == w.containers;
    assert w.(containers := w.containers - {id}) == w;
    assert image !in w.images ==> w.images - {image} == w.images;
  }

  /** Cleaning what is partly clean leads to the same world. */
  lemma CleanWorldAgain(w: World, w': World, id: string, image: string)
    requires w'.containers - {id} == w.containers - {id}
    requires w'.images == w.images
      || (w'.images == w.images - {image} && !Uses(w.(containers := w.containers - {id}), image, false))
    ensures CleanWorld(w', id, image) == CleanWorld(w, id, image)
    ensures Stuck(w', id, image) == Stuck(w, id, image)
  {
    var rest, rest' := w.(containers := w.containers - {id}), w'.(containers := w'.containers - {id});
    assert rest'.containers == rest.containers;
    assert Uses(rest', image, false) == Uses(rest, image, false);
    assert Uses(rest', image, true) == Uses(rest, image, true);
    assert Uses(rest, image, true) ==> Uses(rest, image, false);
  }

  class App {
    var docker: World
    var rows: map<string, L.Row>
    // The columns of an instance's row that never change.
    const containerOf: string -> string
    const imageOf: string -> string

    constructor (docker: World, rows: map<string, L.Row>, containerOf: string -> string, imageOf: string -> string)
      ensures this.docker == docker && this.rows == rows
      ensures this.containerOf == containerOf && this.imageOf == imageOf
    {
      this.docker, this.rows, this.containerOf, this.imageOf := docker, rows, containerOf, imageOf;
    }

    /** `x` is a copy of the row of its name. */
    ghost predicate IsCopy(x: Instance)
      reads this`rows, x
    {
      x.id in rows && x.Row() == rows[x.id] && x.containerID == containerOf(x.id) && x.imageID == imageOf(x.id)
    }

    /** Copies of different rows of the table. */
    ghost predicate Known(instances: seq<Instance>) {
      && (forall i :: 0 <= i < |instances| ==>
            var x := instances[i]; x.containerID == containerOf(x.id) && x.imageID == imageOf(x.id))
      && (forall i, j :: 0 <= i < j < |instances| ==> instances[i].id != instances[j].id)
    }

    /** instanceStore.Find: a copy of each row that the query selects, in some order. */
    method Find(query: Query, f: Fault) returns (found: Option<seq<Instance>>)
      ensures found.Some? <==> f == Answered
      ensures found.Some? ==> fresh(set x | x in found.value)
      ensures found.Some? ==> Known(found.value) && forall x :: x in found.value ==> IsCopy(x)
      ensures found.Some? ==> Ids(found.value, |found.value|) == Selected(rows, query)
    {
      if f != Answered {
        return None;
      }
      var instances: seq<Instance> := [];
      var rest := rows;
      while rest != map[]
        invariant rest.Keys <= rows.Keys && forall n :: n in rest ==> rest[n] == rows[n]
        invariant fresh(set x | x in instances)
        invariant forall x :: x in instances ==> IsCopy(x) && x.id !in rest
        invariant forall i, j :: 0 <= i < j < |instances| ==> instances[i].id != instances[j].id
        invariant Ids(instances, |instances|) == Selected(rows, query) - rest.Keys
        decreases rest.Keys
      {
        assert rest.Keys != {};
        var name :| name in rest;
        SelectedNext(rows, rest, query, name);
        if query(name, rest[name]) {
          var x := new Instance(name, containerOf(name), imageOf(name), rest[name]);
          IdsSnoc(instances, x);
          instances := instances + [x];
        }
        rest := rest - {name};
      }
      assert forall i :: 0 <= i < |instances| ==> instances[i] in instances;
      found := Some(instances);
    }

    /** instanceStore.Update: writes the selected columns of the copy. */
    method Update(instance: Instance, columns: L.Columns, f: Fault) returns (ok: bool)
      requires instance.id in rows
      modifies this`rows
      ensures ok <==> f == Answered
      ensures f == Unanswered(false) ==> rows == old(rows)
      ensures f != Unanswered(false) ==>
        rows == old(rows)[instance.id := L.Updated(old(rows)[instance.id], instance.Row(), columns)]
    {
      if f != Unanswered(false) {
        rows := rows[instance.id := L.Updated(rows[instance.id], instance.Row(), columns)];
      }
      ok := f == Answered;
    }

    /** cleanInstance. With Docker and the database answering it reaches the clean state, and fails
        only if the image is stuck. Whatever goes wrong, it stays on the way there: cleaning again
        leads to the same state, the row is marked only after the container is gone, and nothing
        else is touched. */
    method CleanInstance(instance: Instance, f: CleanFaults) returns (ok: bool)
      requires instance.id in rows
      modifies this, instance
      ensures f == NO_CLEAN_FAULTS ==>
        && docker == CleanWorld(old(docker), instance.containerID, instance.imageID)
        && (ok <==> !Stuck(old(docker), instance.containerID, instance.imageID))
        && rows == if ok then old(rows)[instance.id := CleanRow(old(rows)[instance.id])] else old(rows)
      ensures CleanWorld(docker, instance.containerID, instance.imageID)
              == CleanWorld(old(docker), instance.containerID, instance.imageID)
      ensures Stuck(docker, instance.containerID, instance.imageID) ==
        Stuck(old(docker), instance.containerID, instance.imageID)
      ensures docker.containers - {instance.containerID} == old(docker).containers - {instance.containerID}
      ensures Shrunk(old(docker), docker)
      ensures old(docker).images - {instance.imageID} <= docker.images <= old(docker).images
      ensures rows == old(rows) || (rows == old(rows)[instance.id := CleanRow(old(rows)[instance.id])]
                                    && instance.containerID !in docker.containers)
      ensures ok ==>
        rows == old(rows)[instance.id := CleanRow(old(rows)[instance.id])] && instance.containerID !in docker.containers
      ensures ok ==> rows[instance.id] == L.Row(false, true, old(rows)[instance.id].expiresAt)
      ensures Stuck(old(docker), instance.containerID, instance.imageID) ==> !ok && rows == old(rows)
      ensures instance.Row() == old(instance.Row()) || instance.Row() == L.Row(false, true, old(instance.expiresAt))
    {
      ghost var before := docker;
      KillAndRemove(docker, instance.containerID, f.kill, f.remove);
      var (w1, _) := ContainerKill(docker, instance.containerID, f.kill);
      docker := w1;
      var (w2, removed) := ContainerRemove(docker, instance.containerID, f.remove);
      docker := w2;
      CleanWorldAgain(before, docker, instance.containerID, instance.imageID);
      if removed != Done && removed != NotFound {
        return false;
      }

      ghost var bare := docker;
      RemoveOwnImage(docker, instance.containerID, instance.imageID, f.image);
      var (w3, imageRemoved) := ImageRemove(docker, instance.imageID, f.image);
      docker := w3;
      CleanWorldAgain(bare, docker, instance.containerID, instance.imageID);
      if !ImageSettled(imageRemoved) {
        return false;
      }

      instance.active := false;
      instance.cleaned := true;
      ok := Update(instance, L.ACTIVE_AND_CLEANED, f.update);
    }

    /** Retryable cleanup: after any number of failed or interrupted attempts, one attempt that is
        answered reaches the state that it would have reached at first. (A crash between two
        requests leaves the same state as a next request that is lost without effect.) */
    method CleanAfterFailures(instance: Instance, attempts: seq<CleanFaults>) returns (ok: bool)
      requires instance.id in rows
      modifies this, instance
      ensures docker == CleanWorld(old(docker), instance.containerID, instance.imageID)
      ensures ok <==> !Stuck(old(docker), instance.containerID, instance.imageID)
      ensures rows == if ok then old(rows)[instance.id := CleanRow(old(rows)[instance.id])] else old(rows)
    {
      for i := 0 to |attempts|
        invariant instance.id in rows
        invariant CleanWorld(docker, instance.containerID, instance.imageID)
                  == CleanWorld(old(docker), instance.containerID, instance.imageID)
        invariant Stuck(docker, instance.containerID, instance.imageID)
                  == Stuck(old(docker), instance.containerID, instance.imageID)
        invariant rows == old(rows) || (!Stuck(old(docker), instance.containerID, instance.imageID)
                                        && rows == old(rows)[instance.id := CleanRow(old(rows)[instance.id])])
      {
        var _ := CleanInstance(instance, attempts[i]);
      }
      ok := CleanInstance(instance, NO_CLEAN_FAULTS);
    }

    /** The body of cleanupInstancesByQuery's loop, for an instance that is not among those `seen`. */
    method CleanNext(instance: Instance, f: string -> CleanFaults, before: nat, ghost w0: World,
                     ghost rows0: map<string, L.Row>, ghost seen: set<string>, ghost was: seq<string>)
      returns (count: nat, ghost cleaned: seq<string>)
      requires instance.containerID == containerOf(instance.id) && instance.imageID == imageOf(instance.id)
      requires instance.id in rows0 && instance.id !in seen && before == |was|
      requires CleanedUp(w0, docker, rows0, rows, seen, f, was)
      modifies this, instance
      ensures CleanedUp(w0, docker, rows0, rows, seen + {instance.id}, f, cleaned) && count == |cleaned|
    {
      ghost var w, r := docker, rows;
      if Own(w, instance.containerID, instance.imageID) { OwnIsRemoved(w, instance.containerID, instance.imageID); }
      var ok := CleanInstance(instance, f(instance.id));
      cleaned := CleanedUpStep(w0, w, docker, rows0, r, rows, seen, instance.id, f, was, ok);
      count := if ok then before + 1 else before;
    }

    /** The loop of cleanupInstancesByQuery: it cleans every instance found, one after the other,
        whatever happens to the others. */
    method CleanAll(instances: seq<Instance>, f: string -> CleanFaults) returns (count: nat, ghost cleaned: seq<string>)
      requires Known(instances) && Ids(instances, |instances|) <= rows.Keys
      modifies this, instances
      ensures CleanedUp(old(docker), docker, old(rows), rows, Ids(instances, |instances|), f, cleaned)
      ensures count == |cleaned|
    {
      count, cleaned := 0, [];
      for k := 0 to |instances|
        invariant CleanedUp(old(docker), docker, old(rows), rows, Ids(instances, k), f, cleaned)
        invariant count == |cleaned|
        modifies this, instances
      {
        IdsNext(instances, k);
        count, cleaned := CleanNext(instances[k], f, count, old(docker), old(rows), Ids(instances, k), cleaned);
      }
    }

    /** cleanupInstancesByQuery: unless the query fails, every instance that it selects is seen to,
        whatever happens to the others; `cleaned` are those that were cleaned. */
    method CleanupInstancesByQuery(query: Query, fault: Fault, f: string -> CleanFaults)
      returns (count: nat, ghost cleaned: seq<string>)
      modifies this
      ensures count == |cleaned|
      ensures fault != Answered ==> docker == old(docker) && rows == old(rows) && cleaned == []
      ensures fault == Answered ==>
        CleanedUp(old(docker), docker, old(rows), rows, Selected(old(rows), query), f, cleaned)
    {
      count, cleaned := 0, [];
      var found := Find(query, fault);
      if found.Some? {
        count, cleaned := CleanAll(found.value, f);
      }
    }

    /** What cleaning has done to the instances `seen`. Each row is as it was, or marked with its
        container gone; those in `cleaned` are marked; among them is every instance whose requests
        were answered and whose image is its own, and that image is gone. All other rows and
        containers are as they were. */
    ghost predicate CleanedUp(w0: World, w: World, rows0: map<string, L.Row>, rows: map<string, L.Row>,
                              seen: set<string>, f: string -> CleanFaults, cleaned: seq<string>)
    {
      RowsCleaned(w, rows0, rows, seen, cleaned) && WorldCleaned(w0, w, seen, f, cleaned)
    }

    ghost predicate RowsCleaned(w: World, rows0: map<string, L.Row>, rows: map<string, L.Row>, seen: set<string>,
                                cleaned: seq<string>)
    {
      && seen <= rows0.Keys == rows.Keys && (forall i, j :: 0 <= i < j < |cleaned| ==> cleaned[i] != cleaned[j])
      && (forall n :: n in cleaned ==> n in seen && rows[n] == CleanRow(rows0[n]) && containerOf(n) !in w.containers)
      && (forall n :: n in seen ==>
            rows[n] == rows0[n] || (rows[n] == CleanRow(rows0[n]) && containerOf(n) !in w.containers))
      && (forall n :: n in rows0 && n !in seen ==> rows[n] == rows0[n])
    }

    ghost predicate WorldCleaned(w0: World, w: World, seen: set<string>, f: string -> CleanFaults, cleaned: seq<string>)
    {
      && Shrunk(w0, w) && Untouched(w0, w, seen)
      && (forall n :: n in seen && Simple(w0, n, f) ==> n in cleaned && imageOf(n) !in w.images)
    }

    /** The requests of an instance are answered, and no other container was made from its image. */
    ghost predicate Simple(w0: World, n: string, f: string -> CleanFaults) {
      f(n) == NO_CLEAN_FAULTS && Own(w0, containerOf(n), imageOf(n))
    }

    /** Containers of other instances are as they were. */
    ghost predicate Untouched(w0: World, w: World, seen: set<string>) {
      forall c :: c in w0.containers && (forall n :: n in seen ==> containerOf(n) != c) ==>
        c in w.containers && w.containers[c] == w0.containers[c]
    }

    lemma UntouchedStep(w0: World, w: World, w': World, seen: set<string>, x: string)
      requires Untouched(w0, w, seen) && w'.containers - {containerOf(x)} == w.containers - {containerOf(x)}
      ensures Untouched(w0, w', seen + {x})
    {
      forall c | c in w0.containers && (forall n :: n in seen + {x} ==> containerOf(n) != c)
        ensures c in w'.containers && w'.containers[c] == w0.containers[c]
      {
        assert x in seen + {x} && c in w.containers - {containerOf(x)};
      }
    }

    lemma CleanedUpStep(w0: World, w: World, w': World, rows0: map<string, L.Row>, rows: map<string, L.Row>,
                        rows': map<string, L.Row>, seen: set<string>, x: string, f: string -> CleanFaults,
                        cleaned: seq<string>, ok: bool)
        returns (cleaned': seq<string>)
      requires CleanedUp(w0, w, rows0, rows, seen, f, cleaned) && x in rows0 && x !in seen
      requires Shrunk(w, w') && w'.containers - {containerOf(x)} == w.containers - {containerOf(x)}
      requires rows' == rows || (rows' == rows[x := CleanRow(rows[x])] && containerOf(x) !in w'.containers)
      requires ok ==> rows' == rows[x := CleanRow(rows[x])] && containerOf(x) !in w'.containers
      requires Simple(w, x, f) ==> ok && imageOf(x) !in w'.images
      ensures CleanedUp(w0, w', rows0, rows', seen + {x}, f, cleaned') && |cleaned'| == |cleaned| + if ok then 1 else 0
    {
      cleaned' := if ok then cleaned + [x] else cleaned;
      UntouchedStep(w0, w, w', seen, x);
      if Simple(w0, x, f) { SimpleStays(w0, w, x, f); }
    }

    lemma SimpleStays(w0: World, w: World, x: string, f: string -> CleanFaults)
      requires Shrunk(w0, w) && Simple(w0, x, f)
      ensures Simple(w, x, f)
    {
    }

    method Deactivate(instance: Instance, f: Fault)
      requires instance.id in rows
      modifies this`rows, instance
      ensures rows ==
        if f == Unanswered(false) then old(rows)
        else old(rows)[instance.id := old(rows)[instance.id].(active := false)]
    {
      instance.active := false;
      var _ := Update(instance, L.ACTIVE, f);
    }

    /** The loop of checkExpiredInstances. The count includes the rows whose update failed. */
    method SweepAll(instances: seq<Instance>, f: string -> Fault) returns (count: nat)
      requires Known(instances) && Ids(instances, |instances|) <= rows.Keys
      modifies this`rows, instances
      ensures count == |instances| && Swept(old(rows), rows, Ids(instances, |instances|), f)
    {
      count := 0;
      for k := 0 to |instances|
        invariant count == k && Swept(old(rows), rows, Ids(instances, k), f)
        modifies this`rows, instances
      {
        ghost var r, seen := rows, Ids(instances, k);
        var x := instances[k].id;
        IdsNext(instances, k);
        Deactivate(instances[k], f(x));
        SweptStep(old(rows), r, rows, seen, f, x);
        count := count + 1;
      }
    }

    /** checkExpiredInstances: unless both prechecks or the query fail, exactly the rows that are
        active and expired become inactive, where the update gets through. */
    method CheckExpiredInstances(now: int, dockerOk: bool, databaseOk: bool, query: Fault, f: string -> Fault)
      returns (count: nat)
      modifies this`rows
      ensures (!dockerOk && !databaseOk) || query != Answered ==> rows == old(rows) && count == 0
      ensures (dockerOk || databaseOk) && query == Answered ==>
        var expired := set n | n in old(rows) && old(rows)[n].active
                               && old(rows)[n].expiresAt.Some? && old(rows)[n].expiresAt.value < now;
        count == |expired| && Swept(old(rows), rows, expired, f)
    {
      count := 0;
      if !dockerOk && !databaseOk {
        return;
      }
      var expired := (_, row) => L.Selects(L.Sweep, now, row);
      assert Selected(rows, expired) ==
        set n | n in rows && rows[n].active && rows[n].expiresAt.Some? && rows[n].expiresAt.value < now;
      var found := Find(expired, query);
      if found.Some? {
        count := SweepAll(found.value, f);
        IdsSize(found.value, |found.value|);
      }
    }

    /** cleanInactiveInstances */
    method CleanInactiveInstances(dockerOk: bool, databaseOk: bool, query: Fault, f: string -> CleanFaults)
      returns (count: nat, ghost cleaned: seq<string>)
      modifies this
      ensures count == |cleaned|
      ensures (!dockerOk && !databaseOk) || query != Answered ==>
        docker == old(docker) && rows == old(rows) && cleaned == []
      ensures (dockerOk || databaseOk) && query == Answered ==>
        var dirty := set n | n in old(rows) && !old(rows)[n].active && !old(rows)[n].cleaned;
        CleanedUp(old(docker), docker, old(rows), rows, dirty, f, cleaned)
    {
      count, cleaned := 0, [];
      if dockerOk || databaseOk {
        count, cleaned := CleanupInstancesByQuery((_, row) => L.Selects(L.CleanInactive, 0, row), query, f);
      }
    }

    /** cleanupLeftoverInstances: what is still active at the shutdown. */
    method CleanupLeftoverInstances(dockerOk: bool, databaseOk: bool, query: Fault, f: string -> CleanFaults)
      returns (count: nat, ghost cleaned: seq<string>)
      modifies this
      ensures count == |cleaned|
      ensures (!dockerOk && !databaseOk) || query != Answered ==>
        docker == old(docker) && rows == old(rows) && cleaned == []
      ensures (dockerOk || databaseOk) && query == Answered ==>
        var leftover := set n | n in old(rows) && old(rows)[n].active;
        CleanedUp(old(docker), docker, old(rows), rows, leftover, f, cleaned)
    {
      count, cleaned := 0, [];
      if dockerOk || databaseOk {
        count, cleaned := CleanupInstancesByQuery((_, row) => L.Selects(L.CleanLeftover, 0, row), query, f);
      }
    }

    /** The cleaning that specClean starts, for the instances of one spec, active or not. */
    method SpecClean(ofSpec: string -> bool, query: Fault, f: string -> CleanFaults)
      returns (count: nat, ghost cleaned: seq<string>)
      modifies this
      ensures count == |cleaned|
      ensures query != Answered ==> docker == old(docker) && rows == old(rows) && cleaned == []
      ensures query == Answered ==>
        var dirty := set n | n in old(rows) && ofSpec(n) && !old(rows)[n].cleaned;
        CleanedUp(old(docker), docker, old(rows), rows, dirty, f, cleaned)
    {
      count, cleaned :=
        CleanupInstancesByQuery((name, row) => ofSpec(name) && L.Selects(L.SpecClean, 0, row), query, f);
    }

    /** What the forced marking has done to the instances `seen`: a row whose own update got through
        is marked, any other is as it was or marked with its container gone; an instance whose
        requests were answered has no container; all else is as it was. */
    ghost predicate ForceMarked(w0: World, w: World, rows0: map<string, L.Row>, rows: map<string, L.Row>,
                                seen: set<string>, f: string -> CleanFaults, g: string -> Fault)
    {
      && seen <= rows0.Keys == rows.Keys && Shrunk(w0, w)
      && (forall n :: n in seen && g(n) != Unanswered(false) ==> rows[n] == L.Row(false, true, rows0[n].expiresAt))
      && (forall n :: n in seen && g(n) == Unanswered(false) ==>
            || rows[n] == rows0[n]
            || (rows[n] == L.Row(false, true, rows0[n].expiresAt) && containerOf(n) !in w.containers))
      && (forall n :: n in seen && f(n) == NO_CLEAN_FAULTS ==> containerOf(n) !in w.containers)
      && (forall n :: n in rows0 && n !in seen ==> rows[n] == rows0[n])
      && Untouched(w0, w, seen)
    }

    lemma ForceMarkedStep(w0: World, w: World, w': World, rows0: map<string, L.Row>, rows: map<string, L.Row>,
                          rows': map<string, L.Row>, seen: set<string>, x: string, f: string -> CleanFaults,
                          g: string -> Fault)
      requires ForceMarked(w0, w, rows0, rows, seen, f, g) && x in rows0 && x !in seen
      requires Shrunk(w, w') && w'.containers - {containerOf(x)} == w.containers - {containerOf(x)}
      requires f(x) == NO_CLEAN_FAULTS ==> containerOf(x) !in w'.containers
      requires rows' == rows[x := CleanRow(rows[x])]
        || (g(x) == Unanswered(false) && rows' == rows)
      requires rows' != rows && g(x) == Unanswered(false) ==> containerOf(x) !in w'.containers
      ensures ForceMarked(w0, w', rows0, rows', seen + {x}, f, g)
    {
      UntouchedStep(w0, w, w', seen, x);
    }

    /** Its loop body: it sets the flags, cleans, and sets them again whatever has come of that. */
    method ForceMark(instance: Instance, f: CleanFaults, g: Fault)
      requires instance.id in rows
      modifies this, instance
      ensures Shrunk(old(docker), docker)
      ensures docker.containers - {instance.containerID} == old(docker).containers - {instance.containerID}
      ensures f == NO_CLEAN_FAULTS ==> instance.containerID !in docker.containers
      ensures rows == old(rows)[instance.id := CleanRow(old(rows)[instance.id])]
        || (g == Unanswered(false) && rows == old(rows))
      ensures rows != old(rows) && g == Unanswered(false) ==> instance.containerID !in docker.containers
    {
      instance.active := false;
      instance.cleaned := true;
      var _ := CleanInstance(instance, f);
      var _ := Update(instance, L.ACTIVE_AND_CLEANED, g);
    }

    /** The loop of markAllInstancesCleanedAndInactive. */
    method MarkAll(instances: seq<Instance>, f: string -> CleanFaults, g: string -> Fault) returns (count: nat)
      requires Known(instances) && Ids(instances, |instances|) <= rows.Keys
      modifies this, instances
      ensures ForceMarked(old(docker), docker, old(rows), rows, Ids(instances, |instances|), f, g)
      ensures count == |instances|
    {
      count := 0;
      for k := 0 to |instances|
        invariant ForceMarked(old(docker), docker, old(rows), rows, Ids(instances, k), f, g)
        invariant count == k
        modifies this, instances
      {
        ghost var w, r, seen := docker, rows, Ids(instances, k);
        var x := instances[k].id;
        IdsNext(instances, k);
        ForceMark(instances[k], f(x), g(x));
        ForceMarkedStep(old(docker), w, docker, old(rows), r, rows, seen, x, f, g);
        count := count + 1;
      }
    }

    /** markAllInstancesCleanedAndInactive: the forced marking of everything that is not clean and
        inactive. */
    method MarkAllInstancesCleanedAndInactive(dockerOk: bool, databaseOk: bool, query: Fault, f: string -> CleanFaults,
                                              g: string -> Fault)
      returns (count: nat)
      modifies this
      ensures (!dockerOk && !databaseOk) || query != Answered ==>
        docker == old(docker) && rows == old(rows) && count == 0
      ensures (dockerOk || databaseOk) && query == Answered ==>
        var unclean := set n | n in old(rows) && (old(rows)[n].active || !old(rows)[n].cleaned);
        count == |unclean| && ForceMarked(old(docker), docker, old(rows), rows, unclean, f, g)
    {
      count := 0;
      if !dockerOk && !databaseOk {
        return;
      }
      var unclean := (_, row) => L.Selects(L.ForceMark, 0, row);
      assert Selected(rows, unclean) == set n | n in rows && (rows[n].active || !rows[n].cleaned);
      var found := Find(unclean, query);
      if found.Some? {
        count := MarkAll(found.value, f, g);
        IdsSize(found.value, |found.value|);
      }
    }

    /** specCreateContainerSetup. It succeeds exactly if the requests are answered and every post-build
        action was run once and returned nil. */
    method SpecCreateContainerSetup(id: string, gen: GenerateOutput, f: CreateFaults) returns (ok: bool)
      requires id in docker.containers && f.build.actions == gen.postBuild
      modifies this`docker
      ensures exists running :: docker == SetRunning(old(docker), id, running)
      ensures ok ==> docker == SetRunning(old(docker), id, false)
      ensures ok <==>
        f.start == f.disconnect == f.stop == Answered && R.EveryUnitRan(A.Ordered(gen.postBuild), f.build.events)
    {
      var (w1, started) := ContainerStart(docker, id, f.start);
      docker := w1;
      assert old(docker) == SetRunning(old(docker), id, old(docker).containers[id].running);
      ok := started == Done;
      BuiltIff(f.build);
      if !ok || !Built(f.build) {
        return false;
      }
      if f.disconnect != Answered {
        return false;
      }
      var (w2, stopped) := ContainerStop(docker, id, f.stop);
      docker := w2;
      return stopped == Done;
    }

    /** specCreateContainer: on failure after the container exists, it kills and removes it. */
    method SpecCreateContainer(id: string, image: string, gen: GenerateOutput, f: CreateFaults)
      returns (containerID: string, ok: bool)
      requires id !in docker.containers && f.build.actions == gen.postBuild
      modifies this`docker
      ensures docker.images == old(docker).images
      ensures ok <==>
        && image in old(docker).images && f.create == f.start == f.disconnect == f.stop == Answered
        && R.EveryUnitRan(A.Ordered(gen.postBuild), f.build.events)
      ensures ok ==> containerID == id && docker.containers == old(docker).containers[id := Container(image, false)]
      ensures !ok ==> containerID == ""
      ensures !ok && f.kill == f.remove == Answered && f.create != Unanswered(true) ==> docker == old(docker)
      ensures !ok && f.create == Unanswered(true) && image in old(docker).images ==>
        docker.containers == old(docker).containers[id := Container(image, false)]
      ensures docker.containers - {id} == old(docker).containers
    {
      ghost var before := docker;
      var (w1, created) := ContainerCreate(docker, id, image, f.create);
      docker := w1;
      assert before.containers[id := Container(image, false)] - {id} == before.containers;
      assert before.containers - {id} == before.containers;
      if created != Done {
        return "", false;
      }
      ok := SpecCreateContainerSetup(id, gen, f);
      assert docker.containers - {id} == before.containers;
      if !ok {
        KillAndRemove(docker, id, f.kill, f.remove);
        docker := ContainerKill(docker, id, f.kill).0;
        docker := ContainerRemove(docker, id, f.remove).0;
        return "", false;
      }
      containerID := id;
    }

    /** specCreate. `id` is the identifier that Docker will choose for the container, `built` the
        one that the build will choose for the image. On success there is one container more, and
        it is stopped. On failure after the image exists, if the requests that undo are answered,
        neither the container nor the image is left, unless the container was created although the
        request for it failed, or an older container holds the image. */
    method SpecCreate(gen: Option<GenerateOutput>, tag: string, built: string, id: string, f: CreateFaults)
      returns (imageID: string, containerID: string, ok: bool)
      requires id !in docker.containers && (gen.Some? ==> f.build.actions == gen.value.postBuild)
      modifies this`docker
      ensures ok <==>
        && ImageMade(gen, f) && f.create == f.start == f.disconnect == f.stop == Answered
        && R.EveryUnitRan(A.Ordered(gen.value.postBuild), f.build.events)
      ensures ok ==> containerID == id
      ensures ImageMade(gen, f) ==> imageID == if gen.value.imageName != "" then tag else built
      ensures ok ==>
        docker == World(old(docker).containers[id := Container(imageID, false)], old(docker).images + {imageID})
      ensures !ok ==> containerID == ""
      ensures !ImageMade(gen, f) ==> !ok && imageID == "" && docker.containers == old(docker).containers
      ensures !ok && ImageMade(gen, f) && f.kill == f.remove == f.image == Answered ==>
        && (docker.containers == old(docker).containers <==> f.create != Unanswered(true))
        && (imageID !in docker.images <==> f.create != Unanswered(true) && !Uses(old(docker), imageID, false))
        && docker.images - {imageID} == old(docker).images - {imageID}
    {
      imageID, containerID, ok := "", "", false;
      if gen == None || (gen.value.imageName == "" && gen.value.dockerfile == "") {
        return;
      }
      ghost var before := docker;
      // An existing image is tagged; else the Dockerfile is built.
      var image := if gen.value.imageName != "" then tag else built;
      var (w1, made) := ImageMake(docker, image, f.make);
      docker := w1;
      if made != Done {
        return;
      }
      imageID := image;
      containerID, ok := SpecCreateContainer(id, imageID, gen.value, f);
      if !ok {
        docker := ImageRemove(docker, imageID, f.image).0;
      }
    }
  }

  // ---------------------------------------------------------------- creation

  /** What the assignment's script asks for, as far as it matters here. */
  datatype GenerateOutput = GenerateOutput(imageName: string, dockerfile: string, postBuild: seq<A.Action>)

  datatype CreateFaults = CreateFaults(
    make: Fault, create: Fault, start: Fault, build: Build, disconnect: Fault, stop: Fault,
    kill: Fault, remove: Fault, image: Fault)

  /** A call of PerformActions that has returned: its actions, what happened, and from which event
      on the context was cancelled. */
  datatype BuildRun = BuildRun(actions: seq<A.Action>, events: seq<A.Event>, cancelAt: nat)

  type Build = b: BuildRun | Finished(b) witness BuildRun([], [], 0)

  predicate Finished(b: BuildRun) {
    var start := A.Spawn(A.Ordered(b.actions));
    R.Valid(start, b.events, b.cancelAt) && A.Status(R.Run(start, b.events, b.cancelAt)).Some?
  }

  /** PerformActions returned nil. */
  predicate Built(b: Build) {
    A.Status(R.Run(A.Spawn(A.Ordered(b.actions)), b.events, b.cancelAt)) == Some(A.Nil)
  }

  lemma BuiltIff(b: Build)
    ensures Built(b) <==> R.EveryUnitRan(A.Ordered(b.actions), b.events)
  {
    R.ReturnIsFinal(A.Ordered(b.actions), b.events, b.cancelAt);
  }

  /** The script ran and named an image or gave a Dockerfile, and tagging or building worked. */
  predicate ImageMade(gen: Option<GenerateOutput>, f: CreateFaults) {
    gen.Some? && (gen.value.imageName != "" || gen.value.dockerfile != "") && f.make == Answered
  }

  // ---------------------------------------------------------------- cleanup

  type Query = (string, L.Row) -> bool

  function Selected(rows: map<string, L.Row>, query: Query): set<string> {
    set n | n in rows && query(n, rows[n])
  }

  lemma SelectedNext(rows: map<string, L.Row>, rest: map<string, L.Row>, query: Query, name: string)
    requires name in rest && rest.Keys <= rows.Keys
    ensures Selected(rows, query) - (rest - {name}).Keys
         == Selected(rows, query) - rest.Keys + if query(name, rows[name]) then {name} else {}
  {
  }

  /** The identifiers of the first `k`. */
  ghost function Ids(batch: seq<Instance>, k: nat): set<string>
    requires k <= |batch|
  {
    if k == 0 then {} else Ids(batch, k - 1) + {batch[k - 1].id}
  }

  lemma {:induction false} IdsAppend(batch: seq<Instance>, x: Instance, k: nat)
    requires k <= |batch|
    ensures Ids(batch + [x], k) == Ids(batch, k)
  {
    if k > 0 { IdsAppend(batch, x, k - 1); }
  }

  lemma IdsSnoc(batch: seq<Instance>, x: Instance)
    ensures Ids(batch + [x], |batch + [x]|) == Ids(batch, |batch|) + {x.id}
  {
    IdsAppend(batch, x, |batch|);
  }

  lemma {:induction false} IdsHold(batch: seq<Instance>, k: nat)
    requires k <= |batch|
    ensures forall n :: n in Ids(batch, k) <==> exists i :: 0 <= i < k && batch[i].id == n
  {
    if k > 0 { IdsHold(batch, k - 1); }
  }

  lemma IdsNext(batch: seq<Instance>, k: nat)
    requires k < |batch| && forall i, j :: 0 <= i < j < |batch| ==> batch[i].id != batch[j].id
    ensures batch[k].id !in Ids(batch, k) && batch[k].id in Ids(batch, |batch|)
  {
    IdsHold(batch, k);
    IdsHold(batch, |batch|);
  }

  lemma {:induction false} IdsSize(batch: seq<Instance>, k: nat)
    requires k <= |batch| && forall i, j :: 0 <= i < j < |batch| ==> batch[i].id != batch[j].id
    ensures |Ids(batch, k)| == k
  {
    if k > 0 {
      IdsSize(batch, k - 1);
      IdsNext(batch, k - 1);
    }
  }

  /** The rows `seen` are inactive, where the update got through; all else is as it was. */
  ghost predicate Swept(rows0: map<string, L.Row>, rows: map<string, L.Row>, seen: set<string>, f: string -> Fault) {
    && rows.Keys == rows0.Keys
    && (forall n :: n in rows0 ==>
          rows[n] == L.Row(rows0[n].active && !(n in seen && f(n) != Unanswered(false)),
                           rows0[n].cleaned, rows0[n].expiresAt))
  }

  lemma SweptStep(rows0: map<string, L.Row>, rows: map<string, L.Row>, rows': map<string, L.Row>, seen: set<string>,
                  f: string -> Fault, x: string)
    requires Swept(rows0, rows, seen, f) && x in rows0 && x !in seen
    requires rows' == if f(x) == Unanswered(false) then rows else rows[x := rows[x].(active := false)]
    ensures Swept(rows0, rows', seen + {x}, f)
  {
  }

  /** An image of one's own is never stuck, and goes with the container. */
  lemma OwnIsRemoved(w: World, containerID: string, imageID: string)
    requires Own(w, containerID, imageID)
    ensures !Stuck(w, containerID, imageID) && imageID !in CleanWorld(w, containerID, imageID).images
  {
  }

  /** Nothing was made. */
  ghost predicate Shrunk(w: World, w': World) {
    && (forall c :: c in w'.containers ==> c in w.containers && w'.containers[c].image == w.containers[c].image)
    && w'.images <= w.images
  }

  /** No other container was made from the image. */
  ghost predicate Own(w: World, containerID: string, imageID: string) {
    forall c :: c in w.containers && w.containers[c].image == imageID ==> c == containerID
  }
}
