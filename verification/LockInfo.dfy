/**
 * Lock-info ConfigMaps under concurrency. The API server is a store that rejects an update carrying a
 * stale version; node plug-ins stage and unstage entries, lock-release handlers release locks and
 * remove entries. Every read and every update is a step of its own, in any interleaving.
 */
module LockInfo {
  import opened Wrappers
  import opened ConfigMapKeys

  // What a handler knows about a node.

  datatype Node = Node(annotated: bool, instanceId: Option<string>, internalIps: seq<string>)

  /** Does the node still carry this instance id and internal IP? */
  function VerifyEntry(node: Option<Node>, id: string, ip: string): Result<bool> {
    match node
    case None => Ok(false)
    case Some(n) =>
      if !n.annotated then Err
      else Ok(n.instanceId == Some(id) && ip in n.internalIps)
  }

  /** What set a handler to work: a node event, or the periodic sync (which may find no node). */
  datatype Trigger =
    | Created(node: Node, latest: Option<Node>)
    | Updated(newNode: Node, oldNode: Node)
    | Synced(found: Option<Node>)

  predicate ShouldRelease(t: Trigger, id: string, ip: string) {
    match t
    case Created(node, latest) =>
      VerifyEntry(Some(node), id, ip) == Ok(false) && latest.Some? && VerifyEntry(latest, id, ip) == Ok(false)
    case Updated(newNode, oldNode) =>
      VerifyEntry(Some(newNode), id, ip) == Ok(false) && VerifyEntry(Some(oldNode), id, ip) == Ok(true)
    case Synced(found) =>
      VerifyEntry(found, id, ip) == Ok(false)
  }

  // The store and its clients.

  type Data = map<string, string>

  /** An object as read from the API server. */
  datatype Snapshot = Snapshot(version: nat, data: Data)

  datatype Progress =
    | Idle
    | Released(key: string)
    | Holding(key: string, latest: Snapshot)

  /** A call in flight, with the copy it works on. `since` is the length of the log when it was read. */
  datatype Actor =
    | Staging(copy: Snapshot, key: string, value: string)
    | Unstaging(copy: Snapshot, key: string)
    | Handling(copy: Snapshot, since: nat, trigger: Trigger, progress: Progress)

  datatype Writer = Stager | Unstager | Handler

  datatype Event =
    | LockReleased(actor: nat, key: string, filestoreIp: string, nodeIp: string, readAt: nat, trigger: Trigger)
    | Accepted(writer: Writer, actor: nat, key: string, before: Data, after: Data)

  datatype State = State(store: Snapshot, actors: map<nat, Actor>, log: seq<Event>)

  datatype Step =
    | BeginStage(a: nat, key: string, value: string)
    | CommitStage(a: nat)
    | BeginUnstage(a: nat, key: string)
    | CommitUnstage(a: nat)
    | BeginEvent(a: nat, trigger: Trigger)
    | ReleaseLock(a: nat, key: string)
    | FetchLatest(a: nat)
    | CommitRemoval(a: nat)
    | NextKey(a: nat)
    | Stop(a: nat)

  /** The API server's update: accepted only on the current version. */
  function Update(s: State, w: Writer, a: nat, key: string, copy: Snapshot, data: Data): State {
    if copy.version != s.store.version then s
    else s.(store := Snapshot(s.store.version + 1, data),
            log := s.log + [Accepted(w, a, key, s.store.data, data)])
  }

  function Forget(s: State, a: nat): State {
    s.(actors := s.actors - {a})
  }

  function Set(s: State, a: nat, actor: Actor): State {
    s.(actors := s.actors[a := actor])
  }

  /** One step; a step that is not enabled changes nothing. */
  function Apply(s: State, step: Step, isIp: string -> bool): State {
    match step
    case BeginStage(a, key, value) =>
      if a in s.actors then s else Set(s, a, Staging(s.store, key, value))
    case CommitStage(a) =>
      if a !in s.actors || !s.actors[a].Staging? then s
      else
        var Staging(copy, key, value) := s.actors[a];
        if key in copy.data then Forget(s, a)
        else Forget(Update(s, Stager, a, key, copy, copy.data[key := value]), a)
    case BeginUnstage(a, key) =>
      if a in s.actors then s else Set(s, a, Unstaging(s.store, key))
    case CommitUnstage(a) =>
      if a !in s.actors || !s.actors[a].Unstaging? then s
      else
        var Unstaging(copy, key) := s.actors[a];
        if key !in copy.data then Forget(s, a)
        else Forget(Update(s, Unstager, a, key, copy, copy.data - {key}), a)
    case BeginEvent(a, trigger) =>
      if a in s.actors then s else Set(s, a, Handling(s.store, |s.log|, trigger, Idle))
    case ReleaseLock(a, key) =>
      if a !in s.actors || !s.actors[a].Handling? || !s.actors[a].progress.Idle? || key !in s.actors[a].copy.data then s
      else
        var h := s.actors[a];
        var entry := ParseKey(key, isIp);
        if entry.Err? || !ShouldRelease(h.trigger, entry.value.nodeId, entry.value.nodeIp) then s
        else Set(s, a, h.(progress := Released(key)))
             .(log := s.log + [LockReleased(a, key, h.copy.data[key], entry.value.nodeIp, h.since, h.trigger)])
    case FetchLatest(a) =>
      if a !in s.actors || !s.actors[a].Handling? || !s.actors[a].progress.Released? then s
      else
        var h := s.actors[a];
        Set(s, a, h.(progress := Holding(h.progress.key, s.store)))
    case CommitRemoval(a) =>
      if a !in s.actors || !s.actors[a].Handling? || !s.actors[a].progress.Holding? then s
      else
        var h := s.actors[a];
        var Holding(key, latest) := h.progress;
        var accepted := latest.version == s.store.version;
        // A conflict sends RetryOnConflict back to a fresh read.
        Set(Update(s, Handler, a, key, latest, latest.data - {key}), a,
            h.(progress := if accepted then Idle else Released(key)))
    case NextKey(a) =>
      // A handler that cannot remove one key goes on with the next one of the same copy.
      if a !in s.actors || !s.actors[a].Handling? then s
      else Set(s, a, s.actors[a].(progress := Idle))
    case Stop(a) => Forget(s, a)
  }

  function Run(s: State, steps: seq<Step>, isIp: string -> bool): State
    decreases |steps|
  {
    if steps == [] then s else Run(Apply(s, steps[0], isIp), steps[1..], isIp)
  }

  function Start(data: Data): State {
    State(Snapshot(0, data), map[], [])
  }

  // What the accepted updates do.

  /** The change an accepted update stands for: its own key, and nothing else. */
  function Edit(e: Event, data: Data): Data {
    match e
    case LockReleased(_, _, _, _, _, _) => data
    case Accepted(w, _, key, _, after) =>
      if w == Stager && key in after then data[key := after[key]] else data - {key}
  }

  function Replay(data: Data, log: seq<Event>): Data {
    if log == [] then data else Edit(log[|log| - 1], Replay(data, log[..|log| - 1]))
  }

  /** An accepted update changed its own key only, and from the contents it found. */
  ghost predicate OwnKeyOnly(e: Event) {
    e.Accepted? ==>
      && (e.writer == Stager ==> e.key !in e.before && e.key in e.after && e.after == e.before[e.key := e.after[e.key]])
      && (e.writer != Stager ==> e.after == e.before - {e.key})
  }

  /**
   * A removal by a handler comes after that handler's successful release of a lock for the same key, and
   * the entry it finds is the one whose lock it released or, if the key was staged since the handler read
   * the ConfigMap, the one staged last.
   */
  ghost predicate ReleasedBefore(log: seq<Event>, i: nat)
    requires i < |log|
  {
    log[i].Accepted? && log[i].writer == Handler ==> exists j :: 0 <= j < i && Entitles(log, j, i)
  }

  /** The release at j is the one behind the removal at i, and accounts for the entry removed. */
  ghost predicate Entitles(log: seq<Event>, j: nat, i: nat)
    requires j < i < |log| && log[i].Accepted?
  {
    var e, r := log[i], log[j];
    && IsReleaseOf(r, e.actor, e.key) && r.readAt <= j
    && (e.key in e.before ==> e.before[e.key] == Expected(log, r.readAt, i, e.key, r.filestoreIp))
  }

  ghost predicate IsReleaseOf(r: Event, a: nat, key: string) {
    r.LockReleased? && r.actor == a && r.key == key
  }

  predicate IsStageOf(e: Event, key: string) {
    e.Accepted? && e.writer == Stager && e.key == key && key in e.after
  }

  /** The entry that the last accepted stage of the key in [from, until) left, if there is one. */
  function LastStaged(log: seq<Event>, from: nat, until: nat, key: string): Option<string>
    requires from <= until <= |log|
  {
    if from == until then None
    else if IsStageOf(log[until - 1], key) then Some(log[until - 1].after[key])
    else LastStaged(log, from, until - 1, key)
  }

  function Expected(log: seq<Event>, from: nat, until: nat, key: string, read: string): string
    requires from <= until <= |log|
  {
    var last := LastStaged(log, from, until, key);
    if last.Some? then last.value else read
  }

  lemma {:induction false} LastStagedOfLonger(log: seq<Event>, e: Event, from: nat, until: nat, key: string)
    requires from <= until <= |log|
    ensures LastStaged(log + [e], from, until, key) == LastStaged(log, from, until, key)
    decreases until
  {
    if from != until {
      LastStagedOfLonger(log, e, from, until - 1, key);
    }
  }

  ghost predicate CurrentIfFresh(s: State, copy: Snapshot) {
    copy.version <= s.store.version && (copy.version == s.store.version ==> copy.data == s.store.data)
  }

  /** The release that entitles a handler to remove `key`, for the entry it read at `readAt`. */
  ghost predicate HasRelease(log: seq<Event>, a: nat, key: string, filestoreIp: string, readAt: nat) {
    exists j :: 0 <= j < |log| && IsReleaseOf(log[j], a, key)
                && log[j].filestoreIp == filestoreIp && log[j].readAt == readAt <= j
  }

  /** Entries the handler read are as it read them, or as staged last since, or gone. */
  ghost predicate ReadStands(s: State, copy: Data, since: nat)
    requires since <= |s.log|
  {
    forall k | k in copy && k in s.store.data :: s.store.data[k] == Expected(s.log, since, |s.log|, k, copy[k])
  }

  ghost predicate ActorOk(s: State, a: nat)
    requires a in s.actors
  {
    var actor := s.actors[a];
    && CurrentIfFresh(s, actor.copy)
    && (actor.Handling? ==>
          && actor.since <= |s.log|
          && ReadStands(s, actor.copy.data, actor.since)
          && (!actor.progress.Idle? ==>
                && actor.progress.key in actor.copy.data
                && HasRelease(s.log, a, actor.progress.key, actor.copy.data[actor.progress.key], actor.since))
          && (actor.progress.Holding? ==> CurrentIfFresh(s, actor.progress.latest)))
  }

  ghost predicate Inv(s: State, initial: Data) {
    && (forall a | a in s.actors :: ActorOk(s, a))
    && (forall i | 0 <= i < |s.log| :: OwnKeyOnly(s.log[i]) && ReleasedBefore(s.log, i))
    && s.store.data == Replay(initial, s.log)
  }

  /** Appending an event, with the store changed as the event says, keeps every actor's facts. */
  lemma ActorSurvives(s: State, t: State, e: Event, a: nat)
    requires a in s.actors && ActorOk(s, a) && a in t.actors && t.actors[a] == s.actors[a]
    requires t.log == s.log + [e] && OwnKeyOnly(e)
    requires e.LockReleased? ==> t.store == s.store
    requires e.Accepted? ==> e.before == s.store.data && t.store == Snapshot(s.store.version + 1, e.after)
    ensures ActorOk(t, a)
  {
    var actor := s.actors[a];
    if actor.Handling? {
      forall k | k in actor.copy.data && k in t.store.data
        ensures t.store.data[k] == Expected(t.log, actor.since, |t.log|, k, actor.copy.data[k])
      {
        LastStagedOfLonger(s.log, e, actor.since, |s.log|, k);
        assert t.log[|t.log| - 1] == e;
      }
      if !actor.progress.Idle? {
        var ip := actor.copy.data[actor.progress.key];
        var j :| 0 <= j < |s.log| && IsReleaseOf(s.log[j], a, actor.progress.key)
          && s.log[j].filestoreIp == ip && s.log[j].readAt == actor.since <= j;
        assert IsReleaseOf(t.log[j], a, actor.progress.key);
      }
    }
  }

  lemma EarlierEventsStand(log: seq<Event>, e: Event)
    requires forall i | 0 <= i < |log| :: OwnKeyOnly(log[i]) && ReleasedBefore(log, i)
    ensures var longer := log + [e];
            forall i | 0 <= i < |log| :: OwnKeyOnly(longer[i]) && ReleasedBefore(longer, i)
  {
    var longer := log + [e];
    forall i | 0 <= i < |log| ensures ReleasedBefore(longer, i) {
      if log[i].Accepted? && log[i].writer == Handler {
        var j :| 0 <= j < i && Entitles(log, j, i);
        LastStagedOfLonger(log, e, log[j].readAt, i, log[i].key);
        assert Entitles(longer, j, i);
      }
    }
  }

  /** An accepted event extends the replay by its own edit. */
  lemma ReplayExtends(initial: Data, log: seq<Event>, e: Event)
    requires OwnKeyOnly(e)
    requires e.Accepted? ==> e.before == Replay(initial, log)
    ensures Replay(initial, log + [e]) == if e.Accepted? then e.after else Replay(initial, log)
  {
    assert (log + [e])[..|log|] == log;
  }

  /** An accepted update by a client whose copy is fresh keeps the invariant for every other client. */
  lemma UpdateKeeps(s: State, initial: Data, w: Writer, a: nat, key: string, copy: Snapshot, data: Data)
    requires Inv(s, initial) && CurrentIfFresh(s, copy) && copy.version == s.store.version
    requires var e := Accepted(w, a, key, copy.data, data); OwnKeyOnly(e) && ReleasedBefore(s.log + [e], |s.log|)
    ensures Inv(Update(s, w, a, key, copy, data), initial)
  {
    var e := Accepted(w, a, key, copy.data, data);
    var t := Update(s, w, a, key, copy, data);
    assert t.log == s.log + [e];
    forall b | b in t.actors ensures ActorOk(t, b) { ActorSurvives(s, t, e, b); }
    EarlierEventsStand(s.log, e);
    ReplayExtends(initial, s.log, e);
  }

  lemma ReleaseKeeps(s: State, initial: Data, a: nat, key: string, isIp: string -> bool)
    requires Inv(s, initial)
    ensures Inv(Apply(s, ReleaseLock(a, key), isIp), initial)
  {
    var t := Apply(s, ReleaseLock(a, key), isIp);
    if t != s {
      var h := s.actors[a];
      var e := t.log[|s.log|];
      var mid := s.(log := s.log + [e]);
      assert t == Set(mid, a, h.(progress := Released(key)));
      forall b | b in t.actors ensures ActorOk(t, b) {
        ActorSurvives(s, mid, e, b);
        if b == a { assert IsReleaseOf(t.log[|s.log|], a, key); }
      }
      EarlierEventsStand(s.log, e);
      ReplayExtends(initial, s.log, e);
    }
  }

  lemma RemovalKeeps(s: State, initial: Data, a: nat, isIp: string -> bool)
    requires Inv(s, initial)
    ensures Inv(Apply(s, CommitRemoval(a), isIp), initial)
  {
    var t := Apply(s, CommitRemoval(a), isIp);
    if a in s.actors && s.actors[a].Handling? && s.actors[a].progress.Holding? {
      assert ActorOk(s, a);
      var h := s.actors[a];
      var Holding(key, latest) := h.progress;
      if latest.version == s.store.version {
        RemovalEntitled(s, initial, a);
        UpdateKeeps(s, initial, Handler, a, key, latest, latest.data - {key});
        var mid := Update(s, Handler, a, key, latest, latest.data - {key});
        assert t == Set(mid, a, h.(progress := Idle));
        ProgressKeeps(mid, initial, a, Idle);
      } else {
        assert t == Set(s, a, h.(progress := Released(key)));
        ProgressKeeps(s, initial, a, Released(key));
      }
    }
  }

  /** A handler that goes back to having released, or to nothing, is still in order. */
  lemma ProgressKeeps(s: State, initial: Data, a: nat, p: Progress)
    requires Inv(s, initial) && a in s.actors && s.actors[a].Handling?
    requires p.Idle? || (s.actors[a].progress.Holding? && p == Released(s.actors[a].progress.key))
    ensures Inv(Set(s, a, s.actors[a].(progress := p)), initial)
  {
    var t := Set(s, a, s.actors[a].(progress := p));
    forall b | b in t.actors ensures ActorOk(t, b) { assert ActorOk(s, b); }
  }

  /** The entry about to be removed is one whose release the log shows. */
  lemma RemovalEntitled(s: State, initial: Data, a: nat)
    requires Inv(s, initial) && a in s.actors && s.actors[a].Handling? && s.actors[a].progress.Holding?
    requires s.actors[a].progress.latest.version == s.store.version
    ensures var Holding(key, latest) := s.actors[a].progress;
            ReleasedBefore(s.log + [Accepted(Handler, a, key, latest.data, latest.data - {key})], |s.log|)
  {
    assert ActorOk(s, a);
    var h := s.actors[a];
    var Holding(key, latest) := h.progress;
    var e := Accepted(Handler, a, key, latest.data, latest.data - {key});
    var j :| 0 <= j < |s.log| && IsReleaseOf(s.log[j], a, key)
      && s.log[j].filestoreIp == h.copy.data[key] && s.log[j].readAt == h.since <= j;
    LastStagedOfLonger(s.log, e, h.since, |s.log|, key);
    assert Entitles(s.log + [e], j, |s.log|);
  }

  lemma ForgetKeeps(s: State, initial: Data, a: nat)
    requires Inv(s, initial)
    ensures Inv(Forget(s, a), initial)
  {
    forall b | b in Forget(s, a).actors ensures ActorOk(Forget(s, a), b) { assert ActorOk(s, b); }
  }

  lemma StagingKeeps(s: State, initial: Data, step: Step, isIp: string -> bool)
    requires Inv(s, initial) && (step.CommitStage? || step.CommitUnstage?)
    ensures Inv(Apply(s, step, isIp), initial)
  {
    var a := step.a;
    if a in s.actors && step.CommitStage? && s.actors[a].Staging? {
      assert ActorOk(s, a);
      var Staging(copy, key, value) := s.actors[a];
      if key !in copy.data && copy.version == s.store.version {
        UpdateKeeps(s, initial, Stager, a, key, copy, copy.data[key := value]);
        ForgetKeeps(Update(s, Stager, a, key, copy, copy.data[key := value]), initial, a);
      } else {
        ForgetKeeps(s, initial, a);
      }
    } else if a in s.actors && step.CommitUnstage? && s.actors[a].Unstaging? {
      assert ActorOk(s, a);
      var Unstaging(copy, key) := s.actors[a];
      if key in copy.data && copy.version == s.store.version {
        UpdateKeeps(s, initial, Unstager, a, key, copy, copy.data - {key});
        ForgetKeeps(Update(s, Unstager, a, key, copy, copy.data - {key}), initial, a);
      } else {
        ForgetKeeps(s, initial, a);
      }
    }
  }

  /** Reads and new calls only take fresh copies. */
  lemma ReadKeeps(s: State, initial: Data, step: Step, isIp: string -> bool)
    requires Inv(s, initial)
    requires step.BeginStage? || step.BeginUnstage? || step.BeginEvent? || step.FetchLatest?
    ensures Inv(Apply(s, step, isIp), initial)
  {
    var t := Apply(s, step, isIp);
    assert t.log == s.log && t.store == s.store;
    forall b | b in t.actors ensures ActorOk(t, b) {
      assert b in s.actors ==> ActorOk(s, b);
    }
  }

  lemma {:induction false} RunKeeps(s: State, initial: Data, steps: seq<Step>, isIp: string -> bool)
    requires Inv(s, initial)
    ensures Inv(Run(s, steps, isIp), initial)
    decreases |steps|
  {
    if steps != [] {
      var step := steps[0];
      match step {
        case ReleaseLock(a, key) => ReleaseKeeps(s, initial, a, key, isIp);
        case CommitRemoval(a) => RemovalKeeps(s, initial, a, isIp);
        case NextKey(a) => if a in s.actors && s.actors[a].Handling? { ProgressKeeps(s, initial, a, Idle); }
        case Stop(a) => ForgetKeeps(s, initial, a);
        case CommitStage(_) => StagingKeeps(s, initial, step, isIp);
        case CommitUnstage(_) => StagingKeeps(s, initial, step, isIp);
        case _ => ReadKeeps(s, initial, step, isIp);
      }
      RunKeeps(Apply(s, step, isIp), initial, steps[1..], isIp);
    }
  }

  /**
   * Updates lose nothing, under every interleaving: each accepted update altered at most its own key
   * of what was stored, and the stored contents are the replay of exactly the accepted updates.
   */
  lemma NothingLost(initial: Data, steps: seq<Step>, isIp: string -> bool)
    ensures
      var s := Run(Start(initial), steps, isIp);
      && s.store.data == Replay(initial, s.log)
      && forall i, k | 0 <= i < |s.log| && s.log[i].Accepted? && k != s.log[i].key ::
           && (k in s.log[i].after <==> k in s.log[i].before)
           && (k in s.log[i].before ==> s.log[i].after[k] == s.log[i].before[k])
  {
    RunKeeps(Start(initial), initial, steps, isIp);
    var s := Run(Start(initial), steps, isIp);
    assert forall i | 0 <= i < |s.log| :: OwnKeyOnly(s.log[i]);
  }

  /**
   * No key is removed by a handler without an earlier successful release for that key, under every
   * interleaving. The entry removed is the one whose lock was released exactly when the last accepted
   * stage of the key since the handler read the ConfigMap, if there is one, carried that very entry.
   */
  lemma RemovalsWereReleased(initial: Data, steps: seq<Step>, isIp: string -> bool)
    ensures
      var log := Run(Start(initial), steps, isIp).log;
      forall i | 0 <= i < |log| && log[i].Accepted? && log[i].writer == Handler ::
        exists j :: 0 <= j < i && IsReleaseOf(log[j], log[i].actor, log[i].key) && log[j].readAt <= j
                    && (log[i].key in log[i].before ==>
                          (log[i].before[log[i].key] == log[j].filestoreIp
                           <==> LastStaged(log, log[j].readAt, i, log[i].key) in {None, Some(log[j].filestoreIp)}))
  {
    RunKeeps(Start(initial), initial, steps, isIp);
    var log := Run(Start(initial), steps, isIp).log;
    forall i | 0 <= i < |log| && log[i].Accepted? && log[i].writer == Handler
      ensures exists j :: 0 <= j < i && IsReleaseOf(log[j], log[i].actor, log[i].key) && log[j].readAt <= j
                    && (log[i].key in log[i].before ==>
                          (log[i].before[log[i].key] == log[j].filestoreIp
                           <==> LastStaged(log, log[j].readAt, i, log[i].key) in {None, Some(log[j].filestoreIp)}))
    {
      assert ReleasedBefore(log, i);
      var j :| 0 <= j < i && Entitles(log, j, i);
    }
  }

  // When locks are released.

  /** The node's annotations can be read, and it is, or is not, the one with this id and address. */
  predicate IsNode(n: Node, id: string, ip: string) {
    n.annotated && n.instanceId == Some(id) && ip in n.internalIps
  }

  predicate IsOtherNode(n: Node, id: string, ip: string) {
    n.annotated && (n.instanceId != Some(id) || ip !in n.internalIps)
  }

  /**
   * The node with this id and address is gone, as far as what set the handler to work tells. A new node of
   * its name: neither the new node nor the latest one, which was found, is that node. A changed node: it was
   * that node and is no longer. A sync: there is no node of its name, or it is another one.
   */
  predicate NodeIsGone(t: Trigger, id: string, ip: string) {
    match t
    case Created(node, latest) => IsOtherNode(node, id, ip) && latest.Some? && IsOtherNode(latest.value, id, ip)
    case Updated(newNode, oldNode) => IsOtherNode(newNode, id, ip) && IsNode(oldNode, id, ip)
    case Synced(found) => found.None? || IsOtherNode(found.value, id, ip)
  }

  /** The lock of this event is that of an entry whose node is gone, and of the Filestore and address in the entry. */
  ghost predicate RightlyReleased(e: Event, isIp: string -> bool) {
    e.LockReleased? ==>
      var entry := ParseKey(e.key, isIp);
      entry.Ok? && e.nodeIp == entry.value.nodeIp && NodeIsGone(e.trigger, entry.value.nodeId, entry.value.nodeIp)
  }

  /** A handler that is free releases the lock of an entry it read exactly if the entry's node is gone. */
  lemma ReleasedIffGone(s: State, a: nat, key: string, isIp: string -> bool)
    requires a in s.actors && s.actors[a].Handling? && s.actors[a].progress.Idle? && key in s.actors[a].copy.data
    ensures
      var h, entry := s.actors[a], ParseKey(key, isIp);
      Apply(s, ReleaseLock(a, key), isIp).log
      == s.log + if entry.Ok? && NodeIsGone(h.trigger, entry.value.nodeId, entry.value.nodeIp)
                 then [LockReleased(a, key, h.copy.data[key], entry.value.nodeIp, h.since, h.trigger)] else []
  {
  }

  /** Over every run, only locks of entries whose node is gone are released. */
  lemma ReleasesWereDue(initial: Data, steps: seq<Step>, isIp: string -> bool)
    ensures forall e | e in Run(Start(initial), steps, isIp).log :: RightlyReleased(e, isIp)
  {
    RunReleases(Start(initial), steps, isIp);
  }

  lemma {:induction false} RunReleases(s: State, steps: seq<Step>, isIp: string -> bool)
    requires forall e | e in s.log :: RightlyReleased(e, isIp)
    ensures forall e | e in Run(s, steps, isIp).log :: RightlyReleased(e, isIp)
    decreases |steps|
  {
    if steps != [] {
      StepReleases(s, steps[0], isIp);
      RunReleases(Apply(s, steps[0], isIp), steps[1..], isIp);
    }
  }

  lemma StepReleases(s: State, step: Step, isIp: string -> bool)
    requires forall e | e in s.log :: RightlyReleased(e, isIp)
    ensures forall e | e in Apply(s, step, isIp).log :: RightlyReleased(e, isIp)
  {
    var t := Apply(s, step, isIp);
    if step.ReleaseLock? && t != s {
      ReleasedIffGone(s, step.a, step.key, isIp);
    } else {
      assert t.log == s.log || (|t.log| == |s.log| + 1 && t.log == s.log + [t.log[|s.log|]] && t.log[|s.log|].Accepted?);
    }
  }

  // What undisturbed calls come to.

  /** A staging leaves an entry that is there, and adds one that is not; nothing else changes. */
  lemma StagedAlone(s: State, a: nat, key: string, value: string, isIp: string -> bool)
    requires a !in s.actors
    ensures var t := Run(s, [BeginStage(a, key, value), CommitStage(a)], isIp);
            t.store.data == (if key in s.store.data then s.store.data else s.store.data[key := value]) && t.actors == s.actors
  {
    RunTwo(s, BeginStage(a, key, value), CommitStage(a), isIp);
    assert s.actors[a := Staging(s.store, key, value)] - {a} == s.actors;
  }

  lemma UnstagedAlone(s: State, a: nat, key: string, isIp: string -> bool)
    requires a !in s.actors
    ensures var t := Run(s, [BeginUnstage(a, key), CommitUnstage(a)], isIp);
            t.store.data == s.store.data - {key} && t.actors == s.actors
  {
    RunTwo(s, BeginUnstage(a, key), CommitUnstage(a), isIp);
    assert s.actors[a := Unstaging(s.store, key)] - {a} == s.actors;
    assert key !in s.store.data ==> s.store.data - {key} == s.store.data;
  }

  /** A handler whose removal is refused for an outdated copy reads again, and then removes the entry. */
  lemma RefusedRemovalIsRetried(s: State, a: nat, isIp: string -> bool)
    requires a in s.actors && s.actors[a].Handling? && s.actors[a].progress.Holding?
    ensures var key := s.actors[a].progress.key;
            Run(s, [CommitRemoval(a), FetchLatest(a), CommitRemoval(a)], isIp).store.data
            == if s.actors[a].progress.latest.version == s.store.version then s.actors[a].progress.latest.data - {key}
               else s.store.data - {key}
  {
    var first, rest := CommitRemoval(a), [FetchLatest(a), CommitRemoval(a)];
    assert [first, FetchLatest(a), CommitRemoval(a)][1..] == rest;
    RunTwo(Apply(s, first, isIp), FetchLatest(a), CommitRemoval(a), isIp);
  }

  lemma {:induction false} RunAppend(s: State, a: seq<Step>, b: seq<Step>, isIp: string -> bool)
    ensures Run(s, a + b, isIp) == Run(Run(s, a, isIp), b, isIp)
    decreases |a|
  {
    if a == [] {
      assert a + b == b;
    } else {
      assert (a + b)[1..] == a[1..] + b;
      RunAppend(Apply(s, a[0], isIp), a[1..], b, isIp);
    }
  }

  lemma RunTwo(s: State, a: Step, b: Step, isIp: string -> bool)
    ensures Run(s, [a, b], isIp) == Apply(Apply(s, a, isIp), b, isIp)
  {
    assert [a, b][1..] == [b];
    assert Run(Apply(s, a, isIp), [b], isIp) == Apply(Apply(s, a, isIp), b, isIp);
  }

  /** Unstaging the only entry. */
  lemma UnstageRun(s: State, key: string, ip: string, isIp: string -> bool)
    requires s.store.data == map[key := ip] && 1 !in s.actors
    ensures Run(s, [BeginUnstage(1, key), CommitUnstage(1)], isIp)
         == s.(store := Snapshot(s.store.version + 1, map[]), log := s.log + [Accepted(Unstager, 1, key, map[key := ip], map[])])
  {
    RunTwo(s, BeginUnstage(1, key), CommitUnstage(1), isIp);
    assert s.store.data - {key} == map[];
    assert s.actors[1 := Unstaging(s.store, key)] - {1} == s.actors;
  }

  /** Staging an entry in an empty ConfigMap. */
  lemma StageRun(s: State, key: string, ip: string, isIp: string -> bool)
    requires s.store.data == map[] && 1 !in s.actors
    ensures Run(s, [BeginStage(1, key, ip), CommitStage(1)], isIp)
         == s.(store := Snapshot(s.store.version + 1, map[key := ip]), log := s.log + [Accepted(Stager, 1, key, map[], map[key := ip])])
  {
    RunTwo(s, BeginStage(1, key, ip), CommitStage(1), isIp);
    assert s.actors[1 := Staging(s.store, key, ip)] - {1} == s.actors;
  }

  lemma ReleaseRun(key: string, ip: string, isIp: string -> bool)
    requires ParseKey(key, isIp).Ok?
    ensures
      var h := Handling(Snapshot(0, map[key := ip]), 0, Synced(None), Released(key));
      Run(Start(map[key := ip]), [BeginEvent(0, Synced(None)), ReleaseLock(0, key)], isIp)
      == State(Snapshot(0, map[key := ip]), map[0 := h], [LockReleased(0, key, ip, ParseKey(key, isIp).value.nodeIp, 0, Synced(None))])
  {
    RunTwo(Start(map[key := ip]), BeginEvent(0, Synced(None)), ReleaseLock(0, key), isIp);
  }

  lemma RemovalRun(s: State, key: string, isIp: string -> bool)
    requires 0 in s.actors && s.actors[0].Handling? && s.actors[0].progress == Released(key)
    ensures
      var t := Run(s, [FetchLatest(0), CommitRemoval(0)], isIp);
      t.store.data == s.store.data - {key}
      && t.log == s.log + [Accepted(Handler, 0, key, s.store.data, s.store.data - {key})]
  {
    RunTwo(s, FetchLatest(0), CommitRemoval(0), isIp);
  }

  /**
   * The exception is real: a handler that released the lock on one Filestore removes an entry staged
   * meanwhile for another, whose lock nobody released.
   */
  lemma RestagedEntryRemoved(key: string, ip: string, other: string, isIp: string -> bool) returns (steps: seq<Step>)
    requires ParseKey(key, isIp).Ok?
    ensures
      var s := Run(Start(map[key := ip]), steps, isIp);
      && s.store.data == map[]
      && (exists e | e in s.log :: e.Accepted? && e.writer == Handler && e.before == map[key := other])
      && (forall e | e in s.log && e.LockReleased? :: e.filestoreIp == ip)
  {
    var start := Start(map[key := ip]);
    var release := [BeginEvent(0, Synced(None)), ReleaseLock(0, key)];
    var unstage := [BeginUnstage(1, key), CommitUnstage(1)];
    var stage := [BeginStage(1, key, other), CommitStage(1)];
    var removal := [FetchLatest(0), CommitRemoval(0)];
    steps := release + (unstage + (stage + removal));
    var s1 := Run(start, release, isIp);
    var s2 := Run(s1, unstage, isIp);
    var s3 := Run(s2, stage, isIp);
    var s4 := Run(s3, removal, isIp);
    RunAppend(start, release, unstage + (stage + removal), isIp);
    RunAppend(s1, unstage, stage + removal, isIp);
    RunAppend(s2, stage, removal, isIp);
    ReleaseRun(key, ip, isIp);
    UnstageRun(s1, key, ip, isIp);
    StageRun(s2, key, other, isIp);
    RemovalRun(s3, key, isIp);
    FourEvents(LockReleased(0, key, ip, ParseKey(key, isIp).value.nodeIp, 0, Synced(None)),
               Accepted(Unstager, 1, key, map[key := ip], map[]),
               Accepted(Stager, 1, key, map[], map[key := other]),
               Accepted(Handler, 0, key, map[key := other], map[key := other] - {key}));
  }

  lemma FourEvents(a: Event, b: Event, c: Event, d: Event)
    ensures var log := [a] + [b] + [c] + [d];
            d in log && forall e | e in log :: e == a || e == b || e == c || e == d
  {
    assert ([a] + [b] + [c] + [d])[3] == d;
  }
}
