/** One node under every sequence of events: any message with any contents from any sender,
    delivered, dropped or repeated, mixed with local publishing and workspace scans. */
module MeshIntegrity {
  import opened Wrappers
  import opened ArtifactStore
  import opened MeshNode
  import RateLimit

  datatype Event =
    | Deliver(sender: NodeId, msg: Message, now: real)
    | Publish(content: Bytes, meta: MetaData)
    | Ingest(content: Bytes, meta: MetaData)
    | Start(mission: string, objective: string, required: int)
    | Disconnect(peer: NodeId)
    | Agents(free: nat)

  function Step(hash: HashFn, n: NodeState, e: Event): (NodeState, seq<Out>) {
    match e
    case Deliver(sender, msg, now) => Receive(hash, n, sender, msg, now)
    case Publish(content, meta) => MeshNode.Publish(hash, n, content, meta)
    case Ingest(content, meta) =>
      if content == [] || hash(content) in n.store.catalog then (n, []) else MeshNode.Publish(hash, n, content, meta)
    case Start(id, objective, required) => StartMission(n, id, objective, required)
    case Disconnect(p) => (n.(peers := Without(n.peers, p)), [])
    case Agents(free) => (n.(agents := free), [])
  }

  function After(hash: HashFn, n: NodeState, events: seq<Event>): NodeState {
    if events == [] then n
    else Step(hash, After(hash, n, events[..|events| - 1]), events[|events| - 1]).0
  }

  // ----- one step -----

  /** An answer to a request is consumed. */
  ghost predicate Answered(hash: HashFn, n: NodeState, e: Event, h: Hash) {
    && e.Deliver? && e.msg.ArtifactResponse? && e.msg.hash == h
    && h in n.pending && h !in Step(hash, n, e).0.pending
  }

  ghost predicate Asks(hash: HashFn, n: NodeState, e: Event, h: Hash) {
    Reply(ArtifactRequest(h)) in Step(hash, n, e).1
  }

  /** The store changes only by publishing or by an answer to a request, and an answer
      adds at most the artifact that was asked for. */
  lemma StoreChanges(hash: HashFn, n: NodeState, e: Event)
    ensures var t := Step(hash, n, e).0.store;
            || t == n.store
            || (e.Publish? && t == Put(hash, n.store, e.content, e.meta))
            || (e.Ingest? && t == Put(hash, n.store, e.content, e.meta))
            || (e.Deliver? && e.msg.ArtifactResponse? && Answered(hash, n, e, e.msg.hash) && e.msg.meta.Some?
                && hash(e.msg.content) == e.msg.hash && t == Put(hash, n.store, e.msg.content, e.msg.meta.value))
  {
  }

  /** The bytes an event brings to the node. */
  predicate Brings(e: Event, content: Bytes) {
    match e
    case Publish(bytes, _) => bytes == content
    case Ingest(bytes, _) => bytes == content
    case Deliver(_, msg, _) => msg.ArtifactResponse? && msg.content == content
    case _ => false
  }

  lemma StepKeepsIntact(hash: HashFn, n: NodeState, e: Event)
    requires Intact(hash, n.store)
    ensures Intact(hash, Step(hash, n, e).0.store)
    ensures (forall content | Brings(e, content) :: Fits(hash, n.store, content)) && SizesAgree(n.store) ==> SizesAgree(Step(hash, n, e).0.store)
  {
    StoreChanges(hash, n, e);
    if e.Publish? || e.Ingest? {
      PutKeepsIntact(hash, n.store, e.content, e.meta);
    } else if e.Deliver? && e.msg.ArtifactResponse? && e.msg.meta.Some? {
      PutKeepsIntact(hash, n.store, e.msg.content, e.msg.meta.value);
    }
  }

  lemma StepKeepsFiles(hash: HashFn, n: NodeState, e: Event, h: Hash)
    requires h in n.store.files
    ensures h in Step(hash, n, e).0.store.files && Step(hash, n, e).0.store.files[h] == n.store.files[h]
  {
    StoreChanges(hash, n, e);
  }

  /** A hash becomes pending only in a step that sends the request for it. */
  lemma PendingIsAsked(hash: HashFn, n: NodeState, e: Event, h: Hash)
    requires h !in n.pending && h in Step(hash, n, e).0.pending
    ensures Asks(hash, n, e, h)
  {
    if e.msg.CatalogSync? {
      var wanted := Wanted(n.store.catalog.Keys, e.msg.entries);
      var i :| 0 <= i < |wanted| && wanted[i] == h;
      assert Requests(wanted)[i] == Reply(ArtifactRequest(h));
    }
  }

  // ----- whole runs -----

  /** `contents` holds all the bytes stored at the start and brought by the events. */
  ghost predicate Covers(contents: iset<Bytes>, n: NodeState, events: seq<Event>) {
    && (forall h | h in n.store.files :: n.store.files[h] in contents)
    && (forall e, content | e in events && Brings(e, content) :: content in contents)
  }

  lemma {:induction false} StoredIsCovered(hash: HashFn, n: NodeState, events: seq<Event>, contents: iset<Bytes>)
    requires Covers(contents, n, events)
    ensures forall h | h in After(hash, n, events).store.files :: After(hash, n, events).store.files[h] in contents
  {
    hide Step;
    if events != [] {
      var before, e := events[..|events| - 1], events[|events| - 1];
      StoredIsCovered(hash, n, before, contents);
      StoreChanges(hash, After(hash, n, before), e);
      assert e in events;
    }
  }

  /** On every run the files hash to their names, every catalog entry is filed under its own hash, and, if the
      contents that occur do not collide, states the size of the stored bytes. */
  lemma {:induction false} IntegrityOnEveryRun(hash: HashFn, n: NodeState, events: seq<Event>, contents: iset<Bytes>)
    requires Intact(hash, n.store)
    ensures Intact(hash, After(hash, n, events).store)
    ensures CollisionFree(hash, contents) && Covers(contents, n, events) && SizesAgree(n.store) ==> SizesAgree(After(hash, n, events).store)
  {
    hide Step, SizesAgree, Brings, Intact;
    if events != [] {
      var before, e := events[..|events| - 1], events[|events| - 1];
      IntegrityOnEveryRun(hash, n, before, contents);
      StepKeepsIntact(hash, After(hash, n, before), e);
      if CollisionFree(hash, contents) && Covers(contents, n, events) {
        StoredIsCovered(hash, n, before, contents);
        assert e in events;
        forall content | Brings(e, content)
          ensures Fits(hash, After(hash, n, before).store, content)
        {
          StoredHashesToItsName(hash, After(hash, n, before).store);
        }
      }
    }
  }

  lemma StoredHashesToItsName(hash: HashFn, s: StoreState)
    requires Intact(hash, s)
    ensures forall h | h in s.files :: hash(s.files[h]) == h
  {
  }

  /** Bytes once on file are what is retrieved under their hash ever after. */
  lemma {:induction false} StoredBytesNeverChange(hash: HashFn, n: NodeState, events: seq<Event>, h: Hash)
    requires h in n.store.files
    ensures h in After(hash, n, events).store.files
    ensures Retrieve(After(hash, n, events).store, h) == Retrieve(n.store, h)
  {
    if events != [] {
      var before := events[..|events| - 1];
      StoredBytesNeverChange(hash, n, before, h);
      assert h in After(hash, n, before).store.files;
      FilesNeverChange(hash, n, before, h);
      FilesNeverChange(hash, n, events, h);
    }
  }

  lemma {:induction false} FilesNeverChange(hash: HashFn, n: NodeState, events: seq<Event>, h: Hash)
    requires h in n.store.files
    ensures h in After(hash, n, events).store.files && After(hash, n, events).store.files[h] == n.store.files[h]
  {
    if events != [] {
      var before := events[..|events| - 1];
      FilesNeverChange(hash, n, before, h);
      StepKeepsFiles(hash, After(hash, n, before), events[|events| - 1], h);
    }
  }

  /** What is published can be retrieved after any later run: bytes of the same digest always, the very bytes
      unless they collide with others that were there before. */
  lemma {:induction false} PublishThenRetrieve(hash: HashFn, n: NodeState, content: Bytes, meta: MetaData, events: seq<Event>)
    requires HexDigests(hash) && Intact(hash, n.store)
    ensures var h := hash(content);
            var back := Retrieve(After(hash, Step(hash, n, Publish(content, meta)).0, events).store, h);
            && back.Some? && hash(back.value) == h
            && (back.value == content <==> Fits(hash, n.store, content))
  {
    var n' := Step(hash, n, Publish(content, meta)).0;
    StoreThenRetrieve(hash, n.store, content, meta);
    StoredBytesNeverChange(hash, n', events, hash(content));
  }

  // ----- nothing comes in unasked -----

  ghost predicate AsksAt(hash: HashFn, n: NodeState, events: seq<Event>, j: nat, h: Hash)
    requires j < |events|
  {
    Asks(hash, After(hash, n, events[..j]), events[j], h)
  }

  lemma {:induction false} PendingWasAsked(hash: HashFn, n: NodeState, events: seq<Event>, h: Hash)
    requires h !in n.pending && h in After(hash, n, events).pending
    ensures exists j: nat :: j < |events| && AsksAt(hash, n, events, j, h)
  {
    var last := |events| - 1;
    var before := events[..last];
    if h in After(hash, n, before).pending {
      PendingWasAsked(hash, n, before, h);
      var j: nat :| j < |before| && AsksAt(hash, n, before, j, h);
      assert before[..j] == events[..j];
      assert AsksAt(hash, n, events, j, h);
    } else {
      PendingIsAsked(hash, After(hash, n, before), events[last], h);
      assert AsksAt(hash, n, events, last, h);
    }
  }

  /** An artifact that a message brought in was requested in an earlier step, and the content
      that came has the requested digest. */
  lemma {:induction false} RemoteArtifactWasRequested(hash: HashFn, n: NodeState, events: seq<Event>, i: nat, h: Hash)
    requires n.pending == {} && i < |events| && events[i].Deliver?
    requires h !in After(hash, n, events[..i]).store.catalog
    requires h in Step(hash, After(hash, n, events[..i]), events[i]).0.store.catalog
    ensures exists j: nat :: j < i && AsksAt(hash, n, events, j, h)
    ensures events[i].msg.ArtifactResponse? && events[i].msg.hash == h && hash(events[i].msg.content) == h
  {
    var at := After(hash, n, events[..i]);
    StoreChanges(hash, at, events[i]);
    PendingWasAsked(hash, n, events[..i], h);
    var j: nat :| j < i && AsksAt(hash, n, events[..i], j, h);
    assert events[..i][..j] == events[..j];
    assert AsksAt(hash, n, events, j, h);
  }

  /** In how many of the events a request for `h` was sent, and in how many an answer was consumed. */
  ghost function Asked(hash: HashFn, n: NodeState, events: seq<Event>, h: Hash): nat {
    if events == [] then 0
    else
      var before := events[..|events| - 1];
      Asked(hash, n, before, h) + if Asks(hash, After(hash, n, before), events[|events| - 1], h) then 1 else 0
  }

  ghost function Consumed(hash: HashFn, n: NodeState, events: seq<Event>, h: Hash): nat {
    if events == [] then 0
    else
      var before := events[..|events| - 1];
      Consumed(hash, n, before, h) + if Answered(hash, After(hash, n, before), events[|events| - 1], h) then 1 else 0
  }

  /** Every accepted answer has a request of its own: repeating a response does not get it in twice. */
  lemma {:induction false} OneAnswerPerRequest(hash: HashFn, n: NodeState, events: seq<Event>, h: Hash)
    requires n.pending == {}
    ensures Consumed(hash, n, events, h) + (if h in After(hash, n, events).pending then 1 else 0) <= Asked(hash, n, events, h)
  {
    if events != [] {
      var before := events[..|events| - 1];
      OneAnswerPerRequest(hash, n, before, h);
      var at := After(hash, n, before);
      if h !in at.pending && h in After(hash, n, events).pending {
        PendingIsAsked(hash, at, events[|events| - 1], h);
      }
    }
  }
}
