// The read, check and write protocol of the service over the store, with any number of clients.
// A Replace or Patch reads a record, computes a new document from it, and writes under the version it read.
module Service {
  import opened StoreTypes
  import opened StoreSpec
  import opened StoreMeaning
  import opened StoreVersions
  import Etag

  // What a Replace or Patch makes of the record it read; rejecting covers validation and encoding errors.
  datatype Outcome = Write(body: Body, links: seq<Link>) | Unchanged | Reject

  // versions holds the If-Match entity tags; none means an unconditional request.
  datatype Request = Request(schema: Schema, id: Id, versions: set<string>, change: Record -> Outcome)

  datatype Client =
    | Idle
    | Writing(request: Request, seen: Record)
    | Deleting(request: Request, seen: Record)

  datatype System = System(used: set<Id>, entries: Entries, clients: map<nat, Client>)

  datatype Action =
    | Read(client: nat, request: Request, deleting: bool)
    | Commit(client: nat)
    | Direct(op: Op)

  // The encoder only builds well-formed documents of the type.
  ghost predicate RequestWellFormed(r: Request) {
    forall seen :: r.change(seen).Write? ==>
      WellFormed(r.schema, Document(r.id, r.change(seen).body, r.change(seen).links))
  }

  predicate VersionMatches(r: Request, version: string) {
    r.versions == {} || version in r.versions
  }

  ghost predicate Readable(es: Entries, r: Request) {
    r.id in es && es[r.id].schema == r.schema && VersionMatches(r, Etag.Weak(es[r.id].updated))
  }

  function ClientAt(s: System, c: nat): Client {
    if c in s.clients then s.clients[c] else Idle
  }

  // A failed read leaves the client idle; an existing record with a matching version starts the request.
  ghost predicate ReadStep(s: System, c: nat, r: Request, deleting: bool, s': System)
    requires Sound(s.entries)
  {
    && ClientAt(s, c).Idle? && RequestWellFormed(r)
    && s'.used == s.used && s'.entries == s.entries
    && s'.clients == s.clients[c :=
         if !Readable(s.entries, r) then Idle
         else if deleting then Deleting(r, RecordOf(s.entries, r.id))
         else Writing(r, RecordOf(s.entries, r.id))]
  }

  function DocumentOf(r: Request, outcome: Outcome): Document
    requires outcome.Write?
  {
    Document(r.id, outcome.body, outcome.links)
  }

  // The store rechecks the version the client read; it refuses exactly when that is stale or the document is
  // not acceptable.
  ghost predicate WriteCommit(es: Entries, r: Request, seen: Record, es': Entries) {
    var outcome := r.change(seen);
    if outcome.Write? && Locates(es, r.schema, r.id, seen.version) && Accepts(es, r.schema, DocumentOf(r, outcome)) then
      Updates(es, es', r.schema, DocumentOf(r, outcome), seen.version)
    else es' == es
  }

  // A delete without If-Match is unconditional.
  ghost predicate DeleteCommit(es: Entries, r: Request, seen: Record, es': Entries) {
    var version := if r.versions == {} then "" else seen.version;
    if Locates(es, r.schema, r.id, version) then Deletes(es, es', r.schema, r.id, version) else es' == es
  }

  ghost predicate CommitStep(s: System, c: nat, s': System) {
    && s'.used == s.used && s'.clients == s.clients[c := Idle]
    && match ClientAt(s, c)
       case Idle => false
       case Writing(r, seen) => WriteCommit(s.entries, r, seen, s'.entries)
       case Deleting(r, seen) => DeleteCommit(s.entries, r, seen, s'.entries)
  }

  ghost predicate SystemStep(s: System, action: Action, s': System)
    requires Sound(s.entries)
  {
    match action
    case Read(c, r, deleting) => ReadStep(s, c, r, deleting, s')
    case Commit(c) => CommitStep(s, c, s')
    case Direct(op) =>
      s'.clients == s.clients && OpWellFormed(op) && Step(s.used, s.entries, op, s'.used, s'.entries)
  }

  // ---- What every reachable system satisfies ----

  // What a client read still is what is stored, unless the version moved on or the resource is gone for good.
  ghost predicate SeenValid(used: set<Id>, es: Entries, r: Request, seen: Record)
    requires Sound(es)
  {
    && r.id in used && RequestWellFormed(r)
    && VersionMatches(r, seen.version) && seen.version == Etag.Weak(seen.updated)
    && (r.id in es ==>
          es[r.id].schema == r.schema && seen.updated <= es[r.id].updated &&
          (seen.updated == es[r.id].updated ==> seen == RecordOf(es, r.id)))
  }

  ghost predicate SystemSound(s: System) {
    && Sound(s.entries) && s.entries.Keys <= s.used
    && forall c :: c in s.clients ==>
         (s.clients[c].Idle? || SeenValid(s.used, s.entries, s.clients[c].request, s.clients[c].seen))
  }

  lemma SeenSurvives(used: set<Id>, es: Entries, used': set<Id>, es': Entries, r: Request, seen: Record)
    requires Sound(es) && Sound(es') && Evolves(es, es') && used <= used' && es'.Keys * used <= es.Keys
    requires SeenValid(used, es, r, seen)
    ensures SeenValid(used', es', r, seen)
  {
    if r.id in es' {
      assert r.id in es'.Keys * used;
      assert Keeps(es, es', r.id);
    }
  }

  // The operation on the store that an action amounts to.
  ghost function StoreOp(s: System, action: Action, s': System): Op {
    match action
    case Read(_, _, _) => Refused
    case Direct(op) => op
    case Commit(c) =>
      if s'.entries == s.entries then Refused
      else
        match ClientAt(s, c)
        case Idle => Refused
        case Deleting(r, seen) => Delete(r.schema, r.id, if r.versions == {} then "" else seen.version)
        case Writing(r, seen) =>
          if r.change(seen).Write? then Update(r.schema, DocumentOf(r, r.change(seen)), seen.version) else Refused
  }

  lemma SystemStepIsStoreStep(s: System, action: Action, s': System)
    requires SystemSound(s) && SystemStep(s, action, s')
    ensures OpWellFormed(StoreOp(s, action, s'))
    ensures Step(s.used, s.entries, StoreOp(s, action, s'), s'.used, s'.entries)
  {
  }

  lemma StepKeepsSystemSound(s: System, action: Action, s': System)
    requires SystemSound(s) && SystemStep(s, action, s')
    ensures SystemSound(s')
  {
    SystemStepIsStoreStep(s, action, s');
    StepSound(s.used, s.entries, StoreOp(s, action, s'), s'.used, s'.entries);
    forall c | c in s'.clients && !s'.clients[c].Idle?
      ensures SeenValid(s'.used, s'.entries, s'.clients[c].request, s'.clients[c].seen)
    {
      if c in s.clients && s.clients[c] == s'.clients[c] {
        SeenSurvives(s.used, s.entries, s'.used, s'.entries, s.clients[c].request, s.clients[c].seen);
      }
    }
  }

  // ---- The serial system ----

  // One request run from start to end with nothing in between.
  datatype Atomic = AtomicWrite(request: Request) | AtomicDelete(request: Request) | AtomicOp(op: Op) | Nothing

  ghost predicate AtomicStep(used: set<Id>, es: Entries, atomic: Atomic, used': set<Id>, es': Entries)
    requires Sound(es)
  {
    match atomic
    case AtomicWrite(r) =>
      && used' == used && r.id in es && es[r.id].schema == r.schema
      && (r.versions != {} ==> Etag.Weak(es[r.id].updated) in r.versions)
      && var outcome := r.change(RecordOf(es, r.id));
      outcome.Write? && Updates(es, es', r.schema, DocumentOf(r, outcome), "")
    case AtomicDelete(r) =>
      && used' == used && r.id in es && Etag.Weak(es[r.id].updated) in r.versions
      && Deletes(es, es', r.schema, r.id, "")
    case AtomicOp(op) => OpWellFormed(op) && Step(used, es, op, used', es')
    case Nothing => used' == used && es' == es
  }

  // A commit that changes the store is the whole request, run at that moment; every other protocol step is nothing.
  ghost function Linearized(s: System, action: Action, s': System): Atomic {
    match action
    case Read(_, _, _) => Nothing
    case Direct(op) => AtomicOp(op)
    case Commit(c) =>
      if s'.entries == s.entries then Nothing
      else
        match ClientAt(s, c)
        case Idle => Nothing
        case Writing(r, _) => AtomicWrite(r)
        case Deleting(r, seen) =>
          if r.versions == {} then AtomicOp(Delete(r.schema, r.id, "")) else AtomicDelete(r)
  }

  lemma CommitReadsCurrent(s: System, c: nat, s': System)
    requires SystemSound(s) && CommitStep(s, c, s') && s'.entries != s.entries
    requires ClientAt(s, c).Writing? || (ClientAt(s, c).Deleting? && ClientAt(s, c).request.versions != {})
    ensures var r := ClientAt(s, c).request;
            Readable(s.entries, r) && ClientAt(s, c).seen == RecordOf(s.entries, r.id)
  {
    var r := ClientAt(s, c).request;
    var seen := ClientAt(s, c).seen;
    assert SeenValid(s.used, s.entries, r, seen);
    assert seen.version != "";
    assert Locates(s.entries, r.schema, r.id, seen.version);
    Etag.WeakInjective(s.entries[r.id].updated, seen.updated);
  }

  lemma StepIsAtomic(s: System, action: Action, s': System)
    requires SystemSound(s) && SystemStep(s, action, s')
    ensures AtomicStep(s.used, s.entries, Linearized(s, action, s'), s'.used, s'.entries)
  {
    if action.Commit? && s'.entries != s.entries {
      var client := ClientAt(s, action.client);
      if client.Writing? || client.request.versions != {} {
        CommitReadsCurrent(s, action.client, s');
      }
    }
  }

  ghost predicate SystemRun(states: seq<System>, actions: seq<Action>) {
    && |states| == |actions| + 1
    && states[0] == System({}, map[], map[])
    && forall i :: 0 <= i < |actions| ==> SystemStepAt(states, actions, i)
  }

  ghost predicate SystemStepAt(states: seq<System>, actions: seq<Action>, i: nat)
    requires i < |actions| < |states|
  {
    Sound(states[i].entries) ==> SystemStep(states[i], actions[i], states[i + 1])
  }

  lemma {:induction false} RunStaysSound(states: seq<System>, actions: seq<Action>, i: nat)
    requires SystemRun(states, actions) && i < |states|
    ensures SystemSound(states[i])
  {
    if i == 0 {
      EmptySound();
    } else {
      RunStaysSound(states, actions, i - 1);
      assert SystemStepAt(states, actions, i - 1);
      StepKeepsSystemSound(states[i - 1], actions[i - 1], states[i]);
    }
  }

  // Any interleaving of reads and commits moves the store exactly as the successful requests would,
  // each run on its own, in commit order: a run of the serial system over the same stores.
  lemma RunIsSerial(states: seq<System>, actions: seq<Action>)
    requires SystemRun(states, actions)
    ensures forall i :: 0 <= i < |states| ==> Sound(states[i].entries)
    ensures forall i :: 0 <= i < |actions| ==>
      AtomicStep(states[i].used, states[i].entries, Linearized(states[i], actions[i], states[i + 1]),
                 states[i + 1].used, states[i + 1].entries)
  {
    forall i | 0 <= i < |states| ensures Sound(states[i].entries) {
      RunStaysSound(states, actions, i);
    }
    forall i | 0 <= i < |actions|
      ensures AtomicStep(states[i].used, states[i].entries, Linearized(states[i], actions[i], states[i + 1]),
                         states[i + 1].used, states[i + 1].entries)
    {
      RunStaysSound(states, actions, i);
      assert SystemStepAt(states, actions, i);
      StepIsAtomic(states[i], actions[i], states[i + 1]);
    }
  }

  // A write that changes the store was computed from exactly the record it overwrites.
  lemma CommittedFromCurrent(states: seq<System>, actions: seq<Action>, i: nat)
    requires SystemRun(states, actions) && i < |actions| && actions[i].Commit?
    requires ClientAt(states[i], actions[i].client).Writing? && states[i + 1].entries != states[i].entries
    ensures Sound(states[i].entries)
    ensures var r := ClientAt(states[i], actions[i].client).request;
            r.id in states[i].entries &&
            ClientAt(states[i], actions[i].client).seen == RecordOf(states[i].entries, r.id)
  {
    RunStaysSound(states, actions, i);
    assert SystemStepAt(states, actions, i);
    CommitReadsCurrent(states[i], actions[i].client, states[i + 1]);
  }

  // ---- A run of the system, seen from the store ----

  function StoresOf(states: seq<System>): seq<State> {
    seq(|states|, i requires 0 <= i < |states| => State(states[i].used, states[i].entries))
  }

  ghost function OpsOf(states: seq<System>, actions: seq<Action>): seq<Op>
    requires |states| == |actions| + 1
  {
    seq(|actions|, i requires 0 <= i < |actions| => StoreOp(states[i], actions[i], states[i + 1]))
  }

  lemma SystemRunIsStoreRun(states: seq<System>, actions: seq<Action>)
    requires SystemRun(states, actions)
    ensures |states| == |actions| + 1 && Run(StoresOf(states), OpsOf(states, actions))
  {
    hide SystemStep, SystemSound, Step, OpWellFormed, StoreOp;
    forall i | 0 <= i < |actions|
      ensures OpWellFormed(OpsOf(states, actions)[i]) && StepAt(StoresOf(states), OpsOf(states, actions), i)
    {
      RunStaysSound(states, actions, i);
      assert Sound(states[i].entries) by { SystemIsSound(states[i]); }
      assert SystemStepAt(states, actions, i);
      SystemStepIsStoreStep(states[i], actions[i], states[i + 1]);
    }
  }

  lemma SystemIsSound(s: System)
    requires SystemSound(s)
    ensures Sound(s.entries)
  {
  }

  // A write that changes the store was computed from the version it overwrites, and makes a later one.
  lemma WriterMovesOn(s: System, c: nat, s': System)
    requires SystemSound(s) && CommitStep(s, c, s') && s'.entries != s.entries && ClientAt(s, c).Writing?
    ensures var id := ClientAt(s, c).request.id;
            && id in s.entries && ClientAt(s, c).seen.version == Etag.Weak(s.entries[id].updated)
            && id in s'.entries && s'.entries[id].updated > s.entries[id].updated
  {
    CommitReadsCurrent(s, c, s');
  }

  lemma CommitOfRun(states: seq<System>, actions: seq<Action>, i: nat)
    requires SystemRun(states, actions) && i < |actions| && actions[i].Commit?
    ensures |states| == |actions| + 1
    ensures SystemSound(states[i]) && CommitStep(states[i], actions[i].client, states[i + 1])
  {
    hide CommitStep, ReadStep, Step;
    RunStaysSound(states, actions, i);
    SystemIsSound(states[i]);
    assert SystemStepAt(states, actions, i);
  }

  // A resource that is stored again later has not gone back in time.
  lemma StillLater(states: seq<System>, actions: seq<Action>, i: nat, j: nat, id: Id)
    requires SystemRun(states, actions) && i <= j < |states| && id in states[i].entries && id in states[j].entries
    ensures states[i].entries[id].updated <= states[j].entries[id].updated
  {
    hide SystemRun, Run;
    SystemRunIsStoreRun(states, actions);
    RunEvolves(StoresOf(states), OpsOf(states, actions), i, j);
    assert Keeps(states[i].entries, states[j].entries, id);
  }

  // Of two clients that read the same version of one resource, at most one write goes through, however much
  // happens in between.
  lemma SecondWriterRefused(states: seq<System>, actions: seq<Action>, i: nat, j: nat)
    requires SystemRun(states, actions) && i < j < |actions| && actions[i].Commit? && actions[j].Commit?
    requires ClientAt(states[i], actions[i].client).Writing? && ClientAt(states[j], actions[j].client).Writing?
    requires ClientAt(states[i], actions[i].client).request.id == ClientAt(states[j], actions[j].client).request.id
    requires ClientAt(states[i], actions[i].client).seen.version == ClientAt(states[j], actions[j].client).seen.version
    requires states[i + 1].entries != states[i].entries
    ensures states[j + 1].entries == states[j].entries
  {
    hide SystemRun, SystemSound, CommitStep, ClientAt, Etag.Weak;
    CommitOfRun(states, actions, i);
    CommitOfRun(states, actions, j);
    WriterMovesOn(states[i], actions[i].client, states[i + 1]);
    if states[j + 1].entries != states[j].entries {
      var id := ClientAt(states[i], actions[i].client).request.id;
      WriterMovesOn(states[j], actions[j].client, states[j + 1]);
      StillLater(states, actions, i + 1, j, id);
      Etag.WeakInjective(states[i].entries[id].updated, states[j].entries[id].updated);
    }
  }

  // ---- What a precondition means ----

  lemma ReadOfRun(states: seq<System>, actions: seq<Action>, i: nat)
    requires SystemRun(states, actions) && i < |actions| && actions[i].Read?
    ensures |states| == |actions| + 1 && Sound(states[i].entries)
    ensures ReadStep(states[i], actions[i].client, actions[i].request, actions[i].deleting, states[i + 1])
  {
    hide CommitStep, ReadStep, Step, SystemSound;
    RunStaysSound(states, actions, i);
    SystemIsSound(states[i]);
    assert SystemStepAt(states, actions, i);
  }

  // A read starts its request exactly when the resource is stored with the type and its current tag is among the
  // listed ones, if any are listed; it then shows the record as it is, and changes nothing else.
  lemma ReadStarts(states: seq<System>, actions: seq<Action>, i: nat)
    requires SystemRun(states, actions) && i < |actions| && actions[i].Read?
    ensures |states| == |actions| + 1 && Sound(states[i].entries) && states[i + 1].entries == states[i].entries
    ensures var es, r, c := states[i].entries, actions[i].request, actions[i].client;
            var current := r.id in es && es[r.id].schema == r.schema &&
                           (r.versions == {} || Etag.Weak(es[r.id].updated) in r.versions);
            && (!current ==> ClientAt(states[i + 1], c) == Idle)
            && (current ==>
                  ClientAt(states[i + 1], c) ==
                  if actions[i].deleting then Deleting(r, RecordOf(es, r.id)) else Writing(r, RecordOf(es, r.id)))
            && forall d :: d != c ==> ClientAt(states[i + 1], d) == ClientAt(states[i], d)
  {
    ReadOfRun(states, actions, i);
  }

  lemma ChangeSawCurrent(s: System, c: nat, s': System)
    requires SystemSound(s) && CommitStep(s, c, s') && s'.entries != s.entries
    requires ClientAt(s, c).request.versions != {}
    ensures var r := ClientAt(s, c).request;
            && r.id in s.entries && s.entries[r.id].schema == r.schema
            && Etag.Weak(s.entries[r.id].updated) in r.versions
  {
    CommitReadsCurrent(s, c, s');
  }

  // Whatever happened since the read, a request with listed versions changes the store only while the version of
  // its resource is one of them.
  lemma ConditionalCommit(states: seq<System>, actions: seq<Action>, i: nat)
    requires SystemRun(states, actions) && i < |actions| && actions[i].Commit?
    requires states[i + 1].entries != states[i].entries
    ensures !ClientAt(states[i], actions[i].client).Idle?
    ensures var es, r := states[i].entries, ClientAt(states[i], actions[i].client).request;
            r.versions != {} ==>
              r.id in es && es[r.id].schema == r.schema && Etag.Weak(es[r.id].updated) in r.versions
  {
    hide SystemRun, SystemSound;
    CommitOfRun(states, actions, i);
    if ClientAt(states[i], actions[i].client).request.versions != {} {
      ChangeSawCurrent(states[i], actions[i].client, states[i + 1]);
    }
  }

  // The store takes the document exactly when nobody changed the resource since it was read, and no link or
  // unique value of the document is in the way; it then is stored as computed, under a later version.
  ghost predicate WriteGoesThrough(es: Entries, r: Request, seen: Record) {
    && r.change(seen).Write?
    && r.id in es && es[r.id].schema == r.schema && seen.version == Etag.Weak(es[r.id].updated)
    && LinksFine(es, DocumentOf(r, r.change(seen)))
    && !exists field :: Clashes(es, r.schema, r.id, r.change(seen).body, field)
  }

  lemma WriteCommitExactly(es: Entries, r: Request, seen: Record, es': Entries)
    requires Sound(es) && RequestWellFormed(r) && WriteCommit(es, r, seen, es')
    requires seen.version != ""
    ensures if WriteGoesThrough(es, r, seen) then
              && Written(es, es', r.schema, DocumentOf(r, r.change(seen)))
              && es'[r.id].created == es[r.id].created && es'[r.id].updated > es[r.id].updated
            else es' == es
  {
    hide LinksFine, Clashes, Written, Accepts, Updates;
    if r.change(seen).Write? {
      var doc := DocumentOf(r, r.change(seen));
      SoundFits(es);
      AcceptsExactly(es, r.schema, doc);
      if WriteGoesThrough(es, r, seen) {
        UpdateWrites(es, es', r.schema, doc, seen.version);
      }
    }
  }

  // A delete goes through exactly when the resource is stored with the type and, if versions were listed, nobody
  // changed it since it was read.
  ghost predicate DeleteGoesThrough(es: Entries, r: Request, seen: Record) {
    r.id in es && es[r.id].schema == r.schema && (r.versions == {} || seen.version == Etag.Weak(es[r.id].updated))
  }

  lemma DeleteCommitExactly(es: Entries, r: Request, seen: Record, es': Entries)
    requires Sound(es) && DeleteCommit(es, r, seen, es') && seen.version != ""
    ensures if DeleteGoesThrough(es, r, seen) then Erased(es, es', r.id) else es' == es
  {
    hide Erased, Deletes;
    SoundFits(es);
    if DeleteGoesThrough(es, r, seen) {
      DeleteErases(es, es', r.schema, r.id, if r.versions == {} then "" else seen.version);
    }
  }

  lemma SeenOf(s: System, c: nat)
    requires SystemSound(s) && !ClientAt(s, c).Idle?
    ensures Sound(s.entries) && RequestWellFormed(ClientAt(s, c).request) && ClientAt(s, c).seen.version != ""
  {
    assert SeenValid(s.used, s.entries, ClientAt(s, c).request, ClientAt(s, c).seen);
  }

  // Every commit of a run does its request at once, or nothing at all, and the client is idle again.
  lemma CommitExactly(states: seq<System>, actions: seq<Action>, i: nat)
    requires SystemRun(states, actions) && i < |actions| && actions[i].Commit?
    ensures |states| == |actions| + 1 && !ClientAt(states[i], actions[i].client).Idle?
    ensures var es, es', client := states[i].entries, states[i + 1].entries, ClientAt(states[i], actions[i].client);
            match client
            case Idle => true
            case Writing(r, seen) =>
              if WriteGoesThrough(es, r, seen) then
                && Written(es, es', r.schema, DocumentOf(r, r.change(seen)))
                && es'[r.id].created == es[r.id].created && es'[r.id].updated > es[r.id].updated
              else es' == es
            case Deleting(r, seen) => if DeleteGoesThrough(es, r, seen) then Erased(es, es', r.id) else es' == es
    ensures ClientAt(states[i + 1], actions[i].client) == Idle
    ensures forall d :: d != actions[i].client ==> ClientAt(states[i + 1], d) == ClientAt(states[i], d)
  {
    hide SystemRun, SystemSound, Sound, WriteGoesThrough, DeleteGoesThrough, WriteCommit, DeleteCommit, Written, Erased;
    CommitOfRun(states, actions, i);
    var s, s' := states[i], states[i + 1];
    SeenOf(s, actions[i].client);
    match ClientAt(s, actions[i].client)
    case Writing(r, seen) => WriteCommitExactly(s.entries, r, seen, s'.entries);
    case Deleting(r, seen) => DeleteCommitExactly(s.entries, r, seen, s'.entries);
    case Idle =>
  }
}
