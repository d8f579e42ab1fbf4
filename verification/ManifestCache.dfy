/**
 The manifest cache of frontend/js/app.js: one in-memory manifest, one shared in-flight promise and one
 sessionStorage slot revalidated by ETag, against a server whose files change at any moment.

 A load is cut where it awaits: the request, the answer's arrival, and the end of decryption.  ETag, If-None-Match
 and 304 are sections 8.8.3, 13.1.2 and 15.4.5 of RFC 9110.
 */
module ManifestCache {
  import opened Options
  import opened Manifest

  /** None stands for the manifest of all folders. */
  type Folder = Option<string>
  type Files = seq<File>

  /** The sessionStorage slot. */
  datatype Stored = Stored(folder: Folder, etag: string, files: Files)
  datatype Loaded = Loaded(folder: Folder, items: seq<Item>)

  datatype Answer = NotModified | Full(files: Files, etag: string) | Failed

  datatype Phase =
    | Requested                  // the request is on its way
    | Answered(answer: Answer)   // the answer is on its way back
    | Decrypting(files: Files)
    | Resolved(loaded: Loaded)
    | Rejected

  /** One run of the loader; cached is what it found in the slot for its folder. */
  datatype Load = Load(folder: Folder, cached: Option<Stored>, phase: Phase)

  datatype Client = Client(manifest: Option<Loaded>, fetching: Option<nat>, slot: Option<Stored>, loads: seq<Load>)

  /** What a caller of the loader gets: a manifest, or the promise of a load. */
  datatype Reply = Ready(loaded: Loaded) | Promise(load: nat)

  // ---------------------------------------------------------------------------
  // The client's steps
  // ---------------------------------------------------------------------------

  function OpenReply(c: Client, folder: Folder): Reply {
    if c.manifest.Some? && c.manifest.value.folder == folder then Ready(c.manifest.value)
    else if c.fetching.Some? then Promise(c.fetching.value)
    else Promise(|c.loads|)
  }

  function Open(c: Client, folder: Folder): Client {
    if OpenReply(c, folder).Ready? || c.fetching.Some? then c
    else
      var cached := if c.slot.Some? && c.slot.value.folder == folder then c.slot else None;
      c.(fetching := Some(|c.loads|), loads := c.loads + [Load(folder, cached, Requested)])
  }

  /** The answer arrives.  A full answer overwrites the slot unless the storage quota is exceeded. */
  function Receive(c: Client, i: nat, quota: bool): Client
    requires i < |c.loads| && c.loads[i].phase.Answered?
  {
    var l := c.loads[i];
    match l.phase.answer
    case Full(files, etag) =>
      c.(slot := if etag != "" && quota then Some(Stored(l.folder, etag, files)) else c.slot,
         loads := c.loads[i := l.(phase := Decrypting(files))])
    case _ =>
      // 304 takes the stored files, and so does any failure when there are some
      c.(loads := c.loads[i := l.(phase := if l.cached.Some? then Decrypting(l.cached.value.files) else Rejected)])
  }

  function Finish(c: Client, i: nat, decrypt: Decrypt): Client
    requires i < |c.loads| && c.loads[i].phase.Decrypting?
  {
    var loaded := Loaded(c.loads[i].folder, DecryptItems(c.loads[i].phase.files, decrypt));
    Client(Some(loaded), None, c.slot, c.loads[i := c.loads[i].(phase := Resolved(loaded))])
  }

  function Invalidate(c: Client): Client { c.(manifest := None, fetching := None, slot := None) }

  /** The page is loaded again: only the slot outlives it. */
  function Reloaded(c: Client): Client { Client(None, None, c.slot, []) }

  /** An event from the server, handled in one go; without a manifest or an id everything is dropped. */
  function HandleEvent(c: Client, e: Event, decrypt: Decrypt): Client {
    if e.action == Removed && e.id.Some? then
      c.(manifest := if c.manifest.None? then None
                     else Some(c.manifest.value.(items := Without(c.manifest.value.items, e.id.value))),
         slot := None)
    else if c.manifest.None? || e.id.None? then Invalidate(c)
    else
      var items := ApplyEvent(c.manifest.value.items, e, decrypt);
      if items.None? then Invalidate(c)
      else c.(manifest := Some(c.manifest.value.(items := items.value)), slot := None)
  }

  class Cache {
    var searchManifest: Option<Loaded>
    var manifestFetching: Option<nat>
    var slot: Option<Stored>
    var loads: seq<Load>

    function State(): Client
      reads this
    {
      Client(searchManifest, manifestFetching, slot, loads)
    }

    /** A page starts with what sessionStorage kept, and nothing else. */
    constructor (slot: Option<Stored>)
      ensures State() == Reloaded(Client(None, None, slot, []))
    {
      searchManifest, manifestFetching, this.slot, loads := None, None, slot, [];
    }

    method LoadSearchManifest(folder: Folder) returns (reply: Reply)
      modifies this
      ensures State() == Open(old(State()), folder) && reply == OpenReply(old(State()), folder)
    {
      if searchManifest.Some? && searchManifest.value.folder == folder { return Ready(searchManifest.value); }
      if manifestFetching.Some? { return Promise(manifestFetching.value); }
      var cached: Option<Stored> := None;
      if slot.Some? && slot.value.folder == folder { cached := slot; }
      loads := loads + [Load(folder, cached, Requested)];
      manifestFetching := Some(|loads| - 1);
      reply := Promise(|loads| - 1);
    }

    method OnAnswer(i: nat, quota: bool)
      requires i < |loads| && loads[i].phase.Answered?
      modifies this
      ensures State() == Receive(old(State()), i, quota)
      ensures var l := old(loads[i]);
        match l.phase.answer
        case Full(files, etag) =>
          && slot == (if etag != "" && quota then Some(Stored(l.folder, etag, files)) else old(slot))
          && loads[i].phase == Decrypting(files)
        case _ =>
          && slot == old(slot)
          && loads[i].phase == if l.cached.Some? then Decrypting(l.cached.value.files) else Rejected
    {
      var l := loads[i];
      match l.phase.answer
      case Full(files, etag) =>
        if etag != "" && quota { slot := Some(Stored(l.folder, etag, files)); }
        loads := loads[i := l.(phase := Decrypting(files))];
      case _ =>
        if l.cached.Some? {
          loads := loads[i := l.(phase := Decrypting(l.cached.value.files))];
        } else {
          loads := loads[i := l.(phase := Rejected)];
        }
    }

    method OnDecrypted(i: nat, decrypt: Decrypt)
      requires i < |loads| && loads[i].phase.Decrypting?
      modifies this
      ensures State() == Finish(old(State()), i, decrypt)
      ensures manifestFetching.None? && searchManifest.Some? && searchManifest.value.folder == old(loads[i].folder)
      ensures var items, files := searchManifest.value.items, old(loads[i].phase.files);
        |items| == |files| && forall k :: 0 <= k < |items| ==>
          && items[k].id == files[k].id && items[k].record == files[k].record
          && Named(files[k].record, items[k].displayName, decrypt)
    {
      LoadedNames(loads[i].phase.files, decrypt);
      var loaded := Loaded(loads[i].folder, DecryptItems(loads[i].phase.files, decrypt));
      searchManifest := Some(loaded);
      manifestFetching := None;
      loads := loads[i := loads[i].(phase := Resolved(loaded))];
    }

    method InvalidateSearchManifest()
      modifies this
      ensures State() == Invalidate(old(State()))
    {
      searchManifest, manifestFetching, slot := None, None, None;
    }

    method ApplyManifestDelta(e: Event, decrypt: Decrypt)
      modifies this
      ensures State() == HandleEvent(old(State()), e, decrypt)
      ensures slot.None?
      ensures old(searchManifest).Some? && searchManifest.Some? && e.id.Some? && e.action != Removed ==>
        NewNamesOnly(old(searchManifest).value.items, e, searchManifest.value.items, decrypt)
    {
      if e.action == Removed && e.id.Some? {
        if searchManifest.Some? {
          searchManifest := Some(searchManifest.value.(items := Without(searchManifest.value.items, e.id.value)));
        }
        slot := None;
        return;
      }
      if searchManifest.None? || e.id.None? {
        InvalidateSearchManifest();
        return;
      }
      var items := ApplyEvent(searchManifest.value.items, e, decrypt);
      if items.None? {
        InvalidateSearchManifest();
        return;
      }
      ChangedNames(searchManifest.value.items, e, decrypt);
      searchManifest := Some(searchManifest.value.(items := items.value));
      slot := None;
    }
  }

  /** The event's file, unless it was only found to be there, has the name the payload says; the rest is as it was. */
  ghost predicate NewNamesOnly(items: seq<Item>, e: Event, after: seq<Item>, decrypt: Decrypt)
    requires e.id.Some?
  {
    forall i :: 0 <= i < |after| ==>
      if after[i].id == e.id.value && !(e.action == Added && Has(items, after[i].id))
      then Named(e.record, after[i].displayName, decrypt) else after[i] in items
  }

  lemma ChangedNames(items: seq<Item>, e: Event, decrypt: Decrypt)
    requires e.id.Some? && ApplyEvent(items, e, decrypt).Some? && e.action != Removed
    ensures NewNamesOnly(items, e, ApplyEvent(items, e, decrypt).value, decrypt)
  {
    hide Named;
    var after := ApplyEvent(items, e, decrypt).value;
    forall i | 0 <= i < |after|
      ensures if after[i].id == e.id.value && !(e.action == Added && Has(items, after[i].id))
        then Named(e.record, after[i].displayName, decrypt) else after[i] in items
    {
      EventNames(items, e, decrypt, i);
    }
  }

  // ---------------------------------------------------------------------------
  // Runs against a changing server
  // ---------------------------------------------------------------------------

  /** The server's files per folder, and the answers it has given so far. */
  datatype World = World(client: Client, content: Folder -> Files, sent: set<Stored>)

  /** Section 13.1.2 of RFC 9110: 304 when the stored tag is the current one, else everything. */
  function ServerAnswer(files: Files, ifNoneMatch: Option<string>, etagOf: Files -> string): Answer {
    if ifNoneMatch == Some(etagOf(files)) then NotModified else Full(files, etagOf(files))
  }

  function EtagHeader(l: Load): Option<string> { if l.cached.Some? then Some(l.cached.value.etag) else None }

  datatype Step =
    | OpenStep(folder: Folder)
    | ServerAnswers(load: nat)
    | AnswerLost(load: nat)                    // a network failure or an error status
    | ReceiveStep(load: nat, quota: bool)
    | FinishStep(load: nat)
    | InvalidateStep
    | EventStep(event: Event)
    | Reload                                   // the page is loaded again
    | ServerChanges(content: Folder -> Files)

  predicate Enabled(w: World, s: Step) {
    var loads := w.client.loads;
    match s
    case ServerAnswers(i) => i < |loads| && loads[i].phase.Requested?
    case AnswerLost(i) => i < |loads| && (loads[i].phase.Requested? || loads[i].phase.Answered?)
    case ReceiveStep(i, _) => i < |loads| && loads[i].phase.Answered?
    case FinishStep(i) => i < |loads| && loads[i].phase.Decrypting?
    case _ => true
  }

  ghost function Next(w: World, s: Step, etagOf: Files -> string, decrypt: Decrypt): World
    requires Enabled(w, s)
  {
    var c := w.client;
    match s
    case OpenStep(folder) => w.(client := Open(c, folder))
    case ServerAnswers(i) =>
      var files := w.content(c.loads[i].folder);
      var answer := ServerAnswer(files, EtagHeader(c.loads[i]), etagOf);
      w.(client := c.(loads := c.loads[i := c.loads[i].(phase := Answered(answer))]),
         sent := if answer.Full? then w.sent + {Stored(c.loads[i].folder, answer.etag, files)} else w.sent)
    case AnswerLost(i) => w.(client := c.(loads := c.loads[i := c.loads[i].(phase := Answered(Failed))]))
    case ReceiveStep(i, quota) => w.(client := Receive(c, i, quota))
    case FinishStep(i) => w.(client := Finish(c, i, decrypt))
    case InvalidateStep => w.(client := Invalidate(c))
    case EventStep(e) => w.(client := HandleEvent(c, e, decrypt))
    case Reload => w.(client := Reloaded(c))
    case ServerChanges(content) => w.(content := content)
  }

  ghost predicate SentFor(w: World, folder: Folder, files: Files) {
    exists etag :: Stored(folder, etag, files) in w.sent
  }

  ghost predicate LoadInv(w: World, l: Load, etagOf: Files -> string) {
    && (l.cached.Some? ==> l.cached.value in w.sent && l.cached.value.folder == l.folder)
    && match l.phase
       case Answered(Full(files, etag)) => Stored(l.folder, etag, files) in w.sent
       case Answered(NotModified) => l.cached.Some?
       case Decrypting(files) => SentFor(w, l.folder, files)
       case Resolved(loaded) => loaded.folder == l.folder
       case _ => true
  }

  /** Everything kept on the client under a folder's name was sent by the server, together, for that folder. */
  ghost predicate Inv(w: World, etagOf: Files -> string) {
    && (forall s :: s in w.sent ==> s.etag == etagOf(s.files))
    && (w.client.slot.Some? ==> w.client.slot.value in w.sent)
    && (w.client.fetching.Some? ==> w.client.fetching.value < |w.client.loads|)
    && (forall i :: 0 <= i < |w.client.loads| ==> LoadInv(w, w.client.loads[i], etagOf))
  }

  ghost predicate Initial(w: World) { w.client == Client(None, None, None, []) && w.sent == {} }

  lemma LoadInvGrows(w: World, w': World, l: Load, etagOf: Files -> string)
    requires LoadInv(w, l, etagOf) && w.sent <= w'.sent
    ensures LoadInv(w', l, etagOf)
  {
    if l.phase.Decrypting? {
      var etag :| Stored(l.folder, etag, l.phase.files) in w.sent;
      assert Stored(l.folder, etag, l.phase.files) in w'.sent;
    }
  }

  lemma StepKeepsInv(w: World, s: Step, etagOf: Files -> string, decrypt: Decrypt)
    requires Inv(w, etagOf) && Enabled(w, s)
    ensures Inv(Next(w, s, etagOf, decrypt), etagOf)
  {
    var w' := Next(w, s, etagOf, decrypt);
    forall i | 0 <= i < |w'.client.loads| ensures LoadInv(w', w'.client.loads[i], etagOf) {
      if i < |w.client.loads| {
        LoadInvGrows(w, w', w.client.loads[i], etagOf);
        if s.ReceiveStep? && s.load == i { ReceivedWasSent(w, i, s.quota, etagOf); }
      }
    }
  }

  lemma ReceivedWasSent(w: World, i: nat, quota: bool, etagOf: Files -> string)
    requires Inv(w, etagOf) && i < |w.client.loads| && w.client.loads[i].phase.Answered?
    ensures LoadInv(w, Receive(w.client, i, quota).loads[i], etagOf)
  {
    var l := w.client.loads[i];
    assert LoadInv(w, l, etagOf);
    match l.phase.answer
    case Full(files, etag) => assert Stored(l.folder, etag, files) in w.sent;
    case _ =>
      if l.cached.Some? { assert Stored(l.folder, l.cached.value.etag, l.cached.value.files) in w.sent; }
  }

  // ---------------------------------------------------------------------------
  // Main results
  // ---------------------------------------------------------------------------

  ghost predicate CanRun(w: World, steps: seq<Step>, etagOf: Files -> string, decrypt: Decrypt)
    decreases |steps|
  {
    steps != [] ==> Enabled(w, steps[0]) && CanRun(Next(w, steps[0], etagOf, decrypt), steps[1..], etagOf, decrypt)
  }

  ghost function Run(w: World, steps: seq<Step>, etagOf: Files -> string, decrypt: Decrypt): World
    requires CanRun(w, steps, etagOf, decrypt)
    decreases |steps|
  {
    if steps == [] then w else Run(Next(w, steps[0], etagOf, decrypt), steps[1..], etagOf, decrypt)
  }

  lemma {:induction false} RunKeepsInv(w: World, steps: seq<Step>, etagOf: Files -> string, decrypt: Decrypt)
    requires Inv(w, etagOf) && CanRun(w, steps, etagOf, decrypt)
    ensures Inv(Run(w, steps, etagOf, decrypt), etagOf)
    decreases |steps|
  {
    if steps != [] {
      StepKeepsInv(w, steps[0], etagOf, decrypt);
      RunKeepsInv(Next(w, steps[0], etagOf, decrypt), steps[1..], etagOf, decrypt);
    }
  }

  /**
   In every reachable state, whatever is stored for a folder, and whatever a load is about to show, was sent for that
   folder: the stored tag and files belong together, and no folder's entry answers another's load.
   */
  lemma StoredWasSentTogether(w0: World, steps: seq<Step>, etagOf: Files -> string, decrypt: Decrypt)
    requires Initial(w0) && CanRun(w0, steps, etagOf, decrypt)
    ensures var w := Run(w0, steps, etagOf, decrypt);
      && (w.client.slot.Some? ==>
        w.client.slot.value in w.sent && w.client.slot.value.etag == etagOf(w.client.slot.value.files))
      && forall i :: 0 <= i < |w.client.loads| ==>
           var l := w.client.loads[i];
           && (l.cached.Some? ==> l.cached.value in w.sent && l.cached.value.folder == l.folder)
           && (l.phase.Decrypting? ==> SentFor(w, l.folder, l.phase.files))
           && (l.phase.Resolved? ==> l.phase.loaded.folder == l.folder)
  {
    RunKeepsInv(w0, steps, etagOf, decrypt);
    var w := Run(w0, steps, etagOf, decrypt);
    forall i | 0 <= i < |w.client.loads| ensures LoadInv(w, w.client.loads[i], etagOf) {}
  }

  /** The files a load goes on with when its request is answered now and the answer arrives. */
  ghost function LoadedFiles(w: World, i: nat, quota: bool, etagOf: Files -> string, decrypt: Decrypt): Files
    requires Inv(w, etagOf) && i < |w.client.loads| && w.client.loads[i].phase.Requested?
  {
    var answered := Next(w, ServerAnswers(i), etagOf, decrypt);
    AnswerGoesOn(w, i, quota, etagOf, decrypt);
    Receive(answered.client, i, quota).loads[i].phase.files
  }

  lemma AnswerGoesOn(w: World, i: nat, quota: bool, etagOf: Files -> string, decrypt: Decrypt)
    requires Inv(w, etagOf) && i < |w.client.loads| && w.client.loads[i].phase.Requested?
    ensures Receive(Next(w, ServerAnswers(i), etagOf, decrypt).client, i, quota).loads[i].phase.Decrypting?
  {
  }

  /**
   A load shows the server's current files unless the tag it holds is the current one for other files, and what it
   shows always has the current files' tag.
   */
  lemma CurrentIff(w: World, i: nat, quota: bool, etagOf: Files -> string, decrypt: Decrypt)
    requires Inv(w, etagOf) && i < |w.client.loads| && w.client.loads[i].phase.Requested?
    ensures var l := w.client.loads[i];
      var files, current := LoadedFiles(w, i, quota, etagOf, decrypt), w.content(l.folder);
      && etagOf(files) == etagOf(current)
      && (files == current <==>
          !(l.cached.Some? && l.cached.value.etag == etagOf(current) && l.cached.value.files != current))
  {
    assert LoadInv(w, w.client.loads[i], etagOf);
  }

  ghost predicate Injective(etagOf: Files -> string) {
    forall a, b :: etagOf(a) == etagOf(b) ==> a == b
  }

  /** If tags determine content, then in every run a load answered by 304 shows what a full answer would have shown. */
  lemma NotModifiedIsCurrent(w0: World, steps: seq<Step>, i: nat, quota: bool, etagOf: Files -> string,
                             decrypt: Decrypt)
    requires Initial(w0) && CanRun(w0, steps, etagOf, decrypt) && Injective(etagOf)
    requires var loads := Run(w0, steps, etagOf, decrypt).client.loads; i < |loads| && loads[i].phase.Requested?
    ensures Inv(Run(w0, steps, etagOf, decrypt), etagOf)
    ensures var w := Run(w0, steps, etagOf, decrypt);
      LoadedFiles(w, i, quota, etagOf, decrypt) == w.content(w.client.loads[i].folder)
  {
    RunKeepsInv(w0, steps, etagOf, decrypt);
    CurrentIff(Run(w0, steps, etagOf, decrypt), i, quota, etagOf, decrypt);
  }

  // ---------------------------------------------------------------------------
  // The tag the server really computes
  // ---------------------------------------------------------------------------

  /** The server hashes ids and creation times, in order, and no other column. */
  function TagSource(files: Files): (source: seq<(string, Field)>)
    ensures |source| == |files|
    ensures forall i :: 0 <= i < |files| ==>
      source[i] == (files[i].id, if "created_at" in files[i].record then files[i].record["created_at"] else Null)
  {
    if files == [] then []
    else
      var created := if "created_at" in files[0].record then files[0].record["created_at"] else Null;
      [(files[0].id, created)] + TagSource(files[1..])
  }

  ghost predicate IsServerTag(etagOf: Files -> string) {
    forall a, b :: etagOf(a) == etagOf(b) <==> TagSource(a) == TagSource(b)
  }

  /** With that tag a load in any run shows the right files in the right order, if not always their current columns. */
  lemma ShownIdsAreCurrent(w0: World, steps: seq<Step>, i: nat, quota: bool, etagOf: Files -> string, decrypt: Decrypt)
    requires Initial(w0) && CanRun(w0, steps, etagOf, decrypt) && IsServerTag(etagOf)
    requires var loads := Run(w0, steps, etagOf, decrypt).client.loads; i < |loads| && loads[i].phase.Requested?
    ensures Inv(Run(w0, steps, etagOf, decrypt), etagOf)
    ensures var w := Run(w0, steps, etagOf, decrypt);
      var files, current := LoadedFiles(w, i, quota, etagOf, decrypt), w.content(w.client.loads[i].folder);
      |files| == |current| && forall k :: 0 <= k < |files| ==> files[k].id == current[k].id
  {
    RunKeepsInv(w0, steps, etagOf, decrypt);
    var w := Run(w0, steps, etagOf, decrypt);
    CurrentIff(w, i, quota, etagOf, decrypt);
    SameTagSameIds(LoadedFiles(w, i, quota, etagOf, decrypt), w.content(w.client.loads[i].folder), etagOf);
  }

  lemma SameTagSameIds(a: Files, b: Files, etagOf: Files -> string)
    requires IsServerTag(etagOf) && etagOf(a) == etagOf(b)
    ensures |a| == |b| && forall k :: 0 <= k < |a| ==> a[k].id == b[k].id
  {
    assert TagSource(a) == TagSource(b);
    forall k | 0 <= k < |a| ensures a[k].id == b[k].id { assert TagSource(a)[k].0 == TagSource(b)[k].0; }
  }

  /**
   A page loads the folder and is loaded again; meanwhile the server's files change, and the folder is loaded anew.
   */
  function Revisit(folder: Folder, later: Folder -> Files): seq<Step> {
    [OpenStep(folder), ServerAnswers(0), ReceiveStep(0, true), FinishStep(0), Reload, ServerChanges(later),
      OpenStep(folder)]
  }

  lemma FirstVisit(w0: World, folder: Folder, etagOf: Files -> string, decrypt: Decrypt)
    requires Initial(w0) && etagOf(w0.content(folder)) != ""
    ensures var w1 := Next(w0, OpenStep(folder), etagOf, decrypt);
      && Enabled(w1, ServerAnswers(0))
      && var w2 := Next(w1, ServerAnswers(0), etagOf, decrypt);
      && Enabled(w2, ReceiveStep(0, true))
      && var w3 := Next(w2, ReceiveStep(0, true), etagOf, decrypt);
      && Enabled(w3, FinishStep(0))
      && var w5 := Next(Next(w3, FinishStep(0), etagOf, decrypt), Reload, etagOf, decrypt);
      w5.client == Client(None, None, Some(Stored(folder, etagOf(w0.content(folder)), w0.content(folder))), [])
  {
  }

  lemma SecondVisit(w: World, folder: Folder, stored: Stored, later: Folder -> Files, etagOf: Files -> string,
                    decrypt: Decrypt)
    requires w.client == Client(None, None, Some(stored), []) && stored.folder == folder
    ensures var w' := Next(Next(w, ServerChanges(later), etagOf, decrypt), OpenStep(folder), etagOf, decrypt);
      w'.content == later && w'.client.loads == [Load(folder, Some(stored), Requested)]
  {
  }

  lemma RevisitRuns(w0: World, folder: Folder, later: Folder -> Files, etagOf: Files -> string, decrypt: Decrypt)
    requires Initial(w0) && etagOf(w0.content(folder)) != ""
    ensures CanRun(w0, Revisit(folder, later), etagOf, decrypt)
    ensures var w, was := Run(w0, Revisit(folder, later), etagOf, decrypt), w0.content(folder);
      && w.content == later
      && w.client.loads == [Load(folder, Some(Stored(folder, etagOf(was), was)), Requested)]
  {
    var steps := Revisit(folder, later);
    FirstVisit(w0, folder, etagOf, decrypt);
    hide CanRun, Run, Next;
    var w1 := Next(w0, steps[0], etagOf, decrypt);
    var w2 := Next(w1, steps[1], etagOf, decrypt);
    var w3 := Next(w2, steps[2], etagOf, decrypt);
    var w4 := Next(w3, steps[3], etagOf, decrypt);
    var w5 := Next(w4, steps[4], etagOf, decrypt);
    SecondVisit(w5, folder, w5.client.slot.value, later, etagOf, decrypt);
    var w6 := Next(w5, steps[5], etagOf, decrypt);
    var w7 := Next(w6, steps[6], etagOf, decrypt);
    NoSteps(w7, etagOf, decrypt);
    assert steps[6..][1..] == [];
    FirstStep(w6, steps[6..], etagOf, decrypt);
    assert steps[5..][1..] == steps[6..];
    FirstStep(w5, steps[5..], etagOf, decrypt);
    assert steps[4..][1..] == steps[5..];
    FirstStep(w4, steps[4..], etagOf, decrypt);
    assert steps[3..][1..] == steps[4..];
    FirstStep(w3, steps[3..], etagOf, decrypt);
    assert steps[2..][1..] == steps[3..];
    FirstStep(w2, steps[2..], etagOf, decrypt);
    assert steps[1..][1..] == steps[2..];
    FirstStep(w1, steps[1..], etagOf, decrypt);
    FirstStep(w0, steps, etagOf, decrypt);
  }

  lemma NoSteps(w: World, etagOf: Files -> string, decrypt: Decrypt)
    ensures CanRun(w, [], etagOf, decrypt) && Run(w, [], etagOf, decrypt) == w
  {
  }

  lemma FirstStep(w: World, steps: seq<Step>, etagOf: Files -> string, decrypt: Decrypt)
    requires steps != [] && Enabled(w, steps[0])
      && CanRun(Next(w, steps[0], etagOf, decrypt), steps[1..], etagOf, decrypt)
    ensures CanRun(w, steps, etagOf, decrypt)
    ensures Run(w, steps, etagOf, decrypt) == Run(Next(w, steps[0], etagOf, decrypt), steps[1..], etagOf, decrypt)
  {
  }

  /**
   What the revisited page shows, whatever changed on the server: the files it stored if the tag is still theirs, and
   otherwise the files the server has now.
   */
  lemma RevisitedFiles(w0: World, folder: Folder, later: Folder -> Files, quota: bool, etagOf: Files -> string,
                       decrypt: Decrypt)
    requires Initial(w0) && etagOf(w0.content(folder)) != "" && CanRun(w0, Revisit(folder, later), etagOf, decrypt)
    ensures var w := Run(w0, Revisit(folder, later), etagOf, decrypt);
      && Inv(w, etagOf) && |w.client.loads| == 1 && w.client.loads[0].phase.Requested?
      && LoadedFiles(w, 0, quota, etagOf, decrypt)
         == if etagOf(w0.content(folder)) == etagOf(later(folder)) then w0.content(folder) else later(folder)
  {
    RevisitRuns(w0, folder, later, etagOf, decrypt);
    RunKeepsInv(w0, Revisit(folder, later), etagOf, decrypt);
  }

  /**
   With the server's tag a revisited page is stale exactly when ids and creation times are what they were and another
   column is not: a rename, say.
   */
  lemma ChangeIsMissedIff(w0: World, folder: Folder, later: Folder -> Files, quota: bool, etagOf: Files -> string,
                          decrypt: Decrypt)
    requires Initial(w0) && IsServerTag(etagOf) && etagOf(w0.content(folder)) != ""
    ensures CanRun(w0, Revisit(folder, later), etagOf, decrypt)
    ensures var w := Run(w0, Revisit(folder, later), etagOf, decrypt);
      && Inv(w, etagOf) && |w.client.loads| == 1 && w.client.loads[0].phase.Requested?
      && (LoadedFiles(w, 0, quota, etagOf, decrypt) != later(folder) <==>
            TagSource(w0.content(folder)) == TagSource(later(folder)) && w0.content(folder) != later(folder))
  {
    RevisitRuns(w0, folder, later, etagOf, decrypt);
    RevisitedFiles(w0, folder, later, quota, etagOf, decrypt);
  }

  /** A rename leaves the tag alone, so the page revalidates to the old name. */
  lemma RenameIsNotSeen(w0: World, later: Folder -> Files, quota: bool, etagOf: Files -> string, decrypt: Decrypt)
    requires Initial(w0) && IsServerTag(etagOf) && etagOf(w0.content(None)) != ""
    requires w0.content(None) == [File("f", map["name_ct" := Text("a")])]
    requires later(None) == [File("f", map["name_ct" := Text("b")])]
    ensures CanRun(w0, Revisit(None, later), etagOf, decrypt)
    ensures var w := Run(w0, Revisit(None, later), etagOf, decrypt);
      && Inv(w, etagOf) && |w.client.loads| == 1 && w.client.loads[0].phase.Requested?
      && LoadedFiles(w, 0, quota, etagOf, decrypt) == [File("f", map["name_ct" := Text("a")])]
  {
    RevisitRuns(w0, None, later, etagOf, decrypt);
    RevisitedFiles(w0, None, later, quota, etagOf, decrypt);
    assert TagSource(w0.content(None)) == TagSource(later(None));
  }

  // ---------------------------------------------------------------------------
  // The shared promise
  // ---------------------------------------------------------------------------

  /**
   A caller gets the folder it asked for exactly when it does not join a load that is under way for another one: the
   promise is not kept per folder.
   */
  lemma ReplyFolderIff(w: World, folder: Folder, etagOf: Files -> string)
    requires Inv(w, etagOf)
    ensures var c, reply, c' := w.client, OpenReply(w.client, folder), Open(w.client, folder);
      && (reply.Promise? ==> reply.load < |c'.loads|)
      && ((if reply.Ready? then reply.loaded.folder else c'.loads[reply.load].folder) == folder <==>
          (c.manifest.Some? && c.manifest.value.folder == folder) || c.fetching.None?
          || c.loads[c.fetching.value].folder == folder)
  {
  }

  predicate Settled(l: Load) { l.phase.Resolved? || l.phase.Rejected? }

  /** The shared promise has failed, and nothing under way will replace it. */
  ghost predicate Stuck(c: Client) {
    && c.fetching.Some? && c.fetching.value < |c.loads| && c.loads[c.fetching.value].phase.Rejected?
    && forall i :: 0 <= i < |c.loads| ==> Settled(c.loads[i])
  }

  ghost predicate Drops(c: Client, e: Event) {
    !(e.action == Removed && e.id.Some?) && (c.manifest.None? || e.id.None? || e.action.Unknown?)
  }

  /** What frees the shared promise. */
  ghost predicate Releases(c: Client, s: Step) { s.InvalidateStep? || s.Reload? || (s.EventStep? && Drops(c, s.event)) }

  /**
   A failed load is never forgotten by itself: every later search that needs a load gets the failed promise, until
   something invalidates the manifest or the page is loaded again; and that is a cure.
   */
  lemma FailureSticks(w: World, s: Step, etagOf: Files -> string, decrypt: Decrypt)
    requires Stuck(w.client) && Enabled(w, s)
    ensures Stuck(Next(w, s, etagOf, decrypt).client) <==> !Releases(w.client, s)
    ensures forall folder :: OpenReply(w.client, folder).Promise? ==>
      OpenReply(w.client, folder) == Promise(w.client.fetching.value) && Open(w.client, folder) == w.client
    ensures forall folder :: OpenReply(Invalidate(w.client), folder) == Promise(|w.client.loads|)
  {
  }

  /**
   As long as none of these comes, no run gets away from a failed promise, and no load is ever begun.  Which events drop
   everything can be told from the start: the others neither fill nor empty the memory.
   */
  lemma {:induction false} FailureSticksOverRun(w: World, steps: seq<Step>, etagOf: Files -> string, decrypt: Decrypt)
    requires Stuck(w.client) && CanRun(w, steps, etagOf, decrypt)
    requires forall k :: 0 <= k < |steps| ==> !Releases(w.client, steps[k])
    ensures var c := Run(w, steps, etagOf, decrypt).client; c.fetching == w.client.fetching && c.loads == w.client.loads
    decreases |steps|
  {
    if steps != [] {
      var w' := Next(w, steps[0], etagOf, decrypt);
      assert !Releases(w.client, steps[0]);
      FailureSticks(w, steps[0], etagOf, decrypt);
      MemoryStays(w, steps[0], etagOf, decrypt);
      forall k | 0 <= k < |steps[1..]|
        ensures !Releases(w'.client, steps[1..][k])
      {
        assert steps[1..][k] == steps[k + 1];
      }
      FailureSticksOverRun(w', steps[1..], etagOf, decrypt);
    }
  }

  lemma MemoryStays(w: World, s: Step, etagOf: Files -> string, decrypt: Decrypt)
    requires Stuck(w.client) && Enabled(w, s) && !Releases(w.client, s)
    ensures var c := Next(w, s, etagOf, decrypt).client;
      && c.fetching == w.client.fetching && c.loads == w.client.loads
      && (c.manifest.None? <==> w.client.manifest.None?)
  {
  }

  /**
   With nothing under way, invalidating, or an event the client cannot place, makes the next load fetch everything: no
   tag is sent, and the manifest becomes the files the server has when it answers.
   */
  lemma DroppingRefetches(w: World, drop: Step, folder: Folder, content: Folder -> Files, quota: bool,
                          etagOf: Files -> string, decrypt: Decrypt)
    requires forall i :: 0 <= i < |w.client.loads| ==> Settled(w.client.loads[i])
    requires drop.InvalidateStep? || (drop.EventStep? && Drops(w.client, drop.event))
    ensures var n := |w.client.loads|;
      var begun := Next(Next(w, drop, etagOf, decrypt), OpenStep(folder), etagOf, decrypt);
      var changed := Next(begun, ServerChanges(content), etagOf, decrypt);
      && Enabled(changed, ServerAnswers(n))
      && var answered := Next(changed, ServerAnswers(n), etagOf, decrypt);
      && Enabled(answered, ReceiveStep(n, quota))
      && var received := Next(answered, ReceiveStep(n, quota), etagOf, decrypt);
      && Enabled(received, FinishStep(n))
      && Next(received, FinishStep(n), etagOf, decrypt).client.manifest
         == Some(Loaded(folder, DecryptItems(content(folder), decrypt)))
  {
  }

  /** A load under way whose end will put something back. */
  predicate BringsBack(l: Load) {
    match l.phase
    case Requested => true
    case Answered(answer) => answer.Full? || l.cached.Some?
    case Decrypting(_) => true
    case _ => false
  }

  predicate IsEmpty(c: Client) { c.manifest.None? && c.slot.None? }

  /** No load is asked for. */
  predicate NoneOpened(steps: seq<Step>) { forall k :: 0 <= k < |steps| ==> !steps[k].OpenStep? }

  /** Some run that asks for no load puts a manifest into memory, or files into the slot. */
  ghost predicate CanComeBack(w: World, etagOf: Files -> string, decrypt: Decrypt) {
    exists steps ::
      && NoneOpened(steps) && CanRun(w, steps, etagOf, decrypt)
      && !IsEmpty(Run(w, steps, etagOf, decrypt).client)
  }

  ghost predicate NothingBringsBack(c: Client) {
    IsEmpty(c) && forall i :: 0 <= i < |c.loads| ==> !BringsBack(c.loads[i])
  }

  lemma StaysEmpty(w: World, s: Step, etagOf: Files -> string, decrypt: Decrypt)
    requires NothingBringsBack(w.client) && Enabled(w, s) && !s.OpenStep?
    ensures NothingBringsBack(Next(w, s, etagOf, decrypt).client)
  {
  }

  lemma {:induction false} RunStaysEmpty(w: World, steps: seq<Step>, etagOf: Files -> string, decrypt: Decrypt)
    requires NothingBringsBack(w.client) && CanRun(w, steps, etagOf, decrypt) && NoneOpened(steps)
    ensures IsEmpty(Run(w, steps, etagOf, decrypt).client)
    decreases |steps|
  {
    if steps != [] {
      assert !steps[0].OpenStep?;
      StaysEmpty(w, steps[0], etagOf, decrypt);
      assert forall k :: 0 <= k < |steps[1..]| ==> steps[1..][k] == steps[k + 1];
      RunStaysEmpty(Next(w, steps[0], etagOf, decrypt), steps[1..], etagOf, decrypt);
    }
  }

  lemma DecryptingComesBack(w: World, i: nat, etagOf: Files -> string, decrypt: Decrypt) returns (steps: seq<Step>)
    requires i < |w.client.loads| && w.client.loads[i].phase.Decrypting?
    ensures NoneOpened(steps) && CanRun(w, steps, etagOf, decrypt) && !IsEmpty(Run(w, steps, etagOf, decrypt).client)
  {
    steps := [FinishStep(i)];
    NoSteps(Next(w, steps[0], etagOf, decrypt), etagOf, decrypt);
    assert steps[1..] == [];
  }

  lemma AnsweredComesBack(w: World, i: nat, etagOf: Files -> string, decrypt: Decrypt) returns (steps: seq<Step>)
    requires i < |w.client.loads| && w.client.loads[i].phase.Answered? && BringsBack(w.client.loads[i])
    ensures NoneOpened(steps) && CanRun(w, steps, etagOf, decrypt) && !IsEmpty(Run(w, steps, etagOf, decrypt).client)
  {
    var s := ReceiveStep(i, true);
    var rest := DecryptingComesBack(Next(w, s, etagOf, decrypt), i, etagOf, decrypt);
    steps := [s] + rest;
    assert steps[1..] == rest;
  }

  lemma RequestedComesBack(w: World, i: nat, etagOf: Files -> string, decrypt: Decrypt) returns (steps: seq<Step>)
    requires i < |w.client.loads| && w.client.loads[i].phase.Requested?
    ensures NoneOpened(steps) && CanRun(w, steps, etagOf, decrypt) && !IsEmpty(Run(w, steps, etagOf, decrypt).client)
  {
    var s := ServerAnswers(i);
    var rest := AnsweredComesBack(Next(w, s, etagOf, decrypt), i, etagOf, decrypt);
    steps := [s] + rest;
    assert steps[1..] == rest;
  }

  /**
   An invalidation lasts until the next load is asked for exactly when no load under way can end with files: none is
   waiting for its answer or decrypting, and no answer on its way is full or finds stored files to fall back on.
   */
  lemma InvalidationLastsIff(w: World, etagOf: Files -> string, decrypt: Decrypt)
    ensures CanComeBack(Next(w, InvalidateStep, etagOf, decrypt), etagOf, decrypt) <==>
      exists i :: 0 <= i < |w.client.loads| && BringsBack(w.client.loads[i])
  {
    var w' := Next(w, InvalidateStep, etagOf, decrypt);
    if i :| 0 <= i < |w.client.loads| && BringsBack(w.client.loads[i]) {
      var steps;
      if w.client.loads[i].phase.Decrypting? { steps := DecryptingComesBack(w', i, etagOf, decrypt); }
      else if w.client.loads[i].phase.Answered? { steps := AnsweredComesBack(w', i, etagOf, decrypt); }
      else { steps := RequestedComesBack(w', i, etagOf, decrypt); }
    } else {
      forall steps | NoneOpened(steps) && CanRun(w', steps, etagOf, decrypt)
        ensures IsEmpty(Run(w', steps, etagOf, decrypt).client)
      {
        RunStaysEmpty(w', steps, etagOf, decrypt);
      }
    }
  }

  /** What comes back is what the load was sent, also when the invalidation was meant to get rid of just that. */
  lemma EarlierAnswerComesBack(w: World, i: nat, quota: bool, etagOf: Files -> string, decrypt: Decrypt)
    requires Inv(w, etagOf) && i < |w.client.loads|
    requires w.client.loads[i].phase.Answered? && w.client.loads[i].phase.answer.Full?
    ensures var l, w' := w.client.loads[i], Next(w, InvalidateStep, etagOf, decrypt);
      && Enabled(w', ReceiveStep(i, quota))
      && var c := Next(w', ReceiveStep(i, quota), etagOf, decrypt).client;
      && Stored(l.folder, l.phase.answer.etag, l.phase.answer.files) in w.sent
      && c.slot == (if l.phase.answer.etag == "" || !quota then None
                    else Some(Stored(l.folder, l.phase.answer.etag, l.phase.answer.files)))
  {
    assert LoadInv(w, w.client.loads[i], etagOf);
  }

  // ---------------------------------------------------------------------------
  // A loaded manifest kept current by events
  // ---------------------------------------------------------------------------

  /** The files as the server's map. */
  function AsServer(files: Files): Server {
    if files == [] then map[] else AsServer(files[1..])[files[0].id := files[0].record]
  }

  ghost predicate DistinctFiles(files: Files) { forall i, j :: 0 <= i < j < |files| ==> files[i].id != files[j].id }

  lemma {:induction false} AsServerHolds(files: Files, id: string)
    requires DistinctFiles(files)
    ensures id in AsServer(files) <==> exists i :: 0 <= i < |files| && files[i].id == id
    ensures forall i :: 0 <= i < |files| && files[i].id == id ==> AsServer(files)[id] == files[i].record
  {
    if files != [] {
      assert forall i :: 0 <= i < |files[1..]| ==> files[1..][i] == files[i + 1];
      AsServerHolds(files[1..], id);
      if files[0].id == id { assert forall i :: 0 < i < |files| ==> files[i].id != id; }
    }
  }

  /** A freshly loaded manifest is the server's files, once each. */
  lemma LoadedAgrees(files: Files, decrypt: Decrypt)
    requires DistinctFiles(files)
    ensures Agrees(DecryptItems(files, decrypt), AsServer(files))
  {
    var items := DecryptItems(files, decrypt);
    forall i | 0 <= i < |items|
      ensures items[i].id in AsServer(files) && items[i].record == AsServer(files)[items[i].id]
    {
      AsServerHolds(files, files[i].id);
    }
    forall id | id in AsServer(files) ensures Has(items, id) {
      AsServerHolds(files, id);
      var i :| 0 <= i < |files| && files[i].id == id;
      assert items[i].id == id;
    }
  }

  function HandleAll(c: Client, changes: seq<Change>, decrypt: Decrypt): Client
    decreases |changes|
  {
    if changes == [] then c else HandleAll(HandleEvent(c, FullEvent(changes[0]), decrypt), changes[1..], decrypt)
  }

  /** No change of the run takes a file across the border of the scope. */
  predicate RunStaysInScope(server: Server, scope: Record -> bool, changes: seq<Change>)
    decreases |changes|
  {
    changes == []
    || (StaysInScope(server, scope, changes[0])
      && RunStaysInScope(ServerAfter(server, changes[0]), scope, changes[1..]))
  }

  /**
   A manifest of a folder stays the server's files of that folder, with distinct ids, as long as no change takes a file
   across its border; no earlier answer is left in the slot.
   */
  lemma {:induction false} EventsKeepScoped(c: Client, server: Server, scope: Record -> bool, changes: seq<Change>,
                                            decrypt: Decrypt)
    requires c.manifest.Some? && Agrees(c.manifest.value.items, Scoped(server, scope))
    requires RunStaysInScope(server, scope, changes)
    ensures var c' := HandleAll(c, changes, decrypt);
      && c'.manifest.Some? && c'.manifest.value.folder == c.manifest.value.folder
      && Agrees(c'.manifest.value.items, Scoped(ServerRun(server, changes), scope))
      && c'.slot == (if changes == [] then c.slot else None)
    decreases |changes|
  {
    if changes != [] {
      ScopedAgreesIff(c.manifest.value.items, server, scope, changes[0], decrypt);
      EventKeepsAgreement(c.manifest.value.items, Scoped(server, scope), changes[0], decrypt);
      EventsKeepScoped(HandleEvent(c, FullEvent(changes[0]), decrypt), ServerAfter(server, changes[0]), scope,
                       changes[1..], decrypt);
    }
  }

  /**
   The first change that takes a file across the border is the end of it: the manifest then differs from the server's
   files of the folder.
   */
  lemma CrossingBreaksScoped(c: Client, server: Server, scope: Record -> bool, changes: seq<Change>, last: Change,
                             decrypt: Decrypt)
    requires c.manifest.Some? && Agrees(c.manifest.value.items, Scoped(server, scope))
    requires RunStaysInScope(server, scope, changes)
    ensures var c' := HandleEvent(HandleAll(c, changes, decrypt), FullEvent(last), decrypt);
      && c'.manifest.Some?
      && (Agrees(c'.manifest.value.items, Scoped(ServerAfter(ServerRun(server, changes), last), scope)) <==>
            StaysInScope(ServerRun(server, changes), scope, last))
  {
    EventsKeepScoped(c, server, scope, changes, decrypt);
    var now, reached := HandleAll(c, changes, decrypt), ServerRun(server, changes);
    ScopedAgreesIff(now.manifest.value.items, reached, scope, last, decrypt);
    EventKeepsAgreement(now.manifest.value.items, Scoped(reached, scope), last, decrypt);
  }

  /**
   The manifest of all folders, and changes to the files its user may see: handled one event at a time, it stays the
   server's files with distinct ids, and no earlier answer is left in the slot.
   */
  lemma EventsKeepManifest(c: Client, server: Server, changes: seq<Change>, decrypt: Decrypt)
    requires c.manifest.Some? && c.manifest.value.folder == None && Agrees(c.manifest.value.items, server)
    ensures var c' := HandleAll(c, changes, decrypt);
      && c'.manifest.Some? && c'.manifest.value.folder == None
      && Agrees(c'.manifest.value.items, ServerRun(server, changes))
      && c'.slot == (if changes == [] then c.slot else None)
  {
    var everything := (r: Record) => true;
    EverythingInScope(server, everything, changes);
    assert Scoped(server, everything) == server;
    assert Scoped(ServerRun(server, changes), everything) == ServerRun(server, changes);
    EventsKeepScoped(c, server, everything, changes, decrypt);
  }

  lemma {:induction false} EverythingInScope(server: Server, scope: Record -> bool, changes: seq<Change>)
    requires forall r :: scope(r)
    ensures RunStaysInScope(server, scope, changes)
    decreases |changes|
  {
    if changes != [] { EverythingInScope(ServerAfter(server, changes[0]), scope, changes[1..]); }
  }

  lemma LoadThenEvents(c: Client, files: Files, changes: seq<Change>, decrypt: Decrypt)
    requires DistinctFiles(files) && c.manifest == Some(Loaded(None, DecryptItems(files, decrypt)))
    ensures var c' := HandleAll(c, changes, decrypt);
      && c'.manifest.Some? && Agrees(c'.manifest.value.items, ServerRun(AsServer(files), changes))
      && ((forall k :: 0 <= k < |changes| && changes[k].Patch? ==> NamesFile(changes[k].record)) ==>
            NamesRight(c'.manifest.value.items, decrypt))
  {
    LoadedAgrees(files, decrypt);
    LoadedNames(files, decrypt);
    EventsKeepManifest(c, AsServer(files), changes, decrypt);
    if forall k :: 0 <= k < |changes| && changes[k].Patch? ==> NamesFile(changes[k].record) {
      EventsKeepNames(c, changes, decrypt);
    }
  }

  /** Events whose patches name the file keep every name right. */
  lemma {:induction false} EventsKeepNames(c: Client, changes: seq<Change>, decrypt: Decrypt)
    requires c.manifest.Some? && NamesRight(c.manifest.value.items, decrypt)
    requires forall k :: 0 <= k < |changes| && changes[k].Patch? ==> NamesFile(changes[k].record)
    ensures var c' := HandleAll(c, changes, decrypt);
      c'.manifest.Some? && NamesRight(c'.manifest.value.items, decrypt)
    decreases |changes|
  {
    hide NamesFile, NamesRight;
    if changes != [] {
      EventKeepsNames(c.manifest.value.items, changes[0], decrypt);
      assert forall k :: 0 <= k < |changes[1..]| ==> changes[1..][k] == changes[k + 1];
      EventsKeepNames(HandleEvent(c, FullEvent(changes[0]), decrypt), changes[1..], decrypt);
    }
  }

  // ---------------------------------------------------------------------------
  // Another user in the same tab
  // ---------------------------------------------------------------------------

  /**
   Logging out clears neither the memory nor the slot and loads no page, so for the cache the next user of the tab is
   just a server with other files.  That user is shown the last user's items, without a request, exactly when the
   memory holds the folder asked for; and stored files, if the request fails, exactly when the slot holds it and there
   is no other load to join.
   */
  lemma NextUserSees(w: World, theirs: Folder -> Files, folder: Folder, quota: bool, etagOf: Files -> string,
                     decrypt: Decrypt)
    requires Inv(w, etagOf)
    ensures var w', n := Next(w, ServerChanges(theirs), etagOf, decrypt), |w.client.loads|;
      && (OpenReply(w'.client, folder).Ready? <==> w.client.manifest.Some? && w.client.manifest.value.folder == folder)
      && (OpenReply(w'.client, folder).Ready? ==> OpenReply(w'.client, folder).loaded == w.client.manifest.value)
      && (OpenReply(w'.client, folder) == Promise(n) ==>
            var asked := Next(w', OpenStep(folder), etagOf, decrypt);
            && Enabled(asked, AnswerLost(n))
            && var lost := Next(asked, AnswerLost(n), etagOf, decrypt);
            && Enabled(lost, ReceiveStep(n, quota))
            && Next(lost, ReceiveStep(n, quota), etagOf, decrypt).client.loads[n].phase
               == if w.client.slot.Some? && w.client.slot.value.folder == folder
                  then Decrypting(w.client.slot.value.files) else Rejected)
  {
  }

  /** When the request succeeds, the tag protects the next user: the files shown always have the tag of their own. */
  lemma NextUserProtected(w: World, theirs: Folder -> Files, folder: Folder, quota: bool, etagOf: Files -> string,
                          decrypt: Decrypt)
    requires Inv(w, etagOf) && OpenReply(w.client, folder) == Promise(|w.client.loads|)
    ensures var n := |w.client.loads|;
      var asked := Next(Next(w, ServerChanges(theirs), etagOf, decrypt), OpenStep(folder), etagOf, decrypt);
      && Inv(asked, etagOf) && n < |asked.client.loads| && asked.client.loads[n].phase.Requested?
      && etagOf(LoadedFiles(asked, n, quota, etagOf, decrypt)) == etagOf(theirs(folder))
      && (Injective(etagOf) ==> LoadedFiles(asked, n, quota, etagOf, decrypt) == theirs(folder))
  {
    var changed := Next(w, ServerChanges(theirs), etagOf, decrypt);
    StepKeepsInv(w, ServerChanges(theirs), etagOf, decrypt);
    StepKeepsInv(changed, OpenStep(folder), etagOf, decrypt);
    var asked, n := Next(changed, OpenStep(folder), etagOf, decrypt), |w.client.loads|;
    CurrentIff(asked, n, quota, etagOf, decrypt);
  }

  // ---------------------------------------------------------------------------
  // How a page gets there
  // ---------------------------------------------------------------------------

  /** A page whose first request fails is stuck. */
  lemma FirstFailureSticks(w0: World, folder: Folder, etagOf: Files -> string, decrypt: Decrypt)
    requires Initial(w0)
    ensures var steps := [OpenStep(folder), AnswerLost(0), ReceiveStep(0, true)];
      CanRun(w0, steps, etagOf, decrypt) && Stuck(Run(w0, steps, etagOf, decrypt).client)
  {
    var steps := [OpenStep(folder), AnswerLost(0), ReceiveStep(0, true)];
    var w1 := Next(w0, steps[0], etagOf, decrypt);
    var w2 := Next(w1, steps[1], etagOf, decrypt);
    var w3 := Next(w2, steps[2], etagOf, decrypt);
    assert Stuck(w3.client);
    NoSteps(w3, etagOf, decrypt);
    assert steps[2..][1..] == [];
    FirstStep(w2, steps[2..], etagOf, decrypt);
    assert steps[1..][1..] == steps[2..];
    FirstStep(w1, steps[1..], etagOf, decrypt);
    FirstStep(w0, steps, etagOf, decrypt);
  }

  /** A page that asks for one folder and, before the answer, for another, is promised the first. */
  lemma SecondFolderIsFirst(w0: World, folder: Folder, other: Folder, etagOf: Files -> string, decrypt: Decrypt)
    requires Initial(w0) && folder != other
    ensures CanRun(w0, [OpenStep(folder)], etagOf, decrypt)
    ensures var c := Run(w0, [OpenStep(folder)], etagOf, decrypt).client;
      && OpenReply(c, other) == Promise(0) && Open(c, other) == c && |c.loads| == 1 && c.loads[0].folder == folder
  {
    var steps := [OpenStep(folder)];
    NoSteps(Next(w0, steps[0], etagOf, decrypt), etagOf, decrypt);
    assert steps[1..] == [];
    FirstStep(w0, steps, etagOf, decrypt);
  }

  /** And after one user's visit and another's arrival the memory still shows the first one's files. */
  lemma NextUserSeesFirst(w0: World, theirs: Folder -> Files, folder: Folder, etagOf: Files -> string, decrypt: Decrypt)
    requires Initial(w0)
    ensures var steps := [OpenStep(folder), ServerAnswers(0), ReceiveStep(0, true), FinishStep(0),
      ServerChanges(theirs)];
      && CanRun(w0, steps, etagOf, decrypt)
      && OpenReply(Run(w0, steps, etagOf, decrypt).client, folder)
         == Ready(Loaded(folder, DecryptItems(w0.content(folder), decrypt)))
  {
    var steps := [OpenStep(folder), ServerAnswers(0), ReceiveStep(0, true), FinishStep(0), ServerChanges(theirs)];
    var w1 := Next(w0, steps[0], etagOf, decrypt);
    var w2 := Next(w1, steps[1], etagOf, decrypt);
    var w3 := Next(w2, steps[2], etagOf, decrypt);
    var w4 := Next(w3, steps[3], etagOf, decrypt);
    var w5 := Next(w4, steps[4], etagOf, decrypt);
    assert OpenReply(w5.client, folder) == Ready(Loaded(folder, DecryptItems(w0.content(folder), decrypt)));
    hide Next;
    NoSteps(w5, etagOf, decrypt);
    assert steps[4..][1..] == [];
    FirstStep(w4, steps[4..], etagOf, decrypt);
    assert steps[3..][1..] == steps[4..];
    FirstStep(w3, steps[3..], etagOf, decrypt);
    assert steps[2..][1..] == steps[3..];
    FirstStep(w2, steps[2..], etagOf, decrypt);
    assert steps[1..][1..] == steps[2..];
    FirstStep(w1, steps[1..], etagOf, decrypt);
    FirstStep(w0, steps, etagOf, decrypt);
  }
}
