/**
 The in-memory search manifest of frontend/js/app.js and the file events that keep it current.

 A file is an id and a record of named columns.  An item is a file as the search page holds it, with the name
 decrypted for display.  decrypt stands for the name key: None when there is no master key or decryption fails.
 */
module Manifest {
  import opened Options

  datatype Field = Null | Text(text: string)
  type Record = map<string, Field>
  datatype File = File(id: string, record: Record)
  datatype Item = Item(id: string, record: Record, displayName: string)
  type Decrypt = string -> Option<string>

  function TextOf(r: Record, column: string): string {
    if column in r && r[column].Text? then r[column].text else ""
  }

  function DisplayName(r: Record, decrypt: Decrypt): string {
    var nameCt := TextOf(r, "name_ct");
    if nameCt != "" && decrypt(nameCt).Some? then decrypt(nameCt).value else TextOf(r, "original_name")
  }

  /**
   The name a record is to be shown under, said of its columns: the decrypted name if there is one and it can be
   decrypted, else the original name, else nothing.
   */
  predicate Named(r: Record, name: string, decrypt: Decrypt) {
    if "name_ct" in r && r["name_ct"].Text? && r["name_ct"].text != "" && decrypt(r["name_ct"].text).Some? then
      decrypt(r["name_ct"].text) == Some(name)
    else if "original_name" in r && r["original_name"] != Null then
      r["original_name"] == Text(name)
    else
      name == ""
  }

  lemma NamedIff(r: Record, name: string, decrypt: Decrypt)
    ensures Named(r, name, decrypt) <==> name == DisplayName(r, decrypt)
  {
  }

  function DecryptItems(files: seq<File>, decrypt: Decrypt): (items: seq<Item>)
    ensures |items| == |files|
    ensures forall i :: 0 <= i < |items| ==>
              items[i] == Item(files[i].id, files[i].record, DisplayName(files[i].record, decrypt))
  {
    if files == [] then []
    else [Item(files[0].id, files[0].record, DisplayName(files[0].record, decrypt))] + DecryptItems(files[1..], decrypt)
  }

  // ---------------------------------------------------------------------------
  // Events
  // ---------------------------------------------------------------------------

  datatype Action = Added | Updated | Moved | Removed | Unknown(name: string)

  /** file is the payload: an id, if it has one, and whatever columns came with it. */
  datatype Event = Event(action: Action, id: Option<string>, record: Record)

  function Without(items: seq<Item>, id: string): seq<Item> {
    if items == [] then []
    else (if items[0].id == id then [] else [items[0]]) + Without(items[1..], id)
  }

  predicate Has(items: seq<Item>, id: string) { exists i :: 0 <= i < |items| && items[i].id == id }

  /** Spreads the payload, and the name computed from it, over the item with its id. */
  function Merged(items: seq<Item>, id: string, record: Record, displayName: string): seq<Item> {
    if items == [] then []
    else (if items[0].id == id then [Item(id, items[0].record + record, displayName)] else [items[0]])
         + Merged(items[1..], id, record, displayName)
  }

  /** What an event does to a loaded manifest; None drops it. */
  function ApplyEvent(items: seq<Item>, e: Event, decrypt: Decrypt): Option<seq<Item>> {
    if e.id.None? then None
    else
      var name := DisplayName(e.record, decrypt);
      match e.action
      case Removed => Some(Without(items, e.id.value))
      case Added => Some(if Has(items, e.id.value) then items else [Item(e.id.value, e.record, name)] + items)
      case Updated => Some(Merged(items, e.id.value, e.record, name))
      case Moved => Some(Merged(items, e.id.value, e.record, name))
      case Unknown(_) => None
  }

  // ---------------------------------------------------------------------------
  // Agreement with the server
  // ---------------------------------------------------------------------------

  type Server = map<string, Record>

  datatype Change =
    | Create(id: string, record: Record)
    | Patch(id: string, record: Record, moved: bool)
    | Delete(id: string)

  /** A file id is a primary key: creating one that exists changes nothing. */
  function ServerAfter(server: Server, c: Change): Server {
    match c
    case Create(id, record) => if id in server then server else server[id := record]
    case Patch(id, record, _) => if id in server then server[id := server[id] + record] else server
    case Delete(id) => server - {id}
  }

  /** The event that tells the client all of a change. */
  function FullEvent(c: Change): Event {
    match c
    case Create(id, record) => Event(Added, Some(id), record)
    case Patch(id, record, moved) => Event(if moved then Moved else Updated, Some(id), record)
    case Delete(id) => Event(Removed, Some(id), map[])
  }

  ghost predicate DistinctIds(items: seq<Item>) {
    forall i, j :: 0 <= i < j < |items| ==> items[i].id != items[j].id
  }

  /** The items are exactly the server's files, once each. */
  ghost predicate Agrees(items: seq<Item>, server: Server) {
    && DistinctIds(items)
    && (forall i :: 0 <= i < |items| ==> items[i].id in server && items[i].record == server[items[i].id])
    && (forall id :: id in server ==> Has(items, id))
  }

  lemma {:induction false} WithoutHolds(items: seq<Item>, id: string)
    ensures forall it :: it in Without(items, id) <==> it in items && it.id != id
  {
    if items != [] { WithoutHolds(items[1..], id); }
  }

  lemma {:induction false} WithoutDistinct(items: seq<Item>, id: string)
    requires DistinctIds(items)
    ensures DistinctIds(Without(items, id))
  {
    if items != [] {
      var rest := Without(items[1..], id);
      WithoutDistinct(items[1..], id);
      WithoutHolds(items[1..], id);
      forall i | 0 <= i < |rest| ensures rest[i].id != items[0].id {
        assert rest[i] in items[1..];
      }
    }
  }

  lemma {:induction false} MergedIs(items: seq<Item>, id: string, record: Record, name: string)
    ensures var m := Merged(items, id, record, name);
      && |m| == |items|
      && forall i :: 0 <= i < |m| ==>
           m[i] == if items[i].id == id then Item(id, items[i].record + record, name) else items[i]
  {
    if items != [] { MergedIs(items[1..], id, record, name); }
  }

  lemma DeleteKeepsAgreement(items: seq<Item>, server: Server, id: string)
    requires Agrees(items, server)
    ensures Agrees(Without(items, id), server - {id})
  {
    WithoutHolds(items, id);
    WithoutDistinct(items, id);
    var rest := Without(items, id);
    forall i | 0 <= i < |rest|
      ensures rest[i].id in server && rest[i].id != id && rest[i].record == server[rest[i].id]
    {
      assert rest[i] in items;
    }
    forall other | other in server && other != id ensures Has(rest, other) {
      var i :| 0 <= i < |items| && items[i].id == other;
      assert items[i] in rest;
    }
  }

  lemma PatchKeepsAgreement(items: seq<Item>, server: Server, id: string, record: Record, name: string)
    requires Agrees(items, server)
    ensures Agrees(Merged(items, id, record, name), ServerAfter(server, Patch(id, record, false)))
  {
    MergedIs(items, id, record, name);
    hide Merged;
    var merged := Merged(items, id, record, name);
    assert forall i :: 0 <= i < |items| ==> merged[i].id == items[i].id;
    forall i | 0 <= i < |merged|
      ensures merged[i].id in server && merged[i].record == ServerAfter(server, Patch(id, record, false))[merged[i].id]
    {
    }
    forall other | other in server ensures Has(merged, other) {
      var i :| 0 <= i < |items| && items[i].id == other;
      assert merged[i].id == other;
    }
  }

  lemma CreateKeepsAgreement(items: seq<Item>, server: Server, id: string, record: Record, name: string)
    requires Agrees(items, server) && id !in server
    ensures Agrees([Item(id, record, name)] + items, server[id := record])
  {
    var longer := [Item(id, record, name)] + items;
    assert longer[0].id == id;
    forall other | other in server ensures Has(longer, other) {
      var i :| 0 <= i < |items| && items[i].id == other;
      assert longer[i + 1].id == other;
    }
  }

  /** A full event carries agreement over to the changed server. */
  lemma EventKeepsAgreement(items: seq<Item>, server: Server, c: Change, decrypt: Decrypt)
    requires Agrees(items, server)
    ensures ApplyEvent(items, FullEvent(c), decrypt).Some?
    ensures Agrees(ApplyEvent(items, FullEvent(c), decrypt).value, ServerAfter(server, c))
  {
    match c
    case Create(id, record) =>
      if id !in server { CreateKeepsAgreement(items, server, id, record, DisplayName(record, decrypt)); }
    case Patch(id, record, _) => PatchKeepsAgreement(items, server, id, record, DisplayName(record, decrypt));
    case Delete(id) => DeleteKeepsAgreement(items, server, id);
  }

  function ServerRun(server: Server, changes: seq<Change>): Server
    decreases |changes|
  {
    if changes == [] then server else ServerRun(ServerAfter(server, changes[0]), changes[1..])
  }

  /** The client handling one full event after another; None once the manifest has been dropped. */
  function ClientRun(items: seq<Item>, changes: seq<Change>, decrypt: Decrypt): Option<seq<Item>>
    decreases |changes|
  {
    if changes == [] then Some(items)
    else
      var next := ApplyEvent(items, FullEvent(changes[0]), decrypt);
      if next.None? then None else ClientRun(next.value, changes[1..], decrypt)
  }

  /** Any sequence of changes, handled one event at a time, keeps the manifest equal to the server's files. */
  lemma {:induction false} RunKeepsAgreement(items: seq<Item>, server: Server, changes: seq<Change>, decrypt: Decrypt)
    requires Agrees(items, server)
    ensures ClientRun(items, changes, decrypt).Some?
    ensures Agrees(ClientRun(items, changes, decrypt).value, ServerRun(server, changes))
    decreases |changes|
  {
    if changes != [] {
      EventKeepsAgreement(items, server, changes[0], decrypt);
      RunKeepsAgreement(ApplyEvent(items, FullEvent(changes[0]), decrypt).value, ServerAfter(server, changes[0]),
                        changes[1..], decrypt);
    }
  }

  /** Delivering an added event twice is the same as once. */
  lemma ReplayedAdd(items: seq<Item>, e: Event, decrypt: Decrypt)
    requires e.action == Added && e.id.Some?
    ensures var once := ApplyEvent(items, e, decrypt);
      once.Some? && ApplyEvent(once.value, e, decrypt) == once
  {
    var once := ApplyEvent(items, e, decrypt).value;
    if !Has(items, e.id.value) { assert once[0].id == e.id.value; }
  }

  // ---------------------------------------------------------------------------
  // Payloads that do not tell everything
  // ---------------------------------------------------------------------------

  /**
   After a new file is announced, the manifest agrees with the server exactly when the payload is the whole record.
   The batch upload's announcement carries a folder id and nothing else.
   */
  lemma AddAgreesIff(items: seq<Item>, server: Server, id: string, record: Record, payload: Record, decrypt: Decrypt)
    requires Agrees(items, server) && id !in server
    ensures Agrees(ApplyEvent(items, Event(Added, Some(id), payload), decrypt).value,
      ServerAfter(server, Create(id, record)))
            <==> payload == record
  {
    if payload == record {
      EventKeepsAgreement(items, server, Create(id, record), decrypt);
    } else {
      assert !Has(items, id);
      assert ApplyEvent(items, Event(Added, Some(id), payload), decrypt).value[0].record != record;
    }
  }

  /** Every item is shown under the name its record says. */
  ghost predicate NamesRight(items: seq<Item>, decrypt: Decrypt) {
    forall i :: 0 <= i < |items| ==> Named(items[i].record, items[i].displayName, decrypt)
  }

  /** A freshly loaded list shows every file under its name. */
  lemma LoadedNames(files: seq<File>, decrypt: Decrypt)
    ensures NamesRight(DecryptItems(files, decrypt), decrypt)
  {
    var items := DecryptItems(files, decrypt);
    forall i | 0 <= i < |items| ensures Named(items[i].record, items[i].displayName, decrypt) {
      NamedIff(items[i].record, items[i].displayName, decrypt);
    }
  }

  /**
   After an added, updated or moved event the file it is about is shown under the name its payload says, unless the
   event added a file that was there; every other item is as it was.
   */
  lemma EventNames(items: seq<Item>, e: Event, decrypt: Decrypt, i: nat)
    requires e.id.Some? && (e.action == Added || e.action == Updated || e.action == Moved)
    requires ApplyEvent(items, e, decrypt).Some? && i < |ApplyEvent(items, e, decrypt).value|
    ensures var it := ApplyEvent(items, e, decrypt).value[i];
      if it.id == e.id.value && !(e.action == Added && Has(items, it.id)) then Named(e.record, it.displayName, decrypt)
      else it in items
  {
    NamedIff(e.record, DisplayName(e.record, decrypt), decrypt);
    MergedIs(items, e.id.value, e.record, DisplayName(e.record, decrypt));
  }

  function Ids(items: seq<Item>): (ids: seq<string>)
    ensures |ids| == |items| && forall i :: 0 <= i < |items| ==> ids[i] == items[i].id
  {
    seq(|items|, i requires 0 <= i < |items| => items[i].id)
  }

  /** A new file is listed first; no other event moves an item, and a removal takes out one at most. */
  lemma EventKeepsOrder(items: seq<Item>, e: Event, decrypt: Decrypt)
    requires e.id.Some? && !e.action.Unknown? && DistinctIds(items)
    ensures ApplyEvent(items, e, decrypt).Some?
    ensures var id, after := e.id.value, ApplyEvent(items, e, decrypt).value;
      match e.action
      case Added => Ids(after) == (if Has(items, id) then [] else [id]) + Ids(items)
      case Removed =>
        if Has(items, id) then exists k :: 0 <= k < |items| && items[k].id == id && after == items[..k] + items[k + 1..]
        else after == items
      case _ => Ids(after) == Ids(items)
  {
    var id := e.id.value;
    if e.action == Removed {
      if Has(items, id) {
        var k :| 0 <= k < |items| && items[k].id == id;
        WithoutAt(items, id, k);
      } else {
        WithoutNone(items, id);
      }
    } else {
      MergedIs(items, id, e.record, DisplayName(e.record, decrypt));
    }
  }

  lemma {:induction false} WithoutNone(items: seq<Item>, id: string)
    requires !Has(items, id)
    ensures Without(items, id) == items
  {
    if items != [] {
      assert items[0].id != id && forall i :: 0 <= i < |items[1..]| ==> items[1..][i] == items[i + 1];
      WithoutNone(items[1..], id);
    }
  }

  lemma {:induction false} WithoutAt(items: seq<Item>, id: string, k: nat)
    requires DistinctIds(items) && k < |items| && items[k].id == id
    ensures Without(items, id) == items[..k] + items[k + 1..]
  {
    if k == 0 {
      assert forall i :: 0 <= i < |items[1..]| ==> items[1..][i] == items[i + 1];
      WithoutNone(items[1..], id);
    } else {
      WithoutAt(items[1..], id, k - 1);
      assert items[0].id != id;
      assert items[..k] == [items[0]] + items[1..][..k - 1] && items[k + 1..] == items[1..][k..];
    }
  }

  /**
   An update recomputes the name from the payload alone, so the names stay right exactly when the payload names the
   file as the merged record does.
   */
  lemma UpdateNamesRightIff(items: seq<Item>, id: string, payload: Record, k: nat, decrypt: Decrypt)
    requires NamesRight(items, decrypt) && k < |items| && items[k].id == id && DistinctIds(items)
    ensures NamesRight(ApplyEvent(items, Event(Updated, Some(id), payload), decrypt).value, decrypt) <==>
      exists name :: Named(payload, name, decrypt) && Named(items[k].record + payload, name, decrypt)
  {
    var name := DisplayName(payload, decrypt);
    MergedIs(items, id, payload, name);
    var m := Merged(items, id, payload, name);
    assert m[k] == Item(id, items[k].record + payload, name);
    forall other ensures Named(payload, other, decrypt) <==> other == name { NamedIff(payload, other, decrypt); }
    hide Named;
    if Named(items[k].record + payload, name, decrypt) {
      forall i | 0 <= i < |m| ensures Named(m[i].record, m[i].displayName, decrypt) {
        if i != k { assert items[i].id != id; }
      }
    }
  }

  /** Both name columns in the payload are enough. */
  predicate NamesFile(payload: Record) { "name_ct" in payload && "original_name" in payload }

  lemma NamedPayload(record: Record, payload: Record, name: string, decrypt: Decrypt)
    requires NamesFile(payload)
    ensures Named(payload, name, decrypt) <==> Named(record + payload, name, decrypt)
  {
  }

  /** A full event whose patch, if it is one, names the file keeps every name right. */
  lemma EventKeepsNames(items: seq<Item>, c: Change, decrypt: Decrypt)
    requires NamesRight(items, decrypt) && (c.Patch? ==> NamesFile(c.record))
    ensures ApplyEvent(items, FullEvent(c), decrypt).Some?
    ensures NamesRight(ApplyEvent(items, FullEvent(c), decrypt).value, decrypt)
  {
    hide Named, NamesFile;
    match c
    case Delete(id) =>
      WithoutHolds(items, id);
      var rest := Without(items, id);
      forall i | 0 <= i < |rest| ensures Named(rest[i].record, rest[i].displayName, decrypt) {
        assert rest[i] in items;
      }
    case Create(id, record) => NamedIff(record, DisplayName(record, decrypt), decrypt);
    case Patch(id, payload, _) =>
      var name := DisplayName(payload, decrypt);
      NamedIff(payload, name, decrypt);
      MergedIs(items, id, payload, name);
      hide Merged, DisplayName;
      var merged := Merged(items, id, payload, name);
      forall i | 0 <= i < |merged| ensures Named(merged[i].record, merged[i].displayName, decrypt) {
        NamedPayload(items[i].record, payload, name, decrypt);
      }
  }

  /** What the server announces after a rename or a move: the folder and both name columns as they now are. */
  function Announced(folder: Field, nameCt: Field, originalName: Field): Record {
    map["folder_id" := folder, "name_ct" := nameCt, "original_name" := originalName]
  }

  /** A rename in place keeps the manifest equal to the server's files, every name shown right. */
  lemma RenameKeepsNames(items: seq<Item>, server: Server, id: string, folder: Field, nameCt: Field,
                         originalName: Field, decrypt: Decrypt)
    requires Agrees(items, server) && NamesRight(items, decrypt)
    ensures var c := Patch(id, Announced(folder, nameCt, originalName), false);
      var items' := ApplyEvent(items, FullEvent(c), decrypt).value;
      Agrees(items', ServerAfter(server, c)) && NamesRight(items', decrypt)
  {
    EventKeepsAgreement(items, server, Patch(id, Announced(folder, nameCt, originalName), false), decrypt);
    EventKeepsNames(items, Patch(id, Announced(folder, nameCt, originalName), false), decrypt);
  }

  /**
   Whatever a file's record has become, the manifest agrees exactly when the payload spread over the old one gives it.
   */
  lemma PatchAgreesIff(items: seq<Item>, server: Server, id: string, payload: Record, moved: bool, after: Record,
                       decrypt: Decrypt)
    requires Agrees(items, server) && id in server
    ensures var items' := ApplyEvent(items, FullEvent(Patch(id, payload, moved)), decrypt).value;
      Agrees(items', server[id := after]) <==> server[id] + payload == after
  {
    var c := Patch(id, payload, moved);
    EventKeepsAgreement(items, server, c, decrypt);
    var items' := ApplyEvent(items, FullEvent(c), decrypt).value;
    if Agrees(items', server[id := after]) {
      AgreesUnique(items', server[id := after], ServerAfter(server, c));
      assert server[id := after][id] == ServerAfter(server, c)[id];
    }
  }

  /** A moved file's record as the server then sends it: it names the new folder, too. */
  function MovedRecord(record: Record, folder: Field, nameCt: Field, originalName: Field, path: Field): Record {
    (record + Announced(folder, nameCt, originalName))["folder_path" := path]
  }

  /**
   The announcement of a move has the new folder's id but not its name, which is a column of the record.  So after a
   move the manifest agrees with the server exactly when the new folder has the old folder's name.
   */
  lemma MoveAgreesIff(items: seq<Item>, server: Server, id: string, folder: Field, nameCt: Field, originalName: Field,
                      path: Field, decrypt: Decrypt)
    requires Agrees(items, server) && id in server
    ensures var c := Patch(id, Announced(folder, nameCt, originalName), true);
      var items' := ApplyEvent(items, FullEvent(c), decrypt).value;
      Agrees(items', server[id := MovedRecord(server[id], folder, nameCt, originalName, path)])
      <==> "folder_path" in server[id] && server[id]["folder_path"] == path
  {
    var payload := Announced(folder, nameCt, originalName);
    var after := MovedRecord(server[id], folder, nameCt, originalName, path);
    PatchAgreesIff(items, server, id, payload, true, after, decrypt);
    if server[id] + payload == after {
      assert "folder_path" in after && after["folder_path"] == path;
      assert "folder_path" in server[id] + payload
        && (server[id] + payload)["folder_path"] == server[id]["folder_path"];
    }
    if "folder_path" in server[id] && server[id]["folder_path"] == path { assert server[id] + payload == after; }
  }

  function FiledUnder(folder: string, path: string): Record {
    map["folder_id" := Text(folder), "folder_path" := Text(path), "name_ct" := Null, "original_name" := Text("n")]
  }

  /** A file moved from folder X to folder Y is still listed under X. */
  lemma MovedFileKeepsOldFolder(decrypt: Decrypt)
    ensures var was := FiledUnder("1", "X");
      var items := [Item("f", was, "n")];
      var moved := ApplyEvent(items, FullEvent(Patch("f", Announced(Text("2"), Null, Text("n")), true)), decrypt).value;
      && Agrees(items, map["f" := was])
      && !Agrees(moved, map["f" := MovedRecord(was, Text("2"), Null, Text("n"), Text("Y"))])
      && |moved| == 1 && moved[0].record["folder_id"] == Text("2") && moved[0].record["folder_path"] == Text("X")
  {
    var was := FiledUnder("1", "X");
    var items, server := [Item("f", was, "n")], map["f" := was];
    assert Agrees(items, server) by { assert items[0].id == "f"; }
    MoveAgreesIff(items, server, "f", Text("2"), Null, Text("n"), Text("Y"), decrypt);
    var payload := Announced(Text("2"), Null, Text("n"));
    MergedIs(items, "f", payload, DisplayName(payload, decrypt));
    assert server["f" := MovedRecord(was, Text("2"), Null, Text("n"), Text("Y"))]
      == map["f" := MovedRecord(was, Text("2"), Null, Text("n"), Text("Y"))];
    assert "X" != "Y";
  }

  // ---------------------------------------------------------------------------
  // Events that overlap
  // ---------------------------------------------------------------------------

  /**
   An event that awaits its name is applied, after the await, to the items of that moment; meanwhile other events have
   been handled.  The manifest then agrees with the server exactly when the change could as well have come last.
   */
  lemma LateEventIff(items: seq<Item>, server: Server, c: Change, during: seq<Change>, decrypt: Decrypt)
    requires Agrees(items, server)
    ensures ClientRun(items, during, decrypt).Some?
    ensures var late := ApplyEvent(ClientRun(items, during, decrypt).value, FullEvent(c), decrypt);
      && late.Some?
      && (Agrees(late.value, ServerRun(ServerAfter(server, c), during)) <==>
            ServerRun(ServerAfter(server, c), during) == ServerAfter(ServerRun(server, during), c))
  {
    RunKeepsAgreement(items, server, during, decrypt);
    var now, before := ClientRun(items, during, decrypt).value, ServerRun(server, during);
    EventKeepsAgreement(now, before, c, decrypt);
    var late := ApplyEvent(now, FullEvent(c), decrypt).value;
    var after := ServerRun(ServerAfter(server, c), during);
    if Agrees(late, after) { AgreesUnique(late, after, ServerAfter(before, c)); }
  }

  lemma {:induction false} OtherFilesSame(s: Server, t: Server, id: string, changes: seq<Change>)
    requires s - {id} == t - {id}
    ensures ServerRun(s, changes) - {id} == ServerRun(t, changes) - {id}
    decreases |changes|
  {
    if changes != [] {
      OtherFilesSameStep(s, t, id, changes[0]);
      OtherFilesSame(ServerAfter(s, changes[0]), ServerAfter(t, changes[0]), id, changes[1..]);
    }
  }

  lemma OtherFilesSameStep(s: Server, t: Server, id: string, c: Change)
    requires s - {id} == t - {id}
    ensures ServerAfter(s, c) - {id} == ServerAfter(t, c) - {id}
  {
    forall k | k != id ensures (k in s <==> k in t) && (k in s ==> s[k] == t[k]) {
      assert k in s <==> k in s - {id};
      assert k in t <==> k in t - {id};
      assert k in s ==> (s - {id})[k] == s[k];
      assert k in t ==> (t - {id})[k] == t[k];
    }
    assert ServerAfter(s, c) - {id} == ServerAfter(t, c) - {id};
  }

  /** The file is not created by any of the changes. */
  predicate NotCreated(id: string, changes: seq<Change>) {
    forall k :: 0 <= k < |changes| ==> !(changes[k].Create? && changes[k].id == id)
  }

  lemma {:induction false} StaysAbsent(server: Server, id: string, changes: seq<Change>)
    requires id !in server && NotCreated(id, changes)
    ensures id !in ServerRun(server, changes)
    decreases |changes|
  {
    if changes != [] {
      assert !(changes[0].Create? && changes[0].id == id);
      assert forall k :: 0 <= k < |changes[1..]| ==> changes[1..][k] == changes[k + 1];
      StaysAbsent(ServerAfter(server, changes[0]), id, changes[1..]);
    }
  }

  /**
   For an added event: whatever was handled while it awaited its name, the manifest agrees with the server exactly when
   the new file is by then still there and still as announced.  A removal or a patch of it in between is lost.
   */
  lemma LateAddIff(items: seq<Item>, server: Server, id: string, record: Record, during: seq<Change>, decrypt: Decrypt)
    requires Agrees(items, server) && id !in server && NotCreated(id, during)
    ensures ClientRun(items, during, decrypt).Some?
    ensures var now, after := ClientRun(items, during, decrypt).value, ServerRun(server[id := record], during);
      var late := ApplyEvent(now, FullEvent(Create(id, record)), decrypt);
      && late.Some?
      && (Agrees(late.value, after) <==> id in after && after[id] == record)
  {
    hide ApplyEvent, Agrees, ServerRun, ClientRun, NotCreated;
    LateEventIff(items, server, Create(id, record), during, decrypt);
    StaysAbsent(server, id, during);
    OtherFilesSame(server, server[id := record], id, during);
    OneFileMore(ServerRun(server, during), ServerRun(server[id := record], during), id, record);
  }

  lemma OneFileMore(s: Server, t: Server, id: string, record: Record)
    requires id !in s && s - {id} == t - {id}
    ensures t == s[id := record] <==> id in t && t[id] == record
  {
    assert s - {id} == s;
    if id in t && t[id] == record { assert t == (t - {id})[id := record]; }
  }

  /** Both have the same files, and the same columns but for those of the record in one file. */
  ghost predicate SameButFor(s: Server, t: Server, id: string, columns: set<string>) {
    && s.Keys == t.Keys
    && forall k :: k in s ==> if k == id then s[k] - columns == t[k] - columns else s[k] == t[k]
  }

  lemma SameButForStep(s: Server, t: Server, id: string, columns: set<string>, c: Change)
    requires SameButFor(s, t, id, columns)
    ensures SameButFor(ServerAfter(s, c), ServerAfter(t, c), id, columns)
  {
    if c.Patch? && c.id in s {
      if c.id == id {
        assert (s[id] + c.record) - columns == (s[id] - columns) + (c.record - columns);
        assert (t[id] + c.record) - columns == (t[id] - columns) + (c.record - columns);
      }
    }
  }

  lemma {:induction false} SameButForRun(s: Server, t: Server, id: string, columns: set<string>, changes: seq<Change>)
    requires SameButFor(s, t, id, columns)
    ensures SameButFor(ServerRun(s, changes), ServerRun(t, changes), id, columns)
    decreases |changes|
  {
    if changes != [] {
      SameButForStep(s, t, id, columns, changes[0]);
      SameButForRun(ServerAfter(s, changes[0]), ServerAfter(t, changes[0]), id, columns, changes[1..]);
    }
  }

  lemma SpreadIff(before: Record, after: Record, record: Record)
    requires before - record.Keys == after - record.Keys
    ensures after == before + record <==> after + record == after
  {
    if after + record == after {
      forall k ensures k in after <==> k in before + record {
        if k !in record {
          assert k in after <==> k in after - record.Keys;
          assert k in before <==> k in before - record.Keys;
        } else {
          assert k in after + record;
        }
      }
      forall k | k in after ensures after[k] == (before + record)[k] {
        if k in record { assert (after + record)[k] == record[k]; }
        else { assert (after - record.Keys)[k] == after[k] && (before - record.Keys)[k] == before[k]; }
      }
      assert after == before + record;
    }
  }

  /**
   For an updated or moved event: whatever was handled while it awaited its name, the manifest agrees with the server
   exactly when the file is by then gone, or still has every column as announced.
   */
  lemma LatePatchIff(items: seq<Item>, server: Server, id: string, record: Record, moved: bool, during: seq<Change>,
                     decrypt: Decrypt)
    requires Agrees(items, server)
    ensures ClientRun(items, during, decrypt).Some?
    ensures var c := Patch(id, record, moved);
      var now, after := ClientRun(items, during, decrypt).value, ServerRun(ServerAfter(server, c), during);
      var late := ApplyEvent(now, FullEvent(c), decrypt);
      && late.Some?
      && (Agrees(late.value, after) <==> id !in after || after[id] + record == after[id])
  {
    var c := Patch(id, record, moved);
    LateEventIff(items, server, c, during, decrypt);
    SameButForOnce(server, id, record, moved);
    SameButForRun(server, ServerAfter(server, c), id, record.Keys, during);
    var before, after := ServerRun(server, during), ServerRun(ServerAfter(server, c), during);
    hide ApplyEvent, Agrees, ServerRun, ClientRun;
    if id in after {
      SpreadIff(before[id], after[id], record);
      if after[id] == before[id] + record { assert after == before[id := before[id] + record]; }
    } else {
      assert after == before;
    }
  }

  lemma SameButForOnce(server: Server, id: string, record: Record, moved: bool)
    ensures SameButFor(server, ServerAfter(server, Patch(id, record, moved)), id, record.Keys)
  {
    if id in server { assert (server[id] + record) - record.Keys == server[id] - record.Keys; }
  }

  /** The plainest case: the file is removed while its added event awaits, and stays in the manifest. */
  lemma OverlappingRemovalIsLost(items: seq<Item>, server: Server, id: string, record: Record, decrypt: Decrypt)
    requires Agrees(items, server) && id !in server
    ensures ServerRun(server, [Create(id, record), Delete(id)]) == server
    ensures var removed := ApplyEvent(items, FullEvent(Delete(id)), decrypt).value;
      !Agrees(ApplyEvent(removed, FullEvent(Create(id, record)), decrypt).value, server)
  {
    assert server[id := record] - {id} == server;
    assert [Create(id, record), Delete(id)][1..] == [Delete(id)] && [Delete(id)][1..] == [];
    assert ServerRun(server[id := record], [Delete(id)]) == server;
    assert ClientRun(items, [Delete(id)], decrypt) == ApplyEvent(items, FullEvent(Delete(id)), decrypt);
    LateAddIff(items, server, id, record, [Delete(id)], decrypt);
  }

  /** A manifest agrees with one server state only. */
  lemma AgreesUnique(items: seq<Item>, s: Server, t: Server)
    requires Agrees(items, s) && Agrees(items, t)
    ensures s == t
  {
    forall id ensures id in s <==> id in t {
      if id in s { var i :| 0 <= i < |items| && items[i].id == id; }
      if id in t { var i :| 0 <= i < |items| && items[i].id == id; }
    }
    forall id | id in s ensures s[id] == t[id] { var i :| 0 <= i < |items| && items[i].id == id; }
  }

  /**
   Events that follow one another quickly share one timer, and only the last of the burst reaches the manifest.  It then
   agrees with the server exactly when the last change alone would have led where the whole burst did.
   */
  lemma BurstAgreesIff(items: seq<Item>, server: Server, burst: seq<Change>, decrypt: Decrypt)
    requires Agrees(items, server) && burst != []
    ensures var last := burst[|burst| - 1];
      Agrees(ApplyEvent(items, FullEvent(last), decrypt).value, ServerRun(server, burst))
      <==> ServerRun(server, burst) == ServerAfter(server, last)
  {
    var last := burst[|burst| - 1];
    EventKeepsAgreement(items, server, last, decrypt);
    var after := ApplyEvent(items, FullEvent(last), decrypt).value;
    if Agrees(after, ServerRun(server, burst)) {
      AgreesUnique(after, ServerRun(server, burst), ServerAfter(server, last));
    }
  }

  /** The change leads from both servers to one. */
  predicate Levels(s: Server, t: Server, c: Change) {
    s - {c.id} == t - {c.id} &&
    match c
    case Delete(_) => true
    case Create(id, record) => (if id in s then s[id] else record) == (if id in t then t[id] else record)
    case Patch(id, record, _) => (id in s <==> id in t) && (id in s ==> s[id] + record == t[id] + record)
  }

  lemma LevelsIff(s: Server, t: Server, c: Change)
    ensures ServerAfter(s, c) == ServerAfter(t, c) <==> Levels(s, t, c)
  {
    var s', t' := ServerAfter(s, c), ServerAfter(t, c);
    forall k | k != c.id ensures (k in s <==> k in s') && (k in t <==> k in t') {}
    if s' == t' {
      forall k ensures k in s - {c.id} <==> k in t - {c.id} { assert k in s' <==> k in t'; }
      forall k | k in s - {c.id} ensures s[k] == t[k] { assert s'[k] == t'[k]; }
      assert s - {c.id} == t - {c.id};
      if c.id in s' { assert s'[c.id] == t'[c.id]; }
      assert c.id in s' <==> c.id in t';
    }
    if Levels(s, t, c) {
      forall k ensures k in s' <==> k in t' {
        assert k in s - {c.id} <==> k in t - {c.id};
      }
      forall k | k in s' ensures s'[k] == t'[k] {
        if k != c.id { assert (s - {c.id})[k] == (t - {c.id})[k]; }
      }
      assert s' == t';
    }
  }

  lemma {:induction false} ServerRunLast(server: Server, changes: seq<Change>, last: Change)
    ensures ServerRun(server, changes + [last]) == ServerAfter(ServerRun(server, changes), last)
    decreases |changes|
  {
    if changes == [] {
      assert changes + [last] == [last] && [last][1..] == [];
    } else {
      assert (changes + [last])[1..] == changes[1..] + [last];
      ServerRunLast(ServerAfter(server, changes[0]), changes[1..], last);
    }
  }

  /**
   In so many words: the swallowed events must have left every other file as it was, and the last event's file in a
   state that the last change makes no different: removed, created as it stands, or patched over all that differs.
   */
  lemma SwallowedAgreesIff(items: seq<Item>, server: Server, swallowed: seq<Change>, last: Change, decrypt: Decrypt)
    requires Agrees(items, server)
    ensures Agrees(ApplyEvent(items, FullEvent(last), decrypt).value, ServerRun(server, swallowed + [last]))
      <==> Levels(ServerRun(server, swallowed), server, last)
  {
    BurstAgreesIff(items, server, swallowed + [last], decrypt);
    ServerRunLast(server, swallowed, last);
    LevelsIff(ServerRun(server, swallowed), server, last);
  }

  // ---------------------------------------------------------------------------
  // A manifest of some of the files
  // ---------------------------------------------------------------------------

  /** The server's files in scope: those of a folder, or those a user may see. */
  function Scoped(server: Server, scope: Record -> bool): Server {
    map id | id in server && scope(server[id]) :: server[id]
  }

  /** The change takes no file across the border: a new file lies in scope, and a patched one stays on its side. */
  predicate StaysInScope(server: Server, scope: Record -> bool, c: Change) {
    match c
    case Create(id, record) => scope(if id in server then server[id] else record)
    case Patch(id, record, _) => id in server ==> (scope(server[id] + record) <==> scope(server[id]))
    case Delete(_) => true
  }

  /**
   Events carry no scope.  After an event the manifest of a scope agrees with the server's files in it exactly when the
   change takes no file across the border: one created outside is added, one moved in is missed, one moved out stays.
   */
  lemma ScopedAgreesIff(items: seq<Item>, server: Server, scope: Record -> bool, c: Change, decrypt: Decrypt)
    requires Agrees(items, Scoped(server, scope))
    ensures Agrees(ApplyEvent(items, FullEvent(c), decrypt).value, Scoped(ServerAfter(server, c), scope))
      <==> StaysInScope(server, scope, c)
  {
    var inside, inside' := Scoped(server, scope), Scoped(ServerAfter(server, c), scope);
    EventKeepsAgreement(items, inside, c, decrypt);
    ScopedAfterIff(server, scope, c);
    var items' := ApplyEvent(items, FullEvent(c), decrypt).value;
    if Agrees(items', inside') { AgreesUnique(items', inside', ServerAfter(inside, c)); }
  }

  lemma ScopedAfterIff(server: Server, scope: Record -> bool, c: Change)
    ensures Scoped(ServerAfter(server, c), scope) == ServerAfter(Scoped(server, scope), c) <==>
      StaysInScope(server, scope, c)
  {
    var x, y := Scoped(ServerAfter(server, c), scope), ServerAfter(Scoped(server, scope), c);
    forall k | k != c.id ensures (k in x <==> k in y) && (k in x ==> x[k] == y[k]) {}
    if x == y { assert c.id in x <==> c.id in y; }
    if StaysInScope(server, scope, c) {
      assert c.id in x <==> c.id in y;
      assert c.id in x ==> x[c.id] == y[c.id];
    }
  }
}
