/**
 * The saved daemons of one machine: `clients.json` lists them, `remote.json` mirrors the
 * selected one, and the switcher's handlers change both.
 */
module SavedClients {
  import opened Options
  import opened Text
  import opened ClientIds

  datatype Profile = Profile(id: string, caption: string, address: string, token: string)

  datatype FileValue = FileValue(activeId: Option<string>, clients: seq<Profile>)

  /** What is on disk: a missing or unreadable file, or what it says. Missing fields read as empty. */
  datatype ListFile = NoList | BadList | Listed(file: FileValue)
  datatype MirrorFile = NoMirror | BadMirror | Mirror(address: string, token: string)
  datatype DiskState = DiskState(list: ListFile, mirror: MirrorFile)

  const SSH_SCHEME := "ssh://"

  predicate IsSshAddress(address: string) {
    StartsWith(JsTrim(address), SSH_SCHEME)
  }

  predicate IsUsable(address: string, token: string) {
    JsTrim(address) != "" && (IsSshAddress(address) || JsTrim(token) != "")
  }

  predicate IsComplete(p: Profile) {
    p.id != "" && IsUsable(p.address, p.token)
  }

  function KeepComplete(clients: seq<Profile>): seq<Profile> {
    if clients == [] then []
    else if IsComplete(clients[0]) then [clients[0]] + KeepComplete(clients[1..])
    else KeepComplete(clients[1..])
  }

  ghost predicate AllComplete(clients: seq<Profile>) {
    forall i :: 0 <= i < |clients| ==> IsComplete(clients[i])
  }

  lemma {:induction false} KeptAreComplete(clients: seq<Profile>)
    ensures AllComplete(KeepComplete(clients))
    ensures AllComplete(clients) ==> KeepComplete(clients) == clients
  {
    hide IsComplete;
    if clients != [] {
      KeptAreComplete(clients[1..]);
      assert clients == [clients[0]] + clients[1..];
    }
  }

  /** The position of the first client with this id, or the length. */
  function IndexOfId(clients: seq<Profile>, id: string): (k: nat)
    ensures k <= |clients|
    ensures k < |clients| ==> clients[k].id == id
    ensures forall i :: 0 <= i < k ==> clients[i].id != id
  {
    if clients == [] || clients[0].id == id then 0 else 1 + IndexOfId(clients[1..], id)
  }

  function IndexOfAddress(clients: seq<Profile>, address: string): (k: nat)
    ensures k <= |clients|
    ensures k < |clients| ==> clients[k].address == address
    ensures forall i :: 0 <= i < k ==> clients[i].address != address
  {
    if clients == [] || clients[0].address == address then 0 else 1 + IndexOfAddress(clients[1..], address)
  }

  function Selected(v: FileValue): Option<Profile> {
    if v.activeId.None? then None
    else
      var k := IndexOfId(v.clients, v.activeId.value);
      if k < |v.clients| then Some(v.clients[k]) else None
  }

  function MirrorOf(v: FileValue): MirrorFile {
    var active := Selected(v);
    if active.Some? then Mirror(active.value.address, active.value.token) else NoMirror
  }

  /** Incomplete entries go, a dangling selection goes, and an empty list adopts a lone mirror. */
  function ParseClients(d: DiskState): FileValue {
    var listed := if d.list.Listed? then d.list.file else FileValue(None, []);
    var kept := KeepComplete(listed.clients);
    var active := if Selected(FileValue(listed.activeId, kept)).Some? then listed.activeId else None;
    if kept == [] && d.mirror.Mirror? && IsUsable(JsTrim(d.mirror.address), JsTrim(d.mirror.token)) then
      var address := JsTrim(d.mirror.address);
      var id := ClientIdFrom(address);
      FileValue(Some(id), [Profile(id, address, address, JsTrim(d.mirror.token))])
    else
      FileValue(active, kept)
  }

  function Saved(v: FileValue): DiskState {
    DiskState(Listed(v), MirrorOf(v))
  }

  /** Every entry complete, and a selection that names one of them. */
  ghost predicate Sound(v: FileValue) {
    && AllComplete(v.clients)
    && (v.activeId.Some? ==> Selected(v).Some?)
  }

  ghost predicate DistinctIds(clients: seq<Profile>) {
    forall i, j :: 0 <= i < j < |clients| ==> clients[i].id != clients[j].id
  }

  ghost predicate DistinctAddresses(clients: seq<Profile>) {
    forall i, j :: 0 <= i < j < |clients| ==> clients[i].address != clients[j].address
  }

  lemma LoadedIsSound(d: DiskState)
    ensures Sound(ParseClients(d))
  {
    hide IsUsable, JsTrim, ClientIdFrom;
    var listed := if d.list.Listed? then d.list.file else FileValue(None, []);
    KeptAreComplete(listed.clients);
    if d.mirror.Mirror? {
      ClientIdIsSlug(JsTrim(d.mirror.address));
    }
  }

  /** What is saved is what is loaded next, the empty list included. */
  lemma LoadAfterSave(v: FileValue)
    requires Sound(v)
    ensures ParseClients(Saved(v)) == v
  {
    hide IsComplete;
    KeptAreComplete(v.clients);
  }

  /**
   * A save cut off between its two writes leaves the new list beside the old mirror. It is
   * loaded as if whole, exactly unless the new list is empty and the old mirror is one to adopt.
   */
  lemma SaveCutShort(v: FileValue, left: MirrorFile)
    requires Sound(v)
    ensures ParseClients(DiskState(Listed(v), left)) == v <==>
            v.clients != [] || !(left.Mirror? && IsUsable(JsTrim(left.address), JsTrim(left.token)))
  {
    hide IsComplete, IsUsable, JsTrim, ClientIdFrom;
    KeptAreComplete(v.clients);
  }

  // ---------------------------------------------------------------- adding a client

  function Ids(clients: seq<Profile>): (ids: set<string>)
    ensures forall i :: 0 <= i < |clients| ==> clients[i].id in ids
    ensures |ids| <= |clients|
    ensures forall id :: id in ids <==> exists i :: 0 <= i < |clients| && clients[i].id == id
  {
    if clients == [] then {}
    else
      var front, last := clients[..|clients| - 1], clients[|clients| - 1];
      assert clients == front + [last];
      Ids(front) + {last.id}
  }

  function Caption(caption: Option<string>, otherwise: string): string {
    if caption.Some? && JsTrim(caption.value) != "" then JsTrim(caption.value) else otherwise
  }

  /** Add or update by address, with the id of the client it went to. */
  function Upsert(clients: seq<Profile>, caption: Option<string>, address: string, token: string)
    : (seq<Profile>, string)
  {
    var a, t := JsTrim(address), JsTrim(token);
    var k := IndexOfAddress(clients, a);
    if k < |clients| then
      (clients[k := clients[k].(token := t, caption := Caption(caption, clients[k].caption))], clients[k].id)
    else
      var id := FreshId(Ids(clients), ClientIdFrom(Caption(caption, a)));
      (clients + [Profile(id, Caption(caption, a), a, t)], id)
  }

  /** Ids and addresses stay distinct, and every client but the one at this address stays what it was. */
  lemma UpsertKeepsOthers(clients: seq<Profile>, caption: Option<string>, address: string, token: string)
    requires DistinctIds(clients) && DistinctAddresses(clients)
    ensures var (after, id) := Upsert(clients, caption, address, token);
            && DistinctIds(after) && DistinctAddresses(after) && |after| >= |clients|
            && (forall i :: 0 <= i < |clients| && clients[i].address != JsTrim(address) ==> after[i] == clients[i])
            && (exists k :: 0 <= k < |after| && after[k].id == id && after[k].address == JsTrim(address)
                            && after[k].token == JsTrim(token))
            && (IndexOfAddress(clients, JsTrim(address)) == |clients| ==> id !in Ids(clients))
  {
    hide JsTrim, ClientIdFrom, Caption, FreshId;
    hide DistinctIds, DistinctAddresses;
    var a, t := JsTrim(address), JsTrim(token);
    var k := IndexOfAddress(clients, a);
    var (after, id) := Upsert(clients, caption, address, token);
    assert after[k].id == id && after[k].address == a && after[k].token == t;
    if k < |clients| {
      SameKeysStayDistinct(clients, k, after[k]);
    } else {
      NewKeysStayDistinct(clients, after[k]);
    }
  }

  lemma SameKeysStayDistinct(clients: seq<Profile>, k: nat, p: Profile)
    requires DistinctIds(clients) && DistinctAddresses(clients)
    requires k < |clients| && p.id == clients[k].id && p.address == clients[k].address
    ensures DistinctIds(clients[k := p]) && DistinctAddresses(clients[k := p])
  {
  }

  lemma NewKeysStayDistinct(clients: seq<Profile>, p: Profile)
    requires DistinctIds(clients) && DistinctAddresses(clients)
    requires p.id !in Ids(clients) && forall i :: 0 <= i < |clients| ==> clients[i].address != p.address
    ensures DistinctIds(clients + [p]) && DistinctAddresses(clients + [p])
  {
  }

  lemma IndexOfAddressIs(clients: seq<Profile>, address: string, k: nat)
    requires k < |clients| && clients[k].address == address
    requires forall i :: 0 <= i < k ==> clients[i].address != address
    ensures IndexOfAddress(clients, address) == k
  {
  }

  /** Doing the same again changes nothing and answers with the same id. */
  lemma UpsertTwiceIsOnce(clients: seq<Profile>, caption: Option<string>, address: string, token: string)
    ensures var once := Upsert(clients, caption, address, token);
            Upsert(once.0, caption, address, token) == once
  {
    hide JsTrim, ClientIdFrom, FreshId;
    var a := JsTrim(address);
    var k := IndexOfAddress(clients, a);
    var once := Upsert(clients, caption, address, token);
    assert forall i :: 0 <= i < k ==> once.0[i] == clients[i];
    IndexOfAddressIs(once.0, a, k);
    assert once.0[k := once.0[k]] == once.0;
  }

  // ---------------------------------------------------------------- the handlers, as functions of the disk

  datatype Op =
    | Add(caption: Option<string>, address: string, token: string, answers: bool)
    | Activate(choice: Option<string>, answers: bool)
    | Remove(id: string)
    | Rename(id: string, newCaption: string)
    | Clear

  /** The list an operation means to leave, or nothing when it is refused before it saves. */
  function Intended(v: FileValue, op: Op, env: bool): Option<FileValue> {
    match op
    case Add(caption, address, token, _) =>
      if JsTrim(address) == "" || JsTrim(token) == "" || env then None
      else
        var (clients, id) := Upsert(v.clients, caption, address, token);
        Some(FileValue(Some(id), clients))
    case Activate(id, _) =>
      if env || (id.Some? && IndexOfId(v.clients, id.value) == |v.clients|) then None
      else Some(v.(activeId := id))
    case Remove(id) =>
      if IndexOfId(v.clients, id) == |v.clients| then None
      else Some(FileValue(if v.activeId == Some(id) then None else v.activeId, WithoutId(v.clients, id)))
    case Rename(id, caption) =>
      var k := IndexOfId(v.clients, id);
      if JsTrim(caption) == "" || k == |v.clients| then None
      else Some(v.(clients := v.clients[k := v.clients[k].(caption := JsTrim(caption))]))
    case Clear => Some(v.(activeId := None))
  }

  function WithoutId(clients: seq<Profile>, id: string): (r: seq<Profile>)
    ensures |r| <= |clients|
    ensures forall p :: p in r <==> p in clients && p.id != id
  {
    if clients == [] then []
    else
      var front, last := clients[..|clients| - 1], clients[|clients| - 1];
      assert clients == front + [last];
      WithoutId(front, id) + if last.id != id then [last] else []
  }

  /** A switch is proved by asking the daemon; everything else is not. */
  predicate IsProved(op: Op) {
    match op
    case Add(_, _, _, answers) => answers
    case Activate(id, answers) => id.None? || answers
    case _ => true
  }

  /** The disk afterwards: the intended list, or the old one written back when the daemon did not answer. */
  function Handle(d: DiskState, op: Op, env: bool): DiskState {
    var v := ParseClients(d);
    var next := Intended(v, op, env);
    if next.None? then d else if IsProved(op) then Saved(next.value) else Saved(v)
  }

  lemma WithoutIdKeepsDistinct(clients: seq<Profile>, id: string)
    requires DistinctIds(clients) && DistinctAddresses(clients)
    ensures DistinctIds(WithoutId(clients, id)) && DistinctAddresses(WithoutId(clients, id))
  {
    if clients != [] {
      var front := clients[..|clients| - 1];
      WithoutIdKeepsDistinct(front, id);
      var rest := WithoutId(front, id);
      forall i | 0 <= i < |rest|
        ensures rest[i].id != clients[|clients| - 1].id && rest[i].address != clients[|clients| - 1].address
      {
        assert rest[i] in front;
      }
    }
  }

  /** What every operation leaves behind: distinct clients, a selection among them, and a mirror of it. */
  ghost predicate Consistent(d: DiskState) {
    var v := ParseClients(d);
    && Sound(v) && DistinctIds(v.clients) && DistinctAddresses(v.clients)
    && d.mirror == MirrorOf(v)
  }

  lemma SavedIsConsistent(v: FileValue)
    requires Sound(v) && DistinctIds(v.clients) && DistinctAddresses(v.clients)
    ensures Consistent(Saved(v))
  {
    hide IsComplete, ParseClients, Sound;
    LoadAfterSave(v);
  }

  lemma TrimTwice(s: string)
    ensures JsTrim(JsTrim(s)) == JsTrim(s)
  {
  }

  lemma FreshIdIsNotEmpty(used: set<string>, base: string)
    requires base != ""
    ensures FreshId(used, base) != ""
  {
    FirstFreeIsNotEmpty(used, base, 0);
  }

  lemma {:induction false} FirstFreeIsNotEmpty(used: set<string>, base: string, k: nat)
    requires base != "" && Tried(base, k) <= used
    ensures FirstFree(used, base, k) != ""
    decreases |used - Tried(base, k)|
  {
    if Candidate(base, k) in used {
      TriedCount(base, k);
      assert used - Tried(base, k + 1) == (used - Tried(base, k)) - {Candidate(base, k)};
      FirstFreeIsNotEmpty(used, base, k + 1);
    }
  }

  /** An added client is complete, because the handler refuses a blank address or token. */
  lemma AddIsSound(v: FileValue, op: Op, env: bool)
    requires op.Add? && Sound(v) && DistinctIds(v.clients) && DistinctAddresses(v.clients)
    requires Intended(v, op, env).Some?
    ensures var next := Intended(v, op, env).value;
            Sound(next) && DistinctIds(next.clients) && DistinctAddresses(next.clients)
  {
    hide ClientIdFrom, Caption, FreshId, IsComplete, JsTrim;
    var a, t := JsTrim(op.address), JsTrim(op.token);
    TrimTwice(op.address);
    TrimTwice(op.token);
    ClientIdIsSlug(Caption(op.caption, a));
    FreshIdIsNotEmpty(Ids(v.clients), ClientIdFrom(Caption(op.caption, a)));
    UpsertKeepsOthers(v.clients, op.caption, op.address, op.token);
    var (clients, id) := Upsert(v.clients, op.caption, op.address, op.token);
    var k := IndexOfAddress(v.clients, a);
    assert clients[k].id == id;
    if k < |v.clients| {
      CompleteHasId(v.clients[k]);
    }
    AddedIsComplete(id, clients[k].caption, a, t);
    forall i | 0 <= i < |clients| ensures IsComplete(clients[i]) {
      if i != k {
        assert clients[i] == v.clients[i] && IsComplete(v.clients[i]);
      }
    }
  }

  lemma CompleteHasId(p: Profile)
    requires IsComplete(p)
    ensures p.id != "" && forall caption :: IsComplete(p.(caption := caption))
  {
    hide IsUsable;
  }

  lemma AddedIsComplete(id: string, caption: string, address: string, token: string)
    requires id != "" && address != "" && token != "" && JsTrim(address) == address && JsTrim(token) == token
    ensures IsComplete(Profile(id, caption, address, token))
  {
    hide JsTrim;
  }

  lemma IntendedIsSound(v: FileValue, op: Op, env: bool)
    requires Sound(v) && DistinctIds(v.clients) && DistinctAddresses(v.clients)
    requires Intended(v, op, env).Some?
    ensures var next := Intended(v, op, env).value;
            Sound(next) && DistinctIds(next.clients) && DistinctAddresses(next.clients)
  {
    hide IsComplete, JsTrim, Upsert;
    match op
    case Add(_, _, _, _) => AddIsSound(v, op, env);
    case Remove(id) =>
      WithoutIdKeepsDistinct(v.clients, id);
      var rest := WithoutId(v.clients, id);
      forall i | 0 <= i < |rest| ensures IsComplete(rest[i]) {
        assert rest[i] in v.clients;
      }
      if v.activeId.Some? && v.activeId != Some(id) {
        assert Selected(v).value in rest;
      }
    case Rename(id, caption) => RenameIsSound(v, id, JsTrim(caption));
    case _ =>
  }

  lemma RenameIsSound(v: FileValue, id: string, caption: string)
    requires Sound(v) && DistinctIds(v.clients) && DistinctAddresses(v.clients)
    requires IndexOfId(v.clients, id) < |v.clients|
    ensures var k := IndexOfId(v.clients, id);
            var next := v.(clients := v.clients[k := v.clients[k].(caption := caption)]);
            Sound(next) && DistinctIds(next.clients) && DistinctAddresses(next.clients)
  {
    hide IsComplete, DistinctIds, DistinctAddresses;
    var k := IndexOfId(v.clients, id);
    SameKeysStayDistinct(v.clients, k, v.clients[k].(caption := caption));
    var next := v.(clients := v.clients[k := v.clients[k].(caption := caption)]);
    CompleteHasId(v.clients[k]);
    assert forall i :: 0 <= i < |v.clients| ==> next.clients[i].id == v.clients[i].id;
    if v.activeId.Some? {
      var j := IndexOfId(v.clients, v.activeId.value);
      assert next.clients[j].id == v.activeId.value;
    }
  }

  /** Every operation, proved or rolled back, keeps the two files consistent. */
  lemma HandleKeepsConsistent(d: DiskState, op: Op, env: bool)
    requires Consistent(d)
    ensures Consistent(Handle(d, op, env))
  {
    hide IsComplete, Intended, ParseClients, Sound;
    var v := ParseClients(d);
    if Intended(v, op, env).Some? {
      if IsProved(op) {
        IntendedIsSound(v, op, env);
        SavedIsConsistent(Intended(v, op, env).value);
      } else {
        SavedIsConsistent(v);
      }
    }
  }

  function HandleAll(d: DiskState, ops: seq<Op>, env: bool): DiskState {
    if ops == [] then d else Handle(HandleAll(d, ops[..|ops| - 1], env), ops[|ops| - 1], env)
  }

  /** And so does any sequence of them, from any consistent machine. */
  lemma {:induction false} AlwaysConsistent(d: DiskState, ops: seq<Op>, env: bool)
    requires Consistent(d)
    ensures Consistent(HandleAll(d, ops, env))
  {
    if ops != [] {
      AlwaysConsistent(d, ops[..|ops| - 1], env);
      HandleKeepsConsistent(HandleAll(d, ops[..|ops| - 1], env), ops[|ops| - 1], env);
    }
  }

  lemma NewMachineIsConsistent()
    ensures Consistent(DiskState(NoList, NoMirror))
  {
  }

  lemma NewMachineStaysConsistent(ops: seq<Op>, env: bool)
    ensures Consistent(HandleAll(DiskState(NoList, NoMirror), ops, env))
  {
    hide Consistent, HandleAll;
    NewMachineIsConsistent();
    AlwaysConsistent(DiskState(NoList, NoMirror), ops, env);
  }

  /** A switch the daemon did not confirm leaves what is loaded exactly as it was, whatever was on disk. */
  lemma FailedSwitchChangesNothing(d: DiskState, op: Op, env: bool)
    requires !IsProved(op) || Intended(ParseClients(d), op, env).None?
    ensures ParseClients(Handle(d, op, env)) == ParseClients(d)
  {
    hide IsComplete, ParseClients, Intended;
    LoadedIsSound(d);
    LoadAfterSave(ParseClients(d));
  }

  /** A successful switch selects exactly the client it named, and the mirror holds its address and token. */
  lemma SwitchSelects(d: DiskState, id: string)
    requires Consistent(d) && IndexOfId(ParseClients(d).clients, id) < |ParseClients(d).clients|
    ensures var k := IndexOfId(ParseClients(d).clients, id);
            var after := Handle(d, Activate(Some(id), true), false);
            && ParseClients(after).clients == ParseClients(d).clients
            && ParseClients(after).activeId == Some(id)
            && after.mirror == Mirror(ParseClients(d).clients[k].address, ParseClients(d).clients[k].token)
  {
    hide IsComplete, ParseClients;
    IntendedIsSound(ParseClients(d), Activate(Some(id), true), false);
    LoadAfterSave(ParseClients(d).(activeId := Some(id)));
  }

  /** Removing the last client empties both files: the mirror cannot bring it back. */
  lemma NoResurrection(d: DiskState, id: string, env: bool)
    requires |ParseClients(d).clients| == 1 && ParseClients(d).clients[0].id == id
    ensures var after := Handle(d, Remove(id), env);
            after.mirror == NoMirror && ParseClients(after) == FileValue(None, [])
  {
    hide IsComplete, ParseClients;
    var v := ParseClients(d);
    LoadedIsSound(d);
    assert v.clients == [v.clients[0]] && v.clients[..0] == [];
    assert WithoutId(v.clients, id) == [];
    LoadAfterSave(FileValue(None, []));
  }

  // ---------------------------------------------------------------- handlers that wait

  /** A switch waits for the daemon between its save and its rollback, and other handlers run meanwhile. */
  datatype Ticket = Ticket(number: nat)

  /** What is on disk, and for each switch that waits the list it loaded and would write back. */
  datatype Desk = Desk(disk: DiskState, waiting: map<Ticket, FileValue>, nextTicket: nat)

  datatype Step =
    | Whole(op: Op)
    | Begin(op: Op)
    | End(ticket: Ticket, answers: bool)

  /** The operations that ask the daemon, and so wait. */
  predicate IsSwitch(op: Op) {
    op.Add? || (op.Activate? && op.choice.Some?)
  }

  function Take(s: Desk, step: Step, env: bool): Desk {
    match step
    case Whole(op) => if IsSwitch(op) then s else s.(disk := Handle(s.disk, op, env))
    case Begin(op) =>
      var v := ParseClients(s.disk);
      var next := Intended(v, op, env);
      if !IsSwitch(op) || next.None? then s
      else Desk(Saved(next.value), s.waiting[Ticket(s.nextTicket) := v], s.nextTicket + 1)
    case End(ticket, answers) =>
      if ticket !in s.waiting then s
      else Desk(if answers then s.disk else Saved(s.waiting[ticket]), s.waiting - {ticket}, s.nextTicket)
  }

  function TakeAll(s: Desk, steps: seq<Step>, env: bool): Desk {
    if steps == [] then s else Take(TakeAll(s, steps[..|steps| - 1], env), steps[|steps| - 1], env)
  }

  ghost predicate IsOrderly(v: FileValue) {
    Sound(v) && DistinctIds(v.clients) && DistinctAddresses(v.clients)
  }

  ghost predicate Orderly(s: Desk) {
    && Consistent(s.disk)
    && forall ticket :: ticket in s.waiting ==> ticket.number < s.nextTicket && IsOrderly(s.waiting[ticket])
  }

  lemma TakeKeepsOrderly(s: Desk, step: Step, env: bool)
    requires Orderly(s)
    ensures Orderly(Take(s, step, env))
  {
    hide Sound, DistinctIds, DistinctAddresses, ParseClients, Intended, MirrorOf, Handle, Saved;
    match step
    case Whole(op) => HandleKeepsConsistent(s.disk, op, env);
    case Begin(op) =>
      if IsSwitch(op) && Intended(ParseClients(s.disk), op, env).Some? {
        IntendedIsSound(ParseClients(s.disk), op, env);
        SavedIsConsistent(Intended(ParseClients(s.disk), op, env).value);
      }
    case End(ticket, answers) =>
      if ticket in s.waiting {
        SavedIsConsistent(s.waiting[ticket]);
      }
  }

  /** However handlers and their waits interleave, the two files stay consistent. */
  lemma {:induction false} InterleavedStaysConsistent(s: Desk, steps: seq<Step>, env: bool)
    requires Orderly(s)
    ensures Orderly(TakeAll(s, steps, env))
  {
    hide Orderly, Take;
    if steps != [] {
      InterleavedStaysConsistent(s, steps[..|steps| - 1], env);
      TakeKeepsOrderly(TakeAll(s, steps[..|steps| - 1], env), steps[|steps| - 1], env);
    }
  }

  /** No step in the list ends this switch. */
  predicate LeavesWaiting(steps: seq<Step>, ticket: Ticket) {
    forall i :: 0 <= i < |steps| ==> !(steps[i].End? && steps[i].ticket == ticket)
  }

  lemma {:induction false} StillWaiting(s: Desk, steps: seq<Step>, ticket: Ticket, env: bool)
    requires ticket in s.waiting && ticket.number < s.nextTicket && LeavesWaiting(steps, ticket)
    ensures var after := TakeAll(s, steps, env);
            ticket in after.waiting && after.waiting[ticket] == s.waiting[ticket] && after.nextTicket >= s.nextTicket
  {
    hide ParseClients, Intended, Handle, Saved;
    if steps != [] {
      var front := steps[..|steps| - 1];
      assert forall i :: 0 <= i < |front| ==> front[i] == steps[i];
      StillWaiting(s, front, ticket, env);
    }
  }

  /** A switch was begun, others ran, and the daemon did not answer. */
  function RolledBack(s: Desk, op: Op, others: seq<Step>, env: bool): Desk {
    Take(TakeAll(Take(s, Begin(op), env), others, env), End(Ticket(s.nextTicket), false), env)
  }

  /**
   * The rollback undoes everything that others did while the switch waited: what is loaded
   * afterwards is what was loaded before it began, whoever changed what in between.
   */
  lemma RollbackUndoesTheOthers(s: Desk, op: Op, others: seq<Step>, env: bool)
    requires IsSwitch(op) && Intended(ParseClients(s.disk), op, env).Some?
    requires LeavesWaiting(others, Ticket(s.nextTicket))
    ensures ParseClients(RolledBack(s, op, others, env).disk) == ParseClients(s.disk)
  {
    hide ParseClients, Intended, LeavesWaiting, TakeAll, Saved, Sound;
    StillWaiting(Take(s, Begin(op), env), others, Ticket(s.nextTicket), env);
    LoadedIsSound(s.disk);
    LoadAfterSave(ParseClients(s.disk));
  }

  lemma NoneHasTheId(clients: seq<Profile>, id: string)
    ensures id !in Ids(WithoutId(clients, id))
    ensures IndexOfId(clients, id) == |clients| ==> id !in Ids(clients)
  {
    var rest := WithoutId(clients, id);
    assert forall i :: 0 <= i < |rest| ==> rest[i] in rest;
  }

  lemma RemovedIsGone(d: DiskState, id: string, env: bool)
    ensures id !in Ids(ParseClients(Handle(d, Remove(id), env)).clients)
  {
    hide ParseClients, Saved, Sound, Ids, WithoutId;
    var v := ParseClients(d);
    LoadedIsSound(d);
    NoneHasTheId(v.clients, id);
    RemovingIsSound(v, id);
    LoadAfterSave(FileValue(if v.activeId == Some(id) then None else v.activeId, WithoutId(v.clients, id)));
  }

  /** Without a client, and without a selection of it, a sound list stays sound. */
  lemma RemovingIsSound(v: FileValue, id: string)
    requires Sound(v)
    ensures Sound(FileValue(if v.activeId == Some(id) then None else v.activeId, WithoutId(v.clients, id)))
  {
    hide IsComplete;
    var rest := WithoutId(v.clients, id);
    forall i | 0 <= i < |rest|
      ensures IsComplete(rest[i])
    {
      assert rest[i] in v.clients;
    }
    if v.activeId.Some? && v.activeId != Some(id) {
      assert Selected(v).value in rest;
    }
  }

  /** A client removed while a switch waits is gone, and comes back when the daemon does not answer. */
  lemma RemovedClientComesBack(s: Desk, op: Op, id: string, env: bool)
    requires IsSwitch(op) && Intended(ParseClients(s.disk), op, env).Some? && id in Ids(ParseClients(s.disk).clients)
    ensures var removed := TakeAll(Take(s, Begin(op), env), [Whole(Remove(id))], env);
            id !in Ids(ParseClients(removed.disk).clients)
    ensures id in Ids(ParseClients(RolledBack(s, op, [Whole(Remove(id))], env).disk).clients)
  {
    hide ParseClients, Intended, Ids;
    var others := [Whole(Remove(id))];
    RollbackUndoesTheOthers(s, op, others, env);
    var begun := Take(s, Begin(op), env);
    assert others[..0] == [] && TakeAll(begun, [], env) == begun;
    RemovedIsGone(begun.disk, id, env);
  }

  /** With nobody else in between, waiting makes no difference: the operation does what `Handle` says. */
  lemma AloneIsAtOnce(s: Desk, op: Op, answers: bool, env: bool)
    requires IsSwitch(op) && answers == IsProved(op) && Intended(ParseClients(s.disk), op, env).Some?
    ensures Take(Take(s, Begin(op), env), End(Ticket(s.nextTicket), answers), env).disk == Handle(s.disk, op, env)
  {
    hide ParseClients, Intended;
  }
}
